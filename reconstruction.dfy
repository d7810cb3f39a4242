/** Note reconstruction (`convertToMelody`): one left-to-right scan of a
    track's events with a 128-entry table holding, per pitch, the onset tick
    of the note now sounding or -1. Each note-off that finds its pitch
    sounding yields one `Note`. */
module Reconstruction {
  import opened MidiEvents
  import opened Melody

  /** The table value of a pitch that is not sounding. */
  const INACTIVE: int := -1
  const PITCH_COUNT: int := 128

  /** The scan after some prefix of the track: the records emitted so far
      and the per-pitch table. */
  datatype ScanState = ScanState(melody: seq<Note>, table: seq<int>)

  predicate ValidTable(st: ScanState)
  {
    |st.table| == PITCH_COUNT
  }

  /** Before the first event: nothing emitted, every pitch inactive. */
  function Initial(): (st: ScanState)
    ensures ValidTable(st) && st.melody == []
    ensures forall p :: 0 <= p < PITCH_COUNT ==> st.table[p] == INACTIVE
  {
    ScanState([], seq(PITCH_COUNT, _ => INACTIVE))
  }

  /** The effect of one event on the scan. */
  function Step(st: ScanState, e: Event): (r: ScanState)
    requires ValidTable(st)
    ensures ValidTable(r)
    ensures st.melody <= r.melody && |r.melody| <= |st.melody| + 1
  {
    match Classify(e)
    case NoteOn(p, t) => ScanState(st.melody, st.table[p := t])
    case NoteOff(p, t) =>
      if st.table[p] == INACTIVE then st
      else ScanState(st.melody + [Note(st.table[p], t - st.table[p], p)], st.table[p := INACTIVE])
    case Other => st
  }

  /** The scan of `events` starting from `st`. */
  function ScanFrom(st: ScanState, events: seq<Event>): (r: ScanState)
    requires ValidTable(st)
    ensures ValidTable(r)
    ensures st.melody <= r.melody && |r.melody| <= |st.melody| + |events|
    decreases |events|
  {
    if events == [] then st
    else Step(ScanFrom(st, events[..|events| - 1]), events[|events| - 1])
  }

  /** The records `convertToMelody` leaves in its output vector. */
  function Reconstruct(events: seq<Event>): (r: seq<Note>)
    ensures |r| <= |events|
  {
    ScanFrom(Initial(), events).melody
  }

  /** The records of pitch `p`, in order. */
  function OfPitch(notes: seq<Note>, p: int): (r: seq<Note>)
    ensures |r| <= |notes|
    decreases |notes|
  {
    if notes == [] then []
    else OfPitch(notes[..|notes| - 1], p)
         + (if notes[|notes| - 1].pitch == p then [notes[|notes| - 1]] else [])
  }

  /** `convertToMelody`: clears the vector, then scans the events with the
      state table, pushing one record per matched note-off. */
  method ConvertToMelody(events: seq<Event>, melody: MelodyVector)
    modifies melody
    ensures melody.items == Reconstruct(events)
  {
    var state := new int[PITCH_COUNT];
    var i := 0;
    while i < PITCH_COUNT
      invariant 0 <= i <= PITCH_COUNT
      invariant forall p :: 0 <= p < i ==> state[p] == INACTIVE
    {
      state[i] := INACTIVE;
      i := i + 1;
    }
    melody.items := [];
    assert state[..] == Initial().table;
    i := 0;
    while i < |events|
      invariant 0 <= i <= |events|
      invariant ScanState(melody.items, state[..]) == ScanFrom(Initial(), events[..i])
    {
      var e := events[i];
      ghost var before := ScanState(melody.items, state[..]);
      var command := Command(e.status);
      var pitch := e.d1;
      var noteOff := false;
      if command == NOTE_ON {
        if e.d2 == 0 {
          noteOff := true;
        } else {
          state[pitch] := e.tick;
        }
      } else if command == NOTE_OFF {
        noteOff := true;
      }
      if noteOff && state[pitch] != INACTIVE {
        melody.items := melody.items + [Note(state[pitch], e.tick - state[pitch], pitch)];
        state[pitch] := INACTIVE;
      }
      assert ScanState(melody.items, state[..]) == Step(before, e);
      assert events[..i + 1] == events[..i] + [e];
      ScanLast(Initial(), events[..i], e);
      i := i + 1;
    }
    assert events[..i] == events;
  }

  // ---------------------------------------------------------------------
  // Properties of the scan

  /** Scanning a track in two pieces is scanning it in one. */
  lemma {:induction false} ScanAppend(st: ScanState, a: seq<Event>, b: seq<Event>)
    requires ValidTable(st)
    ensures ScanFrom(st, a + b) == ScanFrom(ScanFrom(st, a), b)
    decreases |b|
  {
    if b == [] {
      assert a + b == a;
    } else {
      assert (a + b)[..|a + b| - 1] == a + b[..|b| - 1];
      ScanAppend(st, a, b[..|b| - 1]);
    }
  }

  /** Filtering by pitch distributes over concatenation. */
  lemma {:induction false} OfPitchAppend(a: seq<Note>, b: seq<Note>, p: int)
    ensures OfPitch(a + b, p) == OfPitch(a, p) + OfPitch(b, p)
    decreases |b|
  {
    if b == [] {
      assert a + b == a;
    } else {
      assert (a + b)[..|a + b| - 1] == a + b[..|b| - 1];
      OfPitchAppend(a, b[..|b| - 1], p);
    }
  }

  /** Events that are not note events for pitch `p` leave its table entry
      alone and emit no record of pitch `p`. */
  lemma {:induction false} Untouched(st: ScanState, events: seq<Event>, p: int)
    requires ValidTable(st) && 0 <= p < PITCH_COUNT
    requires Avoids(events, p)
    ensures ScanFrom(st, events).table[p] == st.table[p]
    ensures OfPitch(ScanFrom(st, events).melody[|st.melody|..], p) == []
    decreases |events|
  {
    if events != [] {
      var init := events[..|events| - 1];
      var prev := ScanFrom(st, init);
      Untouched(st, init, p);
      var r := Step(prev, events[|events| - 1]);
      assert r == ScanFrom(st, events);
      var added := r.melody[|prev.melody|..];
      assert r.melody[|st.melody|..] == prev.melody[|st.melody|..] + added;
      OfPitchAppend(prev.melody[|st.melody|..], added, p);
      assert OfPitch(added, p) == [] by {
        if added != [] {
          assert added == [added[0]];
          assert added[..0] == [];
        }
      }
    }
  }

  /** A note-on for `p` followed by events that do not touch `p`: the note is
      sounding from `t` and nothing of pitch `p` has been recorded. A note
      still sounding when the track ends is therefore dropped. */
  lemma OpenNoteNotRecorded(st: ScanState, on: Event, mid: seq<Event>, p: DataByte, t: nat)
    requires ValidTable(st)
    requires Classify(on) == NoteOn(p, t)
    requires Avoids(mid, p)
    ensures ScanFrom(st, [on] + mid).table[p] == t
    ensures OfPitch(ScanFrom(st, [on] + mid).melody[|st.melody|..], p) == []
  {
    var s1 := Step(st, on);
    assert [on][..0] == [];
    assert ScanFrom(st, [on]) == s1;
    ScanAppend(st, [on], mid);
    Untouched(s1, mid, p);
  }

  /** A matched pair: note-on for `p` at `t1`, events not touching `p`, a
      note-off for `p` at `t2` append the record `{t1, t2 - t1, p}` and leave
      `p` inactive. */
  lemma MatchedPair(st: ScanState, on: Event, mid: seq<Event>, off: Event, p: DataByte, t1: nat, t2: nat)
    requires ValidTable(st)
    requires Classify(on) == NoteOn(p, t1) && Classify(off) == NoteOff(p, t2)
    requires Avoids(mid, p)
    ensures ScanFrom(st, [on] + mid + [off]).melody == ScanFrom(st, [on] + mid).melody + [Note(t1, t2 - t1, p)]
    ensures ScanFrom(st, [on] + mid + [off]).table[p] == INACTIVE
  {
    OpenNoteNotRecorded(st, on, mid, p, t1);
    CloseSounding(st, [on] + mid, off, p, t1, t2);
  }

  /** A note-off for a pitch that the scan so far left sounding since `t1`. */
  lemma CloseSounding(st: ScanState, events: seq<Event>, off: Event, p: DataByte, t1: nat, t2: nat)
    requires ValidTable(st)
    requires Classify(off) == NoteOff(p, t2)
    requires ScanFrom(st, events).table[p] == t1
    ensures ScanFrom(st, events + [off]).melody == ScanFrom(st, events).melody + [Note(t1, t2 - t1, p)]
    ensures ScanFrom(st, events + [off]).table[p] == INACTIVE
  {
    var before := ScanFrom(st, events);
    var stepped := Step(before, off);
    MatchedStep(before, off, p, t2);
    assert stepped.melody == before.melody + [Note(t1, t2 - t1, p)];
    ScanLast(st, events, off);
    assert ScanFrom(st, events + [off]) == stepped;
  }

  /** The record of a matched pair is the only record of its pitch that the
      pair's events emit. */
  lemma MatchedPairOnly(st: ScanState, on: Event, mid: seq<Event>, off: Event, p: DataByte, t1: nat, t2: nat)
    requires ValidTable(st)
    requires Classify(on) == NoteOn(p, t1) && Classify(off) == NoteOff(p, t2)
    requires Avoids(mid, p)
    ensures OfPitch(ScanFrom(st, [on] + mid + [off]).melody[|st.melody|..], p) == [Note(t1, t2 - t1, p)]
  {
    OpenNoteNotRecorded(st, on, mid, p, t1);
    MatchedPair(st, on, mid, off, p, t1, t2);
    OnlyRecordOfPitch(ScanFrom(st, [on] + mid).melody, Note(t1, t2 - t1, p), |st.melody|);
  }

  /** Appending a record of pitch p to records that, from position m on, hold
      none of pitch p. */
  lemma OnlyRecordOfPitch(notes: seq<Note>, n: Note, m: nat)
    requires m <= |notes| && OfPitch(notes[m..], n.pitch) == []
    ensures OfPitch((notes + [n])[m..], n.pitch) == [n]
  {
    assert (notes + [n])[m..] == notes[m..] + [n];
    OfPitchAppend(notes[m..], [n], n.pitch);
    assert OfPitch([n], n.pitch) == [n] by {
      assert [n][..0] == [];
    }
  }

  /** A note-off for a sounding pitch emits its record and clears the entry. */
  lemma MatchedStep(st: ScanState, off: Event, p: DataByte, t: nat)
    requires ValidTable(st) && Classify(off) == NoteOff(p, t) && st.table[p] != INACTIVE
    ensures Step(st, off).melody == st.melody + [Note(st.table[p], t - st.table[p], p)]
    ensures Step(st, off).table[p] == INACTIVE
  {
  }

  /** Scanning one more event is one more step. */
  lemma ScanLast(st: ScanState, events: seq<Event>, e: Event)
    requires ValidTable(st)
    ensures ScanFrom(st, events + [e]) == Step(ScanFrom(st, events), e)
  {
    assert (events + [e])[..|events + [e]| - 1] == events;
  }

  /** Pairing over a whole track: whatever precedes the pair, the note-off
      appends the record `{t1, t2 - t1, p}`. */
  lemma PairedNoteRecorded(pre: seq<Event>, on: Event, mid: seq<Event>, off: Event, p: DataByte, t1: nat, t2: nat)
    requires Classify(on) == NoteOn(p, t1) && Classify(off) == NoteOff(p, t2)
    requires Avoids(mid, p)
    ensures Reconstruct(pre + [on] + mid + [off]) == Reconstruct(pre + [on] + mid) + [Note(t1, t2 - t1, p)]
  {
    var st := ScanFrom(Initial(), pre);
    MatchedPair(st, on, mid, off, p, t1, t2);
    assert pre + [on] + mid + [off] == pre + ([on] + mid + [off]);
    assert pre + [on] + mid == pre + ([on] + mid);
    ScanAppend(Initial(), pre, [on] + mid + [off]);
    ScanAppend(Initial(), pre, [on] + mid);
  }

  /** Pairing over a whole track: the pair adds exactly one record of its
      pitch, `{t1, t2 - t1, p}`. */
  lemma PairedNoteOnly(pre: seq<Event>, on: Event, mid: seq<Event>, off: Event, p: DataByte, t1: nat, t2: nat)
    requires Classify(on) == NoteOn(p, t1) && Classify(off) == NoteOff(p, t2)
    requires Avoids(mid, p)
    ensures Reconstruct(pre) <= Reconstruct(pre + [on] + mid + [off])
    ensures OfPitch(Reconstruct(pre + [on] + mid + [off])[|Reconstruct(pre)|..], p) == [Note(t1, t2 - t1, p)]
  {
    var st := ScanFrom(Initial(), pre);
    MatchedPairOnly(st, on, mid, off, p, t1, t2);
    assert pre + [on] + mid + [off] == pre + ([on] + mid + [off]);
    ScanAppend(Initial(), pre, [on] + mid + [off]);
  }

  /** Overwrite policy: a second note-on for a sounding pitch replaces the
      onset; at the note-off the only record of that pitch is anchored at the
      second onset, and the first onset is lost. */
  lemma RepeatedNoteOnOverwrites(pre: seq<Event>, on1: Event, mid1: seq<Event>, on2: Event, mid2: seq<Event>,
                                 off: Event, p: DataByte, t1: nat, t2: nat, t3: nat)
    requires Classify(on1) == NoteOn(p, t1) && Classify(on2) == NoteOn(p, t2) && Classify(off) == NoteOff(p, t3)
    requires Avoids(mid1, p)
    requires Avoids(mid2, p)
    ensures Reconstruct(pre) <= Reconstruct(pre + [on1] + mid1 + [on2] + mid2 + [off])
    ensures OfPitch(Reconstruct(pre + [on1] + mid1 + [on2] + mid2 + [off])[|Reconstruct(pre)|..], p)
            == [Note(t2, t3 - t2, p)]
  {
    var pre2 := pre + [on1] + mid1;
    OpenNoteInTrack(pre, on1, mid1, p, t1);
    PairedNoteOnly(pre2, on2, mid2, off, p, t2, t3);
    var all := Reconstruct(pre2 + [on2] + mid2 + [off]);
    var k := |Reconstruct(pre)|;
    var k2 := |Reconstruct(pre2)|;
    assert all[k..] == Reconstruct(pre2)[k..] + all[k2..];
    OfPitchAppend(Reconstruct(pre2)[k..], all[k2..], p);
  }

  /** Over a whole track: a note-on and events not touching its pitch add no
      record of that pitch. */
  lemma OpenNoteInTrack(pre: seq<Event>, on: Event, mid: seq<Event>, p: DataByte, t: nat)
    requires Classify(on) == NoteOn(p, t)
    requires Avoids(mid, p)
    ensures Reconstruct(pre) <= Reconstruct(pre + [on] + mid)
    ensures OfPitch(Reconstruct(pre + [on] + mid)[|Reconstruct(pre)|..], p) == []
  {
    OpenNoteNotRecorded(ScanFrom(Initial(), pre), on, mid, p, t);
    assert pre + [on] + mid == pre + ([on] + mid);
    ScanAppend(Initial(), pre, [on] + mid);
  }

  /** An explicit note-off, or a note-on with velocity 0, for a pitch that is
      not sounding changes nothing; so does every other kind of event. */
  lemma IgnoredEvent(st: ScanState, e: Event)
    requires ValidTable(st)
    requires Classify(e).Other? || (Classify(e).NoteOff? && st.table[Classify(e).pitch] == INACTIVE)
    ensures Step(st, e) == st
  {
  }

  /** For a track in tick order, every record starts at a non-negative tick,
      has a non-negative duration, ends no later than the last event and has
      a pitch below 128; every sounding pitch holds a tick no later than the
      last event. */
  lemma {:induction false} ScanBounds(events: seq<Event>)
    requires NonDecreasing(events)
    ensures forall p :: 0 <= p < PITCH_COUNT ==>
              var v := ScanFrom(Initial(), events).table[p];
              v == INACTIVE || (0 <= v && v <= events[|events| - 1].tick)
    ensures forall n :: n in Reconstruct(events) ==>
              0 <= n.tick && 0 <= n.duration && 0 <= n.pitch < PITCH_COUNT
              && n.tick + n.duration <= events[|events| - 1].tick
    decreases |events|
  {
    if events != [] {
      var init := events[..|events| - 1];
      var e := events[|events| - 1];
      var prev := ScanFrom(Initial(), init);
      assert NonDecreasing(init);
      ScanBounds(init);
      assert init != [] ==> init[|init| - 1].tick <= e.tick;
      var r := Step(prev, e);
      assert r == ScanFrom(Initial(), events);
      forall n | n in r.melody
        ensures 0 <= n.tick && 0 <= n.duration && 0 <= n.pitch < PITCH_COUNT && n.tick + n.duration <= e.tick
      {
        if n !in prev.melody {
          assert n == r.melody[|r.melody| - 1];
        }
      }
    }
  }

  /** Every duration that reconstruction emits from an ordered track is
      non-negative. */
  lemma DurationsNonNegative(events: seq<Event>)
    requires NonDecreasing(events)
    ensures NonNegativeDurations(Reconstruct(events))
  {
    ScanBounds(events);
    var r := Reconstruct(events);
    forall i | 0 <= i < |r| ensures r[i].duration >= 0 {
      assert r[i] in r;
    }
  }

  /** Each record comes from a distinct note-off-class event. */
  lemma {:induction false} RecordsAtMostOffs(st: ScanState, events: seq<Event>)
    requires ValidTable(st)
    ensures |ScanFrom(st, events).melody| <= |st.melody| + OffCount(events)
    decreases |events|
  {
    if events != [] {
      RecordsAtMostOffs(st, events[..|events| - 1]);
    }
  }

  /** A track yields at most as many records as it has note-off-class events. */
  lemma RecordCountBound(events: seq<Event>)
    ensures |Reconstruct(events)| <= OffCount(events)
  {
    RecordsAtMostOffs(Initial(), events);
  }
}
