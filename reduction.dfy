/** Monophonic reduction (`printMelody`, `cacheMelody`): a sentinel is
    appended to the sorted vector, then adjacent entries are walked; an entry
    whose successor starts at the same tick is skipped, any other entry is
    emitted with its onset and pitch, followed by a silence where it ends when
    the successor starts later than that. */
module Reduction {
  import opened Melody
  import opened NoteOrder

  /** One output line before its time is divided by the ticks per quarter
      note: a time in ticks and a pitch, 0 meaning silence. */
  datatype Segment = Segment(tick: int, pitch: int)

  /** The sentinel appended to a non-empty vector: silent, of length 0, at
      the end of the last entry. */
  function Sentinel(notes: seq<Note>): (s: Note)
    requires notes != []
    ensures s.pitch == 0 && s.duration == 0
    ensures s.tick - notes[|notes| - 1].tick == notes[|notes| - 1].duration
  {
    var last := notes[|notes| - 1];
    Note(last.tick + last.duration, 0, 0)
  }

  /** The vector after the sentinel has been pushed. */
  function WithSentinel(notes: seq<Note>): (ext: seq<Note>)
    requires notes != []
    ensures |ext| == |notes| + 1 && ext[..|notes|] == notes && ext[|notes|] == Sentinel(notes)
  {
    notes + [Sentinel(notes)]
  }

  /** What is emitted for an entry whose successor starts at `nextTick`, a
      different tick: the entry itself, then a silence at its end if that
      comes before `nextTick`. */
  function Emit(cur: Note, nextTick: int): (r: seq<Segment>)
    ensures 1 <= |r| <= 2 && r[0] == Segment(cur.tick, cur.pitch)
    ensures |r| == 2 <==> cur.tick + cur.duration < nextTick
    ensures |r| == 2 ==> r[1] == Segment(cur.tick + cur.duration, 0)
  {
    var delta := nextTick - cur.tick;
    [Segment(cur.tick, cur.pitch)]
    + (if delta > cur.duration then [Segment(nextTick - (delta - cur.duration), 0)] else [])
  }

  /** What the loop of `printMelody` has emitted after entries 0 .. n-1 of
      the extended vector `ext`. */
  function ScanSegments(ext: seq<Note>, n: nat): (r: seq<Segment>)
    requires n < |ext|
    ensures |r| <= 2 * n
    decreases n
  {
    if n == 0 then []
    else
      ScanSegments(ext, n - 1)
      + (if ext[n].tick - ext[n - 1].tick == 0 then [] else Emit(ext[n - 1], ext[n].tick))
  }

  /** Everything `printMelody` writes for `notes`, in ticks. */
  function Segments(notes: seq<Note>): (r: seq<Segment>)
    ensures notes == [] ==> r == []
    ensures notes != [] ==> 1 <= |r| <= 2 * |notes| + 1 && r[|r| - 1] == Segment(Sentinel(notes).tick, 0)
  {
    if notes == [] then []
    else ScanSegments(WithSentinel(notes), |notes|) + [Segment(Sentinel(notes).tick, 0)]
  }

  /** Entries 0 .. n-1 of `ext` whose successor starts at a different tick. */
  function Kept(ext: seq<Note>, n: nat): (r: seq<Note>)
    requires n < |ext|
    ensures |r| <= n
    ensures n > 0 && ext[n].tick != ext[n - 1].tick ==> r != [] && r[|r| - 1] == ext[n - 1]
    decreases n
  {
    if n == 0 then []
    else Kept(ext, n - 1) + (if ext[n].tick == ext[n - 1].tick then [] else [ext[n - 1]])
  }

  /** The notes that survive the reduction of `notes`: the melody line. */
  function KeptNotes(notes: seq<Note>): (r: seq<Note>)
    ensures |r| <= |notes|
    ensures notes != [] && notes[|notes| - 1].duration != 0 ==> r != [] && r[|r| - 1] == notes[|notes| - 1]
  {
    if notes == [] then [] else Kept(WithSentinel(notes), |notes|)
  }

  /** Reference rendering of a line of kept notes: each sounds from its onset
      until the next kept onset (`endTick` for the last one); a silence marks
      its end when that comes earlier. */
  function Render(line: seq<Note>, endTick: int): (r: seq<Segment>)
    ensures |line| <= |r| <= 2 * |line|
    decreases |line|
  {
    if line == [] then []
    else Render(line[..|line| - 1], line[|line| - 1].tick) + Emit(line[|line| - 1], endTick)
  }

  /** What `cacheMelody` returns for `notes`. */
  function CachedPitches(notes: seq<Note>): (r: seq<int>)
    ensures notes == [] ==> r == [0]
    ensures notes != [] ==> |r| <= |notes|
  {
    if notes == [] then [0] else Pitches(KeptNotes(notes))
  }

  /** `printMelody`: pushes the sentinel onto a non-empty vector and returns
      the lines it writes (times in ticks). */
  method PrintMelody(melody: MelodyVector) returns (out: seq<Segment>)
    modifies melody
    ensures old(melody.items) == [] ==> melody.items == []
    ensures old(melody.items) != [] ==> melody.items == WithSentinel(old(melody.items))
    ensures out == Segments(old(melody.items))
  {
    out := [];
    if |melody.items| < 1 {
      return;
    }
    var last := melody.items[|melody.items| - 1];
    var temp := Note(last.tick + last.duration, 0, 0);
    var items := melody.items + [temp];
    melody.items := items;
    var i := 0;
    while i < |items| - 1
      invariant 0 <= i <= |items| - 1
      invariant out == ScanSegments(items, i)
    {
      var delta := items[i + 1].tick - items[i].tick;
      if delta != 0 {
        out := out + [Segment(items[i].tick, items[i].pitch)];
        if delta > items[i].duration {
          out := out + [Segment(items[i + 1].tick - (delta - items[i].duration), 0)];
        }
        assert out == ScanSegments(items, i) + Emit(items[i], items[i + 1].tick);
      }
      i := i + 1;
    }
    out := out + [Segment(items[|items| - 1].tick, 0)];
  }

  /** `cacheMelody`: `[0]` for an empty vector; otherwise pushes the sentinel
      and returns the pitches of the entries `printMelody` would emit. */
  method CacheMelody(melody: MelodyVector) returns (out: seq<int>)
    modifies melody
    ensures old(melody.items) == [] ==> melody.items == []
    ensures old(melody.items) != [] ==> melody.items == WithSentinel(old(melody.items))
    ensures out == CachedPitches(old(melody.items))
  {
    if |melody.items| < 1 {
      return [0];
    }
    out := [];
    var notes := melody.items;
    var last := notes[|notes| - 1];
    var temp := Note(last.tick + last.duration, 0, 0);
    var items := notes + [temp];
    assert items == WithSentinel(notes);
    melody.items := items;
    var i := 0;
    while i < |items| - 1
      invariant 0 <= i <= |items| - 1
      invariant out == Pitches(Kept(items, i))
      invariant melody.items == items
    {
      var delta := items[i + 1].tick - items[i].tick;
      KeptPitchesStep(items, i);
      if delta != 0 {
        out := out + [items[i].pitch];
      }
      i := i + 1;
    }
  }

  /** One step of the loop of `cacheMelody`: entry i adds its pitch exactly
      when its successor starts at a different tick. */
  lemma KeptPitchesStep(ext: seq<Note>, i: nat)
    requires i + 1 < |ext|
    ensures Pitches(Kept(ext, i + 1))
            == Pitches(Kept(ext, i)) + (if ext[i + 1].tick == ext[i].tick then [] else [ext[i].pitch])
  {
    var kept := Kept(ext, i);
    if ext[i + 1].tick != ext[i].tick {
      assert Kept(ext, i + 1) == kept + [ext[i]];
      assert (kept + [ext[i]])[..|kept|] == kept;
    }
  }

  // ---------------------------------------------------------------------
  // The scan emits the reference rendering of the kept line

  lemma {:induction false} ScanIsRender(ext: seq<Note>, n: nat)
    requires n < |ext|
    ensures ScanSegments(ext, n) == Render(Kept(ext, n), ext[n].tick)
    decreases n
  {
    if n > 0 {
      ScanIsRender(ext, n - 1);
      var k := Kept(ext, n - 1);
      if ext[n].tick == ext[n - 1].tick {
        assert Kept(ext, n) == k;
        assert ScanSegments(ext, n) == ScanSegments(ext, n - 1);
      } else {
        var line := k + [ext[n - 1]];
        assert Kept(ext, n) == line;
        assert line[..|line| - 1] == k;
        assert Render(line, ext[n].tick) == Render(k, ext[n - 1].tick) + Emit(ext[n - 1], ext[n].tick);
        assert ScanSegments(ext, n) == ScanSegments(ext, n - 1) + Emit(ext[n - 1], ext[n].tick);
      }
    }
  }

  /** `printMelody` writes the kept line rendered up to the sentinel, then
      the sentinel's own silence. */
  lemma SegmentsFollowKept(notes: seq<Note>)
    requires notes != []
    ensures Segments(notes)
            == Render(KeptNotes(notes), Sentinel(notes).tick) + [Segment(Sentinel(notes).tick, 0)]
  {
    ScanIsRender(WithSentinel(notes), |notes|);
  }

  /** Every kept entry is an entry whose successor starts at a different tick. */
  lemma {:induction false} KeptFromDistinctSuccessor(ext: seq<Note>, n: nat)
    requires n < |ext|
    ensures forall k :: k in Kept(ext, n) ==>
              exists i :: 0 <= i < n && k == ext[i] && ext[i + 1].tick != ext[i].tick
    decreases n
  {
    if n > 0 {
      KeptFromDistinctSuccessor(ext, n - 1);
      var prev := Kept(ext, n - 1);
      forall k | k in Kept(ext, n)
        ensures exists i :: 0 <= i < n && k == ext[i] && ext[i + 1].tick != ext[i].tick
      {
        if k in prev {
          var i :| 0 <= i < n - 1 && k == ext[i] && ext[i + 1].tick != ext[i].tick;
        } else {
          assert k == ext[n - 1] && ext[n].tick != ext[n - 1].tick;
        }
      }
    }
  }

  /** Every entry whose successor starts at a different tick is kept. */
  lemma {:induction false} DistinctSuccessorKept(ext: seq<Note>, n: nat)
    requires n < |ext|
    ensures forall i :: 0 <= i < n && ext[i + 1].tick != ext[i].tick ==> ext[i] in Kept(ext, n)
    decreases n
  {
    if n > 0 {
      DistinctSuccessorKept(ext, n - 1);
      assert Kept(ext, n - 1) <= Kept(ext, n);
    }
  }

  /** Over a tick-ordered prefix, kept onsets strictly increase and all come
      before the tick of `ext[n]`. */
  lemma {:induction false} KeptIncreasing(ext: seq<Note>, n: nat)
    requires n < |ext|
    requires forall i, j :: 0 <= i < j <= n ==> ext[i].tick <= ext[j].tick
    ensures forall a, b :: 0 <= a < b < |Kept(ext, n)| ==> Kept(ext, n)[a].tick < Kept(ext, n)[b].tick
    ensures forall k :: k in Kept(ext, n) ==> k.tick < ext[n].tick
    decreases n
  {
    if n > 0 {
      KeptIncreasing(ext, n - 1);
    }
  }

  /** The sorted vector with its sentinel is in tick order. */
  lemma ExtendedInTickOrder(notes: seq<Note>)
    requires notes != [] && Sorted(notes) && NonNegativeDurations(notes)
    ensures forall i, j :: 0 <= i < j <= |notes| ==> WithSentinel(notes)[i].tick <= WithSentinel(notes)[j].tick
  {
    var ext := WithSentinel(notes);
    forall i, j | 0 <= i < j <= |notes| ensures ext[i].tick <= ext[j].tick {
      if j < |notes| {
        assert NoteLeq(notes[i], notes[j]);
      } else if i < |notes| - 1 {
        assert NoteLeq(notes[i], notes[|notes| - 1]);
      }
    }
  }

  /** For a sorted vector with non-negative durations the line is monophonic:
      one kept note per onset, onsets strictly increasing, all before the
      sentinel. */
  lemma LineIsMonophonic(notes: seq<Note>)
    requires Sorted(notes) && NonNegativeDurations(notes)
    ensures forall a, b :: 0 <= a < b < |KeptNotes(notes)| ==> KeptNotes(notes)[a].tick < KeptNotes(notes)[b].tick
    ensures notes != [] ==> forall k :: k in KeptNotes(notes) ==> k.tick < Sentinel(notes).tick
  {
    if notes != [] {
      ExtendedInTickOrder(notes);
      KeptIncreasing(WithSentinel(notes), |notes|);
    }
  }

  /** Highest voice wins at one onset: in a sorted vector, an entry whose
      successor starts later has the highest pitch of all entries with its
      onset. */
  lemma HighestAtOnset(notes: seq<Note>, i: nat, j: nat)
    requires Sorted(notes) && i < |notes| && j < |notes|
    requires WithSentinel(notes)[i + 1].tick != notes[i].tick
    requires notes[j].tick == notes[i].tick
    ensures notes[j].pitch <= notes[i].pitch
  {
    LaterOnsetsAfter(notes, i);
    if j < i {
      assert NoteLeq(notes[j], notes[i]);
    }
  }

  /** In a sorted vector, every entry after one whose successor starts later
      also starts later. */
  lemma LaterOnsetsAfter(notes: seq<Note>, i: nat)
    requires Sorted(notes) && i < |notes|
    requires WithSentinel(notes)[i + 1].tick != notes[i].tick
    ensures forall j :: i < j < |notes| ==> notes[j].tick > notes[i].tick
  {
    forall j | i < j < |notes| ensures notes[j].tick > notes[i].tick {
      assert NoteLeq(notes[i], notes[i + 1]);
      if i + 1 < j {
        assert NoteLeq(notes[i + 1], notes[j]);
      }
    }
  }

  /** Highest voice wins: for a sorted vector, a kept note has the highest
      pitch of all notes with its onset. */
  lemma KeptIsHighest(notes: seq<Note>)
    requires Sorted(notes)
    ensures forall k, x :: k in KeptNotes(notes) && x in notes && x.tick == k.tick ==> x.pitch <= k.pitch
  {
    if notes != [] {
      var ext := WithSentinel(notes);
      KeptFromDistinctSuccessor(ext, |notes|);
      forall k, x | k in KeptNotes(notes) && x in notes && x.tick == k.tick
        ensures x.pitch <= k.pitch
      {
        var i :| 0 <= i < |notes| && k == ext[i] && ext[i + 1].tick != ext[i].tick;
        var j :| 0 <= j < |notes| && notes[j] == x;
        HighestAtOnset(notes, i, j);
      }
    }
  }

  /** Every non-silent segment of a rendering is the onset of a line note. */
  lemma {:induction false} RenderedNotesComeFromLine(line: seq<Note>, endTick: int)
    ensures forall s :: s in Render(line, endTick) && s.pitch != 0 ==>
              exists k :: k in line && s == Segment(k.tick, k.pitch)
    decreases |line|
  {
    if line != [] {
      var init := line[..|line| - 1];
      RenderedNotesComeFromLine(init, line[|line| - 1].tick);
      forall s | s in Render(line, endTick) && s.pitch != 0
        ensures exists k :: k in line && s == Segment(k.tick, k.pitch)
      {
        if s in Render(init, line[|line| - 1].tick) {
          var k :| k in init && s == Segment(k.tick, k.pitch);
          assert k in line;
        } else {
          assert s == Segment(line[|line| - 1].tick, line[|line| - 1].pitch);
        }
      }
    }
  }

  /** Every line note is rendered at its onset. */
  lemma {:induction false} LineNotesRendered(line: seq<Note>, endTick: int)
    ensures forall j :: 0 <= j < |line| ==> Segment(line[j].tick, line[j].pitch) in Render(line, endTick)
    decreases |line|
  {
    if line != [] {
      var init := line[..|line| - 1];
      LineNotesRendered(init, line[|line| - 1].tick);
      var r := Render(line, endTick);
      forall j | 0 <= j < |line| ensures Segment(line[j].tick, line[j].pitch) in r {
        if j < |line| - 1 {
          assert init[j] == line[j];
        } else {
          var e := Emit(line[j], endTick);
          assert r[|r| - |e|] == e[0];
        }
      }
    }
  }

  /** Simultaneous onsets: for a sorted vector, a note with a higher-pitched
      note at the same onset never appears in the output at that onset. */
  lemma LowerSimultaneousPitchDropped(notes: seq<Note>, a: Note, b: Note)
    requires Sorted(notes) && a in notes && b in notes
    requires a.tick == b.tick && a.pitch < b.pitch && a.pitch != 0
    ensures Segment(a.tick, a.pitch) !in Segments(notes)
  {
    var s := Segment(a.tick, a.pitch);
    var line := KeptNotes(notes);
    KeptIsHighest(notes);
    assert forall k :: k in line ==> s != Segment(k.tick, k.pitch);
    SegmentsFollowKept(notes);
    RenderedNotesComeFromLine(line, Sentinel(notes).tick);
  }

  /** Every pitch `cacheMelody` returns for a non-empty vector is written by
      `printMelody` at the onset of its note, in the same order. */
  lemma CacheMatchesPrint(notes: seq<Note>)
    requires notes != []
    ensures |CachedPitches(notes)| == |KeptNotes(notes)|
    ensures forall j :: 0 <= j < |KeptNotes(notes)| ==>
              Segment(KeptNotes(notes)[j].tick, CachedPitches(notes)[j]) in Segments(notes)
  {
    SegmentsFollowKept(notes);
    LineNotesRendered(KeptNotes(notes), Sentinel(notes).tick);
  }

  /** What the loop has written after m entries is a prefix of what it has written after n >= m. */
  lemma {:induction false} ScanPrefix(ext: seq<Note>, m: nat, n: nat)
    requires m <= n < |ext|
    ensures ScanSegments(ext, m) <= ScanSegments(ext, n)
    decreases n - m
  {
    if m < n {
      ScanPrefix(ext, m, n - 1);
      var a := ScanSegments(ext, n - 1);
      var b := ScanSegments(ext, n);
      assert b[..|a|] == a;
    }
  }

  /** The scan writes `Emit(ext[i], ext[i + 1].tick)` for entry i, right
      after what it wrote for the entries before. */
  lemma ScanEmitsEntry(ext: seq<Note>, i: nat, n: nat)
    requires i < n < |ext| && ext[i + 1].tick != ext[i].tick
    ensures var k := |ScanSegments(ext, i)|;
            var e := Emit(ext[i], ext[i + 1].tick);
            k + |e| <= |ScanSegments(ext, n)| && ScanSegments(ext, n)[k..k + |e|] == e
  {
    var e := Emit(ext[i], ext[i + 1].tick);
    var k := |ScanSegments(ext, i)|;
    var pre := ScanSegments(ext, i + 1);
    ScanPrefix(ext, i + 1, n);
    assert pre == ScanSegments(ext, i) + e;
    assert pre[k..k + |e|] == e;
  }

  /** An entry whose successor starts at a different tick is written at its
      onset, immediately followed by a silence at its end exactly when the
      successor starts later than that. */
  lemma EntryEmitted(notes: seq<Note>, i: nat)
    requires i < |notes| && WithSentinel(notes)[i + 1].tick != notes[i].tick
    ensures var k := |ScanSegments(WithSentinel(notes), i)|;
            var e := Emit(notes[i], WithSentinel(notes)[i + 1].tick);
            k + |e| <= |Segments(notes)| && Segments(notes)[k..k + |e|] == e
  {
    var ext := WithSentinel(notes);
    var e := Emit(notes[i], ext[i + 1].tick);
    var k := |ScanSegments(ext, i)|;
    var full := ScanSegments(ext, |notes|);
    assert ext[i] == notes[i];
    ScanEmitsEntry(ext, i, |notes|);
    assert Segments(notes) == full + [Segment(Sentinel(notes).tick, 0)];
    assert Segments(notes)[k..k + |e|] == full[k..k + |e|];
  }

  // ---------------------------------------------------------------------
  // The output is in time order

  /** Segment times never decrease. */
  predicate Chronological(segs: seq<Segment>)
  {
    forall i, j :: 0 <= i < j < |segs| ==> segs[i].tick <= segs[j].tick
  }

  lemma ChronologicalAppend(a: seq<Segment>, b: seq<Segment>)
    requires Chronological(a) && Chronological(b)
    requires forall x, y :: x in a && y in b ==> x.tick <= y.tick
    ensures Chronological(a + b)
  {
    forall i, j | 0 <= i < j < |a + b| ensures (a + b)[i].tick <= (a + b)[j].tick {
      if i < |a| && j >= |a| {
        assert (a + b)[i] in a && (a + b)[j] in b;
      }
    }
  }

  lemma {:induction false} RenderChronological(line: seq<Note>, endTick: int)
    requires forall a, b :: 0 <= a < b < |line| ==> line[a].tick <= line[b].tick
    requires forall a :: 0 <= a < |line| ==> line[a].duration >= 0 && line[a].tick <= endTick
    ensures Chronological(Render(line, endTick))
    ensures forall s :: s in Render(line, endTick) ==> s.tick <= endTick
    decreases |line|
  {
    if line != [] {
      var last := line[|line| - 1];
      var init := line[..|line| - 1];
      RenderChronological(init, last.tick);
      var e := Emit(last, endTick);
      forall x, y | x in Render(init, last.tick) && y in e ensures x.tick <= y.tick {
      }
      ChronologicalAppend(Render(init, last.tick), e);
    }
  }

  /** For a sorted vector with non-negative durations, `printMelody` writes
      its lines in non-decreasing time order. */
  lemma SegmentsChronological(notes: seq<Note>)
    requires Sorted(notes) && NonNegativeDurations(notes)
    ensures Chronological(Segments(notes))
  {
    if notes != [] {
      var line := KeptNotes(notes);
      var end := Sentinel(notes).tick;
      LineIsMonophonic(notes);
      KeptFromDistinctSuccessor(WithSentinel(notes), |notes|);
      forall a | 0 <= a < |line| ensures line[a].duration >= 0 && line[a].tick <= end {
        assert line[a] in line;
      }
      RenderChronological(line, end);
      SegmentsFollowKept(notes);
      ChronologicalAppend(Render(line, end), [Segment(end, 0)]);
    }
  }
}
