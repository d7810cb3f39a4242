/** The extraction sequence the driver runs on one track: reconstruct the
    notes, sort them, write the monophonic line. */
module Pipeline {
  import opened MidiEvents
  import opened Melody
  import opened Reconstruction
  import opened NoteOrder
  import opened Reduction

  /** Any sorted permutation of an ordered track's records keeps their
      bounds: non-negative durations and MIDI pitches. */
  lemma SortedRecordsBounded(events: seq<Event>, sorted: seq<Note>)
    requires NonDecreasing(events)
    requires multiset(sorted) == multiset(Reconstruct(events))
    ensures NonNegativeDurations(sorted)
    ensures forall i :: 0 <= i < |sorted| ==> 0 <= sorted[i].pitch < PITCH_COUNT
  {
    ScanBounds(events);
    forall i | 0 <= i < |sorted|
      ensures sorted[i].duration >= 0 && 0 <= sorted[i].pitch < PITCH_COUNT
    {
      assert sorted[i] in multiset(Reconstruct(events));
    }
  }

  /** Whatever order `qsort` leaves equal notes in, the line written for an
      ordered track runs forward in time and every pitch in it is a MIDI
      pitch or 0. */
  lemma ExtractedLineWellFormed(events: seq<Event>, sorted: seq<Note>)
    requires NonDecreasing(events)
    requires Sorted(sorted) && multiset(sorted) == multiset(Reconstruct(events))
    ensures Chronological(Segments(sorted))
    ensures forall s :: s in Segments(sorted) ==> 0 <= s.pitch < PITCH_COUNT
  {
    SortedRecordsBounded(events, sorted);
    SegmentsChronological(sorted);
    if sorted != [] {
      var line := KeptNotes(sorted);
      var ext := WithSentinel(sorted);
      SegmentsFollowKept(sorted);
      KeptFromDistinctSuccessor(ext, |sorted|);
      RenderedNotesComeFromLine(line, Sentinel(sorted).tick);
      forall s | s in Segments(sorted) ensures 0 <= s.pitch < PITCH_COUNT {
        if s.pitch != 0 && s in Render(line, Sentinel(sorted).tick) {
          var k :| k in line && s == Segment(k.tick, k.pitch);
          var i :| 0 <= i < |sorted| && k == ext[i] && ext[i + 1].tick != ext[i].tick;
        }
      }
    }
  }

  /** The driver's sequence: `convertToMelody`, `sortMelody`, `printMelody`. */
  method ExtractMelody(events: seq<Event>) returns (line: seq<Segment>)
    requires NonDecreasing(events)
    ensures Chronological(line)
    ensures forall s :: s in line ==> 0 <= s.pitch < PITCH_COUNT
    ensures line == [] <==> Reconstruct(events) == []
    ensures exists sorted :: Sorted(sorted) && multiset(sorted) == multiset(Reconstruct(events))
                             && line == Segments(sorted)
  {
    var melody := new MelodyVector([]);
    ConvertToMelody(events, melody);
    SortMelody(melody);
    ghost var sorted := melody.items;
    ExtractedLineWellFormed(events, sorted);
    line := PrintMelody(melody);
  }

  // ---------------------------------------------------------------------
  // Worked examples

  /** A gap between two notes is marked by a silence where the first ends,
      and the line closes with a silence at the end of the last. */
  lemma SilenceGapExample()
    ensures Segments([Note(0, 10, 60), Note(20, 5, 62)])
            == [Segment(0, 60), Segment(10, 0), Segment(20, 62), Segment(25, 0)]
  {
  }

  /** Of two notes with the same onset, only the higher pitch is written. */
  lemma SimultaneousOnsetExample()
    ensures Segments([Note(0, 5, 60), Note(0, 5, 64)]) == [Segment(0, 64), Segment(5, 0)]
  {
  }

  /** A last note of length 0 starts at the sentinel's tick, so it is skipped. */
  lemma ZeroLengthLastNoteExample()
    ensures Segments([Note(0, 10, 60), Note(20, 0, 62)]) == [Segment(0, 60), Segment(10, 0), Segment(20, 0)]
    ensures CachedPitches([Note(0, 10, 60), Note(20, 0, 62)]) == [60]
  {
  }

  /** A single note of length 0 is skipped, since the sentinel lands on its
      onset: only the closing silence is written, and nothing is cached. */
  lemma SingleZeroLengthNoteExample()
    ensures Segments([Note(5, 0, 60)]) == [Segment(5, 0)]
    ensures CachedPitches([Note(5, 0, 60)]) == []
  {
  }

  /** When the highest note of the last simultaneous group has length 0, the
      sentinel lands on the group's onset and the whole group is dropped,
      including the longer lower note that starts with it. */
  lemma FinalGroupDroppedExample()
    ensures Segments([Note(0, 10, 60), Note(20, 10, 62), Note(20, 0, 67)])
            == [Segment(0, 60), Segment(10, 0), Segment(20, 0)]
  {
    var notes := [Note(0, 10, 60), Note(20, 10, 62), Note(20, 0, 67)];
    var ext := WithSentinel(notes);
    assert ext == [Note(0, 10, 60), Note(20, 10, 62), Note(20, 0, 67), Note(20, 0, 0)];
    assert Emit(ext[0], 20) == [Segment(0, 60), Segment(10, 0)];
    assert ScanSegments(ext, 1) == [Segment(0, 60), Segment(10, 0)];
    assert ScanSegments(ext, 2) == ScanSegments(ext, 1);
    assert ScanSegments(ext, 3) == ScanSegments(ext, 2);
  }

  /** The same group is missing from what `cacheMelody` returns. */
  lemma FinalGroupNotCachedExample()
    ensures CachedPitches([Note(0, 10, 60), Note(20, 10, 62), Note(20, 0, 67)]) == [60]
  {
    var notes := [Note(0, 10, 60), Note(20, 10, 62), Note(20, 0, 67)];
    var ext := WithSentinel(notes);
    assert ext == [Note(0, 10, 60), Note(20, 10, 62), Note(20, 0, 67), Note(20, 0, 0)];
    assert Kept(ext, 1) == [Note(0, 10, 60)];
    assert Kept(ext, 2) == Kept(ext, 1);
    assert Kept(ext, 3) == Kept(ext, 2);
  }

  /** A note retriggered at its own onset on an ordered track: the first
      note-off closes a record of length 0, the second one of length 10,
      both at onset 0 with pitch 60. */
  lemma RetriggeredNoteRecords()
    ensures Reconstruct([Event(0, 0x90, 60, 64), Event(0, 0x80, 60, 0),
                         Event(0, 0x90, 60, 64), Event(10, 0x80, 60, 0)])
            == [Note(0, 0, 60), Note(0, 10, 60)]
  {
    var events := [Event(0, 0x90, 60, 64), Event(0, 0x80, 60, 0),
                   Event(0, 0x90, 60, 64), Event(10, 0x80, 60, 0)];
    var st0 := Initial();
    ScanLast(st0, [], events[0]);
    var st1 := ScanFrom(st0, events[..1]);
    assert st1.table[60] == 0 && st1.melody == [];
    assert events[..2] == events[..1] + [events[1]];
    ScanLast(st0, events[..1], events[1]);
    var st2 := ScanFrom(st0, events[..2]);
    assert st2.table[60] == INACTIVE && st2.melody == [Note(0, 0, 60)];
    assert events[..3] == events[..2] + [events[2]];
    ScanLast(st0, events[..2], events[2]);
    var st3 := ScanFrom(st0, events[..3]);
    assert st3.table[60] == 0 && st3.melody == [Note(0, 0, 60)];
    assert events == events[..3] + [events[3]];
    ScanLast(st0, events[..3], events[3]);
  }

  /** `qsort` may leave such records, equal under `notecompare`, in either
      order, and the line depends on which: with the length-0 record last,
      the sentinel lands on the shared onset and the note disappears. */
  lemma EqualNotesOrderMatters()
    ensures Sorted([Note(0, 0, 60), Note(0, 10, 60)]) && Sorted([Note(0, 10, 60), Note(0, 0, 60)])
    ensures multiset([Note(0, 0, 60), Note(0, 10, 60)]) == multiset([Note(0, 10, 60), Note(0, 0, 60)])
    ensures Segments([Note(0, 0, 60), Note(0, 10, 60)]) == [Segment(0, 60), Segment(10, 0)]
    ensures Segments([Note(0, 10, 60), Note(0, 0, 60)]) == [Segment(0, 0)]
  {
  }
}
