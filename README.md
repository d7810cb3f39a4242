# midi2melody core: note reconstruction and monophonic reduction

This project models the melody-extraction core of `V3/temp/temp_driver.cpp`
(a variant of Craig Sapp's `midi2melody`) and proves properties of it in Dafny.
The tool reads one MIDI track and writes a monophonic melody line as
`time<TAB>pitch` lines, where pitch 0 means silence. The core has four parts:

* **Note reconstruction** (`convertToMelody`). One scan over the track's
  time-ordered events. It keeps a 128-entry table that holds, for each pitch,
  the onset tick of the note now sounding, or -1. A note-on with velocity > 0
  stores its tick and overwrites any onset already stored. A note-off, or a
  note-on with velocity 0, for a sounding pitch pushes a `{tick, duration,
  pitch}` record and resets the entry to -1. A note-off for a silent pitch is
  skipped. Notes still sounding at the end are dropped.
* **Ordering** (`notecompare`, `sortMelody`). Records are sorted by onset
  ascending, then by pitch ascending.
* **Monophonic reduction** (`printMelody`). A sentinel `{last.tick +
  last.duration, 0, 0}` is pushed onto the vector. Adjacent entries are then
  walked. An entry whose successor has the same onset is skipped. Any other
  entry is written as `(tick, pitch)`, followed by a silence `(tick +
  duration, 0)` when the successor starts later than that. The line ends with
  `(sentinel tick, 0)`.
* **`cacheMelody`**. The same sentinel and skip rule, collecting only the
  pitches. It returns `[0]` for an empty vector.

Modules, one per stage:

* `Melody` (`melody.dfy`): the `Note` record and `MelodyVector`, the
  `vector<Melody>` that the stages take by reference.
* `MidiEvents` (`midi_events.dfy`): raw events and their classification.
  Note-on is status `0x9n` and note-off is `0x8n`, as in the MIDI 1.0 Detailed
  Specification, "Channel Voice Messages".
* `Reconstruction` (`reconstruction.dfy`): `ConvertToMelody`, a loop over a
  128-entry `array<int>`. It is proved equal to the fold `Reconstruct`, and
  the pairing, overwrite and ignore rules are proved about that fold.
* `NoteOrder` (`note_order.dfy`): the comparator and `SortMelody`.
* `Reduction` (`reduction.dfy`): `PrintMelody` and `CacheMelody`, each a loop
  proved equal to a function of the vector (`Segments`, `CachedPitches`).
  Both functions are tied to a reference definition. `KeptNotes` is the line
  of surviving entries. `Render` draws that line, each note sounding until the
  next kept onset.
* `Pipeline` (`pipeline.dfy`): the sequence that `main` runs (reconstruct,
  sort, print), plus worked examples.

Where the code and its description differ, the model follows the code:

* Ties on onset are ordered by pitch **ascending**. The comment at
  `temp_driver.cpp:293` says "highest note comes first", but the code puts
  the higher pitch later. The highest simultaneous pitch still wins, because
  the reducer keeps the last entry of each group of equal onsets.
* The silence time is written `next.tick - (delta - duration)`. With
  `delta = next.tick - tick`, this is `tick + duration`. The model's contracts
  state the second form.

Behaviour that follows from the code and is proved or exhibited here:

* The sentinel sits at the end of the *last-starting* note. So if the last
  note has duration 0, it starts at the sentinel's tick and is skipped
  (`ZeroLengthLastNoteExample`).
* `cacheMelody` returns `[0]` for an empty vector. For a single note of
  length 0 it returns `[]` (`SingleZeroLengthNoteExample`).
* If the highest note of the last group of simultaneous notes has length 0,
  the whole group is dropped, including longer, lower notes that start with
  it (`FinalGroupDroppedExample`).
* The output depends on the order `qsort` leaves records in when they compare
  equal (same tick and pitch) but differ in length. A pitch struck twice at
  the same tick gives records of length 0 and 10 (`RetriggeredNoteRecords`).
  With the length-0 record last, the sentinel falls on their onset and the
  note is not written at all (`EqualNotesOrderMatters`).

## Model

| member | source | states |
|---|---|---|
| MidiEvents.Command | V3/temp/temp_driver.cpp:186 | the command is `status & 0xf0`: a multiple of 16 with `c <= status < c + 16` |
| MidiEvents.Classify | V3/temp/temp_driver.cpp:186-199 | note-on exactly for status 0x90-0x9F with velocity > 0; note-off exactly for status 0x80-0x8F, or 0x9n with velocity 0; pitch and tick are taken from the event |
| Reconstruction.Initial | V3/temp/temp_driver.cpp:170-178 | before the scan, every one of the 128 pitches is inactive (-1) and no record exists |
| Reconstruction.Step | V3/temp/temp_driver.cpp:186-209 | one event keeps the table at 128 entries and appends at most one record, keeping the earlier ones |
| Reconstruction.ScanFrom | V3/temp/temp_driver.cpp:185-210 | scanning n events keeps earlier records as a prefix and adds at most n records |
| Reconstruction.Reconstruct | V3/temp/temp_driver.cpp:162-211 | the records `convertToMelody` leaves for a track, at most one per event; the lemmas below fix their contents |
| Reconstruction.ConvertToMelody | V3/temp/temp_driver.cpp:162-211 | the loop over the 128-entry state array leaves exactly `Reconstruct(events)` in the vector, whatever it held before (`melody.clear()`) |
| Reconstruction.ScanAppend | V3/temp/temp_driver.cpp:185-210 | scanning `a + b` equals scanning `b` from the state left by `a` |
| Reconstruction.Untouched | V3/temp/temp_driver.cpp:185-209 | events that are not note events for pitch p leave p's entry unchanged and emit no record of pitch p |
| Reconstruction.OpenNoteNotRecorded | V3/temp/temp_driver.cpp:195 | after a note-on for p at t and events not touching p, p is sounding since t and no record of p was emitted; a note still sounding at the end of the track is dropped |
| Reconstruction.OpenNoteInTrack | V3/temp/temp_driver.cpp:185-210 | the same over a whole track: a note-on and events not touching its pitch add no record of that pitch |
| Reconstruction.MatchedStep | V3/temp/temp_driver.cpp:201-208 | a note-off for a sounding pitch appends `{onset, tick - onset, p}` and resets p to -1 |
| Reconstruction.CloseSounding | V3/temp/temp_driver.cpp:200-208 | after any scan that leaves p sounding since t1, a note-off for p at t2 appends `{t1, t2 - t1, p}` and resets p to -1 |
| Reconstruction.MatchedPair | V3/temp/temp_driver.cpp:195-208 | from any state, note-on(p, t1), then events not touching p, then note-off(p, t2) append `{t1, t2 - t1, p}` and leave p inactive |
| Reconstruction.MatchedPairOnly | V3/temp/temp_driver.cpp:195-208 | that record is the only record of pitch p the pair's events emit |
| Reconstruction.OnlyRecordOfPitch | V3/temp/temp_driver.cpp:207 | appending a record of pitch p to records with none of pitch p leaves exactly that one |
| Reconstruction.PairedNoteRecorded | V3/temp/temp_driver.cpp:185-209 | on a whole track, whatever precedes the pair, the pair's note-off appends `{t1, t2 - t1, p}` |
| Reconstruction.PairedNoteOnly | V3/temp/temp_driver.cpp:185-209 | on a whole track, the pair adds exactly one record of pitch p, `{t1, t2 - t1, p}`, after the records of the prefix |
| Reconstruction.RepeatedNoteOnOverwrites | V3/temp/temp_driver.cpp:195 | two note-ons for p with no note-off between them, then a note-off: the only record of p is anchored at the second onset; the first onset is lost |
| Reconstruction.IgnoredEvent | V3/temp/temp_driver.cpp:186-203 | a note-off (0x8n, or 0x9n with velocity 0) for an inactive pitch, and any event that is neither 0x8n nor 0x9n, leave records and table unchanged |
| Reconstruction.ScanBounds | V3/temp/temp_driver.cpp:185-209 | for a track in tick order, each sounding entry is between 0 and the last tick; each record has onset >= 0, duration >= 0, end <= last tick, pitch < 128 |
| Reconstruction.DurationsNonNegative | V3/temp/temp_driver.cpp:204-205 | for a track in tick order, every emitted duration is >= 0 |
| Reconstruction.RecordsAtMostOffs | V3/temp/temp_driver.cpp:201-208 | a scan adds at most as many records as it sees note-off-class events |
| Reconstruction.RecordCountBound | V3/temp/temp_driver.cpp:178-208 | a track yields at most as many records as it has note-off-class events |
| NoteOrder.NoteCompare | V3/temp/temp_driver.cpp:284-302 | the result is -1, 0 or 1; it is 0 exactly when tick and pitch are equal, and -1 exactly when (tick, pitch) is lexicographically smaller, so a higher pitch sorts later on a tie |
| NoteOrder.CompareIsTotalOrder | V3/temp/temp_driver.cpp:284-302 | `compare(a, b) = -compare(b, a)`; the induced order is total and transitive |
| NoteOrder.Insert | V3/temp/temp_driver.cpp:110-112 | inserting into a sorted sequence gives a sorted sequence with one more element |
| NoteOrder.SortNotes | V3/temp/temp_driver.cpp:110-112 | a sorted permutation of its input |
| NoteOrder.SortMelody | V3/temp/temp_driver.cpp:110-112 | after sorting in place, the vector is ordered by `notecompare` and is a permutation of what it held |
| Reduction.Sentinel | V3/temp/temp_driver.cpp:127-132 | the pushed entry is silent (pitch 0), has length 0, and starts where the last entry ends |
| Reduction.WithSentinel | V3/temp/temp_driver.cpp:127-132 | the vector after the push is one longer, keeps the original entries as its prefix, and ends with the sentinel |
| Reduction.Emit | V3/temp/temp_driver.cpp:140-148 | an emitted entry gives `(tick, pitch)`, then `(tick + duration, 0)` exactly when the successor starts after `tick + duration` |
| Reduction.ScanSegments | V3/temp/temp_driver.cpp:134-149 | the lines the adjacent-pair loop writes for the first n entries: at most two per entry |
| Reduction.Segments | V3/temp/temp_driver.cpp:122-153 | empty vector: no output; otherwise 1 to 2n+1 lines, the last being `(last.tick + last.duration, 0)` |
| Reduction.Kept | V3/temp/temp_driver.cpp:134-138 | the entries among the first n that the loop does not skip: at most n of them, and entry n-1 comes last when entry n starts at a different tick |
| Reduction.KeptNotes | V3/temp/temp_driver.cpp:91-95 | the melody line: no longer than the vector, and it ends with the last entry whenever that entry has non-zero length, because the sentinel then starts at a different tick |
| Reduction.PrintMelody | V3/temp/temp_driver.cpp:122-153 | on an empty vector, nothing is pushed or written; otherwise exactly one sentinel is pushed, and the lines written are `Segments` of the original vector |
| Reduction.CachedPitches | V3/temp/temp_driver.cpp:79-101 | `[0]` for an empty vector; otherwise at most as many pitches as entries |
| Reduction.CacheMelody | V3/temp/temp_driver.cpp:79-102 | returns `[0]` without pushing for an empty vector; otherwise pushes the sentinel and returns the pitches of the kept entries |
| Reduction.KeptPitchesStep | V3/temp/temp_driver.cpp:91-97 | one pass of `cacheMelody`'s loop adds entry i's pitch exactly when its successor starts at a different tick |
| Reduction.ScanIsRender | V3/temp/temp_driver.cpp:134-149 | the adjacent-pair scan up to entry n writes the reference rendering of the entries kept so far, the last one ending at entry n's onset |
| Reduction.SegmentsFollowKept | V3/temp/temp_driver.cpp:127-152 | the printed line is the rendering of the kept entries up to the sentinel, followed by the sentinel's silence |
| Reduction.KeptFromDistinctSuccessor | V3/temp/temp_driver.cpp:134-138 | every kept entry is an entry whose successor (the sentinel, for the last) starts at a different tick |
| Reduction.DistinctSuccessorKept | V3/temp/temp_driver.cpp:134-138 | every entry whose successor starts at a different tick is kept |
| Reduction.KeptIncreasing | V3/temp/temp_driver.cpp:134-138 | over a tick-ordered prefix, kept onsets strictly increase and come before the next entry's onset |
| Reduction.ExtendedInTickOrder | V3/temp/temp_driver.cpp:127-132 | a sorted vector with non-negative durations stays in tick order once the sentinel is pushed |
| Reduction.LineIsMonophonic | V3/temp/temp_driver.cpp:127-138 | for a sorted vector, the kept line has one note per onset, with strictly increasing onsets, all before the sentinel |
| Reduction.LaterOnsetsAfter | V3/temp/temp_driver.cpp:134-138 | in a sorted vector, every entry after one whose successor starts later also starts later |
| Reduction.HighestAtOnset | V3/temp/temp_driver.cpp:134-138 | in a sorted vector, an entry whose successor starts later has the highest pitch of all entries with its onset |
| Reduction.KeptIsHighest | V3/temp/temp_driver.cpp:134-138 | highest voice wins: in a sorted vector, every kept note has the highest pitch among the notes with its onset |
| Reduction.RenderedNotesComeFromLine | V3/temp/temp_driver.cpp:140-147 | every non-silent rendered line is `(k.tick, k.pitch)` for a kept note k |
| Reduction.LineNotesRendered | V3/temp/temp_driver.cpp:140-143 | every kept note is rendered at its onset |
| Reduction.LowerSimultaneousPitchDropped | V3/temp/temp_driver.cpp:134-143 | in a sorted vector, a non-zero pitch with a higher pitch at the same onset is never written at that onset |
| Reduction.CacheMatchesPrint | V3/temp/temp_driver.cpp:91-97 | `cacheMelody` returns one pitch per kept entry, in order, and `printMelody` writes each at its note's onset |
| Reduction.ScanPrefix | V3/temp/temp_driver.cpp:134-149 | the lines written for the first m entries are a prefix of those for the first n |
| Reduction.ScanEmitsEntry | V3/temp/temp_driver.cpp:134-149 | the scan writes `Emit(entry i)` right after the lines of the entries before i |
| Reduction.EntryEmitted | V3/temp/temp_driver.cpp:134-149 | an entry whose successor starts at a different tick is written at its onset, followed by `(tick + duration, 0)` exactly when the successor starts later than that |
| Reduction.ChronologicalAppend | V3/temp/temp_driver.cpp:140-151 | joining two time-ordered runs, the first no later than the second, gives a time-ordered run |
| Reduction.RenderChronological | V3/temp/temp_driver.cpp:134-149 | a rendering of a tick-ordered line with non-negative durations is in time order and ends by its end tick |
| Reduction.SegmentsChronological | V3/temp/temp_driver.cpp:122-153 | for a sorted vector with non-negative durations, the lines are written in non-decreasing time order |
| Pipeline.SortedRecordsBounded | V3/temp/temp_driver.cpp:68-70 | any permutation of an ordered track's records has non-negative durations and pitches below 128 |
| Pipeline.ExtractedLineWellFormed | V3/temp/temp_driver.cpp:68-71 | for any sorted permutation of an ordered track's records, the written line is in time order and every pitch is 0-127 |
| Pipeline.ExtractMelody | V3/temp/temp_driver.cpp:68-71 | reconstruct, sort, print: the line is `Segments` of whichever sorted permutation of the track's records `qsort` leaves (records with equal tick and pitch but different durations can change it, see `EqualNotesOrderMatters`); it is in time order, its pitches are 0-127, and it is empty exactly when no note was reconstructed |
| Pipeline.SilenceGapExample | V3/temp/temp_driver.cpp:134-152 | `{0,10,60}, {20,5,62}` are written as `(0,60) (10,0) (20,62) (25,0)` |
| Pipeline.SimultaneousOnsetExample | V3/temp/temp_driver.cpp:134-152 | `{0,5,60}, {0,5,64}` are written as `(0,64) (5,0)` |
| Pipeline.ZeroLengthLastNoteExample | V3/temp/temp_driver.cpp:127-138 | a last note of length 0 sits at the sentinel's tick and is neither written nor cached |
| Pipeline.SingleZeroLengthNoteExample | V3/temp/temp_driver.cpp:81-99 | a vector holding one note of length 0 writes only the closing silence `(5, 0)` and caches `[]` |
| Pipeline.FinalGroupDroppedExample | V3/temp/temp_driver.cpp:127-152 | `{0,10,60}, {20,10,62}, {20,0,67}` are written as `(0,60) (10,0) (20,0)`: the length-0 top note puts the sentinel at tick 20, so the whole group at 20 is dropped, including the longer 62 |
| Pipeline.FinalGroupNotCachedExample | V3/temp/temp_driver.cpp:86-97 | the same vector caches `[60]` |
| Pipeline.RetriggeredNoteRecords | V3/temp/temp_driver.cpp:185-209 | a pitch struck, released and struck again at tick 0, then released at 10, gives records `{0,0,60}` and `{0,10,60}` |
| Pipeline.EqualNotesOrderMatters | V3/temp/temp_driver.cpp:110-152 | both orders of those two records are sorted under `notecompare` and have the same contents, yet one is written as `(0,60) (10,0)` and the other as `(0,0)`: the output depends on the order `qsort` leaves equal records in |

## Left out

- `main`'s command-line handling, `checkOptions`, `usage`, `example` and the global `track` and `options`. These parse arguments, print text and call `exit`. Only the reconstruct-sort-print sequence (`temp_driver.cpp:68-71`) is modelled, as `Pipeline.ExtractMelody`.
- Loading the file, `joinTracks`, `absoluteTicks` and `getTicksPerQuarterNote`. The `MidiFile` library is not part of this model. A track is given as a sequence of events with absolute ticks.
- The invalid-track message (`temp_driver.cpp:164-167`). After printing it, the code still indexes the track, so what happens next depends on `MidiFile`.
- The division of times by ticks-per-quarter, and their text formatting as `double`. Lines are modelled as `(tick, pitch)` pairs, so `printMelody`'s `tpq` parameter and `cacheMelody`'s unused `tpq` parameter are dropped.
- `double` ticks and durations, and the 32-bit `int` state table. Ticks are unbounded integers, so no rounding or overflow is modelled.
- Data bytes are modelled as 7-bit values, as MIDI defines them. With a pitch byte of 128 or more, the code would index past its 128-entry table, and that case is not modelled.
- NoteOrder.SortMelody: the `qsort` algorithm is not modelled. The method's body uses an insertion sort. Its contract promises only what `qsort` promises: a sorted permutation. `qsort` is not stable, so the order of notes with equal tick and pitch but different durations is left open.
- `note_on`, `note_off`, `add_note`, `add_notes`, `add_consecutive_notes` and `add_progression`. These wrap `MidiFile::addEvent` and the `Note`, `Chord` and `ChordProgression` types, which are not part of this model, and they use `float` time.
