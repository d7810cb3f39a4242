/** The note record shared by every stage of the melody extractor, and the
    vector of records that the stages pass to each other by reference. */
module Melody {

  /** One reconstructed note: its onset and duration in ticks and its MIDI
      pitch. The sentinel appended by the reducer reuses this record with
      pitch 0 and duration 0. */
  datatype Note = Note(tick: int, duration: int, pitch: int)

  /** The `vector<Melody>` that the pipeline stages take by reference and
      change in place (clear and push_back, sort, append a sentinel). */
  class MelodyVector {
    var items: seq<Note>

    constructor (notes: seq<Note>)
      ensures items == notes
    {
      items := notes;
    }
  }

  /** The pitches of `notes`, in order. */
  function Pitches(notes: seq<Note>): (r: seq<int>)
    ensures |r| == |notes|
    ensures forall i :: 0 <= i < |notes| ==> r[i] == notes[i].pitch
  {
    seq(|notes|, i requires 0 <= i < |notes| => notes[i].pitch)
  }

  /** Every duration is non-negative (what note reconstruction guarantees). */
  predicate NonNegativeDurations(notes: seq<Note>)
  {
    forall i :: 0 <= i < |notes| ==> notes[i].duration >= 0
  }
}
