/** Raw MIDI events of one track, as the MIDI file reader hands them to the
    note reconstructor, and their classification into note-on, note-off and
    everything else (MIDI 1.0 Detailed Specification, "Channel Voice
    Messages"). */
module MidiEvents {

  /** A status byte. */
  type Byte = x: int | 0 <= x < 256

  /** A MIDI data byte: seven bits, so a pitch always indexes a 128-entry table. */
  type DataByte = x: int | 0 <= x < 128

  /** An event at an absolute tick with its status byte and two data bytes
      (for note messages: the pitch and the velocity). */
  datatype Event = Event(tick: nat, status: Byte, d1: DataByte, d2: DataByte)

  const NOTE_OFF: int := 0x80
  const NOTE_ON: int := 0x90

  /** The command nibble of a status byte, `status & 0xf0`. */
  function Command(status: Byte): (c: int)
    ensures c % 16 == 0 && c <= status < c + 16
  {
    status / 16 * 16
  }

  /** What the note reconstructor sees in an event. */
  datatype Kind = NoteOn(pitch: DataByte, tick: nat) | NoteOff(pitch: DataByte, tick: nat) | Other

  /** A note-on with velocity 0 counts as a note-off; every status other than
      0x8n and 0x9n is ignored. */
  function Classify(e: Event): (k: Kind)
    ensures k.NoteOn? <==> 0x90 <= e.status <= 0x9F && e.d2 > 0
    ensures k.NoteOff? <==> 0x80 <= e.status <= 0x8F || (0x90 <= e.status <= 0x9F && e.d2 == 0)
    ensures !k.Other? ==> k.pitch == e.d1 && k.tick == e.tick
  {
    var command := Command(e.status);
    if command == NOTE_ON && e.d2 != 0 then NoteOn(e.d1, e.tick)
    else if command == NOTE_ON || command == NOTE_OFF then NoteOff(e.d1, e.tick)
    else Other
  }

  /** Whether `e` is a note-on or note-off for pitch `p`. */
  predicate Touches(e: Event, p: int)
  {
    match Classify(e)
    case NoteOn(q, _) => q == p
    case NoteOff(q, _) => q == p
    case Other => false
  }

  /** No event of `events` is a note event for pitch `p`. */
  predicate Avoids(events: seq<Event>, p: int)
  {
    forall i :: 0 <= i < |events| ==> !Touches(events[i], p)
  }

  /** Events are in non-decreasing tick order (the reader's guarantee). */
  predicate NonDecreasing(events: seq<Event>)
  {
    forall i, j :: 0 <= i < j < |events| ==> events[i].tick <= events[j].tick
  }

  /** The number of note-off-class events (explicit note-off or velocity 0). */
  function OffCount(events: seq<Event>): (n: nat)
    ensures n <= |events|
    decreases |events|
  {
    if events == [] then 0
    else OffCount(events[..|events| - 1]) + (if Classify(events[|events| - 1]).NoteOff? then 1 else 0)
  }
}
