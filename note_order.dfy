/** The order the reducer sorts notes into (`notecompare`, `sortMelody`):
    onset tick ascending, and on equal onsets pitch ascending, so that among
    simultaneous notes the highest pitch comes last. */
module NoteOrder {
  import opened Melody

  /** `notecompare`: -1, 0 or 1 as `a` sorts before, together with, or after `b`. */
  function NoteCompare(a: Note, b: Note): (r: int)
    ensures r == -1 || r == 0 || r == 1
    ensures r == 0 <==> a.tick == b.tick && a.pitch == b.pitch
    ensures r == -1 <==> a.tick < b.tick || (a.tick == b.tick && a.pitch < b.pitch)
  {
    if a.tick < b.tick then -1
    else if a.tick > b.tick then 1
    else if a.pitch > b.pitch then 1
    else if a.pitch < b.pitch then -1
    else 0
  }

  /** `a` may precede `b` in a sorted vector. */
  predicate NoteLeq(a: Note, b: Note)
  {
    NoteCompare(a, b) <= 0
  }

  /** The comparator is antisymmetric, transitive and total, as `qsort` needs. */
  lemma CompareIsTotalOrder(a: Note, b: Note, c: Note)
    ensures NoteCompare(a, b) == -NoteCompare(b, a)
    ensures NoteLeq(a, b) || NoteLeq(b, a)
    ensures NoteLeq(a, b) && NoteLeq(b, c) ==> NoteLeq(a, c)
  {
  }

  /** Ordered by `notecompare`. */
  predicate Sorted(s: seq<Note>)
  {
    forall i, j :: 0 <= i < j < |s| ==> NoteLeq(s[i], s[j])
  }

  /** Insert `x` into a sorted sequence. */
  function Insert(x: Note, s: seq<Note>): (r: seq<Note>)
    requires Sorted(s)
    ensures Sorted(r) && multiset(r) == multiset(s) + multiset{x}
    decreases |s|
  {
    if s == [] then [x]
    else if NoteLeq(x, s[0]) then
      SortedCons(x, s);
      [x] + s
    else
      var rest := Insert(x, s[1..]);
      HeadBelowInsert(x, s, rest);
      SortedCons(s[0], rest);
      assert s == [s[0]] + s[1..];
      [s[0]] + rest
  }

  /** A note below every element of a sorted sequence may be put in front. */
  lemma SortedCons(h: Note, s: seq<Note>)
    requires Sorted(s)
    requires s != [] ==> NoteLeq(h, s[0])
    ensures Sorted([h] + s)
  {
    forall j | 0 <= j < |s| ensures NoteLeq(h, s[j]) {
      assert NoteLeq(s[0], s[j]) || j == 0;
    }
  }

  /** When `x` goes after the head of `s`, the head stays below the
      insertion of `x` into the tail. */
  lemma HeadBelowInsert(x: Note, s: seq<Note>, rest: seq<Note>)
    requires Sorted(s) && s != [] && !NoteLeq(x, s[0])
    requires multiset(rest) == multiset(s[1..]) + multiset{x}
    requires Sorted(rest)
    ensures rest != [] ==> NoteLeq(s[0], rest[0])
  {
    if rest != [] {
      assert rest[0] in multiset(rest);
      if rest[0] != x {
        assert rest[0] in multiset(s[1..]);
        var k :| 0 <= k < |s[1..]| && s[1..][k] == rest[0];
        assert s[k + 1] == rest[0];
      }
    }
  }

  /** A sorted permutation: the reference for what `sortMelody` produces. */
  function SortNotes(s: seq<Note>): (r: seq<Note>)
    ensures Sorted(r) && multiset(r) == multiset(s)
    decreases |s|
  {
    if s == [] then []
    else
      assert s == [s[0]] + s[1..];
      Insert(s[0], SortNotes(s[1..]))
  }

  /** `sortMelody`: the vector is sorted in place into a permutation of itself.
      `qsort` is not stable, so notes that compare equal (same onset and pitch,
      different durations) may end up in either order; only that is promised. */
  method SortMelody(melody: MelodyVector)
    modifies melody
    ensures Sorted(melody.items)
    ensures multiset(melody.items) == multiset(old(melody.items))
  {
    melody.items := SortNotes(melody.items);
  }
}
