/** A reference definition of linear undo, independent of how the session
    stores it: one timeline of snapshots and a cursor. The first `pos`
    snapshots are the ones in effect, the newest of them is current, and the
    rest form the redo branch. Undo and redo only move the cursor; a new
    action cuts the timeline at the cursor and appends. */
module Timeline {

  datatype Cursor<T> = Cursor(timeline: seq<T>, pos: nat)

  predicate WellFormed<T>(c: Cursor<T>) {
    1 <= c.pos <= |c.timeline|
  }

  function Current<T>(c: Cursor<T>): (x: T)
    requires WellFormed(c)
  {
    c.timeline[c.pos - 1]
  }

  /** Undo: move one step back, but never past the first snapshot. */
  function Back<T>(c: Cursor<T>): (r: Cursor<T>) {
    if c.pos > 1 then c.(pos := c.pos - 1) else c
  }

  /** Redo: move one step forward while the redo branch is not exhausted. */
  function Forward<T>(c: Cursor<T>): (r: Cursor<T>) {
    if c.pos < |c.timeline| then c.(pos := c.pos + 1) else c
  }

  /** A new action: the redo branch is dropped and `x` becomes current. */
  function Commit<T>(c: Cursor<T>, x: T): (r: Cursor<T>)
    requires c.pos <= |c.timeline|
  {
    Cursor(c.timeline[..c.pos] + [x], c.pos + 1)
  }

  /** The elements of `s` last to first. */
  function Reverse<T>(s: seq<T>): (r: seq<T>)
    ensures |r| == |s|
    ensures forall i :: 0 <= i < |s| ==> r[i] == s[|s| - 1 - i]
    decreases |s|
  {
    if s == [] then [] else [s[|s| - 1]] + Reverse(s[..|s| - 1])
  }

  lemma ReverseSnoc<T>(s: seq<T>, x: T)
    ensures Reverse(s + [x]) == [x] + Reverse(s)
  {
    assert (s + [x])[..|s|] == s;
  }

  lemma ReverseCons<T>(x: T, s: seq<T>)
    ensures Reverse([x] + s) == Reverse(s) + [x]
  {
    var l := Reverse([x] + s);
    var r := Reverse(s) + [x];
    assert |l| == |r|;
    forall i | 0 <= i < |l|
      ensures l[i] == r[i]
    {
      if i < |s| {
        assert l[i] == ([x] + s)[|s| - i];
      }
    }
  }
}
