/** The command log of `useHistory`: a sequence of entries and a cursor
    `index` pointing at the last applied entry (-1 = before the first). */
module History {

  datatype Log<A> = Log(entries: seq<A>, index: int)

  /** The cursor sits on an entry, or just before the first one. */
  predicate Valid<A>(h: Log<A>) {
    -1 <= h.index < |h.entries|
  }

  /** There is an applied entry to undo. */
  predicate CanUndo<A>(h: Log<A>) {
    h.index >= 0
  }

  /** There is an undone entry to redo (the source's guard is the negation of
      `index >= length - 1`). */
  predicate CanRedo<A>(h: Log<A>) {
    h.index < |h.entries| - 1
  }

  /** The log every session starts from. */
  function Init<A>(): (h: Log<A>)
    ensures Valid(h)
    ensures |h.entries| == 0 && h.index == -1
    ensures !CanUndo(h) && !CanRedo(h)
  {
    Log([], -1)
  }

  /** JavaScript's `s.slice(0, end)` for a whole-number `end`: a negative end
      counts from the back, and an end past the length is clamped. */
  function SliceTo<A>(s: seq<A>, end: int): (r: seq<A>)
    ensures |r| <= |s| && r == s[..|r|]
    ensures 0 <= end <= |s| ==> |r| == end
    ensures end > |s| ==> |r| == |s|
    ensures end < 0 ==> |r| == (if |s| + end < 0 then 0 else |s| + end)
  {
    if end < 0 then
      (if |s| + end < 0 then [] else s[..|s| + end])
    else if end > |s| then s
    else s[..end]
  }

  /** `addAction`: keep the entries up to and including the cursor, drop the
      redo tail, append `a` and move the cursor onto it. */
  function AddAction<A>(h: Log<A>, a: A): (r: Log<A>)
    ensures Valid(r) && !CanRedo(r)
    ensures |r.entries| > 0 && r.entries[|r.entries| - 1] == a
    ensures r.index == |r.entries| - 1
    ensures r.index <= |h.entries| && r.entries[..r.index] == h.entries[..r.index]
    ensures Valid(h) ==> r.entries == h.entries[..h.index + 1] + [a]
    ensures Valid(h) ==> |r.entries| == h.index + 2
  {
    var kept := SliceTo(h.entries, h.index + 1);
    Log(kept + [a], |kept|)
  }

  /** Recording never rewrites an entry at or before the cursor. */
  lemma AddActionKeepsApplied<A>(h: Log<A>, a: A, i: int)
    requires Valid(h) && 0 <= i <= h.index
    ensures AddAction(h, a).entries[i] == h.entries[i]
  {
    var r := AddAction(h, a);
    assert r.entries[..r.index][i] == h.entries[..r.index][i];
  }

  /** Recording into an empty log yields exactly that one entry. */
  lemma AddActionFromInit<A>(a: A)
    ensures AddAction(Init<A>(), a) == Log([a], 0)
  {
  }
}
