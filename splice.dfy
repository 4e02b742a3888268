/** The one array primitive the board removes cards and checklist items with:
    JavaScript's `Array.prototype.splice(start, 1)`, which deletes at most one
    element and tolerates a negative or out-of-range start. */
module Splice {

  /** The index `splice` actually starts at: a negative start counts back from
      the end (and stops at 0), a start past the end is clamped to the length. */
  function ActualStart(len: nat, start: int): (k: nat)
    ensures k <= len
    ensures 0 <= start <= len ==> k == start
    ensures start < 0 && -start <= len ==> k == len + start
    ensures start < 0 && -start > len ==> k == 0
    ensures start > len ==> k == len
  {
    if start < 0 then (if len + start < 0 then 0 else len + start)
    else if start > len then len
    else start
  }

  /** `s.splice(start, 1)` on a copy of `s`: the element at the actual start
      index leaves, the others keep their order; nothing leaves when that index
      is the length. */
  function RemoveAt<T>(s: seq<T>, start: int): (r: seq<T>)
    ensures var k := ActualStart(|s|, start);
      if k < |s| then
        |r| == |s| - 1 &&
        (forall j | 0 <= j < k :: r[j] == s[j]) &&
        (forall j | k <= j < |r| :: r[j] == s[j + 1]) &&
        multiset(r) + multiset{s[k]} == multiset(s)
      else r == s
    ensures forall x | x in r :: x in s
  {
    var k := ActualStart(|s|, start);
    if k < |s| then
      assert s == s[..k] + [s[k]] + s[k + 1..];
      s[..k] + s[k + 1..]
    else s
  }

  /** Pushing an element and splicing it out again at its own index gives back
      the original sequence. */
  lemma RemoveAfterPush<T>(s: seq<T>, x: T)
    ensures RemoveAt(s + [x], |s|) == s
  {
    assert (s + [x])[..|s|] == s;
  }
}
