/** `Array.prototype.splice` as the action calls it: delete nothing and
    insert one item, `a.splice(start, 0, item)`. The array is rebuilt as a
    new sequence instead of being shifted in place. */
module JsArray {

  /** The index where `splice` starts, from ECMAScript's rule for the
      `start` argument: a negative start counts back from the end and is
      clamped at 0, a start past the end is clamped to the length. */
  function ActualStart(len: nat, start: int): (k: nat)
    ensures k <= len
    ensures 0 <= start <= len ==> k == start
    ensures start < 0 && 0 <= len + start ==> k == len + start
    ensures len + start < 0 ==> k == 0
    ensures start > len ==> k == len
  {
    if start < 0 then (if len + start < 0 then 0 else len + start)
    else if start < len then start
    else len
  }

  /** `a` after `a.splice(start, 0, item)`. */
  function SpliceInsert<T>(a: seq<T>, start: int, item: T): (r: seq<T>)
    ensures |r| == |a| + 1
    ensures var k := ActualStart(|a|, start);
      r[k] == item && r[..k] == a[..k] && r[k + 1..] == a[k..]
  {
    var k := ActualStart(|a|, start);
    a[..k] + [item] + a[k..]
  }

  /** `a` with the element at index `k` taken out. */
  function RemoveAt<T>(a: seq<T>, k: nat): (r: seq<T>)
    requires k < |a|
    ensures |r| == |a| - 1
    ensures forall i :: 0 <= i < k ==> r[i] == a[i]
    ensures forall i :: k <= i < |r| ==> r[i] == a[i + 1]
  {
    a[..k] + a[k + 1..]
  }

  /** Taking the inserted item out again gives back the array as it was:
      the insertion neither drops nor reorders an element. */
  lemma RemoveInserted<T>(a: seq<T>, start: int, item: T)
    ensures RemoveAt(SpliceInsert(a, start, item), ActualStart(|a|, start)) == a
  {
  }

  /** Inserting is the only way to get `r` from `a` with one extra element
      at `k`: any array that holds `item` at `k` and gives `a` back once it
      is removed is the splice's result. */
  lemma SpliceInsertUnique<T>(a: seq<T>, start: int, item: T, r: seq<T>)
    requires ActualStart(|a|, start) < |r|
    requires r[ActualStart(|a|, start)] == item
    requires RemoveAt(r, ActualStart(|a|, start)) == a
    ensures r == SpliceInsert(a, start, item)
  {
  }
}
