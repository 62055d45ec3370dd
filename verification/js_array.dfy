/** The two JavaScript array primitives the cart relies on, over immutable sequences:
    `Array.prototype.findIndex` and `Array.prototype.splice(start, 1)`. */
module JsArray {

  /** Index of the first element satisfying `p`, or -1 when none does (`findIndex`). */
  function FindIndex<T>(s: seq<T>, p: T -> bool): (i: int)
    ensures -1 <= i < |s|
    ensures i == -1 <==> forall j :: 0 <= j < |s| ==> !p(s[j])
    ensures 0 <= i ==> p(s[i]) && forall j :: 0 <= j < i ==> !p(s[j])
  {
    if |s| == 0 then -1
    else if p(s[0]) then 0
    else
      var k := FindIndex(s[1..], p);
      if k == -1 then -1 else k + 1
  }

  /** `s` with the element at position `k` taken out, the rest in order. */
  function RemoveAt<T>(s: seq<T>, k: int): (r: seq<T>)
    requires 0 <= k < |s|
    ensures |r| == |s| - 1
    ensures forall j :: 0 <= j < k ==> r[j] == s[j]
    ensures forall j :: k <= j < |r| ==> r[j] == s[j + 1]
  {
    s[..k] + s[k + 1..]
  }

  /** The position `splice` starts at for an array of length `len`: a negative
      start counts back from the end (clamped at 0), a large one is clamped at `len`. */
  function ActualStart(len: nat, start: int): (k: nat)
    ensures k <= len
  {
    if start < 0 then
      (if len + start < 0 then 0 else len + start)
    else if start < len then start
    else len
  }

  /** The array left behind by `splice(start, 1)`: at most one element deleted. */
  function SpliceOne<T>(s: seq<T>, start: int): (r: seq<T>)
    ensures |s| - 1 <= |r| <= |s|
    ensures 0 <= start < |s| ==> r == RemoveAt(s, start)
    ensures -|s| <= start < 0 ==> r == RemoveAt(s, |s| + start)
    ensures start < -|s| && |s| > 0 ==> r == RemoveAt(s, 0)
    ensures |r| == |s| <==> start >= |s| || |s| == 0
    ensures |r| == |s| ==> r == s
  {
    var k := ActualStart(|s|, start);
    if k < |s| then RemoveAt(s, k) else s
  }
}
