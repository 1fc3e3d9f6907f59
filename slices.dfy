/** The JavaScript array operations the userscripts apply to trade lists:
    `slice(0, end)`, `slice(-n)` and `reverse()` on a fresh copy. */
module Slices {

  function Min(a: int, b: int): int { if a <= b then a else b }

  function Max(a: int, b: int): int { if a <= b then b else a }

  /** `s.slice(0, end)`: a negative `end` counts from the back of the list
      and is clamped at 0; an `end` past the list is clamped at its length. */
  function SliceTo<T>(s: seq<T>, end: int): (r: seq<T>)
    ensures |r| <= |s| && r == s[..|r|]
    ensures 0 <= end ==> |r| <= end && (|r| == end || r == s)
    ensures end < 0 ==> |r| == Max(0, |s| + end)
  {
    if end < 0 then (if |s| + end < 0 then [] else s[..|s| + end])
    else if end < |s| then s[..end]
    else s
  }

  /** `s.slice(-n)` for n > 0: the last n elements, or all of them when
      there are fewer. */
  function LastN<T>(s: seq<T>, n: nat): (r: seq<T>)
    ensures |r| == Min(n, |s|)
    ensures r == s[|s| - |r|..]
  {
    if |s| <= n then s else s[|s| - n..]
  }

  /** `reverse()` applied to a fresh array: the element at position i
      comes from position n-1-i. */
  function Reverse<T>(s: seq<T>): (r: seq<T>)
    ensures |r| == |s|
    ensures forall i :: 0 <= i < |s| ==> r[i] == s[|s| - 1 - i]
  {
    seq(|s|, i requires 0 <= i < |s| => s[|s| - 1 - i])
  }

  /** Reversing twice gives back the list: the display order of a chart and
      the order of the trades determine each other. */
  lemma ReverseInvolution<T>(s: seq<T>)
    ensures Reverse(Reverse(s)) == s
  {
  }

  /** A slice of the reversed list is the reversal of the mirrored slice. */
  lemma ReverseSlice<T>(s: seq<T>, lo: nat, hi: nat)
    requires lo <= hi <= |s|
    ensures Reverse(s)[lo..hi] == Reverse(s[|s| - hi..|s| - lo])
  {
  }

  /** Slicing to a non-negative end twice is the same as slicing once. */
  lemma SliceToIdempotent<T>(s: seq<T>, end: int)
    requires 0 <= end
    ensures SliceTo(SliceTo(s, end), end) == SliceTo(s, end)
  {
  }

  /** Slicing to a negative end twice drops twice as many elements, so
      re-slicing a list already cut at a negative limit changes it whenever
      the first cut left something. */
  lemma SliceToNegativeTwice<T>(s: seq<T>, end: int)
    requires end < 0 && |s| + end > 0
    ensures SliceTo(SliceTo(s, end), end) != SliceTo(s, end)
  {
  }
}
