/** Positions in a sequence, shared by the log scanners and the run theorems. */
module Sequences {

  datatype Option<+T> = None | Some(value: T)

  /** The last position whose element satisfies p, or -1. */
  function LastIndex<T>(s: seq<T>, p: T -> bool): (r: int)
    ensures -1 <= r < |s|
    ensures r >= 0 ==> p(s[r])
    ensures forall j :: r < j < |s| ==> !p(s[j])
  {
    if |s| == 0 then -1
    else if p(s[|s| - 1]) then |s| - 1
    else LastIndex(s[..|s| - 1], p)
  }

  /** The first position whose element satisfies p, or |s|. */
  function FirstIndex<T>(s: seq<T>, p: T -> bool): (r: nat)
    ensures r <= |s|
    ensures r < |s| ==> p(s[r])
    ensures forall j :: 0 <= j < r ==> !p(s[j])
  {
    if |s| == 0 then 0
    else if p(s[0]) then 0
    else 1 + FirstIndex(s[1..], p)
  }

  /** The first position after b whose element satisfies p, or |s|, read off the suffix. */
  lemma FirstIndexAfter<T>(s: seq<T>, p: T -> bool, b: int, f: nat)
    requires -1 <= b < f <= |s| && (f < |s| ==> p(s[f]))
    requires forall i :: b < i < f ==> !p(s[i])
    ensures FirstIndex(s[b + 1..], p) == f - (b + 1)
  {
    hide FirstIndex;
    var after := s[b + 1..];
    assert forall i :: 0 <= i < |after| ==> after[i] == s[b + 1 + i];
    FirstIndexUnique(after, p, f - (b + 1));
  }

  /** The contract of LastIndex determines it. */
  lemma LastIndexUnique<T>(s: seq<T>, p: T -> bool, r: int)
    requires -1 <= r < |s|
    requires r >= 0 ==> p(s[r])
    requires forall j :: r < j < |s| ==> !p(s[j])
    ensures LastIndex(s, p) == r
  {
    var q := LastIndex(s, p);
    assert q >= 0 ==> p(s[q]);
  }

  lemma LastIndexSnoc<T>(s: seq<T>, x: T, p: T -> bool)
    ensures LastIndex(s + [x], p) == if p(x) then |s| else LastIndex(s, p)
  {
    LastIndexUnique(s + [x], p, if p(x) then |s| else LastIndex(s, p));
  }

  lemma FirstIndexUnique<T>(s: seq<T>, p: T -> bool, r: nat)
    requires r <= |s|
    requires r < |s| ==> p(s[r])
    requires forall j :: 0 <= j < r ==> !p(s[j])
    ensures FirstIndex(s, p) == r
  {
    var q := FirstIndex(s, p);
    assert q < |s| ==> p(s[q]);
  }
}
