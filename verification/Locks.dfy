/** The stripe list a writer locks: collected, sorted, without duplicates. */
module Locks {
  import opened Bytes

  const WRITE_LOCK_STRIPES := 64

  function StripesOf(stripe: Blob -> nat, keys: seq<Blob>): (r: seq<nat>)
    ensures |r| == |keys| && forall i :: 0 <= i < |keys| ==> r[i] == stripe(keys[i])
  {
    seq(|keys|, i requires 0 <= i < |keys| => stripe(keys[i]))
  }

  function Insert(x: nat, s: seq<nat>): seq<nat> {
    if s == [] || x <= s[0] then [x] + s else [s[0]] + Insert(x, s[1..])
  }

  /** `sort_unstable`. */
  function SortStripes(s: seq<nat>): seq<nat> { if s == [] then [] else Insert(s[0], SortStripes(s[1..])) }

  /** `dedup`: drops an element equal to its successor. */
  function Dedup(s: seq<nat>): seq<nat> {
    if |s| < 2 then s else if s[0] == s[1] then Dedup(s[1..]) else [s[0]] + Dedup(s[1..])
  }

  function StripePlan(stripe: Blob -> nat, keys: seq<Blob>): seq<nat> { Dedup(SortStripes(StripesOf(stripe, keys))) }

  ghost predicate Nondecreasing(s: seq<nat>) { forall i, j :: 0 <= i < j < |s| ==> s[i] <= s[j] }

  ghost predicate Increasing(s: seq<nat>) { forall i, j :: 0 <= i < j < |s| ==> s[i] < s[j] }

  lemma {:induction false} InsertSorts(x: nat, s: seq<nat>)
    requires Nondecreasing(s)
    ensures Nondecreasing(Insert(x, s))
    ensures forall y :: y in Insert(x, s) <==> y == x || y in s
  {
    if s != [] && x > s[0] {
      var r := Insert(x, s[1..]);
      InsertSorts(x, s[1..]);
      assert forall y :: y in s <==> y == s[0] || y in s[1..];
      forall j | 0 <= j < |r| ensures s[0] <= r[j] { assert r[j] in r; }
    }
  }

  lemma {:induction false} SortSorts(s: seq<nat>)
    ensures Nondecreasing(SortStripes(s))
    ensures forall y :: y in SortStripes(s) <==> y in s
  {
    if s != [] {
      SortSorts(s[1..]);
      InsertSorts(s[0], SortStripes(s[1..]));
      assert forall y :: y in s <==> y == s[0] || y in s[1..];
    }
  }

  lemma {:induction false} DedupStrict(s: seq<nat>)
    requires Nondecreasing(s)
    ensures Increasing(Dedup(s)) && forall x :: x in Dedup(s) <==> x in s
  {
    if |s| >= 2 {
      DedupStrict(s[1..]);
      if s[0] != s[1] {
        var r := Dedup(s[1..]);
        forall y | y in r ensures s[0] < y { var j :| 0 <= j < |s[1..]| && s[1..][j] == y; assert s[1] <= s[j + 1]; }
        assert forall j :: 0 < j < |Dedup(s)| ==> Dedup(s)[j] in r;
      }
      assert forall x :: x in s <==> x == s[0] || x in s[1..];
    }
  }

  /** The lock order is strictly ascending and names each needed stripe once. */
  lemma StripePlanAscends(stripe: Blob -> nat, keys: seq<Blob>)
    ensures Increasing(StripePlan(stripe, keys))
    ensures forall x :: x in StripePlan(stripe, keys) <==> exists i :: 0 <= i < |keys| && stripe(keys[i]) == x
  {
    var raw := StripesOf(stripe, keys);
    SortSorts(raw);
    DedupStrict(SortStripes(raw));
    forall x ensures x in StripePlan(stripe, keys) <==> exists i :: 0 <= i < |keys| && stripe(keys[i]) == x {
      if x in raw { var i :| 0 <= i < |raw| && raw[i] == x; assert stripe(keys[i]) == x; }
      if i :| 0 <= i < |keys| && stripe(keys[i]) == x { assert raw[i] == x; }
    }
  }
}
