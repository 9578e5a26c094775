/** Byte strings under the lexicographic order in which the storage engine keeps its keys. */
module Bytes {
  type Byte = x: int | 0 <= x < 256

  type Blob = seq<Byte>

  /** `a` sorts strictly before `b`, byte by byte, a proper prefix first. */
  predicate Less(a: Blob, b: Blob) {
    b != [] && (a == [] || a[0] < b[0] || (a[0] == b[0] && Less(a[1..], b[1..])))
  }

  lemma {:induction false} LessIrreflexive(a: Blob)
    ensures !Less(a, a)
  {
    if a != [] { LessIrreflexive(a[1..]); }
  }

  lemma {:induction false} LessTransitive(a: Blob, b: Blob, c: Blob)
    requires Less(a, b) && Less(b, c)
    ensures Less(a, c)
  {
    if a != [] && a[0] == b[0] == c[0] { LessTransitive(a[1..], b[1..], c[1..]); }
  }

  lemma {:induction false} LessTotal(a: Blob, b: Blob)
    ensures a == b || Less(a, b) || Less(b, a)
  {
    if a != [] && b != [] && a[0] == b[0] {
      LessTotal(a[1..], b[1..]);
      if a[1..] == b[1..] { assert a == [a[0]] + a[1..] == b; }
    }
  }

  lemma LessAsymmetric(a: Blob, b: Blob)
    requires Less(a, b)
    ensures !Less(b, a) && a != b
  {
    LessIrreflexive(a);
    if Less(b, a) { LessTransitive(a, b, a); }
  }

  /** A shared head does not take part in the comparison. */
  lemma {:induction false} LessAfterSharedHead(p: Blob, a: Blob, b: Blob)
    ensures Less(p + a, p + b) <==> Less(a, b)
  {
    if p == [] {
      assert p + a == a && p + b == b;
    } else {
      assert (p + a)[1..] == p[1..] + a && (p + b)[1..] == p[1..] + b;
      LessAfterSharedHead(p[1..], a, b);
    }
  }

  /** Heads of equal length decide the comparison as soon as they differ. */
  lemma {:induction false} LessByDistinctHeads(p: Blob, q: Blob, a: Blob, b: Blob)
    requires |p| == |q| && p != q
    ensures Less(p + a, q + b) <==> Less(p, q)
  {
    assert (p + a)[0] == p[0] && (q + b)[0] == q[0];
    assert (p + a)[1..] == p[1..] + a && (q + b)[1..] == q[1..] + b;
    if p[0] == q[0] {
      assert p == [p[0]] + p[1..] && q == [q[0]] + q[1..];
      LessByDistinctHeads(p[1..], q[1..], a, b);
    }
  }

  ghost predicate StrictlyAscending(s: seq<Blob>) {
    forall i, j :: 0 <= i < j < |s| ==> Less(s[i], s[j])
  }
}

/** Ordered iteration over a keyspace snapshot. */
module Keyspaces {
  import opened Bytes

  predicate IsLeast(x: Blob, s: set<Blob>) {
    x in s && forall y :: y in s && y != x ==> Less(x, y)
  }

  lemma {:induction false} LeastExists(s: set<Blob>)
    requires s != {}
    ensures exists x :: IsLeast(x, s)
  {
    var y :| y in s;
    if s == {y} {
      assert IsLeast(y, s);
    } else {
      var r := s - {y};
      LeastExists(r);
      var x :| IsLeast(x, r);
      LessTotal(x, y);
      if Less(x, y) {
        assert IsLeast(x, s);
      } else {
        forall z | z in s && z != y ensures Less(y, z) {
          if z != x { LessTransitive(y, x, z); }
        }
        assert IsLeast(y, s);
      }
    }
  }

  lemma LeastUnique(s: set<Blob>)
    ensures forall x, y :: IsLeast(x, s) && IsLeast(y, s) ==> x == y
  {
    forall x, y | IsLeast(x, s) && IsLeast(y, s) ensures x == y {
      if x != y { LessAsymmetric(x, y); }
    }
  }

  /** The key at which an iterator over `s` starts. */
  function Least(s: set<Blob>): (x: Blob)
    requires s != {}
    ensures IsLeast(x, s)
  {
    LeastExists(s);
    LeastUnique(s);
    var x :| x in s && IsLeast(x, s);
    x
  }

  /** Keys of a snapshot in the order an iterator yields them. */
  function Sorted(s: set<Blob>): (ks: seq<Blob>)
    ensures forall k :: k in ks <==> k in s
    ensures |ks| == |s|
  {
    if s == {} then [] else var x := Least(s); [x] + Sorted(s - {x})
  }

  lemma {:induction false} SortedAscends(s: set<Blob>)
    ensures StrictlyAscending(Sorted(s))
  {
    if s != {} {
      var x := Least(s);
      SortedAscends(s - {x});
      var ks, rest := Sorted(s), Sorted(s - {x});
      forall i, j | 0 <= i < j < |ks| ensures Less(ks[i], ks[j]) {
        assert ks[j] == rest[j - 1] && rest[j - 1] in rest;
        if i > 0 { assert ks[i] == rest[i - 1]; }
      }
    }
  }
}
