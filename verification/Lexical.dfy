/** Three-way comparison, as std::tuple and the standard containers order their values. */
module Lexical {
  import opened Ordering
  import opened Sockets

  function CompareInt(a: int, b: int): int {
    if a < b then -1 else if a > b then 1 else 0
  }

  function CompareSeq(a: seq<int>, b: seq<int>): int {
    if a == [] then (if b == [] then 0 else -1)
    else if b == [] then 1
    else Then(CompareInt(a[0], b[0]), CompareSeq(a[1..], b[1..]))
  }

  function Then(first: int, second: int): int {
    if first != 0 then first else second
  }

  function Codes(s: string): (codes: seq<int>)
    ensures |codes| == |s|
  {
    seq(|s|, i requires 0 <= i < |s| => s[i] as int)
  }

  function ProtocolRank(p: Protocol): int { if p == Tcp then 0 else 1 }

  function FamilyRank(f: Family): int { if f == IPv4 then 0 else 1 }

  lemma {:induction false} CompareSeqSymmetric(a: seq<int>, b: seq<int>)
    ensures CompareSeq(a, b) == -CompareSeq(b, a)
    ensures CompareSeq(a, b) == 0 <==> a == b
  {
    if a != [] && b != [] {
      CompareSeqSymmetric(a[1..], b[1..]);
      assert a == [a[0]] + a[1..] && b == [b[0]] + b[1..];
    }
  }

  lemma {:induction false} CompareSeqTransitive(a: seq<int>, b: seq<int>, c: seq<int>)
    requires CompareSeq(a, b) <= 0 && CompareSeq(b, c) <= 0
    ensures CompareSeq(a, c) <= 0
  {
    if a != [] && b != [] && c != [] && a[0] == b[0] == c[0] {
      CompareSeqTransitive(a[1..], b[1..], c[1..]);
    }
  }

  /** The order of sequences: a prefix comes first, otherwise the first difference decides. */
  lemma {:induction false} CompareSeqExactly(a: seq<int>, b: seq<int>)
    ensures CompareSeq(a, b) <= 0
       <==> a <= b || exists k :: 0 <= k < |a| && k < |b| && a[..k] == b[..k] && a[k] < b[k]
  {
    if a != [] && b != [] && a[0] == b[0] {
      CompareSeqExactly(a[1..], b[1..]);
      assert a == [a[0]] + a[1..] && b == [b[0]] + b[1..];
      if k :| 0 <= k < |a| && k < |b| && a[..k] == b[..k] && a[k] < b[k] {
        assert k > 0 && a[1..][..k - 1] == a[..k][1..] && b[1..][..k - 1] == b[..k][1..];
        assert a[1..][k - 1] < b[1..][k - 1];
      }
      if k :| 0 <= k < |a[1..]| && k < |b[1..]| && a[1..][..k] == b[1..][..k] && a[1..][k] < b[1..][k] {
        assert a[..k + 1] == [a[0]] + a[1..][..k] && b[..k + 1] == [b[0]] + b[1..][..k];
        assert a[k + 1] < b[k + 1];
      }
    } else if a != [] && b != [] {
      if a[0] < b[0] { assert a[..0] == b[..0]; }
      if k :| 0 <= k < |a| && k < |b| && a[..k] == b[..k] && a[k] < b[k] {
        SamePrefix(a, b, k);
      }
    }
  }

  lemma SamePrefix(a: seq<int>, b: seq<int>, k: nat)
    requires k <= |a| && k <= |b| && a[..k] == b[..k]
    ensures k > 0 ==> a[0] == b[0]
  {
    if k > 0 { assert a[..k][0] == b[..k][0]; }
  }

  lemma CodesInjective(a: string, b: string)
    requires Codes(a) == Codes(b)
    ensures a == b
  {
    forall i | 0 <= i < |a| ensures a[i] == b[i] {
      assert Codes(a)[i] == Codes(b)[i];
    }
  }

  predicate StringLe(a: string, b: string) {
    CompareSeq(Codes(a), Codes(b)) <= 0
  }

  /** std::string's order: a prefix comes first, otherwise the first character that differs decides. */
  lemma StringLeExactly(a: string, b: string)
    ensures StringLe(a, b)
       <==> a <= b || exists k :: 0 <= k < |a| && k < |b| && a[..k] == b[..k] && a[k] < b[k]
  {
    var (x, y) := (Codes(a), Codes(b));
    CompareSeqExactly(x, y);
    if |a| <= |b| { CodesPrefix(a, b, |a|); }
    if k :| 0 <= k < |x| && k < |y| && x[..k] == y[..k] && x[k] < y[k] {
      CodesPrefix(a, b, k);
      assert a[k] < b[k];
    }
    if k :| 0 <= k < |a| && k < |b| && a[..k] == b[..k] && a[k] < b[k] {
      CodesPrefix(a, b, k);
      assert x[k] < y[k];
    }
  }

  lemma CodesPrefix(a: string, b: string, k: nat)
    requires k <= |a| && k <= |b|
    ensures Codes(a)[..k] == Codes(b)[..k] <==> a[..k] == b[..k]
  {
    assert Codes(a[..k]) == Codes(a)[..k] && Codes(b[..k]) == Codes(b)[..k];
    if Codes(a)[..k] == Codes(b)[..k] { CodesInjective(a[..k], b[..k]); }
  }

  /** std::string's order is total. */
  lemma StringOrder()
    ensures TotalPreorder(StringLe) && Antisymmetric(StringLe)
  {
    forall a: string, b: string ensures StringLe(a, b) || StringLe(b, a) {
      CompareSeqSymmetric(Codes(a), Codes(b));
    }
    forall a: string, b: string | StringLe(a, b) && StringLe(b, a) ensures a == b {
      CompareSeqSymmetric(Codes(a), Codes(b));
      CodesInjective(a, b);
    }
    forall a: string, b: string, c: string | StringLe(a, b) && StringLe(b, c) ensures StringLe(a, c) {
      CompareSeqTransitive(Codes(a), Codes(b), Codes(c));
    }
  }
}
