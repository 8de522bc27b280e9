/** What the standard sorting algorithms promise, and when that pins the result down. */
module Ordering {

  ghost predicate TotalPreorder<T(!new)>(le: (T, T) -> bool) {
    && (forall x, y :: le(x, y) || le(y, x))
    && (forall x, y, z :: le(x, y) && le(y, z) ==> le(x, z))
  }

  ghost predicate Antisymmetric<T(!new)>(le: (T, T) -> bool) {
    forall x, y :: le(x, y) && le(y, x) ==> x == y
  }

  ghost predicate Sorted<T>(le: (T, T) -> bool, s: seq<T>) {
    forall i, j :: 0 <= i < j < |s| ==> le(s[i], s[j])
  }

  /** The elements of `s` that satisfy `keep`, in their order. */
  function Filter<T>(keep: T -> bool, s: seq<T>): seq<T> {
    if s == [] then []
    else (if keep(s[0]) then [s[0]] else []) + Filter(keep, s[1..])
  }

  lemma {:induction false} FilterLast<T>(keep: T -> bool, s: seq<T>, x: T)
    ensures Filter(keep, s + [x]) == Filter(keep, s) + if keep(x) then [x] else []
  {
    if s != [] {
      assert (s + [x])[0] == s[0] && (s + [x])[1..] == s[1..] + [x];
      FilterLast(keep, s[1..], x);
    }
  }

  /** Puts `x` before the first element it does not exceed, so ties keep their order. */
  function Insert<T>(le: (T, T) -> bool, x: T, s: seq<T>): (r: seq<T>)
    ensures multiset(r) == multiset{x} + multiset(s)
  {
    if s == [] || le(x, s[0]) then [x] + s
    else
      assert s == [s[0]] + s[1..];
      [s[0]] + Insert(le, x, s[1..])
  }

  lemma {:induction false} InsertSorted<T(!new)>(le: (T, T) -> bool, x: T, s: seq<T>)
    requires TotalPreorder(le) && Sorted(le, s)
    ensures Sorted(le, Insert(le, x, s))
  {
    if s == [] {
    } else if le(x, s[0]) {
      forall i | 0 <= i < |s| ensures le(x, s[i]) {
        assert i > 0 ==> le(s[0], s[i]);
      }
    } else {
      InsertSorted(le, x, s[1..]);
      var rest := Insert(le, x, s[1..]);
      assert le(s[0], x);
      forall i | 0 <= i < |rest| ensures le(s[0], rest[i]) {
        assert rest[i] in multiset(rest);
        assert rest[i] == x || rest[i] in s[1..];
      }
    }
  }

  function Sort<T>(le: (T, T) -> bool, s: seq<T>): (r: seq<T>)
    ensures multiset(r) == multiset(s)
    ensures |r| == |s|
  {
    if s == [] then []
    else
      assert s == [s[0]] + s[1..];
      var r := Insert(le, s[0], Sort(le, s[1..]));
      assert |r| == |multiset(r)|;
      r
  }

  lemma {:induction false} SortSorted<T(!new)>(le: (T, T) -> bool, s: seq<T>)
    requires TotalPreorder(le)
    ensures Sorted(le, Sort(le, s))
  {
    if s != [] {
      SortSorted(le, s[1..]);
      InsertSorted(le, s[0], Sort(le, s[1..]));
    }
  }

  /** Elements that tie with `k` come out in the order they went in. */
  lemma SortStable<T(!new)>(le: (T, T) -> bool, s: seq<T>, k: T)
    requires TotalPreorder(le)
    ensures Filter(Ties(le, k), Sort(le, s)) == Filter(Ties(le, k), s)
  {
    forall x, y | Ties(le, k)(x) && Ties(le, k)(y) ensures le(x, y) {
    }
    SortKeepsOrder(le, s, Ties(le, k));
  }

  function Ties<T>(le: (T, T) -> bool, k: T): T -> bool {
    x => le(x, k) && le(k, x)
  }

  lemma {:induction false} SortKeepsOrder<T(!new)>(le: (T, T) -> bool, s: seq<T>, tie: T -> bool)
    requires forall x, y :: tie(x) && tie(y) ==> le(x, y)
    ensures Filter(tie, Sort(le, s)) == Filter(tie, s)
  {
    if s != [] {
      SortKeepsOrder(le, s[1..], tie);
      InsertKeepsOrder(le, s[0], Sort(le, s[1..]), tie);
    }
  }

  lemma {:induction false} InsertKeepsOrder<T(!new)>(le: (T, T) -> bool, x: T, s: seq<T>, tie: T -> bool)
    requires forall y :: tie(x) && tie(y) ==> le(x, y)
    ensures Filter(tie, Insert(le, x, s)) == (if tie(x) then [x] else []) + Filter(tie, s)
  {
    if s == [] || le(x, s[0]) {
      FilterFirst(tie, x, s);
    } else {
      InsertKeepsOrder(le, x, s[1..], tie);
      FilterFirst(tie, s[0], Insert(le, x, s[1..]));
    }
  }

  lemma FilterFirst<T>(keep: T -> bool, x: T, s: seq<T>)
    ensures Filter(keep, [x] + s) == (if keep(x) then [x] else []) + Filter(keep, s)
  {
    assert ([x] + s)[1..] == s;
  }

  /** Under a total order a multiset has one sorted arrangement. */
  lemma {:induction false} SortedUnique<T(!new)>(le: (T, T) -> bool, s: seq<T>, t: seq<T>)
    requires TotalPreorder(le) && Antisymmetric(le)
    requires Sorted(le, s) && Sorted(le, t)
    requires multiset(s) == multiset(t)
    ensures s == t
  {
    if s == [] {
      assert |multiset(t)| == |t|;
    } else {
      assert |multiset(s)| == |s| && |multiset(t)| == |t|;
      assert s[0] in multiset(t) && t[0] in multiset(s);
      LeastFirst(le, s, t[0]);
      LeastFirst(le, t, s[0]);
      assert s[0] == t[0];
      assert s == [s[0]] + s[1..] && t == [t[0]] + t[1..];
      assert multiset(s[1..]) == multiset(s) - multiset{s[0]};
      assert multiset(t[1..]) == multiset(t) - multiset{t[0]};
      SortedUnique(le, s[1..], t[1..]);
    }
  }

  lemma LeastFirst<T(!new)>(le: (T, T) -> bool, s: seq<T>, x: T)
    requires TotalPreorder(le) && Sorted(le, s) && x in s
    ensures le(s[0], x)
  {
    var i :| 0 <= i < |s| && s[i] == x;
    assert le(s[0], s[0]);
    assert i > 0 ==> le(s[0], s[i]);
  }

  predicate IntLe(a: int, b: int) { a <= b }

  predicate StrictlyIncreasing(s: seq<int>) {
    forall i, j :: 0 <= i < j < |s| ==> s[i] < s[j]
  }

  function SetOf<T>(s: seq<T>): set<T> {
    set x | x in s
  }

  /** std::unique followed by erase: drops every element equal to the one before it. */
  function Unique<T(==,!new)>(s: seq<T>): (r: seq<T>)
    ensures forall x :: x in r <==> x in s
    ensures s != [] ==> r != [] && r[0] == s[0]
  {
    if |s| < 2 then s
    else if s[0] == s[1] then Unique(s[1..])
    else [s[0]] + Unique(s[1..])
  }

  /** The sort-then-unique idiom applied to owner lists. */
  function SortUnique(s: seq<int>): seq<int> {
    Unique(Sort(IntLe, s))
  }

  /** Under a total order, removing neighbours from a sorted list leaves each value once, in ascending order. */
  lemma {:induction false} UniqueStrict<T(!new)>(le: (T, T) -> bool, s: seq<T>)
    requires TotalPreorder(le) && Antisymmetric(le) && Sorted(le, s)
    ensures Ascending(le, Unique(s))
  {
    if |s| >= 2 {
      UniqueStrict(le, s[1..]);
      var rest := Unique(s[1..]);
      if s[0] != s[1] {
        forall j | 0 <= j < |rest| ensures le(s[0], rest[j]) && s[0] != rest[j] {
          assert le(s[0], s[1]);
          assert j > 0 ==> le(rest[0], rest[j]);
        }
      }
    }
  }

  ghost predicate Ascending<T>(le: (T, T) -> bool, s: seq<T>) {
    forall i, j :: 0 <= i < j < |s| ==> le(s[i], s[j]) && s[i] != s[j]
  }

  /** Sorting and removing neighbours keeps the values and lists each of them once. */
  lemma SortThenUnique<T(!new)>(le: (T, T) -> bool, s: seq<T>)
    requires TotalPreorder(le) && Antisymmetric(le)
    ensures Ascending(le, Unique(Sort(le, s)))
    ensures forall x :: x in Unique(Sort(le, s)) <==> x in s
  {
    SortSorted(le, s);
    UniqueStrict(le, Sort(le, s));
    forall x ensures x in Sort(le, s) <==> x in s {
      assert x in Sort(le, s) <==> x in multiset(Sort(le, s));
      assert x in s <==> x in multiset(s);
    }
  }

  /** For integers that is the strictly increasing list of the same values. */
  lemma SortUniqueCorrect(s: seq<int>)
    ensures StrictlyIncreasing(SortUnique(s))
    ensures SetOf(SortUnique(s)) == SetOf(s)
  {
    SortThenUnique(IntLe, s);
    assert forall i, j :: 0 <= i < j < |SortUnique(s)| ==> IntLe(SortUnique(s)[i], SortUnique(s)[j]);
  }

  /** A set of integers has one strictly increasing listing. */
  lemma {:induction false} StrictlyIncreasingUnique(s: seq<int>, t: seq<int>)
    requires StrictlyIncreasing(s) && StrictlyIncreasing(t)
    requires SetOf(s) == SetOf(t)
    ensures s == t
  {
    assert t != [] ==> t[0] in SetOf(t);
    if s != [] {
      assert s[0] in SetOf(s) && s[0] in t;
      assert t[0] in SetOf(t) && t[0] in s;
      var i :| 0 <= i < |t| && t[i] == s[0];
      var j :| 0 <= j < |s| && s[j] == t[0];
      assert s[0] == t[0];
      forall x ensures x in SetOf(s[1..]) <==> x in SetOf(s) && x != s[0] {
        assert x in s <==> x == s[0] || x in s[1..];
      }
      forall x ensures x in SetOf(t[1..]) <==> x in SetOf(t) && x != t[0] {
        assert x in t <==> x == t[0] || x in t[1..];
      }
      StrictlyIncreasingUnique(s[1..], t[1..]);
    }
  }
}
