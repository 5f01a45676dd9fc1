/** Order-preserving filters, enumerations of sets, and the counting facts about them
    that the rule engine's proofs share. */
module Sequences {

  datatype Option<+T> = None | Some(value: T)

  /** The loop `for x in s { if p(x) { out = append(out, x) } }`. */
  function Filter<T(!new)>(s: seq<T>, p: T -> bool): seq<T> {
    if |s| == 0 then []
    else
      var init, last := s[..|s| - 1], s[|s| - 1];
      if p(last) then Filter(init, p) + [last] else Filter(init, p)
  }

  lemma {:induction false} FilterElements<T(!new)>(s: seq<T>, p: T -> bool)
    ensures |Filter(s, p)| <= |s|
    ensures forall x :: x in Filter(s, p) <==> x in s && p(x)
  {
    if |s| != 0 {
      FilterElements(s[..|s| - 1], p);
    }
  }

  lemma {:induction false} FilterConcat<T(!new)>(a: seq<T>, b: seq<T>, p: T -> bool)
    ensures Filter(a + b, p) == Filter(a, p) + Filter(b, p)
  {
    if |b| == 0 {
      assert a + b == a;
    } else {
      assert (a + b)[..|a + b| - 1] == a + b[..|b| - 1];
      FilterConcat(a, b[..|b| - 1], p);
    }
  }

  lemma FilterSnoc<T(!new)>(s: seq<T>, x: T, p: T -> bool)
    ensures Filter(s + [x], p) == if p(x) then Filter(s, p) + [x] else Filter(s, p)
  {
    assert (s + [x])[..|s|] == s;
  }

  lemma FilterOne<T(!new)>(x: T, p: T -> bool)
    ensures Filter([x], p) == if p(x) then [x] else []
  {
    FilterSnoc([], x, p);
    assert [] + [x] == [x];
  }

  lemma {:induction false} FilterCommute<T(!new)>(s: seq<T>, p: T -> bool, q: T -> bool)
    ensures Filter(Filter(s, p), q) == Filter(Filter(s, q), p)
  {
    if |s| != 0 {
      var init, last := s[..|s| - 1], s[|s| - 1];
      FilterCommute(init, p, q);
      FilterSnoc(Filter(init, p), last, q);
      FilterSnoc(Filter(init, q), last, p);
    }
  }

  /** Filtering by a weaker predicate first makes no difference. */
  lemma {:induction false} FilterImplied<T(!new)>(s: seq<T>, p: T -> bool, q: T -> bool)
    requires forall x :: x in s && q(x) ==> p(x)
    ensures Filter(Filter(s, p), q) == Filter(s, q)
  {
    if |s| != 0 {
      var init, last := s[..|s| - 1], s[|s| - 1];
      FilterImplied(init, p, q);
      FilterSnoc(Filter(init, p), last, q);
    }
  }

  lemma {:induction false} FilterAgree<T(!new)>(s: seq<T>, p: T -> bool, q: T -> bool)
    requires forall x :: x in s ==> p(x) == q(x)
    ensures Filter(s, p) == Filter(s, q)
  {
    if |s| != 0 {
      FilterAgree(s[..|s| - 1], p, q);
    }
  }

  lemma {:induction false} FilterAll<T(!new)>(s: seq<T>, p: T -> bool)
    requires forall x :: x in s ==> p(x)
    ensures Filter(s, p) == s
  {
    if |s| != 0 {
      FilterAll(s[..|s| - 1], p);
    }
  }

  lemma {:induction false} FilterNone<T(!new)>(s: seq<T>, p: T -> bool)
    requires forall x :: x in s ==> !p(x)
    ensures Filter(s, p) == []
  {
    if |s| != 0 {
      FilterNone(s[..|s| - 1], p);
    }
  }

  lemma {:induction false} FilterCounts<T(!new)>(s: seq<T>, p: T -> bool, x: T)
    ensures multiset(Filter(s, p))[x] == if p(x) then multiset(s)[x] else 0
  {
    if |s| != 0 {
      var init, last := s[..|s| - 1], s[|s| - 1];
      FilterCounts(init, p, x);
      assert s == init + [last];
    }
  }

  /** More elements, in any positions and any order, never give fewer hits. */
  lemma FilterMonotone<T(!new)>(a: seq<T>, b: seq<T>, p: T -> bool)
    requires multiset(a) <= multiset(b)
    ensures multiset(Filter(a, p)) <= multiset(Filter(b, p))
    ensures |Filter(a, p)| <= |Filter(b, p)|
  {
    var fa, fb := multiset(Filter(a, p)), multiset(Filter(b, p));
    forall x ensures fa[x] <= fb[x] {
      FilterCounts(a, p, x);
      FilterCounts(b, p, x);
    }
    assert fb == fa + (fb - fa);
    assert |fa| == |Filter(a, p)| && |fb| == |Filter(b, p)|;
  }

  predicate Distinct<T(==)>(s: seq<T>) {
    forall i, j :: 0 <= i < j < |s| ==> s[i] != s[j]
  }

  /** `o` is one of the orders in which Go may range over a map with key set `s`. */
  ghost predicate Enumerates<T(!new)>(o: seq<T>, s: set<T>) {
    && Distinct(o)
    && forall x :: x in o <==> x in s
  }

  lemma EnumeratesOne<T(!new)>(x: T)
    ensures Enumerates([x], {x})
  {
  }

  lemma {:induction false} FilterDistinct<T(!new)>(s: seq<T>, p: T -> bool)
    requires Distinct(s)
    ensures Distinct(Filter(s, p))
  {
    if |s| != 0 {
      FilterDistinct(s[..|s| - 1], p);
      FilterElements(s[..|s| - 1], p);
    }
  }

  lemma {:induction false} Enumerate<T(!new)>(s: set<T>) returns (o: seq<T>)
    ensures Enumerates(o, s)
    decreases |s|
  {
    if s == {} {
      o := [];
    } else {
      var x :| x in s;
      o := Enumerate(s - {x});
      o := o + [x];
    }
  }

  /** One may range over a map starting with any of its keys. */
  lemma EnumerateFrom<T(!new)>(s: set<T>, first: T) returns (o: seq<T>)
    requires first in s
    ensures Enumerates(o, s) && o[0] == first
  {
    o := Enumerate(s - {first});
    o := [first] + o;
  }

  function FlatMap<T, U>(s: seq<T>, f: T -> seq<U>): seq<U> {
    if |s| == 0 then [] else FlatMap(s[..|s| - 1], f) + f(s[|s| - 1])
  }

  lemma {:induction false} FlatMapConcat<T, U>(a: seq<T>, b: seq<T>, f: T -> seq<U>)
    ensures FlatMap(a + b, f) == FlatMap(a, f) + FlatMap(b, f)
  {
    if |b| == 0 {
      assert a + b == a;
    } else {
      assert (a + b)[..|a + b| - 1] == a + b[..|b| - 1];
      FlatMapConcat(a, b[..|b| - 1], f);
    }
  }

  lemma FlatMapHead<T, U>(s: seq<T>, f: T -> seq<U>)
    requires |s| > 0
    ensures FlatMap(s, f) == f(s[0]) + FlatMap(s[1..], f)
  {
    assert s == [s[0]] + s[1..];
    FlatMapConcat([s[0]], s[1..], f);
    assert [s[0]][..0] == [] && [] + f(s[0]) == f(s[0]);
  }

  function MapSeq<T, U>(s: seq<T>, f: T -> U): seq<U> {
    if |s| == 0 then [] else [f(s[0])] + MapSeq(s[1..], f)
  }

  lemma MapSeqCons<T, U>(x: T, s: seq<T>, f: T -> U)
    ensures MapSeq([x] + s, f) == [f(x)] + MapSeq(s, f)
  {
    assert ([x] + s)[1..] == s;
  }

  lemma {:induction false} MapSeqAt<T, U>(s: seq<T>, f: T -> U)
    ensures |MapSeq(s, f)| == |s| && forall i :: 0 <= i < |s| ==> MapSeq(s, f)[i] == f(s[i])
  {
    if |s| != 0 {
      MapSeqAt(s[1..], f);
      assert forall i :: 1 <= i < |s| ==> MapSeq(s, f)[i] == MapSeq(s[1..], f)[i - 1] && s[i] == s[1..][i - 1];
    }
  }
}
