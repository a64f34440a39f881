/** A stable sort by a comparison, standing for Python's `sorted` and `list.sort`. */
module StableSort {

  ghost predicate TotalPreorder<T(!new)>(leq: (T, T) -> bool) {
    && (forall a, b :: leq(a, b) || leq(b, a))
    && (forall a, b, c :: leq(a, b) && leq(b, c) ==> leq(a, c))
  }

  /** No two different elements of `xs` tie. */
  ghost predicate TieFree<T>(leq: (T, T) -> bool, xs: seq<T>) {
    forall a, b | a in xs && b in xs :: leq(a, b) && leq(b, a) ==> a == b
  }

  ghost predicate Sorted<T>(leq: (T, T) -> bool, xs: seq<T>) {
    forall i, j | 0 <= i < j < |xs| :: leq(xs[i], xs[j])
  }

  /** Puts `x` before the first element it does not exceed, so that ties keep their order. */
  function Insert<T>(leq: (T, T) -> bool, x: T, ys: seq<T>): seq<T> {
    if |ys| == 0 then [x]
    else if leq(x, ys[0]) then [x] + ys
    else [ys[0]] + Insert(leq, x, ys[1..])
  }

  function SortBy<T>(leq: (T, T) -> bool, xs: seq<T>): seq<T> {
    if |xs| == 0 then [] else Insert(leq, xs[0], SortBy(leq, xs[1..]))
  }

  lemma {:induction false} InsertPermutes<T>(leq: (T, T) -> bool, x: T, ys: seq<T>)
    ensures multiset(Insert(leq, x, ys)) == multiset{x} + multiset(ys)
  {
    if |ys| != 0 && !leq(x, ys[0]) {
      InsertPermutes(leq, x, ys[1..]);
      assert ys == [ys[0]] + ys[1..];
    }
  }

  lemma {:induction false} SortByPermutes<T>(leq: (T, T) -> bool, xs: seq<T>)
    ensures multiset(SortBy(leq, xs)) == multiset(xs)
  {
    if |xs| != 0 {
      SortByPermutes(leq, xs[1..]);
      InsertPermutes(leq, xs[0], SortBy(leq, xs[1..]));
      assert xs == [xs[0]] + xs[1..];
    }
  }

  lemma SortKeepsMembers<T>(leq: (T, T) -> bool, xs: seq<T>, x: T)
    ensures x in SortBy(leq, xs) <==> x in xs
  {
    SortByPermutes(leq, xs);
    assert x in multiset(SortBy(leq, xs)) <==> x in multiset(xs);
  }

  lemma {:induction false} InsertSorts<T(!new)>(leq: (T, T) -> bool, x: T, ys: seq<T>)
    requires TotalPreorder(leq) && Sorted(leq, ys)
    ensures Sorted(leq, Insert(leq, x, ys))
  {
    if |ys| != 0 {
      if leq(x, ys[0]) {
        forall j | 0 <= j < |ys| ensures leq(x, ys[j]) {
          assert leq(ys[0], ys[j]);
        }
      } else {
        InsertSorts(leq, x, ys[1..]);
        InsertPermutes(leq, x, ys[1..]);
        var rest := Insert(leq, x, ys[1..]);
        forall j | 0 <= j < |rest| ensures leq(ys[0], rest[j]) {
          assert rest[j] in multiset(rest);
          assert rest[j] == x || rest[j] in ys[1..];
        }
      }
    }
  }

  lemma {:induction false} SortBySorts<T(!new)>(leq: (T, T) -> bool, xs: seq<T>)
    requires TotalPreorder(leq)
    ensures Sorted(leq, SortBy(leq, xs))
  {
    if |xs| != 0 {
      SortBySorts(leq, xs[1..]);
      InsertSorts(leq, xs[0], SortBy(leq, xs[1..]));
    }
  }

  lemma SortedHeadsAgree<T(!new)>(leq: (T, T) -> bool, s: seq<T>, t: seq<T>)
    requires multiset(s) == multiset(t) && |s| > 0
    requires Sorted(leq, s) && Sorted(leq, t)
    requires TotalPreorder(leq) && TieFree(leq, s)
    ensures |t| > 0 && s[0] == t[0]
  {
    assert s[0] in multiset(t);
    assert t[0] in multiset(s);
    var i :| 0 <= i < |s| && s[i] == t[0];
    var j :| 0 <= j < |t| && t[j] == s[0];
    assert leq(s[0], s[0]);
    assert leq(s[0], s[i]) && leq(t[0], t[j]);
    assert s[0] in s && s[i] in s;
  }

  lemma SortedRest<T>(leq: (T, T) -> bool, xs: seq<T>)
    requires Sorted(leq, xs) && |xs| > 0
    ensures Sorted(leq, xs[1..]) && (|xs| > 1 ==> leq(xs[0], xs[1..][0]))
    ensures TieFree(leq, xs) ==> TieFree(leq, xs[1..])
  {
    assert forall a | a in xs[1..] :: a in xs;
  }

  lemma SameRest<T>(s: seq<T>, t: seq<T>)
    requires |s| > 0 && |t| > 0 && s[0] == t[0] && multiset(s) == multiset(t)
    ensures multiset(s[1..]) == multiset(t[1..])
    ensures s[1..] == t[1..] ==> s == t
  {
    assert s == [s[0]] + s[1..] && t == [t[0]] + t[1..];
    assert multiset(s[1..]) == multiset(s) - multiset{s[0]};
    assert multiset(t[1..]) == multiset(t) - multiset{s[0]};
  }

  lemma SameLength<T>(s: seq<T>, t: seq<T>)
    requires multiset(s) == multiset(t)
    ensures |s| == |t|
  {
    assert |multiset(s)| == |s| && |multiset(t)| == |t|;
  }

  /** Without ties, a sorted arrangement of given elements is unique. */
  lemma {:induction false} SortedIsUnique<T(!new)>(leq: (T, T) -> bool, s: seq<T>, t: seq<T>)
    requires multiset(s) == multiset(t)
    requires Sorted(leq, s) && Sorted(leq, t)
    requires TotalPreorder(leq) && TieFree(leq, s)
    ensures s == t
  {
    hide Sorted, TieFree, TotalPreorder;
    SameLength(s, t);
    if |s| != 0 {
      SortedHeadsAgree(leq, s, t);
      SameRest(s, t);
      SortedRest(leq, s);
      SortedRest(leq, t);
      SortedIsUnique(leq, s[1..], t[1..]);
    }
  }

  /** Sorting forgets the order of a tie-free input. */
  lemma SortForgetsOrder<T(!new)>(leq: (T, T) -> bool, xs: seq<T>, ys: seq<T>)
    requires multiset(xs) == multiset(ys)
    requires TotalPreorder(leq) && TieFree(leq, xs)
    ensures SortBy(leq, xs) == SortBy(leq, ys)
  {
    SortBySorts(leq, xs);
    SortBySorts(leq, ys);
    SortByPermutes(leq, xs);
    SortByPermutes(leq, ys);
    var s := SortBy(leq, xs);
    forall a | a in s ensures a in xs {
      assert a in multiset(s);
    }
    SortedIsUnique(leq, s, SortBy(leq, ys));
  }

  /** The first element of a sorted result is a minimum of the input. */
  lemma SortHeadIsMinimum<T(!new)>(leq: (T, T) -> bool, xs: seq<T>)
    requires TotalPreorder(leq) && |xs| > 0
    ensures |SortBy(leq, xs)| == |xs|
    ensures SortBy(leq, xs)[0] in xs
    ensures forall x | x in xs :: leq(SortBy(leq, xs)[0], x)
  {
    SortBySorts(leq, xs);
    SortByPermutes(leq, xs);
    var s := SortBy(leq, xs);
    assert |multiset(s)| == |multiset(xs)|;
    assert s[0] in multiset(xs);
    forall x | x in xs ensures leq(s[0], x) {
      assert x in multiset(s);
      assert leq(x, x);
    }
  }

  /** Sorting a sorted sequence leaves it alone. */
  lemma {:induction false} SortOfSorted<T>(leq: (T, T) -> bool, xs: seq<T>)
    requires Sorted(leq, xs)
    ensures SortBy(leq, xs) == xs
  {
    hide Sorted;
    if |xs| != 0 {
      SortedRest(leq, xs);
      SortOfSorted(leq, xs[1..]);
      assert Insert(leq, xs[0], xs[1..]) == [xs[0]] + xs[1..];
      assert xs == [xs[0]] + xs[1..];
    }
  }

  lemma InsertBeforeOrAfter<T>(leq: (T, T) -> bool, a: T, b: T)
    ensures Insert(leq, a, [b]) == if leq(a, b) then [a, b] else [b, a]
  {
    assert [b][1..] == [];
    assert [a] + [b] == [a, b] && [b] + [a] == [b, a];
  }

  lemma SortOfTwo<T>(leq: (T, T) -> bool, a: T, b: T)
    ensures SortBy(leq, [a, b]) == if leq(a, b) then [a, b] else [b, a]
  {
    assert [a, b][1..] == [b] && [b][1..] == [];
    InsertBeforeOrAfter(leq, a, b);
    assert SortBy(leq, [b]) == Insert(leq, b, SortBy(leq, [b][1..]));
    assert SortBy(leq, [b]) == [b];
  }
}
