/** Python's stable sort, as insertion sort, and what pins it down. */
module StableSort {
  import opened Common

  ghost predicate TotalPreorder<T(!new)>(le: (T, T) -> bool) {
    && (forall x, y :: le(x, y) || le(y, x))
    && (forall x, y, z :: le(x, y) && le(y, z) ==> le(x, z))
  }

  ghost predicate Sorted<T>(le: (T, T) -> bool, s: seq<T>) {
    forall i, j :: 0 <= i < j < |s| ==> le(s[i], s[j])
  }

  function Insert<T>(le: (T, T) -> bool, x: T, s: seq<T>): seq<T> {
    if s == [] || le(x, s[0]) then [x] + s else [s[0]] + Insert(le, x, s[1..])
  }

  function Sort<T>(le: (T, T) -> bool, s: seq<T>): seq<T> {
    if s == [] then [] else Insert(le, s[0], Sort(le, s[1..]))
  }

  /** The elements that tie with x, in order. */
  function Ties<T>(le: (T, T) -> bool, x: T, s: seq<T>): seq<T> {
    if s == [] then []
    else (if le(x, s[0]) && le(s[0], x) then [s[0]] else []) + Ties(le, x, s[1..])
  }

  lemma {:induction false} InsertPermutes<T>(le: (T, T) -> bool, x: T, s: seq<T>)
    ensures multiset(Insert(le, x, s)) == multiset{x} + multiset(s)
  {
    if s != [] && !le(x, s[0]) {
      InsertPermutes(le, x, s[1..]);
      assert s == [s[0]] + s[1..];
    }
  }

  lemma {:induction false} SortPermutes<T>(le: (T, T) -> bool, s: seq<T>)
    ensures multiset(Sort(le, s)) == multiset(s)
  {
    if s != [] {
      SortPermutes(le, s[1..]);
      InsertPermutes(le, s[0], Sort(le, s[1..]));
      assert s == [s[0]] + s[1..];
    }
  }

  lemma {:induction false} InsertSorts<T(!new)>(le: (T, T) -> bool, x: T, s: seq<T>)
    requires TotalPreorder(le) && Sorted(le, s)
    ensures Sorted(le, Insert(le, x, s))
  {
    if s != [] && !le(x, s[0]) {
      var rest := Insert(le, x, s[1..]);
      InsertSorts(le, x, s[1..]);
      InsertPermutes(le, x, s[1..]);
      forall y | y in rest ensures le(s[0], y) {
        assert y in multiset(rest);
        assert y == x || y in s[1..];
      }
    }
  }

  lemma {:induction false} SortSorts<T(!new)>(le: (T, T) -> bool, s: seq<T>)
    requires TotalPreorder(le)
    ensures Sorted(le, Sort(le, s))
  {
    if s != [] {
      SortSorts(le, s[1..]);
      InsertSorts(le, s[0], Sort(le, s[1..]));
    }
  }

  lemma {:induction false} InsertKeepsTies<T(!new)>(le: (T, T) -> bool, y: T, x: T, s: seq<T>)
    requires TotalPreorder(le)
    ensures Ties(le, y, Insert(le, x, s)) == Ties(le, y, [x] + s)
  {
    assert ([x] + s)[1..] == s;
    if s != [] && !le(x, s[0]) {
      InsertKeepsTies(le, y, x, s[1..]);
      var t := Insert(le, x, s);
      assert t[1..] == Insert(le, x, s[1..]);
      assert ([x] + s[1..])[1..] == s[1..];
    }
  }

  /** Stability: elements that tie keep their order. */
  lemma {:induction false} SortIsStable<T(!new)>(le: (T, T) -> bool, y: T, s: seq<T>)
    requires TotalPreorder(le)
    ensures Ties(le, y, Sort(le, s)) == Ties(le, y, s)
  {
    if s != [] {
      SortIsStable(le, y, s[1..]);
      InsertKeepsTies(le, y, s[0], Sort(le, s[1..]));
      assert ([s[0]] + Sort(le, s[1..]))[1..] == Sort(le, s[1..]);
    }
  }

  lemma {:induction false} SortedIsFixed<T(!new)>(le: (T, T) -> bool, s: seq<T>)
    requires Sorted(le, s)
    ensures Sort(le, s) == s
  {
    if s != [] {
      SortedIsFixed(le, s[1..]);
      assert |s| > 1 ==> s[1..][0] == s[1];
      assert s == [s[0]] + s[1..];
    }
  }

  lemma SortIsIdempotent<T(!new)>(le: (T, T) -> bool, s: seq<T>)
    requires TotalPreorder(le)
    ensures Sort(le, Sort(le, s)) == Sort(le, s)
  {
    SortSorts(le, s);
    SortedIsFixed(le, Sort(le, s));
  }

  lemma {:induction false} TiesAreMembers<T>(le: (T, T) -> bool, y: T, s: seq<T>)
    ensures forall z :: z in Ties(le, y, s) <==> z in s && le(y, z) && le(z, y)
  {
    if s != [] {
      TiesAreMembers(le, y, s[1..]);
      assert s == [s[0]] + s[1..];
    }
  }

  lemma TiesFirst<T(!new)>(le: (T, T) -> bool, s: seq<T>)
    requires TotalPreorder(le) && s != []
    ensures Ties(le, s[0], s) != [] && Ties(le, s[0], s)[0] == s[0]
  {
    assert le(s[0], s[0]);
  }

  lemma SortedHeadIsLeast<T(!new)>(le: (T, T) -> bool, s: seq<T>, x: T)
    requires TotalPreorder(le) && Sorted(le, s) && x in s
    ensures s != [] && le(s[0], x)
  {
    assert le(x, x);
  }

  lemma TiesOfTails<T>(le: (T, T) -> bool, y: T, s: seq<T>, t: seq<T>)
    requires s != [] && t != [] && s[0] == t[0] && Ties(le, y, s) == Ties(le, y, t)
    ensures Ties(le, y, s[1..]) == Ties(le, y, t[1..])
  {
    var tie := if le(y, s[0]) && le(s[0], y) then [s[0]] else [];
    assert Ties(le, y, s) == tie + Ties(le, y, s[1..]) && Ties(le, y, t) == tie + Ties(le, y, t[1..]);
    assert Ties(le, y, s)[|tie|..] == Ties(le, y, s[1..]) && Ties(le, y, t)[|tie|..] == Ties(le, y, t[1..]);
  }

  lemma SameHead<T(!new)>(le: (T, T) -> bool, s: seq<T>, t: seq<T>)
    requires TotalPreorder(le) && Sorted(le, s) && Sorted(le, t) && s != []
    requires forall y :: Ties(le, y, s) == Ties(le, y, t)
    ensures t != [] && s[0] == t[0]
  {
    TiesFirst(le, s);
    TiesAreMembers(le, s[0], t);
    assert Ties(le, s[0], s)[0] in Ties(le, s[0], t);
    SortedHeadIsLeast(le, t, s[0]);
    TiesFirst(le, t);
    TiesAreMembers(le, t[0], s);
    assert Ties(le, t[0], t)[0] in Ties(le, t[0], s);
    SortedHeadIsLeast(le, s, t[0]);
    TiesAgree(le, s[0], t[0], t);
  }

  /** Two sorted lists whose ties agree are the same list: there is one stable sort. */
  lemma {:induction false} StableSortIsUnique<T(!new)>(le: (T, T) -> bool, s: seq<T>, t: seq<T>)
    requires TotalPreorder(le) && Sorted(le, s) && Sorted(le, t)
    requires forall y :: Ties(le, y, s) == Ties(le, y, t)
    ensures s == t
  {
    if s == [] {
      if t != [] { TiesFirst(le, t); }
    } else {
      SameHead(le, s, t);
      forall y ensures Ties(le, y, s[1..]) == Ties(le, y, t[1..]) {
        TiesOfTails(le, y, s, t);
      }
      StableSortIsUnique(le, s[1..], t[1..]);
      assert s == [s[0]] + s[1..] && t == [t[0]] + t[1..];
    }
  }

  lemma {:induction false} TiesAgree<T(!new)>(le: (T, T) -> bool, x: T, y: T, s: seq<T>)
    requires TotalPreorder(le) && le(x, y) && le(y, x)
    ensures Ties(le, x, s) == Ties(le, y, s)
  {
    if s != [] {
      TiesAgree(le, x, y, s[1..]);
    }
  }

  lemma {:induction false} CountsOfDistinct<T>(s: seq<T>)
    ensures Distinct(s) <==> forall x :: multiset(s)[x] <= 1
  {
    if s != [] {
      var rest := s[1..];
      CountsOfDistinct(rest);
      assert s == [s[0]] + rest;
      assert multiset(s) == multiset{s[0]} + multiset(rest);
      if Distinct(s) {
        assert s[0] !in rest;
        assert forall x :: multiset(s)[x] <= 1;
      }
      if forall x :: multiset(s)[x] <= 1 {
        assert multiset(s)[s[0]] == 1 + multiset(rest)[s[0]];
        assert forall x :: multiset(rest)[x] <= multiset(s)[x];
        assert s[0] !in rest;
      }
    }
  }

  lemma SortKeepsDistinct<T>(le: (T, T) -> bool, s: seq<T>)
    requires Distinct(s)
    ensures Distinct(Sort(le, s))
  {
    SortPermutes(le, s);
    CountsOfDistinct(s);
    CountsOfDistinct(Sort(le, s));
  }

  lemma SortKeepsMembers<T>(le: (T, T) -> bool, s: seq<T>)
    ensures forall x :: x in Sort(le, s) <==> x in s
  {
    SortPermutes(le, s);
    forall x ensures x in Sort(le, s) <==> x in s {
      assert x in multiset(s) <==> x in s;
      assert x in multiset(Sort(le, s)) <==> x in Sort(le, s);
    }
  }
}
