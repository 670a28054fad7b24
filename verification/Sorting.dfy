/** Python's `sorted` with a key: a stable insertion sort under any total preorder. */
module Sorting {
  import opened Ids

  ghost predicate TotalPreorder<T(!new)>(le: (T, T) -> bool)
  {
    && (forall x, y :: le(x, y) || le(y, x))
    && (forall x, y, z :: le(x, y) && le(y, z) ==> le(x, z))
  }

  ghost predicate Ordered<T>(s: seq<T>, le: (T, T) -> bool)
  {
    forall i, j | 0 <= i < j < |s| :: le(s[i], s[j])
  }

  /** Insertion after everything that does not come strictly later. */
  function Insert<T>(x: T, s: seq<T>, le: (T, T) -> bool): (r: seq<T>)
    ensures |r| == |s| + 1
  {
    if s == [] || le(s[|s| - 1], x) then s + [x]
    else Insert(x, s[..|s| - 1], le) + [s[|s| - 1]]
  }

  function SortBy<T>(s: seq<T>, le: (T, T) -> bool): (r: seq<T>)
    ensures |r| == |s|
  {
    if s == [] then [] else Insert(s[|s| - 1], SortBy(s[..|s| - 1], le), le)
  }

  lemma {:induction false} InsertElements<T>(x: T, s: seq<T>, le: (T, T) -> bool)
    ensures multiset(Insert(x, s, le)) == multiset(s) + multiset{x}
  {
    if s != [] {
      var front := s[..|s| - 1];
      InsertElements(x, front, le);
      assert s == front + [s[|s| - 1]];
    }
  }

  /** Sorting rearranges. */
  lemma {:induction false} SortByElements<T>(s: seq<T>, le: (T, T) -> bool)
    ensures multiset(SortBy(s, le)) == multiset(s)
  {
    if s != [] {
      var front := s[..|s| - 1];
      SortByLast(s, le);
      hide SortBy, Insert;
      SortByElements(front, le);
      InsertElements(s[|s| - 1], SortBy(front, le), le);
      assert s == front + [s[|s| - 1]];
    }
  }

  lemma SortByMembers<T>(s: seq<T>, le: (T, T) -> bool)
    ensures forall x :: x in SortBy(s, le) <==> x in s
  {
    SortByElements(s, le);
    forall x ensures x in SortBy(s, le) <==> x in s {
      assert x in multiset(SortBy(s, le)) <==> x in multiset(s);
    }
  }

  lemma {:induction false} InsertOrdered<T(!new)>(x: T, s: seq<T>, le: (T, T) -> bool)
    requires TotalPreorder(le) && Ordered(s, le)
    ensures Ordered(Insert(x, s, le), le)
  {
    if s != [] {
      var front, last := s[..|s| - 1], s[|s| - 1];
      if le(last, x) {
        forall i | 0 <= i < |s| ensures le(s[i], x) {
          assert i == |s| - 1 || le(s[i], last);
        }
      } else {
        InsertOrdered(x, front, le);
        InsertElements(x, front, le);
        var r := Insert(x, front, le);
        forall y | y in r ensures le(y, last) {
          assert y in multiset(front) + multiset{x};
        }
      }
    }
  }

  /** Sorting orders. */
  lemma {:induction false} SortByOrdered<T(!new)>(s: seq<T>, le: (T, T) -> bool)
    requires TotalPreorder(le)
    ensures Ordered(SortBy(s, le), le)
  {
    if s != [] {
      var front := s[..|s| - 1];
      SortByOrdered(front, le);
      InsertOrdered(s[|s| - 1], SortBy(front, le), le);
    }
  }

  /** Sorting leaves what is in order alone. */
  lemma {:induction false} SortByFixed<T>(s: seq<T>, le: (T, T) -> bool)
    requires forall i | 0 <= i < |s| - 1 :: le(s[i], s[i + 1])
    ensures SortBy(s, le) == s
  {
    if s != [] {
      SortByFixed(s[..|s| - 1], le);
      if |s| > 1 { assert le(s[|s| - 2], s[|s| - 2 + 1]); }
    }
  }

  ghost predicate Precedes<T(!new)>(s: seq<T>, a: T, b: T)
  {
    exists i, j :: 0 <= i < j < |s| && s[i] == a && s[j] == b
  }

  lemma PrecedesInFront<T(!new)>(s: seq<T>, last: T, a: T, b: T)
    requires Precedes(s, a, b) || (a in s && b == last)
    ensures Precedes(s + [last], a, b)
  {
    var t := s + [last];
    if Precedes(s, a, b) {
      var i, j :| 0 <= i < j < |s| && s[i] == a && s[j] == b;
      assert t[i] == a && t[j] == b;
    } else {
      var i :| 0 <= i < |s| && s[i] == a;
      assert t[i] == a && t[|s|] == b;
    }
  }

  lemma PrecedesSplit<T(!new)>(s: seq<T>, a: T, b: T)
    requires Precedes(s, a, b)
    ensures s != []
    ensures var n := |s| - 1; Precedes(s[..n], a, b) || (a in s[..n] && b == s[n])
  {
    var i, j :| 0 <= i < j < |s| && s[i] == a && s[j] == b;
    var front := s[..|s| - 1];
    assert front[i] == a && (j < |front| ==> front[j] == b);
  }

  lemma InsertMembers<T(!new)>(x: T, s: seq<T>, le: (T, T) -> bool, a: T)
    ensures a in s ==> a in Insert(x, s, le)
  {
    InsertElements(x, s, le);
    assert a in s <==> a in multiset(s);
    assert a in Insert(x, s, le) <==> a in multiset(Insert(x, s, le));
  }

  /** An insertion keeps the order of what is there. */
  lemma {:induction false} InsertKeepsOrder<T(!new)>(x: T, s: seq<T>, le: (T, T) -> bool, a: T, b: T)
    requires Precedes(s, a, b)
    ensures Precedes(Insert(x, s, le), a, b)
  {
    var n := |s| - 1;
    PrecedesSplit(s, a, b);
    hide Precedes;
    if le(s[n], x) {
      PrecedesInFront(s, x, a, b);
    } else {
      InsertMembers(x, s[..n], le, a);
      if Precedes(s[..n], a, b) {
        InsertKeepsOrder(x, s[..n], le, a, b);
      }
      PrecedesInFront(Insert(x, s[..n], le), s[n], a, b);
    }
  }

  /** An insertion goes after everything that may come before it. */
  lemma {:induction false} InsertGoesAfter<T(!new)>(x: T, s: seq<T>, le: (T, T) -> bool, a: T)
    requires a in s && le(a, x)
    ensures Precedes(Insert(x, s, le), a, x)
  {
    var n := |s| - 1;
    if le(s[n], x) {
      PrecedesInFront(s, x, a, x);
    } else {
      assert s == s[..n] + [s[n]];
      InsertGoesAfter(x, s[..n], le, a);
      PrecedesInFront(Insert(x, s[..n], le), s[n], a, x);
    }
  }

  lemma SortByLast<T>(s: seq<T>, le: (T, T) -> bool)
    requires s != []
    ensures SortBy(s, le) == Insert(s[|s| - 1], SortBy(s[..|s| - 1], le), le)
  {
  }

  /** Sorting is stable: what comes first and may stay first does. */
  lemma {:induction false} SortByStable<T(!new)>(s: seq<T>, le: (T, T) -> bool, i: nat, j: nat)
    requires i < j < |s| && le(s[i], s[j])
    ensures Precedes(SortBy(s, le), s[i], s[j])
  {
    var n := |s| - 1;
    var front := s[..n];
    SortByLast(s, le);
    hide Insert, Precedes, SortBy;
    if j == n {
      SortByMembers(front, le);
      assert s[i] == front[i];
      InsertGoesAfter(s[n], SortBy(front, le), le, s[i]);
    } else {
      SortByStable(front, le, i, j);
      InsertKeepsOrder(s[n], SortBy(front, le), le, s[i], s[j]);
    }
  }

  ghost predicate Antisymmetric<T>(s: seq<T>, le: (T, T) -> bool)
  {
    forall x, y | x in s && y in s && le(x, y) && le(y, x) :: x == y
  }

  lemma SameLast<T(!new)>(s: seq<T>, t: seq<T>, le: (T, T) -> bool)
    requires TotalPreorder(le) && Antisymmetric(s, le) && Ordered(s, le) && Ordered(t, le)
    requires |s| == |t| > 0 && (forall x :: x in s <==> x in t)
    ensures s[|s| - 1] == t[|t| - 1]
  {
    var x, y := s[|s| - 1], t[|t| - 1];
    assert x in t && y in s;
    assert le(x, x) && le(y, y);
  }

  lemma SameMembers<T(!new)>(s: seq<T>, t: seq<T>)
    requires multiset(s) == multiset(t)
    ensures |s| == |t| && forall x :: x in s <==> x in t
  {
    assert |s| == |multiset(s)| == |multiset(t)| == |t|;
    forall x ensures x in s <==> x in t {
      assert x in multiset(s) <==> x in multiset(t);
    }
  }

  lemma FrontElements<T>(s: seq<T>)
    requires s != []
    ensures multiset(s[..|s| - 1]) == multiset(s) - multiset{s[|s| - 1]}
  {
    assert s == s[..|s| - 1] + [s[|s| - 1]];
  }

  lemma RemoveOne<T>(s: seq<T>, i: nat)
    requires i < |s|
    ensures multiset(s[..i] + s[i + 1..]) == multiset(s) - multiset{s[i]}
  {
    assert s == s[..i] + [s[i]] + s[i + 1..];
  }

  lemma FrontOrdered<T>(s: seq<T>, le: (T, T) -> bool)
    requires s != [] && Ordered(s, le)
    ensures Ordered(s[..|s| - 1], le)
    ensures Antisymmetric(s, le) ==> Antisymmetric(s[..|s| - 1], le)
  {
  }

  lemma SameFrontAndLast<T>(s: seq<T>, t: seq<T>)
    requires s != [] && t != [] && s[..|s| - 1] == t[..|t| - 1] && s[|s| - 1] == t[|t| - 1]
    ensures s == t
  {
    assert s == s[..|s| - 1] + [s[|s| - 1]];
    assert t == t[..|t| - 1] + [t[|t| - 1]];
  }

  /** Two orderings of the same elements agree when the order tells the elements apart. */
  lemma {:induction false} OrderedUnique<T(!new)>(s: seq<T>, t: seq<T>, le: (T, T) -> bool)
    requires TotalPreorder(le) && Antisymmetric(s, le)
    requires Ordered(s, le) && Ordered(t, le) && multiset(s) == multiset(t)
    ensures s == t
  {
    SameMembers(s, t);
    if s != [] {
      SameLast(s, t, le);
      FrontElements(s);
      FrontElements(t);
      FrontOrdered(s, le);
      FrontOrdered(t, le);
      hide Ordered, Antisymmetric, TotalPreorder;
      OrderedUnique(s[..|s| - 1], t[..|t| - 1], le);
      SameFrontAndLast(s, t);
    }
  }

  // ---------------------------------------------------------------- elements told apart by a key

  ghost predicate DistinctBy<T, K>(s: seq<T>, key: T -> K)
  {
    forall i, j | 0 <= i < j < |s| :: key(s[i]) != key(s[j])
  }

  ghost predicate AtMostOne<T(!new), K>(s: seq<T>, key: T -> K)
  {
    && (forall x :: multiset(s)[x] <= 1)
    && (forall x, y | x in s && y in s && key(x) == key(y) :: x == y)
  }

  lemma DistinctFront<T, K>(s: seq<T>, key: T -> K)
    requires s != []
    ensures DistinctBy(s, key) <==>
            DistinctBy(s[..|s| - 1], key) && forall x | x in s[..|s| - 1] :: key(x) != key(s[|s| - 1])
  {
    var front, last := s[..|s| - 1], s[|s| - 1];
    if DistinctBy(s, key) {
      forall i | 0 <= i < |front| ensures key(front[i]) != key(last) { assert key(s[i]) != key(s[|s| - 1]); }
    }
    if DistinctBy(front, key) && forall x | x in front :: key(x) != key(last) {
      forall i, j | 0 <= i < j < |s| ensures key(s[i]) != key(s[j]) {
        assert s[i] == front[i];
        if j < |front| { assert s[j] == front[j]; }
      }
    }
  }

  lemma AtMostOneFront<T(!new), K>(s: seq<T>, key: T -> K)
    requires s != []
    ensures AtMostOne(s, key) <==>
            AtMostOne(s[..|s| - 1], key) && forall x | x in s[..|s| - 1] :: key(x) != key(s[|s| - 1])
  {
    var front, last := s[..|s| - 1], s[|s| - 1];
    assert s == front + [last];
    assert multiset(s) == multiset(front) + multiset{last};
    if AtMostOne(s, key) {
      assert multiset(s)[last] <= 1 && multiset(s)[last] == multiset(front)[last] + 1;
      assert last !in front;
      forall x | x in front ensures key(x) != key(last) { assert x in s; }
      forall x ensures multiset(front)[x] <= 1 { assert multiset(s)[x] <= 1; }
    }
    if AtMostOne(front, key) && forall x | x in front :: key(x) != key(last) {
      assert last !in front;
      forall x ensures multiset(s)[x] <= 1 { assert multiset(front)[x] <= 1; }
    }
  }

  lemma {:induction false} DistinctIff<T(!new), K>(s: seq<T>, key: T -> K)
    ensures DistinctBy(s, key) <==> AtMostOne(s, key)
  {
    if s != [] {
      DistinctIff(s[..|s| - 1], key);
      DistinctFront(s, key);
      AtMostOneFront(s, key);
      hide DistinctBy, AtMostOne;
    }
  }

  /** Being told apart by a key does not depend on order. */
  lemma DistinctPermuted<T(!new), K>(s: seq<T>, t: seq<T>, key: T -> K)
    requires multiset(s) == multiset(t) && DistinctBy(s, key)
    ensures DistinctBy(t, key)
  {
    SameMembers(s, t);
    DistinctIff(s, key);
    DistinctIff(t, key);
    hide DistinctBy;
  }

  lemma SameElements<T(!new), K>(s: seq<T>, t: seq<T>, key: T -> K)
    requires DistinctBy(s, key) && DistinctBy(t, key) && forall x :: x in s <==> x in t
    ensures multiset(s) == multiset(t)
  {
    DistinctIff(s, key);
    DistinctIff(t, key);
    hide DistinctBy;
    forall x ensures multiset(s)[x] == multiset(t)[x] {
      assert x in s <==> x in t;
      assert x in s <==> x in multiset(s);
      assert x in t <==> x in multiset(t);
      assert multiset(s)[x] <= 1 && multiset(t)[x] <= 1;
    }
  }

  /** An ordered listing without repetition is determined by its elements. */
  lemma OrderedListing<T(!new), K>(s: seq<T>, t: seq<T>, key: T -> K, le: (T, T) -> bool)
    requires DistinctBy(s, key) && DistinctBy(t, key) && forall x :: x in s <==> x in t
    requires TotalPreorder(le) && Antisymmetric(s, le) && Ordered(s, le) && Ordered(t, le)
    ensures s == t
  {
    SameElements(s, t, key);
    OrderedUnique(s, t, le);
  }

  // ---------------------------------------------------------------- first occurrences

  predicate Distinct<T(==)>(s: seq<T>)
  {
    forall i, j | 0 <= i < j < |s| :: s[i] != s[j]
  }

  /** `list(dict.fromkeys(s))`. */
  function Unique<T(==,!new)>(s: seq<T>): (r: seq<T>)
    ensures forall x :: x in r <==> x in s
  {
    if s == [] then []
    else
      var front, last := Unique(s[..|s| - 1]), s[|s| - 1];
      assert s == s[..|s| - 1] + [last];
      if last in front then front else front + [last]
  }

  lemma {:induction false} UniqueDistinct<T(!new)>(s: seq<T>)
    ensures Distinct(Unique(s))
  {
    if s != [] {
      UniqueDistinct(s[..|s| - 1]);
    }
  }

  /** What is kept of a list: the positions where an element occurs first, in order. */
  ghost predicate FirstAt<T>(s: seq<T>, at: seq<nat>)
  {
    && (forall j, k | 0 <= j < k < |at| :: at[j] < at[k])
    && forall i: nat :: i in at <==> i < |s| && s[i] !in s[..i]
  }

  ghost predicate Picks<T>(s: seq<T>, at: seq<nat>, r: seq<T>)
  {
    |at| == |r| && forall k | 0 <= k < |at| :: at[k] < |s| && r[k] == s[at[k]]
  }

  lemma {:induction false} UniqueKeepsFirst<T(!new)>(s: seq<T>) returns (at: seq<nat>)
    ensures FirstAt(s, at) && Picks(s, at, Unique(s))
  {
    if s == [] {
      at := [];
    } else {
      var n: nat := |s| - 1;
      assert Unique(s) == if s[n] in Unique(s[..n]) then Unique(s[..n]) else Unique(s[..n]) + [s[n]];
      hide Unique, FirstAt, Picks;
      var front := UniqueKeepsFirst(s[..n]);
      FirstExtends(s, front);
      PicksExtend(s, front, Unique(s[..n]));
      at := if s[n] in s[..n] then front else front + [n];
    }
  }

  lemma PicksExtend<T>(s: seq<T>, at: seq<nat>, r: seq<T>)
    requires s != [] && Picks(s[..|s| - 1], at, r)
    ensures var n: nat := |s| - 1; Picks(s, at, r) && Picks(s, at + [n], r + [s[n]])
  {
  }

  lemma FirstExtends<T>(s: seq<T>, at: seq<nat>)
    requires s != [] && FirstAt(s[..|s| - 1], at)
    ensures var n: nat := |s| - 1; FirstAt(s, if s[n] in s[..n] then at else at + [n])
  {
    var n: nat := |s| - 1;
    forall k | 0 <= k < |at| ensures at[k] < n { assert at[k] in at; }
    var all := if s[n] in s[..n] then at else at + [n];
    forall i: nat ensures i in all <==> i < |s| && s[i] !in s[..i] {
      assert i in at <==> i < n && s[..n][i] !in s[..n][..i];
      assert i < n ==> s[..n][..i] == s[..i];
      assert i in all <==> i in at || (i == n && s[n] !in s[..n]);
    }
  }

  // ---------------------------------------------------------------- tuples of strings

  /** The order of tuples of strings. */
  predicate LeWords(a: seq<string>, b: seq<string>)
  {
    a == [] || (b != [] && Le(a[0], b[0]) && (a[0] == b[0] ==> LeWords(a[1..], b[1..])))
  }

  lemma {:induction false} LeWordsTotal(a: seq<string>, b: seq<string>)
    ensures LeWords(a, b) || LeWords(b, a)
  {
    if a != [] && b != [] {
      LeTotal(a[0], b[0]);
      LeReflexive(a[0]);
      LeWordsTotal(a[1..], b[1..]);
    }
  }

  lemma {:induction false} LeWordsTransitive(a: seq<string>, b: seq<string>, c: seq<string>)
    requires LeWords(a, b) && LeWords(b, c)
    ensures LeWords(a, c)
  {
    if a != [] {
      LeTransitive(a[0], b[0], c[0]);
      if a[0] == c[0] {
        LeAntisymmetric(a[0], b[0]);
        LeWordsTransitive(a[1..], b[1..], c[1..]);
      }
    }
  }

  lemma {:induction false} LeWordsAntisymmetric(a: seq<string>, b: seq<string>)
    requires LeWords(a, b) && LeWords(b, a)
    ensures a == b
  {
    if a != [] {
      LeAntisymmetric(a[0], b[0]);
      LeWordsAntisymmetric(a[1..], b[1..]);
      assert a == [a[0]] + a[1..] == [b[0]] + b[1..] == b;
    }
  }

  ghost predicate WordSmallerAt(a: seq<string>, b: seq<string>, i: nat)
  {
    i < |a| && i < |b| && a[..i] == b[..i] && Lt(a[i], b[i])
  }

  lemma SmallerInTail(a: seq<string>, b: seq<string>, i: nat)
    requires a != [] && b != [] && a[0] == b[0]
    ensures WordSmallerAt(a[1..], b[1..], i) <==> WordSmallerAt(a, b, i + 1)
  {
    hide Lt;
    if i < |a[1..]| && i < |b[1..]| {
      assert a[..i + 1] == [a[0]] + a[1..][..i] && b[..i + 1] == [b[0]] + b[1..][..i];
      assert a[1..][..i] == a[..i + 1][1..] && b[1..][..i] == b[..i + 1][1..];
    }
  }

  lemma PrefixInTail(a: seq<string>, b: seq<string>)
    requires a != [] && b != [] && a[0] == b[0]
    ensures (|a| <= |b| && b[..|a|] == a) <==> (|a[1..]| <= |b[1..]| && b[1..][..|a[1..]|] == a[1..])
  {
    if |a| <= |b| {
      assert b[..|a|] == [b[0]] + b[1..][..|a| - 1];
      assert a == [a[0]] + a[1..];
      assert b[1..][..|a| - 1] == b[..|a|][1..];
    }
  }

  /** Tuples are ordered by the first component in which they differ. */
  lemma {:induction false} LeWordsIff(a: seq<string>, b: seq<string>)
    ensures LeWords(a, b) <==> (|a| <= |b| && b[..|a|] == a) || exists i: nat :: WordSmallerAt(a, b, i)
  {
    hide Le;
    if a != [] && b != [] {
      LeReflexive(a[0]);
      if a[0] == b[0] {
        LeWordsIff(a[1..], b[1..]);
        PrefixInTail(a, b);
        if i: nat :| WordSmallerAt(a, b, i) {
          assert i > 0;
          SmallerInTail(a, b, i - 1);
        }
        if i: nat :| WordSmallerAt(a[1..], b[1..], i) { SmallerInTail(a, b, i); }
      } else {
        if Lt(a[0], b[0]) { assert WordSmallerAt(a, b, 0); }
        assert forall i: nat | 0 < i <= |a| :: a[..i][0] == a[0];
        assert forall i: nat | 0 < i <= |b| :: b[..i][0] == b[0];
      }
    }
  }

  /** Comparing by a tuple of strings is a total preorder. */
  lemma WordsPreorder<T(!new)>(le: (T, T) -> bool, key: T -> seq<string>)
    requires forall x, y :: le(x, y) == LeWords(key(x), key(y))
    ensures TotalPreorder(le)
  {
    forall x, y ensures le(x, y) || le(y, x) {
      LeWordsTotal(key(x), key(y));
    }
    forall x, y, z | le(x, y) && le(y, z) ensures le(x, z) {
      LeWordsTransitive(key(x), key(y), key(z));
    }
  }

  /** Higher scores first, then words. */
  lemma ScoredPreorder<T(!new)>(le: (T, T) -> bool, score: T -> int, words: T -> seq<string>)
    requires forall a, b :: le(a, b) == (score(a) > score(b) || (score(a) == score(b) && LeWords(words(a), words(b))))
    ensures TotalPreorder(le)
  {
    forall a, b ensures le(a, b) || le(b, a) {
      LeWordsTotal(words(a), words(b));
    }
    forall a, b, c | le(a, b) && le(b, c) ensures le(a, c) {
      if score(a) == score(b) == score(c) { LeWordsTransitive(words(a), words(b), words(c)); }
    }
  }

  lemma FirstIsLeast<T(!new)>(s: seq<T>, le: (T, T) -> bool)
    requires TotalPreorder(le) && s != []
    ensures SortBy(s, le)[0] in s && forall x | x in s :: le(SortBy(s, le)[0], x)
  {
    SortByMembers(s, le);
    SortByOrdered(s, le);
    var r := SortBy(s, le);
    assert r[0] in r;
    forall x | x in s ensures le(r[0], x) {
      assert x in r;
      var i :| 0 <= i < |r| && r[i] == x;
      assert le(x, x);
    }
  }

  // ---------------------------------------------------------------- selecting

  function Where<T(!new)>(s: seq<T>, p: T -> bool): (r: seq<T>)
    ensures forall x :: x in r <==> x in s && p(x)
  {
    if s == [] then []
    else
      var front, last := s[..|s| - 1], s[|s| - 1];
      assert s == front + [last];
      Where(front, p) + (if p(last) then [last] else [])
  }

  lemma WherePermuted<T(!new)>(s: seq<T>, t: seq<T>, p: T -> bool)
    requires multiset(s) == multiset(t)
    ensures multiset(Where(s, p)) == multiset(Where(t, p))
  {
    forall x ensures multiset(Where(s, p))[x] == multiset(Where(t, p))[x] {
      WhereCount(s, p, x);
      WhereCount(t, p, x);
    }
  }

  lemma {:induction false} WhereCount<T(!new)>(s: seq<T>, p: T -> bool, x: T)
    ensures multiset(Where(s, p))[x] == if p(x) then multiset(s)[x] else 0
  {
    if s != [] {
      var front, last := s[..|s| - 1], s[|s| - 1];
      WhereCount(front, p, x);
      FrontElements(s);
      var tail := if p(last) then [last] else [];
      assert Where(s, p) == Where(front, p) + tail;
      hide Where;
      assert multiset(Where(s, p))[x] == multiset(Where(front, p))[x] + multiset(tail)[x];
      assert last in multiset(s);
    }
  }
}
