/** Identifiers and the code-point order in which Python's `sorted` lists them. */
module Ids {

  type Id = string

  /** Lexicographic order on strings. */
  predicate Le(a: string, b: string)
  {
    a == [] || (b != [] && (a[0] < b[0] || (a[0] == b[0] && Le(a[1..], b[1..]))))
  }

  predicate Lt(a: string, b: string)
  {
    Le(a, b) && a != b
  }

  lemma {:induction false} LeReflexive(a: string)
    ensures Le(a, a)
  {
    if a != [] {
      LeReflexive(a[1..]);
    }
  }

  lemma {:induction false} LeTotal(a: string, b: string)
    ensures Le(a, b) || Le(b, a)
  {
    if a != [] && b != [] {
      LeTotal(a[1..], b[1..]);
    }
  }

  lemma {:induction false} LeAntisymmetric(a: string, b: string)
    requires Le(a, b) && Le(b, a)
    ensures a == b
  {
    if a != [] {
      LeAntisymmetric(a[1..], b[1..]);
      assert a == [a[0]] + a[1..] == [b[0]] + b[1..] == b;
    }
  }

  lemma {:induction false} LeTransitive(a: string, b: string, c: string)
    requires Le(a, b) && Le(b, c)
    ensures Le(a, c)
  {
    if a != [] {
      if a[0] == b[0] && b[0] == c[0] {
        LeTransitive(a[1..], b[1..], c[1..]);
      }
    }
  }

  /** The first place where two strings differ, `a` having the smaller character. */
  ghost predicate SmallerAt(a: string, b: string, i: nat)
  {
    i < |a| && i < |b| && a[..i] == b[..i] && a[i] < b[i]
  }

  /** One string comes before another as a prefix, or by the first character in which they differ. */
  lemma {:induction false} LeIff(a: string, b: string)
    ensures Le(a, b) <==> (|a| <= |b| && b[..|a|] == a) || exists i: nat :: SmallerAt(a, b, i)
  {
    if a != [] && b != [] {
      LeIff(a[1..], b[1..]);
      if a[0] == b[0] {
        if i: nat :| SmallerAt(a, b, i) {
          assert i > 0;
          assert a[1..][..i - 1] == a[..i][1..] && b[1..][..i - 1] == b[..i][1..];
          assert SmallerAt(a[1..], b[1..], i - 1);
        }
        if i: nat :| SmallerAt(a[1..], b[1..], i) {
          assert a[..i + 1] == [a[0]] + a[1..][..i] && b[..i + 1] == [b[0]] + b[1..][..i];
          assert SmallerAt(a, b, i + 1);
        }
        if |a| <= |b| {
          assert b[..|a|] == [b[0]] + b[1..][..|a| - 1];
          assert a == [a[0]] + a[1..];
        }
      } else {
        if a[0] < b[0] { assert SmallerAt(a, b, 0); }
        assert forall i: nat | 0 < i <= |a| :: a[..i][0] == a[0];
        assert forall i: nat | 0 < i <= |b| :: b[..i][0] == b[0];
      }
    }
  }

  predicate Ascending(s: seq<Id>)
  {
    forall i, j | 0 <= i < j < |s| :: Lt(s[i], s[j])
  }

  ghost function Elements<T>(s: seq<T>): set<T>
  {
    set x | x in s
  }

  predicate IsLeast(m: Id, s: set<Id>)
  {
    m in s && forall x | x in s :: Le(m, x)
  }

  lemma {:induction false} HasLeast(s: set<Id>)
    requires s != {}
    ensures exists m :: IsLeast(m, s)
  {
    var x :| x in s;
    if s == {x} {
      LeReflexive(x);
      assert IsLeast(x, s);
    } else {
      HasLeast(s - {x});
      var m :| IsLeast(m, s - {x});
      LeTotal(x, m);
      LeReflexive(x);
      if Le(x, m) {
        forall y | y in s ensures Le(x, y) {
          if y != x { LeTransitive(x, m, y); }
        }
        assert IsLeast(x, s);
      } else {
        assert IsLeast(m, s);
      }
    }
  }

  function Least(s: set<Id>): (m: Id)
    requires s != {}
    ensures IsLeast(m, s)
  {
    HasLeast(s);
    assert forall a, b | IsLeast(a, s) && IsLeast(b, s) :: a == b by {
      forall a, b | IsLeast(a, s) && IsLeast(b, s) ensures a == b {
        LeAntisymmetric(a, b);
      }
    }
    var m :| IsLeast(m, s);
    m
  }

  lemma ElementsPrepend<T>(x: T, s: seq<T>)
    ensures Elements([x] + s) == {x} + Elements(s)
  {
    forall y ensures y in Elements([x] + s) <==> y in {x} + Elements(s) {
      assert y in [x] + s <==> y == x || y in s;
    }
  }

  lemma AscendingPrepend(m: Id, s: seq<Id>)
    requires Ascending(s)
    requires forall i | 0 <= i < |s| :: Lt(m, s[i])
    ensures Ascending([m] + s)
  {
  }

  lemma LeastPrepends(m: Id, rest: seq<Id>, s: set<Id>)
    requires IsLeast(m, s) && Elements(rest) == s - {m} && Ascending(rest)
    ensures Elements([m] + rest) == s && Ascending([m] + rest)
  {
    ElementsPrepend(m, rest);
    forall i | 0 <= i < |rest| ensures Lt(m, rest[i]) {
      assert rest[i] in Elements(rest);
    }
    AscendingPrepend(m, rest);
  }

  /** `sorted(s)` for a set of identifiers. */
  function Sorted(s: set<Id>): (r: seq<Id>)
    ensures Elements(r) == s
    ensures Ascending(r)
    ensures |r| == |s|
  {
    if s == {} then []
    else
      var m := Least(s);
      var rest := Sorted(s - {m});
      LeastPrepends(m, rest, s);
      [m] + rest
  }

  /** An ascending listing is determined by its elements. */
  lemma {:induction false} AscendingUnique(a: seq<Id>, b: seq<Id>)
    requires Ascending(a) && Ascending(b)
    requires Elements(a) == Elements(b)
    ensures a == b
  {
    if a == [] {
      assert forall i | 0 <= i < |b| :: b[i] in Elements(b);
    } else {
      assert a[0] in Elements(a);
      assert b != [];
      assert b[0] in Elements(b);
      var i :| 0 <= i < |b| && b[i] == a[0];
      var j :| 0 <= j < |a| && a[j] == b[0];
      if i > 0 && j > 0 { LeAntisymmetric(a[0], b[0]); }
      assert a[0] == b[0];
      forall x ensures x in Elements(a[1..]) <==> x in Elements(b[1..]) {
        assert x in Elements(a[1..]) <==> x in Elements(a) && x != a[0];
        assert x in Elements(b[1..]) <==> x in Elements(b) && x != b[0];
      }
      AscendingUnique(a[1..], b[1..]);
      assert a == [a[0]] + a[1..] && b == [b[0]] + b[1..];
    }
  }

  predicate LowerOrDigit(c: char)
  {
    'a' <= c <= 'z' || '0' <= c <= '9'
  }

  /** Words of lower-case letters and digits, separated by single dots, underscores or hyphens. */
  predicate IsName(s: string)
  {
    && s != "" && LowerOrDigit(s[0])
    && forall i | 0 <= i < |s| ::
         LowerOrDigit(s[i]) || (s[i] in "._-" && i + 1 < |s| && LowerOrDigit(s[i + 1]))
  }

  /** One or more lower-case letters and digits, by their code points. */
  ghost predicate IsWord(s: string)
  {
    s != "" && forall i | 0 <= i < |s| :: 97 <= s[i] as int <= 122 || 48 <= s[i] as int <= 57
  }

  /** Words, with a single separator between each and the next. */
  ghost predicate Joined(s: string, separators: set<char>)
    decreases |s|
  {
    IsWord(s) || exists k: nat :: k < |s| && s[k] in separators && IsWord(s[..k]) && Joined(s[k + 1..], separators)
  }

  /** Where the first word of a name ends, when it is not the whole name. */
  lemma FirstWord(s: string) returns (k: nat)
    requires IsName(s) && !IsWord(s)
    ensures k < |s| && s[k] in {'.', '_', '-'} && IsWord(s[..k]) && IsName(s[k + 1..])
  {
    var end: nat :| end < |s| && !LowerOrDigit(s[end]);
    k := 1;
    while LowerOrDigit(s[k])
      invariant 1 <= k <= end
      invariant forall i | 0 <= i < k :: LowerOrDigit(s[i])
      decreases end - k
    {
      k := k + 1;
    }
    var rest := s[k + 1..];
    forall i | 0 <= i < |rest|
      ensures LowerOrDigit(rest[i]) || (rest[i] in "._-" && i + 1 < |rest| && LowerOrDigit(rest[i + 1]))
    {
      assert rest[i] == s[k + 1 + i];
    }
  }

  lemma NameOfParts(s: string, k: nat)
    requires k < |s| && s[k] in {'.', '_', '-'} && IsWord(s[..k]) && IsName(s[k + 1..])
    ensures IsName(s)
  {
    var rest := s[k + 1..];
    assert s[0] == s[..k][0];
    forall i | 0 <= i < |s|
      ensures LowerOrDigit(s[i]) || (s[i] in "._-" && i + 1 < |s| && LowerOrDigit(s[i + 1]))
    {
      if i < k {
        assert s[..k][i] == s[i];
      } else if i == k {
        assert rest[0] == s[k + 1];
      } else {
        assert rest[i - k - 1] == s[i];
        if i + 1 < |s| { assert rest[i - k] == s[i + 1]; }
      }
    }
  }

  /** Well-formed names are words joined by single dots, underscores or hyphens. */
  lemma {:induction false} NameIff(s: string)
    ensures IsName(s) <==> Joined(s, {'.', '_', '-'})
    decreases |s|
  {
    if IsName(s) && !IsWord(s) {
      var k := FirstWord(s);
      NameIff(s[k + 1..]);
    }
    if !IsWord(s) && Joined(s, {'.', '_', '-'}) {
      var k: nat :| k < |s| && s[k] in {'.', '_', '-'} && IsWord(s[..k]) && Joined(s[k + 1..], {'.', '_', '-'});
      NameIff(s[k + 1..]);
      NameOfParts(s, k);
    }
  }
}
