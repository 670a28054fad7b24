/** Spreadsheet column letters and numbers (`_columns`, `_column_number`). */
module Columns {

  /** The letter of a digit: `chr(65 + r)`. */
  function Letter(r: nat): char
    requires r < 26
  {
    (65 + r) as char
  }

  function Digit(c: char): int
  {
    c as int - 65
  }

  predicate IsLabel(s: string)
  {
    forall c | c in s :: 'A' <= c <= 'Z'
  }

  /** The letters of a column number: base 26 without a zero digit. */
  function Letters(n: nat): (s: string)
    ensures IsLabel(s)
    ensures n > 0 ==> s != []
  {
    if n == 0 then "" else Letters((n - 1) / 26) + [Letter((n - 1) % 26)]
  }

  /** The number of a label: each letter is worth 1 to 26 in its place. */
  function Number(s: string): int
  {
    if s == "" then 0 else Number(s[..|s| - 1]) * 26 + Digit(s[|s| - 1]) + 1
  }

  lemma {:induction false} NumberOfLetters(n: nat)
    ensures Number(Letters(n)) == n
  {
    if n > 0 {
      var front, r := (n - 1) / 26, (n - 1) % 26;
      NumberOfLetters(front);
      var s := Letters(n);
      assert s[..|s| - 1] == Letters(front) && s[|s| - 1] == Letter(r);
      assert Digit(Letter(r)) == r;
    }
  }

  /** Appending a letter to a label multiplies its number by 26 and adds the letter's worth. */
  lemma LettersStep(q: nat, c: char)
    requires 'A' <= c <= 'Z'
    ensures Letters(q * 26 + Digit(c) + 1) == Letters(q) + [c]
  {
    var d := Digit(c);
    var n := q * 26 + d + 1;
    assert n - 1 == q * 26 + d;
    assert (n - 1) / 26 == q && (n - 1) % 26 == d;
    assert Letter(d) == c;
  }

  lemma NumberStep(front: string, last: char)
    ensures Number(front + [last]) == Number(front) * 26 + Digit(last) + 1
  {
    assert (front + [last])[..|front|] == front;
  }

  lemma EmptyLabel()
    ensures Number("") == 0 && Letters(0) == ""
  {
  }

  lemma {:induction false} LettersOfNumber(s: string)
    requires IsLabel(s)
    ensures Number(s) >= 0 && Letters(Number(s)) == s
    ensures s != [] ==> Number(s) > 0
  {
    hide Letters, Number, Digit;
    if s == [] {
      EmptyLabel();
    } else {
      var front, last := s[..|s| - 1], s[|s| - 1];
      assert s == front + [last];
      assert IsLabel(front) && 'A' <= last <= 'Z' by {
        assert forall c | c in front :: c in s;
        assert last in s;
      }
      LettersOfNumber(front);
      DigitOfLetter(last);
      LettersStep(Number(front), last);
      NumberStep(front, last);
    }
  }

  lemma DigitOfLetter(c: char)
    requires 'A' <= c <= 'Z'
    ensures 0 <= Digit(c) < 26
  {
  }

  /** The inner loop of `_columns`: letters are prepended while a quotient remains. */
  method ColumnLetters(number: nat) returns (letters: string)
    ensures letters == Letters(number)
  {
    letters := "";
    var value := number;
    while value > 0
      invariant Letters(number) == Letters(value) + letters
    {
      var remainder := (value - 1) % 26;
      value := (value - 1) / 26;
      letters := [Letter(remainder)] + letters;
    }
  }

  /** The labels of the `count` columns from B on. */
  function Labels(count: nat): (r: seq<string>)
    ensures |r| == count
    ensures forall i | 0 <= i < count :: r[i] == Letters(i + 2)
  {
    seq(count, i requires 0 <= i => Letters(i + 2))
  }

  method ColumnLabels(count: nat) returns (labels: seq<string>)
    ensures labels == Labels(count)
  {
    labels := [];
    for number := 2 to count + 2
      invariant |labels| == number - 2
      invariant forall i | 0 <= i < |labels| :: labels[i] == Letters(i + 2)
    {
      var letters := ColumnLetters(number);
      labels := labels + [letters];
    }
  }

  /** `_column_number`: accumulates from the left. */
  method ColumnNumber(word: string) returns (value: int)
    ensures value == Number(word)
    ensures IsLabel(word) ==> value >= 0 && Letters(value) == word
  {
    value := 0;
    for n := 0 to |word|
      invariant value == Number(word[..n])
    {
      assert word[..n + 1][..n] == word[..n];
      value := value * 26 + Digit(word[n]) + 1;
    }
    assert word[..|word|] == word;
    if IsLabel(word) { LettersOfNumber(word); }
  }

  /** Different columns have different labels. */
  lemma LettersInjective(m: nat, n: nat)
    requires Letters(m) == Letters(n)
    ensures m == n
  {
    NumberOfLetters(m);
    NumberOfLetters(n);
  }
}
