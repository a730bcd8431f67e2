/** The textual form of a finished set's score.

    A completed set is stored as the string "p1-p2" built by Kotlin string
    interpolation of two `Int`s, and read back with `split('-')` followed by
    `toInt()` on the first two pieces, both to count the sets each player has
    won and to draw the five score slots under the scoreboard. */
module ScoreText {
  import opened Optional

  // ---------------------------------------------------------------------
  // Decimal digits
  // ---------------------------------------------------------------------

  predicate IsDigit(c: char) {
    '0' <= c <= '9'
  }

  predicate AllDigits(s: string) {
    forall i :: 0 <= i < |s| ==> IsDigit(s[i])
  }

  function DigitChar(d: nat): (c: char)
    requires d < 10
    ensures IsDigit(c) && DigitValue(c) == d
  {
    ('0' as int + d) as char
  }

  function DigitValue(c: char): (d: nat)
    requires IsDigit(c)
    ensures d < 10
  {
    c as int - '0' as int
  }

  /** The decimal value of a string of ASCII digits (0 for the empty string). */
  function DigitsValue(s: string): nat
    requires AllDigits(s)
    decreases |s|
  {
    if |s| == 0 then 0 else DigitsValue(s[..|s| - 1]) * 10 + DigitValue(s[|s| - 1])
  }

  // ---------------------------------------------------------------------
  // Int -> String (string interpolation "$n") and String -> Int (toInt())
  // ---------------------------------------------------------------------

  /** Decimal rendering of a non-negative number, without leading zeros. */
  function NatToString(n: nat): (s: string)
    ensures |s| > 0 && AllDigits(s)
    ensures s[0] == '0' ==> n == 0
    decreases n
  {
    if n < 10 then [DigitChar(n)] else NatToString(n / 10) + [DigitChar(n % 10)]
  }

  /** Kotlin's rendering of an `Int` inside a string template. */
  function IntToString(i: int): (s: string)
    ensures |s| > 0
    ensures (s[0] == '-') == (i < 0)
    ensures '-' in s <==> i < 0
  {
    if i < 0 then "-" + NatToString(-i) else NatToString(i)
  }

  /** Kotlin's `String.toInt()`: an optional '+' or '-' sign followed by at
      least one digit; `None` where the call throws. */
  function ParseInt(s: string): (r: Option<int>)
    ensures r.Some? ==> |s| > 0 && AllDigits(s[1..]) && (IsDigit(s[0]) || ((s[0] == '-' || s[0] == '+') && |s| > 1))
    ensures |s| > 0 && AllDigits(s) ==> r == Some(DigitsValue(s))
    ensures |s| > 1 && s[0] == '-' && AllDigits(s[1..]) ==> r == Some(-(DigitsValue(s[1..]) as int))
    ensures |s| > 1 && s[0] == '+' && AllDigits(s[1..]) ==> r == Some(DigitsValue(s[1..]))
  {
    if |s| == 0 then None
    else if s[0] < '0' then
      if |s| == 1 then None
      else if !AllDigits(s[1..]) then None
      else
        var magnitude: int := DigitsValue(s[1..]);
        if s[0] == '-' then Some(-magnitude)
        else if s[0] == '+' then Some(magnitude)
        else None
    else if AllDigits(s) then Some(DigitsValue(s))
    else None
  }

  lemma {:induction false} DigitsValueOfNatToString(n: nat)
    ensures DigitsValue(NatToString(n)) == n
    decreases n
  {
    if n >= 10 {
      DigitsValueOfNatToString(n / 10);
      var s := NatToString(n);
      assert s[..|s| - 1] == NatToString(n / 10);
    }
  }

  /** Reading back the text of any `Int` gives that `Int`. */
  lemma ParseIntOfIntToString(i: int)
    ensures ParseInt(IntToString(i)) == Some(i)
  {
    if i < 0 {
      var s := IntToString(i);
      assert s[1..] == NatToString(-i);
      DigitsValueOfNatToString(-i);
      assert s[0] == '-' && |s| > 1 && AllDigits(s[1..]);
    } else {
      DigitsValueOfNatToString(i);
    }
  }

  // ---------------------------------------------------------------------
  // String.split(Char)
  // ---------------------------------------------------------------------

  /** Kotlin's `split(sep)`: the maximal separator-free pieces, in order,
      keeping empty pieces (also a trailing one). */
  function Split(s: string, sep: char): (parts: seq<string>)
    ensures |parts| > 0
    ensures forall k :: 0 <= k < |parts| ==> sep !in parts[k]
    decreases |s|
  {
    if |s| == 0 then [""]
    else
      var rest := Split(s[1..], sep);
      if s[0] == sep then [""] + rest
      else [[s[0]] + rest[0]] + rest[1..]
  }

  /** Gluing the pieces back together with the separator gives the input. */
  function Join(parts: seq<string>, sep: char): string
    requires |parts| > 0
  {
    if |parts| == 1 then parts[0] else parts[0] + [sep] + Join(parts[1..], sep)
  }

  lemma {:induction false} JoinSplit(s: string, sep: char)
    ensures Join(Split(s, sep), sep) == s
    decreases |s|
  {
    if |s| > 0 {
      JoinSplit(s[1..], sep);
      var rest := Split(s[1..], sep);
      if s[0] == sep {
        assert Split(s, sep)[1..] == rest;
      } else if |rest| == 1 {
        assert [s[0]] + s[1..] == s;
      } else {
        assert Split(s, sep)[1..] == rest[1..];
        assert [s[0]] + rest[0] + [sep] + Join(rest[1..], sep) == [s[0]] + Join(rest, sep);
        assert [s[0]] + s[1..] == s;
      }
    }
  }

  lemma {:induction false} SplitWithoutSeparator(s: string, sep: char)
    requires sep !in s
    ensures Split(s, sep) == [s]
    decreases |s|
  {
    if |s| > 0 {
      SplitWithoutSeparator(s[1..], sep);
      assert [s[0]] + s[1..] == s;
    }
  }

  lemma {:induction false} SplitAtFirstSeparator(a: string, sep: char, b: string)
    requires sep !in a
    ensures Split(a + [sep] + b, sep) == [a] + Split(b, sep)
    decreases |a|
  {
    var s := a + [sep] + b;
    if |a| == 0 {
      assert s[1..] == b;
    } else {
      assert s[1..] == a[1..] + [sep] + b;
      SplitAtFirstSeparator(a[1..], sep, b);
      assert [a[0]] + a[1..] == a;
    }
  }

  // ---------------------------------------------------------------------
  // Set scores "p1-p2"
  // ---------------------------------------------------------------------

  /** The string stored for a finished set: "$p1Score-$p2Score". */
  function FormatScore(p1: int, p2: int): string {
    IntToString(p1) + "-" + IntToString(p2)
  }

  /** `split('-')[0].toInt()` and `split('-')[1].toInt()`; `None` where
      either call throws. */
  function ScorePair(score: string): Option<(int, int)> {
    var parts := Split(score, '-');
    if |parts| < 2 then None
    else match (ParseInt(parts[0]), ParseInt(parts[1]))
      case (Some(a), Some(b)) => Some((a, b))
      case _ => None
  }

  /** Reading a stored score back gives the two numbers it was built from. */
  lemma ScorePairOfFormatScore(p1: nat, p2: nat)
    ensures ScorePair(FormatScore(p1, p2)) == Some((p1, p2))
  {
    var a, b := IntToString(p1), IntToString(p2);
    assert FormatScore(p1, p2) == a + ['-'] + b;
    SplitAtFirstSeparator(a, '-', b);
    SplitWithoutSeparator(b, '-');
    ParseIntOfIntToString(p1);
    ParseIntOfIntToString(p2);
  }

  /** The score of a set won by player 1 / player 2, as lines 274-275 and
      361-362 test it. */
  predicate FirstWon(score: string) {
    ScorePair(score).Some? && ScorePair(score).value.0 > ScorePair(score).value.1
  }

  predicate SecondWon(score: string) {
    ScorePair(score).Some? && ScorePair(score).value.1 > ScorePair(score).value.0
  }

  /** `setScores.count { it.split('-')[0].toInt() > it.split('-')[1].toInt() }` */
  function P1SetsWon(scores: seq<string>): nat {
    if |scores| == 0 then 0
    else P1SetsWon(scores[..|scores| - 1]) + (if FirstWon(scores[|scores| - 1]) then 1 else 0)
  }

  /** `setScores.count { it.split('-')[1].toInt() > it.split('-')[0].toInt() }` */
  function P2SetsWon(scores: seq<string>): nat {
    if |scores| == 0 then 0
    else P2SetsWon(scores[..|scores| - 1]) + (if SecondWon(scores[|scores| - 1]) then 1 else 0)
  }

  /** Appending the score of a finished set adds one won set to exactly the
      player with more points. */
  lemma SetsWonAfterAppend(scores: seq<string>, p1: nat, p2: nat)
    ensures P1SetsWon(scores + [FormatScore(p1, p2)]) == P1SetsWon(scores) + (if p1 > p2 then 1 else 0)
    ensures P2SetsWon(scores + [FormatScore(p1, p2)]) == P2SetsWon(scores) + (if p2 > p1 then 1 else 0)
  {
    var s := scores + [FormatScore(p1, p2)];
    assert s[..|s| - 1] == scores;
    ScorePairOfFormatScore(p1, p2);
  }

  /** Dropping the last stored score never adds a won set. */
  lemma SetsWonPrefix(scores: seq<string>)
    requires |scores| > 0
    ensures P1SetsWon(scores[..|scores| - 1]) <= P1SetsWon(scores)
    ensures P2SetsWon(scores[..|scores| - 1]) <= P2SetsWon(scores)
  {
  }

  /** A stored score that parses and is not a tie. */
  predicate Decisive(score: string) {
    ScorePair(score).Some? && ScorePair(score).value.0 != ScorePair(score).value.1
  }

  /** When every stored set has a winner, the two counts add up to the
      number of sets. */
  lemma {:induction false} SetsWonPartition(scores: seq<string>)
    requires forall i :: 0 <= i < |scores| ==> Decisive(scores[i])
    ensures P1SetsWon(scores) + P2SetsWon(scores) == |scores|
    decreases |scores|
  {
    if |scores| > 0 {
      SetsWonPartition(scores[..|scores| - 1]);
    }
  }

  // ---------------------------------------------------------------------
  // The five score slots (lines 404-408)
  // ---------------------------------------------------------------------

  const EmptySlot: string := "- : -"

  /** `setScores.getOrNull(index) ?: "- : -"` */
  function SlotText(scores: seq<string>, index: nat): string {
    if index < |scores| then scores[index] else EmptySlot
  }

  /** The text drawn for one slot; when the sides are swapped a stored score
      is shown reversed as "p2 : p1". `None` where indexing the pieces would
      throw. */
  function DisplayScore(score: string, swapped: bool): Option<string> {
    if swapped && score != EmptySlot then
      var parts := Split(score, '-');
      if |parts| < 2 then None else Some(parts[1] + " : " + parts[0])
    else Some(score)
  }

  /** A slot holding the score of a finished set shows it as stored, or the
      pair reversed when the sides are swapped. */
  lemma DisplayOfStoredScore(p1: nat, p2: nat, swapped: bool)
    ensures DisplayScore(FormatScore(p1, p2), swapped)
         == Some(if swapped then NatToString(p2) + " : " + NatToString(p1) else FormatScore(p1, p2))
  {
    var a, b := NatToString(p1), NatToString(p2);
    assert FormatScore(p1, p2) == a + ['-'] + b;
    assert FormatScore(p1, p2)[0] != '-';
    SplitAtFirstSeparator(a, '-', b);
    SplitWithoutSeparator(b, '-');
  }

  /** A slot past the finished sets shows the placeholder. */
  lemma DisplayOfEmptySlot(scores: seq<string>, index: nat, swapped: bool)
    requires index >= |scores|
    ensures DisplayScore(SlotText(scores, index), swapped) == Some(EmptySlot)
  {
  }
}
