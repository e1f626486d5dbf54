/** The fallback branch of `fmtCLP`: `'$' + String(n)` with the global
    replacement of `/\B(?=(\d{3})+(?!\d))/` by `.`, the thousands separator of
    Chilean pesos.

    The replacement is modelled as the regular expression actually behaves on
    any string: a zero-width match at position `i` needs `\B` there and a
    lookahead that sees a positive multiple of three digits followed by a
    non-digit (or the end). For the numerals of natural numbers this is
    proved equal to the textbook right-to-left grouping `Grouped`.
 */
module Currency {
  import opened Text
  import opened Decimal

  /** The regular-expression class `\w`. */
  predicate IsWordChar(c: char) {
    ('A' <= c <= 'Z') || ('a' <= c <= 'z') || IsDigit(c) || c == '_'
  }

  /** The length of the maximal run of digits of `s` that starts at `i`. */
  function DigitRun(s: string, i: nat): (n: nat)
    requires i <= |s|
    ensures i + n <= |s|
    ensures forall j :: i <= j < i + n ==> IsDigit(s[j])
    ensures i + n < |s| ==> !IsDigit(s[i + n])
    decreases |s| - i
  {
    if i < |s| && IsDigit(s[i]) then 1 + DigitRun(s, i + 1) else 0
  }

  /** `\B` at position `i`: the characters on either side are both word
      characters or both not (a missing side counts as not). */
  predicate NotWordBoundary(s: string, i: nat)
    requires i <= |s|
  {
    (i > 0 && IsWordChar(s[i - 1])) == (i < |s| && IsWordChar(s[i]))
  }

  /** One way for the lookahead `(\d{3})+(?!\d)` to succeed at `i`: `k`
      groups of three digits, then no further digit. */
  predicate GroupsEndAt(s: string, i: nat, k: nat)
    requires i <= |s|
  {
    && 1 <= k && i + 3 * k <= |s|
    && (forall j :: i <= j < i + 3 * k ==> IsDigit(s[j]))
    && (i + 3 * k == |s| || !IsDigit(s[i + 3 * k]))
  }

  /** The lookahead `(?=(\d{3})+(?!\d))` at position `i`, as the regular
      expression defines it. */
  ghost predicate LookaheadMatches(s: string, i: nat)
    requires i <= |s|
  {
    exists k: nat :: GroupsEndAt(s, i, k)
  }

  /** The same lookahead, decided by measuring the digit run. */
  predicate GroupsOfThreeAhead(s: string, i: nat)
    requires i <= |s|
  {
    var n := DigitRun(s, i);
    n > 0 && n % 3 == 0
  }

  /** Measuring the digit run decides the lookahead exactly. */
  lemma LookaheadIsDigitRun(s: string, i: nat)
    requires i <= |s|
    ensures LookaheadMatches(s, i) <==> GroupsOfThreeAhead(s, i)
  {
    var n := DigitRun(s, i);
    if LookaheadMatches(s, i) {
      var k: nat :| GroupsEndAt(s, i, k);
    }
    if GroupsOfThreeAhead(s, i) {
      assert GroupsEndAt(s, i, n / 3);
    }
  }

  /** The regular expression matches (with an empty match) at position `i`. */
  predicate SeparatorAt(s: string, i: nat)
    requires i <= |s|
  {
    NotWordBoundary(s, i) && GroupsOfThreeAhead(s, i)
  }

  /** What the replacement emits at position `i` before the character there. */
  function Mark(s: string, i: nat): string
    requires i <= |s|
  {
    if SeparatorAt(s, i) then "." else ""
  }

  /** The output of the replacement for the positions before `i`. */
  function ReplacePrefix(s: string, i: nat): string
    requires i <= |s|
    decreases i
  {
    if i == 0 then [] else ReplacePrefix(s, i - 1) + Mark(s, i - 1) + [s[i - 1]]
  }

  /** `s.replace(/\B(?=(\d{3})+(?!\d))/g, '.')`: the replacement only
      inserts separators, so every other character survives in order. */
  function InsertSeparators(s: string): (r: string)
    ensures |s| <= |r|
    ensures Keep(r, NotDot) == Keep(s, NotDot)
  {
    ReplacePrefixKeep(s, |s|);
    KeepAppend(ReplacePrefix(s, |s|), Mark(s, |s|), NotDot);
    assert s[..|s|] == s;
    ReplacePrefix(s, |s|) + Mark(s, |s|)
  }

  /** The output for the positions before `i` is those characters with
      separators inserted. */
  lemma {:induction false} ReplacePrefixKeep(s: string, i: nat)
    requires i <= |s|
    ensures i <= |ReplacePrefix(s, i)|
    ensures Keep(ReplacePrefix(s, i), NotDot) == Keep(s[..i], NotDot)
    decreases i
  {
    if i > 0 {
      var r := ReplacePrefix(s, i - 1);
      var m := Mark(s, i - 1);
      ReplacePrefixKeep(s, i - 1);
      KeepAppend(r + m, [s[i - 1]], NotDot);
      KeepAppend(r, m, NotDot);
      assert Keep(m, NotDot) == [];
      assert s[..i] == s[..i - 1] + [s[i - 1]];
      KeepAppend(s[..i - 1], [s[i - 1]], NotDot);
    }
  }

  /** The reference grouping: split off three digits from the right while
      more than three remain, joining with `.`. */
  function Grouped(d: string): string
    decreases |d|
  {
    if |d| <= 3 then d else Grouped(d[..|d| - 3]) + "." + d[|d| - 3..]
  }

  /** On a digit string the match positions are exactly the inner positions
      with a multiple of three digits to their right. */
  lemma SeparatorAtDigits(s: string, i: nat)
    requires AllDigits(s) && i <= |s|
    ensures SeparatorAt(s, i) <==> 0 < i < |s| && (|s| - i) % 3 == 0
  {
    RunToEnd(s, i);
  }

  /** In a numeral the digit run from `i` reaches the end. */
  lemma {:induction false} RunToEnd(s: string, i: nat)
    requires AllDigits(s) && i <= |s|
    ensures DigitRun(s, i) == |s| - i
    decreases |s| - i
  {
    if i < |s| {
      RunToEnd(s, i + 1);
    }
  }

  /** Two numerals of congruent lengths (mod 3) get the same mark at every
      position inside both. */
  lemma MarkAgree(s: string, t: string, j: nat)
    requires AllDigits(s) && AllDigits(t)
    requires j < |s| && j < |t| && |s| % 3 == |t| % 3
    ensures Mark(s, j) == Mark(t, j)
  {
    SeparatorAtDigits(s, j);
    SeparatorAtDigits(t, j);
  }

  /** Two numerals of congruent lengths (mod 3) that agree before `i` get the
      same output for those positions. */
  lemma {:induction false} ReplacePrefixAgree(s: string, t: string, i: nat)
    requires AllDigits(s) && AllDigits(t)
    requires i <= |s| && i <= |t| && |s| % 3 == |t| % 3
    requires forall j :: 0 <= j < i ==> s[j] == t[j]
    ensures ReplacePrefix(s, i) == ReplacePrefix(t, i)
    decreases i
  {
    if i > 0 {
      ReplacePrefixAgree(s, t, i - 1);
      MarkAgree(s, t, i - 1);
    }
  }

  /** Numerals of at most three digits get no separator. */
  lemma {:induction false} ReplacePrefixShort(s: string, i: nat)
    requires AllDigits(s) && i <= |s| <= 3
    ensures ReplacePrefix(s, i) == s[..i]
    decreases i
  {
    if i > 0 {
      ReplacePrefixShort(s, i - 1);
      SeparatorAtDigits(s, i - 1);
      assert s[..i] == s[..i - 1] + [s[i - 1]];
    }
  }

  /** Three positions without a mark copy their characters unchanged. */
  lemma ThreeUnmarked(s: string, k: nat)
    requires k + 3 <= |s|
    requires Mark(s, k + 1) == "" && Mark(s, k + 2) == ""
    ensures ReplacePrefix(s, k + 3) == ReplacePrefix(s, k) + Mark(s, k) + s[k..k + 3]
  {
    var r := ReplacePrefix(s, k) + Mark(s, k);
    assert ReplacePrefix(s, k + 1) == r + [s[k]];
    assert ReplacePrefix(s, k + 2) == r + [s[k]] + [s[k + 1]];
    assert ReplacePrefix(s, k + 3) == r + [s[k]] + [s[k + 1]] + [s[k + 2]];
    assert [s[k]] + [s[k + 1]] + [s[k + 2]] == s[k..k + 3];
  }

  /** In a numeral of more than three digits the last three are preceded by
      one separator and followed by none. */
  lemma LastGroup(s: string)
    requires AllDigits(s) && 3 < |s|
    ensures InsertSeparators(s) == ReplacePrefix(s, |s| - 3) + "." + s[|s| - 3..]
  {
    var k := |s| - 3;
    SeparatorAtDigits(s, k);
    SeparatorAtDigits(s, k + 1);
    SeparatorAtDigits(s, k + 2);
    SeparatorAtDigits(s, |s|);
    assert Mark(s, k) == "." && Mark(s, k + 1) == "" && Mark(s, k + 2) == "";
    ThreeUnmarked(s, k);
    var n := |s|;
    assert k + 3 == n;
    assert Mark(s, n) == "";
    assert InsertSeparators(s) == ReplacePrefix(s, n);
    assert s[k..k + 3] == s[k..];
  }

  /** On digit strings the regular-expression replacement is the reference
      grouping. */
  lemma {:induction false} InsertSeparatorsGrouped(s: string)
    requires AllDigits(s)
    ensures InsertSeparators(s) == Grouped(s)
    decreases |s|
  {
    SeparatorAtDigits(s, |s|);
    if |s| <= 3 {
      ReplacePrefixShort(s, |s|);
      assert s[..|s|] == s;
    } else {
      var k := |s| - 3;
      var p := s[..k];
      LastGroup(s);
      ReplacePrefixAgree(s, p, k);
      SeparatorAtDigits(p, k);
      assert InsertSeparators(p) == ReplacePrefix(p, k);
      InsertSeparatorsGrouped(p);
    }
  }

  /** A string without digits is left unchanged by the replacement. */
  lemma {:induction false} ReplacePrefixNoDigits(s: string, i: nat)
    requires i <= |s|
    requires forall j :: 0 <= j < |s| ==> !IsDigit(s[j])
    ensures ReplacePrefix(s, i) == s[..i]
    decreases i
  {
    if i > 0 {
      ReplacePrefixNoDigits(s, i - 1);
      assert s[..i] == s[..i - 1] + [s[i - 1]];
    }
  }

  lemma InsertSeparatorsNoDigits(s: string)
    requires forall j :: 0 <= j < |s| ==> !IsDigit(s[j])
    ensures InsertSeparators(s) == s
  {
    ReplacePrefixNoDigits(s, |s|);
    assert s[..|s|] == s;
  }

  function NotDot(c: char): bool {
    c != '.'
  }

  /** The dot-separated groups of a string, left to right. */
  function SplitDots(s: string): (gs: seq<string>)
    ensures |gs| >= 1
    decreases |s|
  {
    if '.' !in s then [s]
    else
      var i := FirstIndex(s, '.');
      [s[..i]] + SplitDots(s[i + 1..])
  }

  /** Appending a dot and a dot-free group appends one group. */
  lemma {:induction false} SplitDotsAppend(a: string, b: string)
    requires '.' !in b
    ensures SplitDots(a + "." + b) == SplitDots(a) + [b]
    decreases |a|
  {
    var s := a + "." + b;
    if '.' !in a {
      assert s[..|a|] == a;
      FirstIndexAt(s, '.', |a|);
      assert s[|a| + 1..] == b;
    } else {
      var i := FirstIndex(a, '.');
      assert s[..i] == a[..i];
      FirstIndexAt(s, '.', i);
      assert s[i + 1..] == a[i + 1..] + "." + b;
      SplitDotsAppend(a[i + 1..], b);
    }
  }

  /** A digit string without separators. */
  lemma DigitsHaveNoDot(d: string)
    requires AllDigits(d)
    ensures '.' !in d
  {
  }

  /** The shape of a grouped numeral of `d` (a non-empty digit string): a
      first group of one to three digits and then groups of exactly three;
      so there is never a leading, trailing or doubled separator. */
  lemma {:induction false} GroupedShape(d: string)
    requires AllDigits(d) && 1 <= |d|
    ensures var gs := SplitDots(Grouped(d));
      && |gs| == (|d| - 1) / 3 + 1
      && 1 <= |gs[0]| <= 3
      && (forall j :: 1 <= j < |gs| ==> |gs[j]| == 3)
      && (forall j :: 0 <= j < |gs| ==> AllDigits(gs[j]))
    decreases |d|
  {
    if |d| <= 3 {
      DigitsHaveNoDot(d);
    } else {
      var p := d[..|d| - 3];
      var t := d[|d| - 3..];
      DigitsHaveNoDot(t);
      GroupedShape(p);
      SplitDotsAppend(Grouped(p), t);
    }
  }

  /** Dropping the separators of a grouped numeral gives back the digits. */
  lemma {:induction false} GroupedKeep(d: string)
    requires AllDigits(d)
    ensures Keep(Grouped(d), NotDot) == d
    decreases |d|
  {
    if |d| <= 3 {
      KeepAccepted(d, NotDot);
    } else {
      var p := d[..|d| - 3];
      var t := d[|d| - 3..];
      GroupedKeep(p);
      KeepAppend(Grouped(p) + ".", t, NotDot);
      KeepAppend(Grouped(p), ".", NotDot);
      KeepAccepted(t, NotDot);
      assert d == p + t;
    }
  }

  /** A grouped numeral holds a separator exactly when it has more than three
      digits. */
  lemma GroupedHasDot(d: string)
    requires AllDigits(d)
    ensures '.' in Grouped(d) <==> 3 < |d|
  {
  }

  /** Every character of a grouped numeral is a digit or a separator. */
  lemma {:induction false} GroupedCharset(d: string)
    requires AllDigits(d)
    ensures forall i :: 0 <= i < |Grouped(d)| ==> IsDigit(Grouped(d)[i]) || Grouped(d)[i] == '.'
    decreases |d|
  {
    if |d| > 3 {
      GroupedCharset(d[..|d| - 3]);
    }
  }

  /** `String(amount)`; a missing amount prints as `undefined`. */
  function AmountString(amount: Option<nat>): string {
    match amount
    case Some(n) => NatToDecimal(n)
    case None => "undefined"
  }

  /** The fallback branch of `fmtCLP`. */
  function FormatClp(amount: Option<nat>): (r: string)
    ensures 2 <= |r| && r[0] == '$'
  {
    "$" + InsertSeparators(AmountString(amount))
  }

  /** The fallback output is `$` followed by the numeral of `n` grouped from
      the right; dropping `$` and every `.` gives back exactly `String(n)`,
      whose value is `n`. */
  lemma FormatClpRoundTrip(n: nat)
    ensures var r := FormatClp(Some(n));
      && r[0] == '$'
      && Keep(r[1..], NotDot) == NatToDecimal(n)
      && DecimalValue(Keep(r[1..], NotDot)) == n
  {
    var d := NatToDecimal(n);
    InsertSeparatorsGrouped(d);
    GroupedKeep(d);
    assert FormatClp(Some(n))[1..] == Grouped(d);
    DecimalRoundTrip(n);
  }

  /** The groups of the fallback output: one to three digits first, then
      groups of exactly three; values below one thousand get no separator and
      values from one thousand on get at least one. */
  lemma FormatClpGroups(n: nat)
    ensures var gs := SplitDots(FormatClp(Some(n))[1..]);
      && 1 <= |gs[0]| <= 3
      && (forall j :: 1 <= j < |gs| ==> |gs[j]| == 3)
      && (forall j :: 0 <= j < |gs| ==> AllDigits(gs[j]))
    ensures '.' in FormatClp(Some(n))[1..] <==> 1000 <= n
  {
    var d := NatToDecimal(n);
    InsertSeparatorsGrouped(d);
    GroupedShape(d);
    GroupedHasDot(d);
    DecimalLengthThousand(n);
    assert FormatClp(Some(n))[1..] == Grouped(d);
  }

  /** The fallback output holds only the currency marker, digits and
      separators. */
  lemma FormatClpCharset(n: nat)
    ensures var r := FormatClp(Some(n));
      forall i :: 1 <= i < |r| ==> IsDigit(r[i]) || r[i] == '.'
  {
    var d := NatToDecimal(n);
    InsertSeparatorsGrouped(d);
    GroupedCharset(d);
    assert FormatClp(Some(n))[1..] == Grouped(d);
  }

  /** A missing amount formats as `$undefined`: `undefined` has no digits
      for the regular expression to group. */
  lemma FormatClpMissing()
    ensures FormatClp(None) == "$undefined"
  {
    var u := "undefined";
    assert forall j :: 0 <= j < |u| ==> !IsDigit(u[j]);
    InsertSeparatorsNoDigits(u);
    assert AmountString(None) == u;
  }
}
