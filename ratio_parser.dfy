/** Reading the four coverage ratios out of the text of an HTML coverage
    report (loadRatios and ratioFinder of the build action). */
module RatioParser {
  import opened Wrappers
  import opened Text
  import opened Builds

  /** Integer.MAX_VALUE: a larger numeral makes Integer.parseInt throw. */
  const IntMax: int := 0x7fff_ffff

  /** A report line carrying a ratio contains this tag. */
  const SmallTag: string := "<small>"

  /** The separator between the two numbers of a ratio. */
  const Separator: string := " / "

  /** What ratioFinder returns instead of text that is not a ratio. */
  const FormatMismatch: string := "Ratio does not match correct format!"

  /** The report holds four ratios: line, statement, function, branch. */
  const SlotCount: nat := 4

  /** One or more ASCII digits, as the regular expression `\d+` matches. */
  predicate IsNumeral(s: string) {
    |s| > 0 && AllDigits(s)
  }

  /** Whether `s` matches `\d+ / \d+`, and if so its two numerals. */
  function SplitRatio(s: string): (r: Option<(string, string)>)
    ensures r.Some? ==> IsNumeral(r.value.0) && IsNumeral(r.value.1)
                        && s == r.value.0 + Separator + r.value.1
  {
    var k := IndexOf(s, ' ');
    if 0 < k && k + |Separator| < |s| && s[k..k + |Separator|] == Separator
       && AllDigits(s[..k]) && AllDigits(s[k + |Separator|..])
    then
      assert s == s[..k] + Separator + s[k + |Separator|..];
      Some((s[..k], s[k + |Separator|..]))
    else None
  }

  /** Every text of the form numeral, separator, numeral is recognised, and
      split back into the same two numerals. */
  lemma SplitRatioComplete(a: string, b: string)
    requires IsNumeral(a) && IsNumeral(b)
    ensures SplitRatio(a + Separator + b) == Some((a, b))
  {
    var s := a + Separator + b;
    var k := IndexOf(s, ' ');
    assert s[|a|] == ' ';
    assert s[..|a|] == a;
    assert s[k + |Separator|..] == b;
    assert s[k..k + |Separator|] == Separator;
  }

  /** Integer.parseInt on text known to be one or more digits: its value,
      or None (NumberFormatException) when it does not fit in an int. Any
      text that is not a numeral also fails. */
  function ParseNumeral(s: string): (r: Option<int>)
    ensures r.Some? <==> IsNumeral(s) && DigitsValue(s) <= IntMax
    ensures r.Some? ==> 0 <= r.value <= IntMax && r.value == DigitsValue(s)
  {
    if IsNumeral(s) && DigitsValue(s) <= IntMax then Some(DigitsValue(s)) else None
  }

  /** ratioFinder: the text between `start` and `end`, or the mismatch
      sentinel when that text is not a ratio. None stands for the
      StringIndexOutOfBoundsException substring throws on a bad range. */
  function RatioFinder(line: string, start: int, end: int): (r: Option<string>)
    ensures r.None? <==> !(0 <= start <= end <= |line|)
    ensures r.Some? ==> (SplitRatio(r.value).Some? && r.value == line[start..end])
                        || (SplitRatio(line[start..end]).None? && r.value == FormatMismatch)
  {
    if 0 <= start <= end <= |line| then
      var ratio := line[start..end];
      if SplitRatio(ratio).Some? then Some(ratio) else Some(FormatMismatch)
    else None
  }

  /** The sentinel is not a ratio. */
  lemma FormatMismatchIsNotRatio()
    ensures SplitRatio(FormatMismatch).None?
    ensures ParseNumeral(FormatMismatch).None?
  {
    assert !IsDigit(FormatMismatch[0]);
  }

  /** Splitting on the separator and parsing both parts: a part that does
      not parse (the sentinel, or a numeral beyond an int) gives (-1, -1). */
  function ParseRatio(ratio: string): (r: Ratio)
    ensures r == Ratio(-1, -1) || (0 <= r.numerator <= IntMax && 0 <= r.denominator <= IntMax)
  {
    match SplitRatio(ratio)
    case None => Ratio(-1, -1)
    case Some((a, b)) =>
      match (ParseNumeral(a), ParseNumeral(b))
      case (Some(n), Some(d)) => Ratio(n, d)
      case _ => Ratio(-1, -1)
  }

  /** Writing a ratio of two ints and parsing it back gives the same ratio. */
  lemma ParseRatioRoundTrip(n: nat, d: nat)
    requires n <= IntMax && d <= IntMax
    ensures ParseRatio(NatToString(n) + Separator + NatToString(d)) == Ratio(n, d)
  {
    SplitRatioComplete(NatToString(n), NatToString(d));
    NatToStringRoundTrip(n);
    NatToStringRoundTrip(d);
  }

  /** A numeral too large for an int spoils the whole ratio. */
  lemma ParseRatioOverflow(n: nat, d: nat)
    requires n > IntMax || d > IntMax
    ensures ParseRatio(NatToString(n) + Separator + NatToString(d)) == Ratio(-1, -1)
  {
    SplitRatioComplete(NatToString(n), NatToString(d));
    NatToStringRoundTrip(n);
    NatToStringRoundTrip(d);
  }

  /** The ratio written between the first '(' and the first ')' of an
      already trimmed line. None stands for the exception substring throws
      when there is no ')' or the first ')' comes before the first '('. */
  function ParenRatio(t: string): (r: Option<Ratio>)
    ensures r.None? <==> IndexOf(t, ')') < IndexOf(t, '(') + 1
    ensures r.Some? ==> r.value == Ratio(-1, -1)
                        || (0 <= r.value.numerator <= IntMax && 0 <= r.value.denominator <= IntMax)
  {
    var firstParen := IndexOf(t, '(');
    var secondParen := IndexOf(t, ')');
    match RatioFinder(t, firstParen + 1, secondParen)
    case None => None
    case Some(ratio) => Some(ParseRatio(ratio))
  }

  /** One `<small>` line of the report: trimmed, then read as above. */
  function ExtractRatio(line: string): (r: Option<Ratio>)
    ensures r.None? <==> IndexOf(Trim(line), ')') < IndexOf(Trim(line), '(') + 1
    ensures r.Some? ==> r.value == Ratio(-1, -1)
                        || (0 <= r.value.numerator <= IntMax && 0 <= r.value.denominator <= IntMax)
  {
    ParenRatio(Trim(line))
  }

  /** A line with no ')' cannot be read. */
  lemma ExtractWithoutCloseParen(t: string)
    requires ')' !in t
    ensures ParenRatio(t).None?
  {
  }

  /** A line whose first ')' precedes its first '(' cannot be read. */
  lemma ExtractCloseBeforeOpen(pre: string, mid: string, post: string)
    requires '(' !in pre && ')' !in pre && '(' !in mid
    ensures ParenRatio(pre + ")" + mid + "(" + post).None?
  {
    var t := pre + ")" + mid + "(" + post;
    assert t[..|pre|] == pre;
    IndexOfFirst(t, ')', |pre|);
    assert t[..|pre| + 1 + |mid|] == pre + ")" + mid;
    IndexOfFirst(t, '(', |pre| + 1 + |mid|);
  }

  /** Where the parentheses of `pre(inner)post` are found. */
  lemma ParenPositions(pre: string, inner: string, post: string)
    requires '(' !in pre && ')' !in pre && ')' !in inner
    ensures IndexOf(pre + "(" + inner + ")" + post, '(') == |pre|
    ensures IndexOf(pre + "(" + inner + ")" + post, ')') == |pre| + 1 + |inner|
  {
    var t := pre + "(" + inner + ")" + post;
    assert t[..|pre|] == pre;
    IndexOfFirst(t, '(', |pre|);
    assert t[..|pre| + 1 + |inner|] == pre + "(" + inner;
    IndexOfFirst(t, ')', |pre| + 1 + |inner|);
  }

  /** With the first '(' before the first ')', the text between them is
      parsed, whatever it is. */
  lemma ParenRatioBetween(t: string, open: int, close: int, inner: string)
    requires IndexOf(t, '(') == open && IndexOf(t, ')') == close && open < close
    requires t[open + 1..close] == inner
    ensures ParenRatio(t) == Some(ParseRatio(inner))
  {
    if SplitRatio(inner).Some? {
      assert RatioFinder(t, open + 1, close) == Some(inner);
    } else {
      assert RatioFinder(t, open + 1, close) == Some(FormatMismatch);
      FormatMismatchIsNotRatio();
      assert ParseRatio(inner) == Ratio(-1, -1);
    }
  }

  /** The text inside the first pair of parentheses is what is parsed;
      text there that is not a ratio yields (-1, -1). */
  lemma ExtractWellFormed(pre: string, inner: string, post: string)
    requires '(' !in pre && ')' !in pre && ')' !in inner
    ensures ParenRatio(pre + "(" + inner + ")" + post) == Some(ParseRatio(inner))
    ensures SplitRatio(inner).None? ==> ParenRatio(pre + "(" + inner + ")" + post) == Some(Ratio(-1, -1))
  {
    var t := pre + "(" + inner + ")" + post;
    ParenPositions(pre, inner, post);
    assert t[|pre| + 1..|pre| + 1 + |inner|] == inner;
    ParenRatioBetween(t, |pre|, |pre| + 1 + |inner|, inner);
  }

  /** A numeral has no ')' in it. */
  lemma RatioTextHasNoParen(n: nat, d: nat)
    ensures ')' !in NatToString(n) + Separator + NatToString(d)
  {
    var a, b := NatToString(n), NatToString(d);
    var inner := a + Separator + b;
    forall i | 0 <= i < |inner| ensures inner[i] != ')' {
      if i < |a| {
        assert inner[i] == a[i];
      } else if i >= |a| + |Separator| {
        assert inner[i] == b[i - |a| - |Separator|];
      }
    }
  }

  /** A report line `pre(n / d)post`, with no parenthesis before the ratio
      and nothing to trim, yields the ratio n / d. */
  lemma ExtractRatioOfReportLine(pre: string, n: nat, d: nat, post: string)
    requires '(' !in pre && ')' !in pre
    requires pre != [] && pre[0] > ' '
    requires post != [] && post[|post| - 1] > ' '
    requires n <= IntMax && d <= IntMax
    ensures ExtractRatio(pre + "(" + NatToString(n) + Separator + NatToString(d) + ")" + post)
            == Some(Ratio(n, d))
  {
    var inner := NatToString(n) + Separator + NatToString(d);
    var line := pre + "(" + inner + ")" + post;
    assert line == pre + "(" + NatToString(n) + Separator + NatToString(d) + ")" + post;
    assert line[0] == pre[0] && line[|line| - 1] == post[|post| - 1];
    TrimmedIsUnchanged(line);
    RatioTextHasNoParen(n, d);
    ExtractWellFormed(pre, inner, post);
    ParseRatioRoundTrip(n, d);
  }
}
