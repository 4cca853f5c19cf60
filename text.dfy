/** The few string operations of the Java library that the plugin relies on:
    decimal rendering and parsing of non-negative integers, String.trim,
    String.indexOf of a character and String.contains. */
module Text {

  predicate IsDigit(c: char) {
    '0' <= c <= '9'
  }

  predicate AllDigits(s: string) {
    forall i :: 0 <= i < |s| ==> IsDigit(s[i])
  }

  function DigitValue(c: char): nat
    requires IsDigit(c)
  {
    (c as int) - ('0' as int)
  }

  function DigitChar(d: nat): (c: char)
    requires d < 10
    ensures IsDigit(c) && DigitValue(c) == d
  {
    (('0' as int) + d) as char
  }

  /** The value of a decimal digit string, most significant digit first,
      as Integer.parseInt computes it before any range check. */
  function DigitsValue(s: string): nat
    requires AllDigits(s)
  {
    if s == [] then 0 else DigitsValue(s[..|s| - 1]) * 10 + DigitValue(s[|s| - 1])
  }

  /** The decimal text of n that Java's string concatenation produces. */
  function NatToString(n: nat): (s: string)
    ensures |s| > 0 && AllDigits(s)
  {
    if n < 10 then [DigitChar(n)] else NatToString(n / 10) + [DigitChar(n % 10)]
  }

  /** Parsing the rendered text gives the number back. */
  lemma {:induction false} NatToStringRoundTrip(n: nat)
    ensures DigitsValue(NatToString(n)) == n
  {
    if n >= 10 {
      var s := NatToString(n);
      assert s[..|s| - 1] == NatToString(n / 10);
      NatToStringRoundTrip(n / 10);
    }
  }

  /** Distinct numbers have distinct decimal texts. */
  lemma NatToStringInjective(m: nat, n: nat)
    requires NatToString(m) == NatToString(n)
    ensures m == n
  {
    NatToStringRoundTrip(m);
    NatToStringRoundTrip(n);
  }

  /** Java's String.trim removes the leading characters up to U+0020. */
  function TrimStart(s: string): (r: string)
    ensures |r| <= |s| && r == s[|s| - |r|..]
    ensures r != [] ==> r[0] > ' '
  {
    if s != [] && s[0] <= ' ' then TrimStart(s[1..]) else s
  }

  /** ... and the trailing ones. */
  function TrimEnd(s: string): (r: string)
    ensures |r| <= |s| && r == s[..|r|]
    ensures r != [] ==> r[|r| - 1] > ' '
  {
    if s != [] && s[|s| - 1] <= ' ' then TrimEnd(s[..|s| - 1]) else s
  }

  function Trim(s: string): (r: string)
    ensures |r| <= |s|
    ensures r != [] ==> r[0] > ' ' && r[|r| - 1] > ' '
  {
    TrimEnd(TrimStart(s))
  }

  /** TrimStart removes only characters up to U+0020. */
  lemma {:induction false} TrimStartRemovesOnlyControls(s: string)
    ensures forall i :: 0 <= i < |s| - |TrimStart(s)| ==> s[i] <= ' '
    decreases |s|
  {
    if s != [] && s[0] <= ' ' {
      var t := s[1..];
      TrimStartRemovesOnlyControls(t);
      assert |s| - |TrimStart(s)| == 1 + (|t| - |TrimStart(t)|);
      forall i | 1 <= i < |s| - |TrimStart(s)|
        ensures s[i] <= ' '
      {
        assert s[i] == t[i - 1];
      }
    }
  }

  /** ... and so does TrimEnd. */
  lemma {:induction false} TrimEndRemovesOnlyControls(s: string)
    ensures forall i :: |TrimEnd(s)| <= i < |s| ==> s[i] <= ' '
    decreases |s|
  {
    if s != [] && s[|s| - 1] <= ' ' {
      var t := s[..|s| - 1];
      TrimEndRemovesOnlyControls(t);
      forall i | |TrimEnd(s)| <= i < |t|
        ensures s[i] <= ' '
      {
        assert s[i] == t[i];
      }
    }
  }

  /** A string whose ends are both above U+0020 is its own trim. */
  lemma TrimmedIsUnchanged(s: string)
    requires s != [] ==> s[0] > ' ' && s[|s| - 1] > ' '
    ensures Trim(s) == s
  {
  }

  /** String.indexOf of a character: the first position of c, or -1. */
  function IndexOf(s: string, c: char): (r: int)
    ensures -1 <= r < |s|
    ensures r == -1 <==> c !in s
    ensures r >= 0 ==> s[r] == c && c !in s[..r]
  {
    if s == [] then -1
    else if s[0] == c then 0
    else
      var k := IndexOf(s[1..], c);
      assert s[1..][..k + 1] == s[1..k + 2] by { }
      if k < 0 then -1 else k + 1
  }

  /** The first occurrence is the one IndexOf finds. */
  lemma {:induction false} IndexOfFirst(s: string, c: char, k: nat)
    requires k < |s| && s[k] == c && c !in s[..k]
    ensures IndexOf(s, c) == k
  {
    if k > 0 {
      assert s[0] == s[..k][0];
      assert s[1..][..k - 1] == s[1..k];
      assert forall x :: x in s[1..k] ==> x in s[..k];
      IndexOfFirst(s[1..], c, k - 1);
    }
  }

  predicate OccursAt(s: string, pattern: string, i: nat)
    requires i + |pattern| <= |s|
  {
    forall k :: 0 <= k < |pattern| ==> s[i + k] == pattern[k]
  }

  /** String.contains. */
  function Contains(s: string, pattern: string): (r: bool)
    ensures r <==> exists i :: 0 <= i <= |s| - |pattern| && OccursAt(s, pattern, i)
    decreases |s|
  {
    if |pattern| > |s| then false
    else if s[..|pattern|] == pattern then assert OccursAt(s, pattern, 0); true
    else
      var rest := Contains(s[1..], pattern);
      assert !OccursAt(s, pattern, 0);
      OccursShift(s, pattern);
      assert rest ==> exists i :: 0 <= i <= |s| - |pattern| && OccursAt(s, pattern, i) by {
        if rest {
          var j :| 0 <= j <= |s| - 1 - |pattern| && OccursAt(s[1..], pattern, j);
          assert OccursAt(s, pattern, j + 1);
        }
      }
      rest
  }

  lemma OccursShift(s: string, pattern: string)
    requires s != []
    ensures forall i :: 1 <= i <= |s| - |pattern| ==> (OccursAt(s, pattern, i) <==> OccursAt(s[1..], pattern, i - 1))
  {
    forall i | 1 <= i <= |s| - |pattern|
      ensures OccursAt(s, pattern, i) <==> OccursAt(s[1..], pattern, i - 1)
    {
    }
  }
}
