/** String helpers shared by the filters: ASCII case folding as used by
    Java's `equalsIgnoreCase`, and the digit extraction performed by
    `replaceAll("\\D+", "")`. */
module Text {

  /** ASCII lower-casing of one character. */
  function LowerChar(c: char): (r: char)
    ensures 'A' <= c <= 'Z' ==> 'a' <= r <= 'z' && r as int - c as int == 32
    ensures !('A' <= c <= 'Z') ==> r == c
  {
    if 'A' <= c <= 'Z' then (c as int + 32) as char else c
  }

  /** `a.equalsIgnoreCase(b)` for a non-null `b`: same length and equal
      characters position by position once case is folded, which is
      equality of the lower-cased strings. */
  predicate EqualsIgnoreCase(a: string, b: string)
    ensures EqualsIgnoreCase(a, b) <==> Lower(a) == Lower(b)
  {
    |a| == |b| && forall i :: 0 <= i < |a| ==> LowerChar(a[i]) == LowerChar(b[i])
  }

  /** Lower-casing of a whole string. */
  function Lower(s: string): (r: string)
    ensures |r| == |s|
    ensures forall i :: 0 <= i < |s| ==> r[i] == LowerChar(s[i])
  {
    seq(|s|, i requires 0 <= i < |s| => LowerChar(s[i]))
  }

  /** Case-insensitive equality is an equivalence relation. */
  lemma EqualsIgnoreCaseIsEquivalence(a: string, b: string, c: string)
    ensures EqualsIgnoreCase(a, a)
    ensures EqualsIgnoreCase(a, b) ==> EqualsIgnoreCase(b, a)
    ensures EqualsIgnoreCase(a, b) && EqualsIgnoreCase(b, c) ==> EqualsIgnoreCase(a, c)
  {
  }

  predicate IsDigit(c: char)
  {
    '0' <= c <= '9'
  }

  /** Case folding leaves digits alone, so the only string equal up to case
      to a string of digits is that string itself. */
  lemma FoldedDigitsAreExact(a: string, digits: string)
    requires forall i :: 0 <= i < |digits| ==> IsDigit(digits[i])
    requires EqualsIgnoreCase(a, digits)
    ensures a == digits
  {
    forall i | 0 <= i < |a|
      ensures a[i] == digits[i]
    {
      assert LowerChar(a[i]) == LowerChar(digits[i]);
    }
  }

  /** The string with every non-digit character removed, the effect of
      Java's `s.replaceAll("\\D+", "")` (`\D` is any character outside 0-9). */
  function Digits(s: string): (r: string)
    ensures |r| <= |s|
    ensures forall i :: 0 <= i < |r| ==> IsDigit(r[i])
  {
    if |s| == 0 then ""
    else if IsDigit(s[0]) then [s[0]] + Digits(s[1..])
    else Digits(s[1..])
  }

  /** Digit extraction distributes over concatenation, so it keeps the
      digits in their original order. */
  lemma {:induction false} DigitsConcat(a: string, b: string)
    ensures Digits(a + b) == Digits(a) + Digits(b)
  {
    if |a| == 0 {
      assert a + b == b;
    } else {
      assert (a + b)[1..] == a[1..] + b;
      DigitsConcat(a[1..], b);
    }
  }

  /** A string made only of digits is its own digit string: a filter
      such as "5" is compared as it is. */
  lemma {:induction false} DigitsOfDigitString(s: string)
    requires forall i :: 0 <= i < |s| ==> IsDigit(s[i])
    ensures Digits(s) == s
  {
    if |s| > 0 {
      DigitsOfDigitString(s[1..]);
    }
  }

  /** The digit string holds exactly the digits of the input. */
  lemma {:induction false} DigitsKeepsDigits(s: string, c: char)
    ensures c in Digits(s) <==> c in s && IsDigit(c)
  {
    if |s| > 0 {
      DigitsKeepsDigits(s[1..], c);
      assert s == [s[0]] + s[1..];
    }
  }

  /** A string holds no digit exactly when its digit string is empty. */
  lemma {:induction false} DigitsEmptyIffNoDigit(s: string)
    ensures Digits(s) == "" <==> forall i :: 0 <= i < |s| ==> !IsDigit(s[i])
  {
    if |s| > 0 {
      DigitsEmptyIffNoDigit(s[1..]);
      if !IsDigit(s[0]) {
        assert forall i :: 1 <= i < |s| ==> s[i] == s[1..][i - 1];
      }
    }
  }

  /** The digit string of a label such as "Semester 5" or "5th Semester":
      a run of digits surrounded by digit-free text. */
  lemma DigitsOfLabel(prefix: string, number: string, suffix: string)
    requires forall i :: 0 <= i < |prefix| ==> !IsDigit(prefix[i])
    requires forall i :: 0 <= i < |number| ==> IsDigit(number[i])
    requires forall i :: 0 <= i < |suffix| ==> !IsDigit(suffix[i])
    ensures Digits(prefix + number + suffix) == number
  {
    DigitsConcat(prefix + number, suffix);
    DigitsConcat(prefix, number);
    DigitsEmptyIffNoDigit(prefix);
    DigitsEmptyIffNoDigit(suffix);
    DigitsOfDigitString(number);
  }
}
