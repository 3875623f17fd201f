/**
  String helpers with the behaviour of the JavaScript operations that `core.ts`
  and `processor.ts` use: `String.prototype.split` on a one-character
  separator, `startsWith`, the numeric conversion `+s` on a string of decimal
  digits, and the rendering of a non-negative integer inside a template
  literal. Numbers here are exact naturals; JavaScript agrees with them for
  values below 2^53.
*/
module Text {

  /** `p` is a prefix of `s` (JavaScript `s.startsWith(p)`). */
  predicate StartsWith(s: string, p: string) {
    |p| <= |s| && s[..|p|] == p
  }

  /** Concatenates `fields`, putting one `sep` between neighbours (`fields.join(sep)`). */
  function Join(fields: seq<string>, sep: char): string {
    if |fields| == 0 then ""
    else if |fields| == 1 then fields[0]
    else fields[0] + [sep] + Join(fields[1..], sep)
  }

  predicate NoSeparator(fields: seq<string>, sep: char) {
    forall i :: 0 <= i < |fields| ==> sep !in fields[i]
  }

  /**
    `s.split(sep)`: the maximal runs between separators, in order. There is
    always at least one field, and there are two or more exactly when `s`
    contains the separator.
  */
  function Split(s: string, sep: char): (fields: seq<string>)
    ensures |fields| >= 1
    ensures NoSeparator(fields, sep)
    ensures Join(fields, sep) == s
    ensures sep in s <==> |fields| >= 2
    decreases |s|
  {
    if |s| == 0 then [""]
    else
      var rest := Split(s[1..], sep);
      if s[0] == sep then
        [""] + rest
      else
        assert s == [s[0]] + s[1..];
        [[s[0]] + rest[0]] + rest[1..]
  }

  lemma {:induction false} JoinAppend(xs: seq<string>, ys: seq<string>, sep: char)
    requires |xs| >= 1 && |ys| >= 1
    ensures Join(xs + ys, sep) == Join(xs, sep) + [sep] + Join(ys, sep)
    decreases |xs|
  {
    if |xs| == 1 {
      assert (xs + ys)[1..] == ys;
    } else {
      assert (xs + ys)[1..] == xs[1..] + ys;
      JoinAppend(xs[1..], ys, sep);
    }
  }

  /** Splitting undoes joining, provided no field contains the separator. */
  lemma {:induction false} SplitJoin(fields: seq<string>, sep: char)
    requires |fields| >= 1
    requires NoSeparator(fields, sep)
    ensures Split(Join(fields, sep), sep) == fields
    decreases |fields|, |fields[0]|
  {
    var s := Join(fields, sep);
    if |fields[0]| == 0 {
      if |fields| == 1 {
        assert s == "";
      } else {
        assert s == [sep] + Join(fields[1..], sep);
        assert s[1..] == Join(fields[1..], sep);
        SplitJoin(fields[1..], sep);
        assert fields == [""] + fields[1..];
      }
    } else {
      var f0 := fields[0];
      var shorter := [f0[1..]] + fields[1..];
      assert NoSeparator(shorter, sep) by {
        forall i | 0 <= i < |shorter| ensures sep !in shorter[i] {
          if i == 0 {
            assert f0 == [f0[0]] + f0[1..];
          }
        }
      }
      assert Join(shorter, sep) == s[1..] by {
        if |fields| == 1 {
        } else {
          assert shorter[1..] == fields[1..];
        }
      }
      SplitJoin(shorter, sep);
      assert s[0] == f0[0];
      assert f0[0] != sep;
      assert [f0[0]] + f0[1..] == f0;
      assert shorter[1..] == fields[1..];
    }
  }

  /** Splitting on a separator that follows a separator-free head yields that head first. */
  lemma SplitAtFirstSeparator(head: string, tail: string, sep: char)
    requires sep !in head
    ensures Split(head + [sep] + tail, sep) == [head] + Split(tail, sep)
  {
    var fields := [head] + Split(tail, sep);
    assert NoSeparator(fields, sep);
    JoinAppend([head], Split(tail, sep), sep);
    SplitJoin(fields, sep);
  }

  /** Splitting around one separator splits each side independently. */
  lemma SplitAround(left: string, right: string, sep: char)
    ensures Split(left + [sep] + right, sep) == Split(left, sep) + Split(right, sep)
  {
    var fields := Split(left, sep) + Split(right, sep);
    assert NoSeparator(fields, sep);
    JoinAppend(Split(left, sep), Split(right, sep), sep);
    SplitJoin(fields, sep);
  }

  /**
    The first field of a split is the longest separator-free prefix: it is a
    prefix of `s`, and either it is all of `s` or a separator follows it.
  */
  lemma FirstFieldIsLongestPrefix(s: string, sep: char)
    ensures Split(s, sep)[0] <= s
    ensures sep !in Split(s, sep)[0]
    ensures Split(s, sep)[0] == s || s[|Split(s, sep)[0]|] == sep
  {
    var fields := Split(s, sep);
    if |fields| >= 2 {
      assert s == fields[0] + [sep] + Join(fields[1..], sep);
    }
  }

  // ---- decimal digits ----

  predicate IsDigit(c: char) {
    '0' <= c <= '9'
  }

  predicate IsDigits(s: string) {
    forall i :: 0 <= i < |s| ==> IsDigit(s[i])
  }

  function DigitValue(c: char): nat
    requires IsDigit(c)
  {
    (c as int) - ('0' as int)
  }

  function DigitChar(d: nat): char
    requires d < 10
  {
    ((('0' as int) + d) as char)
  }

  /**
    The value `+s` of a string of decimal digits, for values below 2^53
    (0 for the empty string, as in JavaScript). It is 0 exactly when every
    digit is a zero.
  */
  function DigitsToNat(s: string): (n: nat)
    requires IsDigits(s)
    ensures n == 0 <==> forall i :: 0 <= i < |s| ==> s[i] == '0'
  {
    if |s| == 0 then 0
    else DigitsToNat(s[..|s| - 1]) * 10 + DigitValue(s[|s| - 1])
  }

  /** A non-empty digit string with no redundant leading zero. */
  predicate Canonical(s: string) {
    |s| >= 1 && IsDigits(s) && (s[0] == '0' ==> |s| == 1)
  }

  /**
    The decimal rendering of `n`, as `${n}` prints a non-negative integer
    below 2^53: canonical digits, a single digit exactly below 10.
  */
  function NatToString(n: nat): (s: string)
    ensures Canonical(s)
    ensures |s| == 1 <==> n < 10
  {
    if n < 10 then [DigitChar(n)]
    else NatToString(n / 10) + [DigitChar(n % 10)]
  }

  /** Removes leading zeros, keeping at least one digit. */
  function StripLeadingZeros(s: string): (t: string)
    requires |s| >= 1 && IsDigits(s)
    ensures Canonical(t)
    ensures |t| <= |s| && s[|s| - |t|..] == t
    ensures forall i :: 0 <= i < |s| - |t| ==> s[i] == '0'
  {
    if |s| > 1 && s[0] == '0' then StripLeadingZeros(s[1..]) else s
  }

  /** Parsing the rendering of a number gives the number back. */
  lemma {:induction false} DigitsOfNatToString(n: nat)
    ensures DigitsToNat(NatToString(n)) == n
  {
    if n >= 10 {
      DigitsOfNatToString(n / 10);
      var s := NatToString(n);
      assert s[..|s| - 1] == NatToString(n / 10);
    }
  }

  lemma {:induction false} CanonicalValue(s: string)
    requires Canonical(s) && s[0] != '0'
    ensures DigitsToNat(s) >= 1
    ensures |s| >= 2 ==> DigitsToNat(s) >= 10
    decreases |s|
  {
    if |s| >= 2 {
      var init := s[..|s| - 1];
      assert init[0] == s[0];
      CanonicalValue(init);
    }
  }

  /** Rendering the value of a canonical digit string gives the string back. */
  lemma {:induction false} NatToStringOfCanonical(s: string)
    requires Canonical(s)
    ensures NatToString(DigitsToNat(s)) == s
    decreases |s|
  {
    if |s| >= 2 {
      var init := s[..|s| - 1];
      assert init[0] == s[0];
      CanonicalValue(s);
      CanonicalValue(init);
      NatToStringOfCanonical(init);
      assert s == init + [s[|s| - 1]];
    }
  }

  lemma {:induction false} LeadingZeroIgnored(s: string)
    requires IsDigits(s)
    ensures IsDigits(['0'] + s)
    ensures DigitsToNat(['0'] + s) == DigitsToNat(s)
    decreases |s|
  {
    if |s| > 0 {
      var t := ['0'] + s;
      assert t[..|t| - 1] == ['0'] + s[..|s| - 1];
      LeadingZeroIgnored(s[..|s| - 1]);
    }
  }

  /**
    `${+s}` on a non-empty digit string drops its leading zeros: "03" becomes
    "3" (for values below 2^53).
  */
  lemma {:induction false} RenderedValueStripsZeros(s: string)
    requires |s| >= 1 && IsDigits(s)
    ensures NatToString(DigitsToNat(s)) == StripLeadingZeros(s)
    decreases |s|
  {
    if |s| > 1 && s[0] == '0' {
      assert s == ['0'] + s[1..];
      LeadingZeroIgnored(s[1..]);
      RenderedValueStripsZeros(s[1..]);
    } else {
      NatToStringOfCanonical(s);
    }
  }
}
