/**
  `formatDate` of the bill splitter: `YYYY-MM-DD` to `Y年M月D日`, reading the
  first three `-`-separated fields as numbers.
*/
module DateFormat {
  import opened Text

  /**
    The inputs this model covers: the first three `-`-separated fields exist
    and are non-empty decimal digit strings. Further fields are allowed;
    `formatDate` in `core.ts` never looks at them.
  */
  predicate WellFormedDate(date: string) {
    var fields := Split(date, '-');
    |fields| >= 3
    && |fields[0]| >= 1 && IsDigits(fields[0])
    && |fields[1]| >= 1 && IsDigits(fields[1])
    && |fields[2]| >= 1 && IsDigits(fields[2])
  }

  /**
    Converts each of the first three fields with `+` and renders them in a
    template (exactly, for values below 2^53). The result is each field with its leading zeros removed, joined
    by the year, month and day characters.
  */
  function FormatDate(date: string): (r: string)
    requires WellFormedDate(date)
    ensures var f := Split(date, '-');
      r == StripLeadingZeros(f[0]) + "年" + StripLeadingZeros(f[1]) + "月"
           + StripLeadingZeros(f[2]) + "日"
  {
    var fields := Split(date, '-');
    var year := DigitsToNat(fields[0]);
    var month := DigitsToNat(fields[1]);
    var day := DigitsToNat(fields[2]);
    RenderedValueStripsZeros(fields[0]);
    RenderedValueStripsZeros(fields[1]);
    RenderedValueStripsZeros(fields[2]);
    NatToString(year) + "年" + NatToString(month) + "月" + NatToString(day) + "日"
  }

  /** Splitting `a-b-c` on `-` recovers the three parts when none contains `-`. */
  lemma SplitThree(a: string, b: string, c: string)
    requires '-' !in a && '-' !in b && '-' !in c
    ensures Split(a + "-" + b + "-" + c, '-') == [a, b, c]
  {
    SplitAtFirstSeparator(b, c, '-');
    SplitJoin([c], '-');
    assert a + "-" + b + "-" + c == a + ['-'] + (b + ['-'] + c);
    SplitAtFirstSeparator(a, b + ['-'] + c, '-');
  }

  lemma DigitsHaveNoDash(s: string)
    requires IsDigits(s)
    ensures '-' !in s
  {
  }

  /** The date text `y-m-d` written with the decimal renderings of three numbers. */
  function DateText(y: nat, m: nat, d: nat): string {
    NatToString(y) + "-" + NatToString(m) + "-" + NatToString(d)
  }

  /** A date written without padding comes back with the same three numbers. */
  lemma FormatDateOfNumbers(y: nat, m: nat, d: nat)
    ensures WellFormedDate(DateText(y, m, d))
    ensures FormatDate(DateText(y, m, d))
         == NatToString(y) + "年" + NatToString(m) + "月" + NatToString(d) + "日"
  {
    var ys, ms, ds := NatToString(y), NatToString(m), NatToString(d);
    DigitsHaveNoDash(ys);
    DigitsHaveNoDash(ms);
    DigitsHaveNoDash(ds);
    SplitThree(ys, ms, ds);
    RenderedValueStripsZeros(ys);
    RenderedValueStripsZeros(ms);
    RenderedValueStripsZeros(ds);
    NatToStringOfCanonical(ys);
    NatToStringOfCanonical(ms);
    NatToStringOfCanonical(ds);
  }

  /** Only the first three fields are read: appending `-extra` changes nothing. */
  lemma FormatDateIgnoresExtraFields(date: string, extra: string)
    requires WellFormedDate(date)
    ensures WellFormedDate(date + "-" + extra)
    ensures FormatDate(date + "-" + extra) == FormatDate(date)
  {
    SplitAround(date, extra, '-');
    var f := Split(date, '-');
    var g := Split(date + "-" + extra, '-');
    assert g[0] == f[0] && g[1] == f[1] && g[2] == f[2];
  }

  /** A date `a-b-c` of three digit fields prints each field without its leading zeros. */
  lemma FormatDateOfFields(a: string, b: string, c: string)
    requires |a| >= 1 && IsDigits(a)
    requires |b| >= 1 && IsDigits(b)
    requires |c| >= 1 && IsDigits(c)
    ensures WellFormedDate(a + "-" + b + "-" + c)
    ensures FormatDate(a + "-" + b + "-" + c)
         == StripLeadingZeros(a) + "年" + StripLeadingZeros(b) + "月" + StripLeadingZeros(c) + "日"
  {
    DigitsHaveNoDash(a);
    DigitsHaveNoDash(b);
    DigitsHaveNoDash(c);
    SplitThree(a, b, c);
  }

  /** The fields of the example lose their leading zeros: "03" prints as "3". */
  lemma ExampleFieldsStripped()
    ensures StripLeadingZeros("2024") + "年" + StripLeadingZeros("03") + "月" + StripLeadingZeros("21") + "日"
         == "2024年3月21日"
  {
    var y, m, d := "2024", "03", "21";
    assert StripLeadingZeros(y) == y by { assert y[0] != '0'; }
    assert StripLeadingZeros(m) == "3" by { assert m[0] == '0' && m[1..] == "3"; }
    assert StripLeadingZeros(d) == d by { assert d[0] != '0'; }
  }

  /** The example in the comment of `formatDate` in `core.ts`: "2024-03-21" becomes "2024年3月21日". */
  lemma FormatDateExample()
    ensures WellFormedDate("2024-03-21")
    ensures FormatDate("2024-03-21") == "2024年3月21日"
  {
    var y, m, d := "2024", "03", "21";
    assert "2024-03-21" == y + "-" + m + "-" + d;
    FormatDateOfFields(y, m, d);
    ExampleFieldsStripped();
  }
}
