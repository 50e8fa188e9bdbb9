/** `extract_calibration` (day1/day1.py): the first and the last digit
    character of a line, read together as a two-digit number. */
module Calibration {
  import opened Wrappers
  import opened Decimal

  /** The digit characters of `s`, in the order they occur. */
  function Digits(s: string): (ds: string)
    ensures AllDigits(ds)
    ensures |ds| == 0 <==> NoDigits(s)
  {
    if |s| == 0 then []
    else Digits(s[..|s| - 1]) + (if IsDigit(s[|s| - 1]) then [s[|s| - 1]] else [])
  }

  lemma {:induction false} DigitsAppend(a: string, b: string)
    ensures Digits(a + b) == Digits(a) + Digits(b)
    decreases |b|
  {
    if |b| == 0 {
      assert a + b == a;
    } else {
      DigitsAppend(a, b[..|b| - 1]);
      assert (a + b)[..|a + b| - 1] == a + b[..|b| - 1];
    }
  }

  lemma DigitsCons(c: char, s: string)
    ensures Digits([c] + s) == (if IsDigit(c) then [c] else []) + Digits(s)
  {
    DigitsAppend([c], s);
    assert [c][..0] == [];
  }

  /** The value a sequence of digits stands for: its first and last digit as a
      two-digit decimal number, or `None` when there is no digit at all. */
  function FromDigits(ds: string): (r: Option<nat>)
    requires AllDigits(ds)
    ensures r.None? <==> |ds| == 0
    ensures r.Some? ==> r.value <= 99
  {
    if |ds| == 0 then None else Some(10 * DigitValue(ds[0]) + DigitValue(ds[|ds| - 1]))
  }

  /** The calibration value of a line (reference definition). */
  function CalibrationValue(s: string): Option<nat> {
    FromDigits(Digits(s))
  }

  /** The scan of `extract_calibration`: remember the first digit seen (a
      one-character string, so '0' counts as seen; only "nothing yet" is
      falsy) and overwrite the last digit on every digit. With no digit at
      all the final `first_digit + last_digit` raises, modelled as `None`. */
  method ExtractCalibration(text: string) returns (r: Option<nat>)
    ensures r == CalibrationValue(text)
    ensures r.None? <==> forall i :: 0 <= i < |text| ==> !IsDigit(text[i])
    ensures r.Some? ==> r.value <= 99
  {
    var first: Option<char> := None;
    var last: Option<char> := None;
    for k := 0 to |text|
      invariant var ds := Digits(text[..k]);
        if |ds| == 0 then first.None? && last.None?
        else first == Some(ds[0]) && last == Some(ds[|ds| - 1])
    {
      assert text[..k + 1][..k] == text[..k];
      var val := text[k];
      if !IsDigit(val) {
        continue;
      }
      if first.None? {
        first := Some(val);
      }
      last := Some(val);
    }
    assert text[..|text|] == text;
    if first.None? {
      return None;
    }
    ValueOfPair(first.value, last.value);
    r := Some(Value([first.value, last.value]));
  }

  lemma FirstDigitAt(s: string, i: nat)
    requires i < |s| && IsDigit(s[i]) && NoDigits(s[..i])
    ensures |Digits(s)| > 0 && Digits(s)[0] == s[i]
  {
    assert s == s[..i] + ([s[i]] + s[i + 1..]);
    DigitsAppend(s[..i], [s[i]] + s[i + 1..]);
    DigitsAppend([s[i]], s[i + 1..]);
    assert [s[i]][..0] == [];
  }

  lemma LastDigitAt(s: string, j: nat)
    requires j < |s| && IsDigit(s[j]) && NoDigits(s[j + 1..])
    ensures |Digits(s)| > 0 && Digits(s)[|Digits(s)| - 1] == s[j]
  {
    assert s == (s[..j] + [s[j]]) + s[j + 1..];
    DigitsAppend(s[..j] + [s[j]], s[j + 1..]);
    assert (s[..j] + [s[j]])[..j] == s[..j];
  }

  /** The first digit of the value is the earliest digit of the line and the
      second is the latest one (they coincide when there is only one). */
  lemma EarliestAndLatest(s: string, i: nat, j: nat)
    requires i <= j < |s| && IsDigit(s[i]) && IsDigit(s[j])
    requires NoDigits(s[..i]) && NoDigits(s[j + 1..])
    ensures CalibrationValue(s) == Some(10 * DigitValue(s[i]) + DigitValue(s[j]))
  {
    FirstDigitAt(s, i);
    LastDigitAt(s, j);
  }

  /** A line with exactly one digit `d` has calibration value `11 * d`. */
  lemma SingleDigit(s: string, i: nat)
    requires i < |s| && IsDigit(s[i])
    requires NoDigits(s[..i]) && NoDigits(s[i + 1..])
    ensures CalibrationValue(s) == Some(11 * DigitValue(s[i]))
  {
    EarliestAndLatest(s, i, i);
  }

  /** Characters other than digits never affect the value: inserting (or,
      read right to left, deleting) any digit-free text leaves it unchanged. */
  lemma NonDigitsIrrelevant(a: string, x: string, b: string)
    requires NoDigits(x)
    ensures CalibrationValue(a + x + b) == CalibrationValue(a + b)
  {
    DigitsAppend(a, x);
    DigitsAppend(a + x, b);
    DigitsAppend(a, b);
  }
}
