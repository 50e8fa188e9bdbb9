/** The fold of `sum_calibrations`: each line of the document, with spelled
    digits rewritten first when word mode is on (`part1` false), contributes
    its calibration value to the sum. Reading the file and printing the sum
    are not modelled: the document is a sequence of lines and the sum is the
    result. A line without digits makes the Python code raise, which ends the
    whole sum: that is `None` here. */
module CalibrationSum {
  import opened Wrappers
  import opened Decimal
  import opened Calibration
  import SpelledDigits

  /** The text whose calibration value a line contributes. */
  function Prepare(line: string, part1: bool): string {
    if part1 then line else SpelledDigits.ProcessWords(line)
  }

  /** The value one line contributes. */
  function LineValue(line: string, part1: bool): Option<nat> {
    CalibrationValue(Prepare(line, part1))
  }

  /** The values the lines contribute, in order. */
  function LineValues(lines: seq<string>, part1: bool): seq<Option<nat>>
  {
    seq(|lines|, i requires 0 <= i < |lines| => LineValue(lines[i], part1))
  }

  /** A left fold of `+` over partial results that fails as soon as one
      fails. */
  function SumValues(vs: seq<Option<nat>>): Option<nat>
    decreases |vs|
  {
    if |vs| == 0 then Some(0)
    else
      match SumValues(vs[..|vs| - 1])
      case None => None
      case Some(t) =>
        match vs[|vs| - 1]
        case None => None
        case Some(v) => Some(t + v)
  }

  /** Reference definition of the document's sum. */
  function Total(lines: seq<string>, part1: bool): Option<nat> {
    SumValues(LineValues(lines, part1))
  }

  /** The sum of two partial results, failing when either fails. */
  function AddOption(x: Option<nat>, y: Option<nat>): Option<nat> {
    if x.Some? && y.Some? then Some(x.value + y.value) else None
  }

  /** The fold fails exactly when some value is missing. */
  lemma {:induction false} SumFails(vs: seq<Option<nat>>)
    ensures SumValues(vs).None? <==> exists i :: 0 <= i < |vs| && vs[i].None?
    decreases |vs|
  {
    if |vs| > 0 {
      var init := vs[..|vs| - 1];
      SumFails(init);
      if exists i :: 0 <= i < |init| && init[i].None? {
        var i :| 0 <= i < |init| && init[i].None?;
        assert vs[i].None?;
      }
    }
  }

  /** Folding in two parts adds the parts' sums. */
  lemma {:induction false} SumAppend(a: seq<Option<nat>>, b: seq<Option<nat>>)
    ensures SumValues(a + b) == AddOption(SumValues(a), SumValues(b))
    decreases |b|
  {
    if |b| == 0 {
      assert a + b == a;
    } else {
      var b' := b[..|b| - 1];
      assert (a + b)[..|a + b| - 1] == a + b';
      assert (a + b)[|a + b| - 1] == b[|b| - 1];
      SumAppend(a, b');
    }
  }

  /** Each value up to 99 keeps the sum within 99 per value. */
  lemma {:induction false} SumBound(vs: seq<Option<nat>>)
    requires forall i :: 0 <= i < |vs| && vs[i].Some? ==> vs[i].value <= 99
    ensures SumValues(vs).Some? ==> SumValues(vs).value <= 99 * |vs|
    decreases |vs|
  {
    if |vs| > 0 {
      SumBound(vs[..|vs| - 1]);
    }
  }

  /** The document's sum fails exactly when some line has no digit. */
  lemma TotalFails(lines: seq<string>, part1: bool)
    ensures Total(lines, part1).None?
        <==> exists i :: 0 <= i < |lines| && LineValue(lines[i], part1).None?
  {
    var vs := LineValues(lines, part1);
    SumFails(vs);
    assert forall i :: 0 <= i < |lines| ==> vs[i] == LineValue(lines[i], part1);
    if exists i :: 0 <= i < |vs| && vs[i].None? {
      var i :| 0 <= i < |vs| && vs[i].None?;
      assert vs[i] == LineValue(lines[i], part1);
    }
  }

  /** Summing a document in two parts adds the parts' sums. */
  lemma TotalAppend(a: seq<string>, b: seq<string>, part1: bool)
    ensures Total(a + b, part1) == AddOption(Total(a, part1), Total(b, part1))
  {
    assert LineValues(a + b, part1) == LineValues(a, part1) + LineValues(b, part1);
    SumAppend(LineValues(a, part1), LineValues(b, part1));
  }

  /** Each line adds at most 99. */
  lemma TotalBound(lines: seq<string>, part1: bool)
    ensures Total(lines, part1).Some? ==> Total(lines, part1).value <= 99 * |lines|
  {
    SumBound(LineValues(lines, part1));
  }

  /** In word mode a line's value is read off the forward scan that takes
      each digit, written or spelled, in order. */
  lemma WordModeLine(line: string)
    ensures LineValue(line, false) == FromDigits(SpelledDigits.Scan(line, SpelledDigits.Numbers))
  {
    SpelledDigits.CalibrationOfProcessed(line);
  }

  /** One step of the fold: a present value extends the sum, a missing one
      makes the whole fold fail. */
  lemma SumStep(vs: seq<Option<nat>>, k: nat, sum: nat)
    requires k < |vs| && SumValues(vs[..k]) == Some(sum)
    ensures vs[k].Some? ==> SumValues(vs[..k + 1]) == Some(sum + vs[k].value)
    ensures vs[k].None? ==> SumValues(vs).None?
  {
    assert vs[..k + 1][..k] == vs[..k];
    if vs[k].None? {
      SumFails(vs);
    }
  }

  /** The calibration values of some texts, in order. */
  function TextValues(texts: seq<string>): seq<Option<nat>>
  {
    seq(|texts|, i requires 0 <= i < |texts| => CalibrationValue(texts[i]))
  }

  /** The loop of `sum_calibrations` over prepared texts: `ExtractCalibration`
      on each in turn, stopping at the first without a digit. */
  method SumTexts(texts: seq<string>) returns (r: Option<nat>)
    ensures r == SumValues(TextValues(texts))
  {
    ghost var vs := TextValues(texts);
    var sum := 0;
    for k := 0 to |texts|
      invariant SumValues(vs[..k]) == Some(sum)
    {
      var v := ExtractCalibration(texts[k]);
      SumStep(vs, k, sum);
      if v.None? {
        return None;
      }
      sum := sum + v.value;
    }
    assert vs[..|texts|] == vs;
    r := Some(sum);
  }

  /** `sum_calibrations`: each line prepared for the mode, then the loop;
      the sum is the reference sum and fails exactly when some line has no
      digit. */
  method SumCalibrations(lines: seq<string>, part1: bool) returns (r: Option<nat>)
    ensures r == Total(lines, part1)
    ensures r.None? <==> exists i :: 0 <= i < |lines| && LineValue(lines[i], part1).None?
  {
    var texts := seq(|lines|, i requires 0 <= i < |lines| => Prepare(lines[i], part1));
    r := SumTexts(texts);
    assert TextValues(texts) == LineValues(lines, part1);
    TotalFails(lines, part1);
  }
}
