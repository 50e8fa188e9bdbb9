/** Worked lines for day 1: the overlapping words named next to the
    `numbers` table. */
module CalibrationExamples {
  import opened Wrappers
  import opened Decimal
  import opened SpelledDigits
  import Calibration

  /** Two digits `x` and `y` read as the number `10 * x + y`. */
  lemma PairOfDigits(x: nat, y: nat)
    requires x <= 9 && y <= 9
    ensures Calibration.FromDigits([DigitChar(x), DigitChar(y)]) == Some(10 * x + y)
  {
  }

  /** Two table words sharing a letter give a two-digit value: the first
      word's digit, then the second's. */
  lemma OverlapValue(tbl: Table, a: nat, b: nat, text: string)
    requires ValidTable(tbl) && OverlapFree(tbl) && a < |tbl| && b < |tbl|
    requires tbl[a].0[|tbl[a].0| - 1] == tbl[b].0[0]
    requires text == tbl[a].0 + tbl[b].0[1..]
    ensures Calibration.FromDigits(Scan(text, tbl)) == Some(10 * tbl[a].1 + tbl[b].1)
  {
    OverlappingPairIn(tbl, a, b);
    PairOfDigits(tbl[a].1, tbl[b].1);
  }

  /** The same, for the words of the `numbers` table. */
  lemma NumbersOverlap(a: nat, b: nat, text: string)
    requires a < |Numbers| && b < |Numbers|
    requires Numbers[a].0[|Numbers[a].0| - 1] == Numbers[b].0[0]
    requires text == Numbers[a].0 + Numbers[b].0[1..]
    ensures Calibration.FromDigits(Scan(text, Numbers)) == Some(10 * Numbers[a].1 + Numbers[b].1)
  {
    NumbersOverlapFree();
    OverlapValue(Numbers, a, b, text);
  }

  /** Scanned, "eightwo" reads 8 then 2. */
  lemma EightTwoScan(text: string)
    requires text == "eightwo"
    ensures Calibration.FromDigits(Scan(text, Numbers)) == Some(82)
  {
    assert Numbers[7] == ("eight", 8);
    assert Numbers[1] == ("two", 2);
    NumbersOverlap(7, 1, text);
  }

  /** "eightwo" has calibration value 82. */
  lemma EightTwo(text: string)
    requires text == "eightwo"
    ensures Calibration.CalibrationValue(ProcessWords(text)) == Some(82)
  {
    EightTwoScan(text);
    CalibrationOfProcessed(text);
  }

  /** Scanned, "twone" reads 2 then 1. */
  lemma TwoOneScan(text: string)
    requires text == "twone"
    ensures Calibration.FromDigits(Scan(text, Numbers)) == Some(21)
  {
    assert Numbers[1] == ("two", 2);
    assert Numbers[0] == ("one", 1);
    NumbersOverlap(1, 0, text);
  }

  /** "twone" has calibration value 21. */
  lemma TwoOne(text: string)
    requires text == "twone"
    ensures Calibration.CalibrationValue(ProcessWords(text)) == Some(21)
  {
    TwoOneScan(text);
    CalibrationOfProcessed(text);
  }

  /** Scanned, "oneight" reads 1 then 8. */
  lemma OneEightScan(text: string)
    requires text == "oneight"
    ensures Calibration.FromDigits(Scan(text, Numbers)) == Some(18)
  {
    assert Numbers[0] == ("one", 1);
    assert Numbers[7] == ("eight", 8);
    NumbersOverlap(0, 7, text);
  }

  /** "oneight" has calibration value 18. */
  lemma OneEight(text: string)
    requires text == "oneight"
    ensures Calibration.CalibrationValue(ProcessWords(text)) == Some(18)
  {
    OneEightScan(text);
    CalibrationOfProcessed(text);
  }
}
