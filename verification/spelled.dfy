/** `process_words` (day1/day1.py): every spelled-out digit word is rewritten
    as its first letter, its digit and its last letter, so that words sharing
    a letter ("eightwo", "twone", "oneight") all survive as digits.

    The proofs are stated for any conversion table that is `OverlapFree`: no
    word holds, from its second letter on, the first two letters of a word;
    no two words begin with the same two letters; and no word begins and
    ends with the same letter. `NumbersOverlapFree` shows the program's
    table is one. */
module SpelledDigits {
  import opened Wrappers
  import opened Decimal
  import opened StrReplace
  import Calibration

  /** A table of spelled words with the digit each stands for, in the order
      the conversion loop visits them. */
  type Table = seq<(string, nat)>

  /** The `numbers` table, in the dict's insertion order. */
  const Numbers: Table := [
    ("one", 1), ("two", 2), ("three", 3), ("four", 4), ("five", 5),
    ("six", 6), ("seven", 7), ("eight", 8), ("nine", 9)]

  /** Words of at least two letters and no digit, each standing for a digit
      1..9. */
  predicate ValidTable(tbl: Table) {
    forall k :: 0 <= k < |tbl| ==>
      |tbl[k].0| >= 2 && NoDigits(tbl[k].0) && 1 <= tbl[k].1 <= 9
  }

  /** What the rewriting needs of a table: no word has, from its second letter
      on, the first two letters of any word; no two words start with the same
      two letters; and no word starts and ends with the same letter. */
  predicate OverlapFree(tbl: Table)
    requires ValidTable(tbl)
  {
    && (forall a, b, i :: 0 <= a < |tbl| && 0 <= b < |tbl| && 1 <= i < |tbl[a].0| - 1 ==>
          !(tbl[a].0[i] == tbl[b].0[0] && tbl[a].0[i + 1] == tbl[b].0[1]))
    && (forall a, b :: 0 <= a < |tbl| && 0 <= b < |tbl| && a != b ==>
          !(tbl[a].0[0] == tbl[b].0[0] && tbl[a].0[1] == tbl[b].0[1]))
    && (forall k :: 0 <= k < |tbl| ==> tbl[k].0[0] != tbl[k].0[|tbl[k].0| - 1])
  }

  /** `key[0] + str(val) + key[-1]`, one entry of the `conversion` table. */
  function Encode(key: string, val: nat): string
    requires |key| > 0
  {
    [key[0]] + Show(val) + [key[|key| - 1]]
  }

  function Encoding(tbl: Table, k: nat): string
    requires ValidTable(tbl) && k < |tbl|
  {
    Encode(tbl[k].0, tbl[k].1)
  }

  /** The loop of `process_words` after its first `n` rounds: each round is
      one `text.replace(key, val)` over the whole text. */
  function ApplyConversions(text: string, tbl: Table, n: nat): string
    requires ValidTable(tbl) && n <= |tbl|
  {
    if n == 0 then text
    else Replace(ApplyConversions(text, tbl, n - 1), tbl[n - 1].0, Encoding(tbl, n - 1))
  }

  function ProcessWords(text: string): string {
    ApplyConversions(text, Numbers, |Numbers|)
  }

  // ---------------------------------------------------------------------------
  // Reference semantics: a single forward scan.

  /** The value of the first table word (from index `k` on) that `s` starts
      with, if any. */
  function WordAt(s: string, tbl: Table, k: nat): (r: Option<nat>)
    requires ValidTable(tbl) && k <= |tbl|
    ensures r.Some? ==> 1 <= r.value <= 9
    decreases |tbl| - k
  {
    if k == |tbl| then None
    else if tbl[k].0 <= s then Some(tbl[k].1)
    else WordAt(s, tbl, k + 1)
  }

  /** What the position at the start of `s` contributes to the scan: its own
      digit, or the digit of the word spelled from there, or nothing. */
  function Emit(s: string, tbl: Table): (r: string)
    requires ValidTable(tbl) && |s| > 0
    ensures AllDigits(r) && |r| <= 1
  {
    if IsDigit(s[0]) then [s[0]]
    else match WordAt(s, tbl, 0)
      case Some(v) => [DigitChar(v)]
      case None => []
  }

  /** Every digit of `s`, written or spelled, in the order of the positions
      where they start. */
  function Scan(s: string, tbl: Table): (r: string)
    requires ValidTable(tbl)
    ensures AllDigits(r)
    decreases |s|
  {
    if |s| == 0 then [] else Emit(s, tbl) + Scan(s[1..], tbl)
  }

  /** `a` can be obtained from `b` by deleting characters. */
  predicate IsSubsequence(a: string, b: string)
    decreases |b|
  {
    if |a| == 0 then true
    else if |b| == 0 then false
    else (a[0] == b[0] && IsSubsequence(a[1..], b[1..])) || IsSubsequence(a, b[1..])
  }

  // ---------------------------------------------------------------------------
  // The program's table.

  lemma NumbersValid()
    ensures ValidTable(Numbers)
  {
  }

  /** From its second letter on, word `a` never has the first two letters
      of a word. */
  predicate InteriorClean(tbl: Table, a: nat)
    requires ValidTable(tbl) && a < |tbl|
  {
    forall b, i :: 0 <= b < |tbl| && 1 <= i < |tbl[a].0| - 1 ==>
      !(tbl[a].0[i] == tbl[b].0[0] && tbl[a].0[i + 1] == tbl[b].0[1])
  }

  /** From their second letter on, "one" and "two" hold no word's first
      two letters. */
  lemma NumbersInteriorLow()
    requires ValidTable(Numbers)
    ensures InteriorClean(Numbers, 0) && InteriorClean(Numbers, 1)
  {
  }

  /** The same for "three". */
  lemma NumbersInteriorThree()
    requires ValidTable(Numbers)
    ensures InteriorClean(Numbers, 2)
  {
  }

  /** The same for "four", "five" and "six". */
  lemma NumbersInteriorMid()
    requires ValidTable(Numbers)
    ensures InteriorClean(Numbers, 3) && InteriorClean(Numbers, 4) && InteriorClean(Numbers, 5)
  {
  }

  /** The same for "seven". */
  lemma NumbersInteriorSeven()
    requires ValidTable(Numbers)
    ensures InteriorClean(Numbers, 6)
  {
  }

  /** The same for "eight" and "nine". */
  lemma NumbersInteriorHigh()
    requires ValidTable(Numbers)
    ensures InteriorClean(Numbers, 7) && InteriorClean(Numbers, 8)
  {
  }

  /** No two of one..nine share their first two letters, and none begins
      with its own last letter. */
  lemma NumbersStartsAndEnds()
    requires ValidTable(Numbers)
    ensures forall a, b :: 0 <= a < |Numbers| && 0 <= b < |Numbers| && a != b ==>
              !(Numbers[a].0[0] == Numbers[b].0[0] && Numbers[a].0[1] == Numbers[b].0[1])
    ensures forall k :: 0 <= k < |Numbers| ==> Numbers[k].0[0] != Numbers[k].0[|Numbers[k].0| - 1]
  {
  }

  /** The three clauses of `OverlapFree`, gathered. */
  lemma OverlapFreeFromParts(tbl: Table)
    requires ValidTable(tbl)
    requires forall a :: 0 <= a < |tbl| ==> InteriorClean(tbl, a)
    requires forall a, b :: 0 <= a < |tbl| && 0 <= b < |tbl| && a != b ==>
               !(tbl[a].0[0] == tbl[b].0[0] && tbl[a].0[1] == tbl[b].0[1])
    requires forall k :: 0 <= k < |tbl| ==> tbl[k].0[0] != tbl[k].0[|tbl[k].0| - 1]
    ensures OverlapFree(tbl)
  {
    forall a, b, i | 0 <= a < |tbl| && 0 <= b < |tbl| && 1 <= i < |tbl[a].0| - 1
      ensures !(tbl[a].0[i] == tbl[b].0[0] && tbl[a].0[i + 1] == tbl[b].0[1])
    {
      assert InteriorClean(tbl, a);
    }
  }

  /** The `numbers` table is `OverlapFree`. */
  lemma NumbersOverlapFree()
    ensures ValidTable(Numbers) && OverlapFree(Numbers)
  {
    NumbersValid();
    NumbersInteriorLow();
    NumbersInteriorThree();
    NumbersInteriorMid();
    NumbersInteriorSeven();
    NumbersInteriorHigh();
    NumbersStartsAndEnds();
    var tbl := Numbers;
    assert forall a :: 0 <= a < |tbl| ==> InteriorClean(tbl, a) by {
      forall a | 0 <= a < |tbl| ensures InteriorClean(tbl, a) {
        assert a == 0 || a == 1 || a == 2 || a == 3 || a == 4 || a == 5 || a == 6 || a == 7 || a == 8;
      }
    }
    OverlapFreeFromParts(tbl);
  }

  // ---------------------------------------------------------------------------
  // Facts about one table entry.

  /** Each conversion keeps the word's first and last letter around its digit. */
  lemma EntryBracketing(tbl: Table, k: nat)
    requires ValidTable(tbl) && k < |tbl|
    ensures Bracketing(tbl[k].0, Encoding(tbl, k))
    ensures Encoding(tbl, k)[1] == DigitChar(tbl[k].1)
  {
    ShowDigit(tbl[k].1);
  }

  lemma ConsTail(w: string)
    requires |w| > 0
    ensures [w[0]] + w[1..] == w
  {
  }

  // ---------------------------------------------------------------------------
  // One round of `process_words` does not change the scan.

  /** Two texts that start with the same table words contribute the same. */
  lemma {:induction false} WordAtSame(s: string, t: string, tbl: Table, k: nat)
    requires ValidTable(tbl) && k <= |tbl|
    requires forall b :: k <= b < |tbl| ==> (tbl[b].0 <= s <==> tbl[b].0 <= t)
    ensures WordAt(s, tbl, k) == WordAt(t, tbl, k)
    decreases |tbl| - k
  {
    if k < |tbl| {
      WordAtSame(s, t, tbl, k + 1);
    }
  }

  lemma {:induction false} NoWordPrefix(s: string, tbl: Table, k: nat)
    requires ValidTable(tbl) && k <= |tbl|
    requires forall b :: 0 <= b < |tbl| ==> !(tbl[b].0 <= s)
    ensures WordAt(s, tbl, k) == None
    decreases |tbl| - k
  {
    if k < |tbl| {
      NoWordPrefix(s, tbl, k + 1);
    }
  }

  /** No word starts right before a digit. */
  lemma {:induction false} NoWordBeforeDigit(s: string, tbl: Table, k: nat)
    requires ValidTable(tbl) && k <= |tbl| && |s| >= 2 && IsDigit(s[1])
    ensures WordAt(s, tbl, k) == None
    decreases |tbl| - k
  {
    if k < |tbl| {
      assert !(tbl[k].0 <= s) by {
        assert !IsDigit(tbl[k].0[1]);
      }
      NoWordBeforeDigit(s, tbl, k + 1);
    }
  }

  /** A text that starts with word `k` is read as that word. */
  lemma {:induction false} WordAtOwn(s: string, tbl: Table, k: nat, j: nat)
    requires ValidTable(tbl) && OverlapFree(tbl)
    requires k < |tbl| && j <= k && tbl[k].0 <= s
    ensures WordAt(s, tbl, j) == Some(tbl[k].1)
    decreases k - j
  {
    if j < k {
      assert !(tbl[j].0[0] == tbl[k].0[0] && tbl[j].0[1] == tbl[k].0[1]);
      WordAtOwn(s, tbl, k, j + 1);
    }
  }

  /** Replacing word `k` after a fixed first character does not change which
      word that character starts. */
  lemma EmitContext(c: char, y: string, tbl: Table, k: nat)
    requires ValidTable(tbl) && OverlapFree(tbl) && k < |tbl|
    ensures Emit([c] + Replace(y, tbl[k].0, Encoding(tbl, k)), tbl) == Emit([c] + y, tbl)
  {
    EntryBracketing(tbl, k);
    var p, e := tbl[k].0, Encoding(tbl, k);
    var r := Replace(y, p, e);
    forall b | 0 <= b < |tbl|
      ensures tbl[b].0 <= [c] + r <==> tbl[b].0 <= [c] + y
    {
      var w := tbl[b].0;
      var tail := w[1..];
      ConsTail(w);
      assert NoDigits(tail);
      if tail <= r {
        DigitFreePrefixKept(tail, y, p, e);
      }
      if tail <= y {
        forall j | 0 <= j < |tail| - 1
          ensures !(tail[j] == p[0] && tail[j + 1] == p[1])
        {
          assert tail[j] == w[j + 1] && tail[j + 1] == w[j + 2];
        }
        AvoidingPrefixKept(tail, y, p, e);
      }
    }
    WordAtSame([c] + r, [c] + y, tbl, 0);
  }

  /** Positions that contribute nothing can be dropped from the front. */
  lemma {:induction false} ScanDrop(s: string, tbl: Table, m: nat)
    requires ValidTable(tbl) && m <= |s|
    requires forall i :: 0 <= i < m ==> Emit(s[i..], tbl) == []
    ensures Scan(s, tbl) == Scan(s[m..], tbl)
    decreases m
  {
    if m > 0 {
      assert s[0..] == s;
      assert s[1..][m - 1..] == s[m..];
      forall i | 0 <= i < m - 1
        ensures Emit(s[1..][i..], tbl) == []
      {
        assert s[1..][i..] == s[i + 1..];
      }
      ScanDrop(s[1..], tbl, m - 1);
    }
  }

  /** Inside a word (strictly between its first and last letter) no word and
      no digit starts. */
  lemma InteriorSilent(tbl: Table, w: nat, rest: string, i: nat)
    requires ValidTable(tbl) && OverlapFree(tbl)
    requires w < |tbl| && 1 <= i < |tbl[w].0| - 1
    ensures Emit((tbl[w].0 + rest)[i..], tbl) == []
  {
    var p := tbl[w].0;
    var s := (p + rest)[i..];
    assert s[0] == p[i] && s[1] == p[i + 1];
    forall b | 0 <= b < |tbl|
      ensures !(tbl[b].0 <= s)
    {
      assert !(p[i] == tbl[b].0[0] && p[i + 1] == tbl[b].0[1]);
    }
    NoWordPrefix(s, tbl, 0);
  }

  /** After the replacement, a text that started with word `k` reads its
      digit and continues from the word's last letter. */
  lemma ScanReplacedWord(tbl: Table, k: nat, rest: string)
    requires ValidTable(tbl) && k < |tbl|
    ensures var p, e := tbl[k].0, Encoding(tbl, k);
      Scan(Replace(p + rest, p, e), tbl)
        == [DigitChar(tbl[k].1)] + Scan([p[|p| - 1]] + Replace(rest, p, e), tbl)
  {
    EntryBracketing(tbl, k);
    var p, e := tbl[k].0, Encoding(tbl, k);
    var r := Replace(rest, p, e);
    var last := p[|p| - 1];
    assert (p + rest)[|p|..] == rest;
    var u := Replace(p + rest, p, e);
    assert u == e + r;
    assert u[1..] == [e[1]] + ([last] + r);
    assert u[1..][1..] == [last] + r;
    NoWordBeforeDigit(u, tbl, 0);
    assert Emit(u, tbl) == [];
    assert Scan(u, tbl) == Scan(u[1..], tbl);
    assert Emit(u[1..], tbl) == [e[1]];
  }

  /** A text that starts with a word reads that word's digit, and then
      continues from the word's last letter, which may start the next word. */
  lemma ScanStartingWithWord(tbl: Table, k: nat, rest: string)
    requires ValidTable(tbl) && OverlapFree(tbl) && k < |tbl|
    ensures var p := tbl[k].0;
      Scan(p + rest, tbl) == [DigitChar(tbl[k].1)] + Scan([p[|p| - 1]] + rest, tbl)
  {
    var p := tbl[k].0;
    var t := p + rest;
    var last := p[|p| - 1];
    WordAtOwn(t, tbl, k, 0);
    assert Emit(t, tbl) == [DigitChar(tbl[k].1)];
    forall i | 0 <= i < |p| - 2
      ensures Emit(t[1..][i..], tbl) == []
    {
      assert t[1..][i..] == (p + rest)[i + 1..];
      InteriorSilent(tbl, k, rest, i + 1);
    }
    ScanDrop(t[1..], tbl, |p| - 2);
    assert t[1..][|p| - 2..] == [last] + rest;
  }

  /** A single letter spells no word. */
  lemma ScanLetter(c: char, tbl: Table)
    requires ValidTable(tbl) && !IsDigit(c)
    ensures Scan([c], tbl) == []
  {
    forall b | 0 <= b < |tbl|
      ensures !(tbl[b].0 <= [c])
    {
    }
    NoWordPrefix([c], tbl, 0);
  }

  /** One round of `process_words` leaves the scan of the text unchanged. */
  lemma {:induction false} ScanReplace(t: string, tbl: Table, k: nat)
    requires ValidTable(tbl) && OverlapFree(tbl) && k < |tbl|
    ensures Scan(Replace(t, tbl[k].0, Encoding(tbl, k)), tbl) == Scan(t, tbl)
    decreases |t|
  {
    var p, e := tbl[k].0, Encoding(tbl, k);
    if |t| == 0 {
    } else if p <= t {
      var rest := t[|p|..];
      var r := Replace(rest, p, e);
      var last := p[|p| - 1];
      assert t == p + rest;
      ScanReplacedWord(tbl, k, rest);
      ScanStartingWithWord(tbl, k, rest);
      ScanReplace(rest, tbl, k);
      EmitContext(last, rest, tbl, k);
      assert ([last] + r)[1..] == r && ([last] + rest)[1..] == rest;
    } else {
      var r := Replace(t[1..], p, e);
      assert Replace(t, p, e) == [t[0]] + r;
      assert ([t[0]] + r)[1..] == r;
      ScanReplace(t[1..], tbl, k);
      EmitContext(t[0], t[1..], tbl, k);
      ConsTail(t);
    }
  }

  // ---------------------------------------------------------------------------
  // All rounds.

  lemma {:induction false} ScanConversions(text: string, tbl: Table, n: nat)
    requires ValidTable(tbl) && OverlapFree(tbl) && n <= |tbl|
    ensures Scan(ApplyConversions(text, tbl, n), tbl) == Scan(text, tbl)
  {
    if n > 0 {
      ScanConversions(text, tbl, n - 1);
      ScanReplace(ApplyConversions(text, tbl, n - 1), tbl, n - 1);
    }
  }

  /** After `n` rounds none of the first `n` words is left in the text. */
  lemma {:induction false} WordsGone(text: string, tbl: Table, n: nat)
    requires ValidTable(tbl) && OverlapFree(tbl) && n <= |tbl|
    ensures forall b :: 0 <= b < n ==> !Occurs(ApplyConversions(text, tbl, n), tbl[b].0)
  {
    if n > 0 {
      WordsGone(text, tbl, n - 1);
      var t := ApplyConversions(text, tbl, n - 1);
      var pat, rep := tbl[n - 1].0, Encoding(tbl, n - 1);
      var u := Replace(t, pat, rep);
      assert ApplyConversions(text, tbl, n) == u;
      EntryBracketing(tbl, n - 1);
      AllReplaced(t, pat, rep);
      forall b | 0 <= b < n
        ensures !Occurs(u, tbl[b].0)
      {
        if b < n - 1 && Occurs(u, tbl[b].0) {
          NoNewOccurrence(t, tbl[b].0, pat, rep);
        }
      }
    }
  }

  lemma {:induction false} NoWordAt(s: string, tbl: Table, k: nat)
    requires ValidTable(tbl) && k <= |tbl|
    requires forall b :: 0 <= b < |tbl| ==> !Occurs(s, tbl[b].0)
    ensures WordAt(s, tbl, k) == None
    decreases |tbl| - k
  {
    if k < |tbl| {
      NoWordAt(s, tbl, k + 1);
    }
  }

  /** In a text where no word is spelled, the scan reads exactly its digits. */
  lemma {:induction false} ScanWithoutWords(s: string, tbl: Table)
    requires ValidTable(tbl)
    requires forall b :: 0 <= b < |tbl| ==> !Occurs(s, tbl[b].0)
    ensures Scan(s, tbl) == Calibration.Digits(s)
    decreases |s|
  {
    if |s| > 0 {
      forall b | 0 <= b < |tbl|
        ensures !Occurs(s[1..], tbl[b].0)
      {
      }
      NoWordAt(s, tbl, 0);
      ScanWithoutWords(s[1..], tbl);
      Calibration.DigitsCons(s[0], s[1..]);
      ConsTail(s);
    }
  }

  /** The digits left after the conversions are exactly the digits of the
      forward scan of the original text, written or spelled. */
  lemma DigitsOfConverted(text: string, tbl: Table)
    requires ValidTable(tbl) && OverlapFree(tbl)
    ensures Calibration.Digits(ApplyConversions(text, tbl, |tbl|)) == Scan(text, tbl)
  {
    WordsGone(text, tbl, |tbl|);
    ScanWithoutWords(ApplyConversions(text, tbl, |tbl|), tbl);
    ScanConversions(text, tbl, |tbl|);
  }

  /** `process_words` in particular: after it, the digits of a line are those
      of the forward scan over digits and the words one..nine. */
  lemma DigitsOfProcessed(text: string)
    ensures ValidTable(Numbers)
    ensures Calibration.Digits(ProcessWords(text)) == Scan(text, Numbers)
  {
    NumbersOverlapFree();
    DigitsOfConverted(text, Numbers);
  }

  /** Hence the calibration value of a processed line is read off the scan:
      first and last digit, each either written or spelled. */
  lemma CalibrationOfProcessed(text: string)
    ensures ValidTable(Numbers)
    ensures Calibration.CalibrationValue(ProcessWords(text))
         == Calibration.FromDigits(Scan(text, Numbers))
  {
    DigitsOfProcessed(text);
  }

  lemma {:induction false} ConversionsAbsent(text: string, tbl: Table, n: nat)
    requires ValidTable(tbl) && n <= |tbl|
    requires forall b :: 0 <= b < |tbl| ==> !Occurs(text, tbl[b].0)
    ensures ApplyConversions(text, tbl, n) == text
  {
    if n > 0 {
      ConversionsAbsent(text, tbl, n - 1);
      ReplaceAbsent(text, tbl[n - 1].0, Encoding(tbl, n - 1));
    }
  }

  /** A text that spells none of the nine words is returned unchanged. */
  lemma ProcessWordsAbsent(text: string)
    requires forall b :: 0 <= b < |Numbers| ==> !Occurs(text, Numbers[b].0)
    ensures ProcessWords(text) == text
  {
    NumbersValid();
    ConversionsAbsent(text, Numbers, |Numbers|);
  }

  lemma SubsequenceExtend(a: string, b: string, c: char)
    requires IsSubsequence(a, b)
    ensures IsSubsequence(a, [c] + b)
  {
    assert ([c] + b)[1..] == b;
  }

  lemma {:induction false} DigitsInScan(s: string, tbl: Table)
    requires ValidTable(tbl)
    ensures IsSubsequence(Calibration.Digits(s), Scan(s, tbl))
    decreases |s|
  {
    if |s| > 0 {
      DigitsInScan(s[1..], tbl);
      Calibration.DigitsCons(s[0], s[1..]);
      ConsTail(s);
      var ds, sc := Calibration.Digits(s[1..]), Scan(s[1..], tbl);
      assert Scan(s, tbl) == Emit(s, tbl) + sc;
      if IsDigit(s[0]) {
        assert Calibration.Digits(s) == [s[0]] + ds;
        assert Scan(s, tbl) == [s[0]] + sc;
        assert ([s[0]] + ds)[1..] == ds && ([s[0]] + sc)[1..] == sc;
      } else if Emit(s, tbl) != [] {
        assert Calibration.Digits(s) == ds;
        SubsequenceExtend(ds, sc, Emit(s, tbl)[0]);
        assert Emit(s, tbl) + sc == [Emit(s, tbl)[0]] + sc;
      } else {
        assert Calibration.Digits(s) == ds;
        assert Scan(s, tbl) == sc;
      }
    }
  }

  /** `process_words` never removes or changes a digit the line already had:
      they all remain, in order. */
  lemma DigitsKept(text: string)
    ensures IsSubsequence(Calibration.Digits(text), Calibration.Digits(ProcessWords(text)))
  {
    DigitsOfProcessed(text);
    DigitsInScan(text, Numbers);
  }

  /** Two words sharing a letter, like "eightwo", "twone" or "oneight", both
      count: the text reads the first word's digit, then the second's. */
  lemma OverlappingPairIn(tbl: Table, a: nat, b: nat)
    requires ValidTable(tbl) && OverlapFree(tbl) && a < |tbl| && b < |tbl|
    requires tbl[a].0[|tbl[a].0| - 1] == tbl[b].0[0]
    ensures Scan(tbl[a].0 + tbl[b].0[1..], tbl) == [DigitChar(tbl[a].1), DigitChar(tbl[b].1)]
  {
    var wa, wb := tbl[a].0, tbl[b].0;
    var lb := wb[|wb| - 1];
    ScanStartingWithWord(tbl, a, wb[1..]);
    ConsTail(wb);
    assert wb + [] == wb;
    ScanStartingWithWord(tbl, b, []);
    assert !IsDigit(wb[|wb| - 1]);
    ScanLetter(lb, tbl);
    assert [lb] + [] == [lb];
  }
}
