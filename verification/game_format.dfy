/** Writing a game back as a record line, the inverse of `clean_game`: the
    record format the docstring of `clean_game` shows,
    `Game 1: 2 red, 2 green; 6 red, 3 green; ...`. */
module GameFormat {
  import opened Wrappers
  import opened Decimal
  import opened Tokenize
  import opened Dicts
  import opened Games

  /** A colour name as the records write them: lower-case letters. */
  predicate IsColour(k: string) {
    forall i :: 0 <= i < |k| ==> 'a' <= k[i] <= 'z'
  }

  /** A draw a record can express: a valid dict of colour names. */
  predicate WrittenDraw(d: Draw) {
    Valid(d) && forall j :: 0 <= j < |d| ==> IsColour(d[j].0)
  }

  /** A game that a record line can express: at least one draw (a record
      always has one after `": "`), each one a draw a record can express. */
  predicate WellFormed(g: Game) {
    |g.draws| > 0 && forall i :: 0 <= i < |g.draws| ==> WrittenDraw(g.draws[i])
  }

  /** `"<count> <colour>"` for each entry of a draw, in order. */
  function Items(d: Draw): seq<string>
  {
    seq(|d|, i requires 0 <= i < |d| => Show(d[i].1) + " " + d[i].0)
  }

  /** One draw as written in a record. */
  function FormatDraw(d: Draw): string {
    Join(Items(d), ", ")
  }

  /** The draws as written, in order. */
  function FormatDraws(ds: seq<Draw>): seq<string>
  {
    seq(|ds|, i requires 0 <= i < |ds| => FormatDraw(ds[i]))
  }

  /** A game as a record line. */
  function FormatGame(g: Game): string {
    "Game " + Show(g.id) + ": " + Join(FormatDraws(g.draws), "; ")
  }

  /** The tokens `re.split(', |\s', ...)` yields for a written draw:
      count, colour, count, colour, ... */
  function Tokens(d: Draw): (ts: seq<string>)
    ensures |ts| == 2 * |d|
  {
    if |d| == 0 then [] else [Show(d[0].1), d[0].0] + Tokens(d[1..])
  }

  /** Entry `i` of a draw gives tokens `2 * i` and `2 * i + 1`. */
  lemma {:induction false} TokensAt(d: Draw, i: nat)
    requires i < |d|
    ensures Tokens(d)[2 * i] == Show(d[i].1) && Tokens(d)[2 * i + 1] == d[i].0
    decreases i
  {
    if i > 0 {
      TokensAt(d[1..], i - 1);
      assert Tokens(d)[2 * i] == Tokens(d[1..])[2 * (i - 1)];
      assert Tokens(d)[2 * i + 1] == Tokens(d[1..])[2 * (i - 1) + 1];
    }
  }

  // ---------------------------------------------------------------------------
  // Splitting a written record

  lemma NoStartersDigits(s: string, ds: seq<Delim>)
    requires AllDigits(s)
    requires forall j :: 0 <= j < |ds| ==> ds[j].Space? || (|ds[j].text| > 0 && !IsDigit(ds[j].text[0]))
    ensures NoStarters(s, ds)
  {
  }

  lemma NoStartersColour(k: string, ds: seq<Delim>)
    requires IsColour(k)
    requires forall j :: 0 <= j < |ds| ==> ds[j].Space? || (|ds[j].text| > 0 && !('a' <= ds[j].text[0] <= 'z'))
    ensures NoStarters(k, ds)
  {
  }

  lemma NoStartersConcat(a: string, b: string, ds: seq<Delim>)
    requires NoStarters(a, ds) && NoStarters(b, ds)
    ensures NoStarters(a + b, ds)
  {
    forall i, j | 0 <= i < |a + b| && 0 <= j < |ds| ensures !Starts(ds[j], (a + b)[i]) {
      if i < |a| {
        assert (a + b)[i] == a[i];
      } else {
        assert (a + b)[i] == b[i - |a|];
      }
    }
  }

  lemma {:induction false} NoStartersJoin(parts: seq<string>, sep: string, ds: seq<Delim>)
    requires NoStarters(sep, ds)
    requires forall i :: 0 <= i < |parts| ==> NoStarters(parts[i], ds)
    ensures NoStarters(Join(parts, sep), ds)
    decreases |parts|
  {
    if |parts| == 0 {
    } else if |parts| > 1 {
      NoStartersJoin(parts[1..], sep, ds);
      NoStartersConcat(parts[0], sep, ds);
      NoStartersConcat(parts[0] + sep, Join(parts[1..], sep), ds);
    }
  }

  /** A starter-free piece, then a separator matched whole, starts the
      split. */
  lemma SplitPiece(p: string, sep: string, rest: string, ds: seq<Delim>)
    requires NoStarters(p, ds) && SepFirst(sep, ds)
    ensures SplitOn(p + sep + rest, ds) == [p] + SplitOn(rest, ds)
  {
    SplitSep(sep, rest, ds);
    assert p + sep + rest == p + (sep + rest);
    SplitClean(p, sep + rest, ds);
    assert p + "" == p;
  }

  lemma ConsPair<T>(a: T, b: T, t: seq<T>)
    ensures [a] + ([b] + t) == [a, b] + t
  {
  }

  /** A written draw splits into its count and colour tokens, for any
      alternation that matches `" "` and `", "` whole and cannot start
      inside a count or a colour. */
  lemma {:induction false} SplitItems(d: Draw, ds: seq<Delim>)
    requires |d| > 0 && SepFirst(" ", ds) && SepFirst(", ", ds)
    requires forall j :: 0 <= j < |d| ==> NoStarters(Show(d[j].1), ds) && NoStarters(d[j].0, ds)
    ensures SplitOn(Join(Items(d), ", "), ds) == Tokens(d)
    decreases |d|
  {
    var count, colour := Show(d[0].1), d[0].0;
    var items := Items(d);
    var tail := d[1..];
    assert Tokens(d) == [count, colour] + Tokens(tail);
    if |d| == 1 {
      assert Join(items, ", ") == count + " " + colour;
      SplitPiece(count, " ", colour, ds);
      SplitWhole(colour, ds);
      assert Tokens(tail) == [];
      ConsPair(count, colour, []);
      assert [colour] + [] == [colour];
    } else {
      var rest := Join(Items(tail), ", ");
      assert items[1..] == Items(tail);
      assert Join(items, ", ") == count + " " + (colour + ", " + rest);
      SplitPiece(count, " ", colour + ", " + rest, ds);
      SplitPiece(colour, ", ", rest, ds);
      SplitItems(tail, ds);
      ConsPair(count, colour, Tokens(tail));
    }
  }

  /** Counts and colour names hold no start of `", "` or `\s`. */
  lemma TokenDelimsClean(d: Draw)
    requires forall j :: 0 <= j < |d| ==> IsColour(d[j].0)
    ensures forall j :: 0 <= j < |d| ==> NoStarters(Show(d[j].1), TokenDelims) && NoStarters(d[j].0, TokenDelims)
  {
    forall j | 0 <= j < |d|
      ensures NoStarters(Show(d[j].1), TokenDelims) && NoStarters(d[j].0, TokenDelims)
    {
      NoStartersDigits(Show(d[j].1), TokenDelims);
      NoStartersColour(d[j].0, TokenDelims);
    }
  }

  /** The comprehension reads a valid draw back from the pairs of its
      tokens. */
  lemma {:induction false} DrawOfTokens(d: Draw, m: nat)
    requires Valid(d) && m <= |d|
    ensures DrawUpTo(Pairs(Tokens(d)), m) == Some(d[..m])
    decreases m
  {
    if m > 0 {
      var ps := Pairs(Tokens(d));
      var k, c := d[m - 1].0, d[m - 1].1;
      var prev := d[..m - 1];
      DrawOfTokens(d, m - 1);
      TokensAt(d, m - 1);
      assert ps[m - 1] == (Show(c), k);
      ParseShow(c);
      assert DrawUpTo(ps, m) == Some(Put(prev, k, c));
      assert forall j :: 0 <= j < |prev| ==> Keys(prev)[j] != k;
      PutNew(prev, k, c);
      assert prev + [(k, c)] == d[..m];
    }
  }

  /** The comprehension reads a valid draw back from its tokens. */
  lemma DrawOfAllTokens(d: Draw)
    requires Valid(d)
    ensures DrawOf(Tokens(d)) == Some(d)
  {
    var ps := Pairs(Tokens(d));
    assert |ps| == |d|;
    DrawOfTokens(d, |d|);
    assert d[..|d|] == d;
  }

  /** Assigning a new key appends it. */
  lemma {:induction false} PutNew(d: Draw, k: string, v: nat)
    requires k !in Keys(d)
    ensures Put(d, k, v) == d + [(k, v)]
    decreases |d|
  {
    if |d| > 0 {
      assert Keys(d[1..]) == Keys(d)[1..];
      PutNew(d[1..], k, v);
      assert [d[0]] + (d[1..] + [(k, v)]) == d + [(k, v)];
    }
  }

  /** An empty draw parses to the empty dict. */
  lemma ParseEmptyDraw()
    ensures ParseDraw("") == Some([])
  {
    assert SplitOn("", TokenDelims) == [""];
    assert Pairs([""]) == [];
  }

  /** Each written draw parses back to itself. */
  lemma ParseFormatDraw(d: Draw)
    requires WrittenDraw(d)
    ensures ParseDraw(FormatDraw(d)) == Some(d)
  {
    if |d| == 0 {
      assert Items(d) == [];
      assert FormatDraw(d) == "";
      ParseEmptyDraw();
    } else {
      TokenDelimsClean(d);
      SplitItems(d, TokenDelims);
      DrawOfAllTokens(d);
    }
  }

  /** A draw as written holds neither `:` nor `;`. */
  lemma FormatDrawClean(d: Draw)
    requires forall j :: 0 <= j < |d| ==> IsColour(d[j].0)
    ensures NoStarters(FormatDraw(d), SegmentDelims)
  {
    var ds := SegmentDelims;
    var items := Items(d);
    forall i | 0 <= i < |items| ensures NoStarters(items[i], ds) {
      NoStartersDigits(Show(d[i].1), ds);
      NoStartersColour(d[i].0, ds);
      NoStartersConcat(Show(d[i].1), " ", ds);
      NoStartersConcat(Show(d[i].1) + " ", d[i].0, ds);
    }
    NoStartersJoin(items, ", ", ds);
  }

  /** A written record splits at `": "` and `"; "` into its header and its
      written draws. */
  lemma SegmentsOfFormat(g: Game)
    requires WellFormed(g)
    ensures SplitOn(FormatGame(g), SegmentDelims) == ["Game " + Show(g.id)] + FormatDraws(g.draws)
  {
    var ds := SegmentDelims;
    var head := "Game " + Show(g.id);
    var parts := FormatDraws(g.draws);
    var body := Join(parts, "; ");
    assert FormatGame(g) == head + ": " + body;
    NoStartersDigits(Show(g.id), ds);
    NoStartersConcat("Game ", Show(g.id), ds);
    SplitPiece(head, ": ", body, ds);
    forall i | 0 <= i < |parts| ensures NoStarters(parts[i], ds) {
      FormatDrawClean(g.draws[i]);
    }
    SplitJoin(parts, "; ", ds);
  }

  /** The header's second word is the game number. */
  lemma HeaderOfFormat(id: nat)
    ensures SplitWhitespace("Game " + Show(id)) == ["Game", Show(id)]
  {
    assert "Game " + Show(id) == Join(["Game", Show(id)], " ");
    NoStartersDigits(Show(id), [Space]);
    SplitWhitespaceJoin(["Game", Show(id)]);
  }

  /** The written draws parse back to the draws. */
  lemma DrawsOfFormat(draws: seq<Draw>)
    requires forall i :: 0 <= i < |draws| ==> WrittenDraw(draws[i])
    ensures ParseDraws(FormatDraws(draws)) == Some(draws)
  {
    var parts := FormatDraws(draws);
    forall i | 0 <= i < |draws| ensures ParseDraw(parts[i]) == Some(draws[i]) {
      ParseFormatDraw(draws[i]);
    }
    var r := ParseDraws(parts);
    assert r.Some?;
    assert forall i :: 0 <= i < |draws| ==> r.value[i] == draws[i];
    assert r.value == draws;
  }

  /** `clean_game` reads every well-formed game back from its record. */
  lemma CleanFormat(g: Game)
    requires WellFormed(g)
    ensures CleanGame(FormatGame(g)) == Some(g)
  {
    var segments := SplitOn(FormatGame(g), SegmentDelims);
    SegmentsOfFormat(g);
    assert segments[0] == "Game " + Show(g.id);
    assert segments[1..] == FormatDraws(g.draws);
    HeaderOfFormat(g.id);
    ParseShow(g.id);
    DrawsOfFormat(g.draws);
  }
}
