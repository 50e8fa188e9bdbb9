/** `clean_game`: a record `Game N: c colour, c colour; ...` becomes the game
    number and one colour-to-count dict per `; `-separated draw. Every
    exception the Python code can raise on a malformed record (an
    `IndexError` for a missing number, a `ValueError` from `int()`) is
    `None`. */
module Games {
  import opened Wrappers
  import opened Decimal
  import opened Tokenize
  import opened Dicts

  /** One draw: each colour shown, with its count. */
  type Draw = Dict<string, nat>

  /** A parsed record. */
  datatype Game = Game(id: nat, draws: seq<Draw>)

  /** A count token and the colour token after it. */
  type Pair = (string, string)

  /** The (count, colour) pairs the comprehension reads, in order. */
  function Pairs(tokens: seq<string>): seq<Pair> {
    seq(|tokens| / 2, q requires 0 <= q < |tokens| / 2 => (tokens[2 * q], tokens[2 * q + 1]))
  }

  /** `enumerate(hand)` with `idx % 2 == 1`: every odd index `idx` is read,
      as the colour `hand[idx]` with the count `hand[idx - 1]`, into pair
      `idx / 2`, and a last token at an even index, with no colour after
      it, is never read. */
  lemma PairsOddIndices(tokens: seq<string>)
    ensures |Pairs(tokens)| == |tokens| / 2
    ensures forall idx :: 0 <= idx < |tokens| && idx % 2 == 1 ==>
              idx / 2 < |Pairs(tokens)| && Pairs(tokens)[idx / 2] == (tokens[idx - 1], tokens[idx])
    ensures |tokens| % 2 == 1 ==> Pairs(tokens) == Pairs(tokens[..|tokens| - 1])
  {
    var ps := Pairs(tokens);
    forall idx | 0 <= idx < |tokens| && idx % 2 == 1
      ensures idx / 2 < |ps| && ps[idx / 2] == (tokens[idx - 1], tokens[idx])
    {
      var q := idx / 2;
      assert 2 * q + 1 == idx;
      assert ps[q] == (tokens[2 * q], tokens[2 * q + 1]);
    }
    if |tokens| % 2 == 1 {
      var init := tokens[..|tokens| - 1];
      assert |init| / 2 == |tokens| / 2;
      forall q | 0 <= q < |ps|
        ensures Pairs(init)[q] == ps[q]
      {
        assert init[2 * q] == tokens[2 * q] && init[2 * q + 1] == tokens[2 * q + 1];
      }
      assert Pairs(init) == ps;
    }
  }

  /** Every pair comes from an odd index: the colour at it and the count
      before it. */
  lemma PairFromOddIndex(tokens: seq<string>, q: nat) returns (idx: nat)
    requires q < |Pairs(tokens)|
    ensures idx < |tokens| && idx % 2 == 1 && idx / 2 == q
    ensures Pairs(tokens)[q] == (tokens[idx - 1], tokens[idx])
  {
    idx := 2 * q + 1;
    assert idx % 2 == 1 && idx / 2 == q;
  }

  /** The dict comprehension of one draw over its first `p` pairs: each
      assigns the colour its count, in order, so a colour seen again takes
      the later count. */
  function DrawUpTo(ps: seq<Pair>, p: nat): Option<Draw>
    requires p <= |ps|
  {
    if p == 0 then Some([])
    else
      match DrawUpTo(ps, p - 1)
      case None => None
      case Some(d) =>
        match ParseNat(ps[p - 1].0)
        case None => None
        case Some(c) => Some(Put(d, ps[p - 1].1, c))
  }

  /** The dict of a draw's tokens. */
  function DrawOf(tokens: seq<string>): Option<Draw> {
    var ps := Pairs(tokens);
    DrawUpTo(ps, |ps|)
  }

  /** `re.split(', |\s', segment)`, then the comprehension. */
  function ParseDraw(segment: string): Option<Draw> {
    DrawOf(SplitOn(segment, TokenDelims))
  }

  /** The draws of the segments, failing if any draw fails. */
  function ParseDraws(segments: seq<string>): (r: Option<seq<Draw>>)
    ensures r.Some? <==> forall i :: 0 <= i < |segments| ==> ParseDraw(segments[i]).Some?
    ensures r.Some? ==> |r.value| == |segments|
    ensures r.Some? ==> forall i :: 0 <= i < |segments| ==> ParseDraw(segments[i]) == Some(r.value[i])
  {
    if |segments| == 0 then Some([])
    else
      match ParseDraw(segments[0])
      case None => None
      case Some(d) =>
        var rest := ParseDraws(segments[1..]);
        assert forall i :: 1 <= i < |segments| ==> segments[i] == segments[1..][i - 1];
        match rest
        case None => None
        case Some(ds) => Some([d] + ds)
  }

  /** `clean_game(game)`. */
  function CleanGame(line: string): Option<Game> {
    var segments := SplitOn(line, SegmentDelims);
    var head := SplitWhitespace(segments[0]);
    if |head| < 2 then None
    else
      match ParseNat(head[1])
      case None => None
      case Some(id) =>
        match ParseDraws(segments[1..])
        case None => None
        case Some(ds) => Some(Game(id, ds))
  }

  /** `clean_game` raises exactly when the first segment (the text before
      the first `": "` or `"; "`) has fewer than two words, the `IndexError`
      of `split()[1]`; when its second word is not a number, the
      `ValueError` of `int`; or when a later segment has a count that is
      not a number. Otherwise the game number is that second word's value
      and the draws are the later segments' draws, in order. */
  lemma CleanGameSpec(line: string)
    ensures var segments := SplitOn(line, SegmentDelims);
            var head := SplitWhitespace(segments[0]);
            CleanGame(line).None? <==>
              (|head| < 2 || ParseNat(head[1]).None?
               || exists i :: 1 <= i < |segments| && ParseDraw(segments[i]).None?)
    ensures var segments := SplitOn(line, SegmentDelims);
            var head := SplitWhitespace(segments[0]);
            CleanGame(line).Some? ==>
              && Some(CleanGame(line).value.id) == ParseNat(head[1])
              && |CleanGame(line).value.draws| == |segments| - 1
              && forall i :: 1 <= i < |segments| ==>
                   ParseDraw(segments[i]) == Some(CleanGame(line).value.draws[i - 1])
  {
    var segments := SplitOn(line, SegmentDelims);
    var rest := segments[1..];
    assert forall i :: 1 <= i < |segments| ==> segments[i] == rest[i - 1];
    if exists i :: 1 <= i < |segments| && ParseDraw(segments[i]).None? {
      var i :| 1 <= i < |segments| && ParseDraw(segments[i]).None?;
      assert ParseDraw(rest[i - 1]).None?;
    }
  }

  // ---------------------------------------------------------------------------
  // What the comprehension computes

  /** Pair `q` has colour `k`, and no later pair below `p` does. */
  predicate LastColourAt(ps: seq<Pair>, p: nat, k: string, q: nat)
    requires p <= |ps|
  {
    q < p && ps[q].1 == k && forall r :: q < r < p ==> ps[r].1 != k
  }

  /** The comprehension fails exactly when some count is not a number. */
  lemma {:induction false} DrawFails(ps: seq<Pair>, p: nat)
    requires p <= |ps|
    ensures DrawUpTo(ps, p).None? <==> exists q :: 0 <= q < p && ParseNat(ps[q].0).None?
    decreases p
  {
    if p > 0 {
      DrawFails(ps, p - 1);
    }
  }

  /** Its result is a valid dict. */
  lemma {:induction false} DrawValid(ps: seq<Pair>, p: nat)
    requires p <= |ps| && DrawUpTo(ps, p).Some?
    ensures Valid(DrawUpTo(ps, p).value)
    decreases p
  {
    if p > 0 {
      DrawValid(ps, p - 1);
      PutValid(DrawUpTo(ps, p - 1).value, ps[p - 1].1, ParseNat(ps[p - 1].0).value);
    }
  }

  /** One step of the comprehension, seen from one colour: a pair of
      colour `k` gives `k` its count, and any other pair leaves `k`'s count
      alone. */
  lemma GetStep(ps: seq<Pair>, p: nat, k: string)
    requires 0 < p <= |ps| && DrawUpTo(ps, p).Some?
    ensures DrawUpTo(ps, p - 1).Some? && ParseNat(ps[p - 1].0).Some?
    ensures Get(DrawUpTo(ps, p).value, k)
         == if ps[p - 1].1 == k then ParseNat(ps[p - 1].0) else Get(DrawUpTo(ps, p - 1).value, k)
  {
    PutGet(DrawUpTo(ps, p - 1).value, ps[p - 1].1, ParseNat(ps[p - 1].0).value, k);
  }

  /** Its colours are the pairs' colours: absent colours are absent, not
      zero. */
  lemma {:induction false} DrawColours(ps: seq<Pair>, p: nat, k: string)
    requires p <= |ps| && DrawUpTo(ps, p).Some?
    ensures Get(DrawUpTo(ps, p).value, k).None? <==> (forall q :: 0 <= q < p ==> ps[q].1 != k)
    decreases p
  {
    if p > 0 {
      GetStep(ps, p, k);
      DrawColours(ps, p - 1, k);
    }
  }

  /** The count the comprehension gives colour `k` over the first `p`
      pairs, read backwards: the count of the last pair of colour `k`, if
      any. */
  function CountOf(ps: seq<Pair>, p: nat, k: string): Option<nat>
    requires p <= |ps|
  {
    if p == 0 then None
    else if ps[p - 1].1 == k then ParseNat(ps[p - 1].0)
    else CountOf(ps, p - 1, k)
  }

  /** Looking a colour up in the comprehension's dict gives its count. */
  lemma {:induction false} GetCountOf(ps: seq<Pair>, p: nat, k: string)
    requires p <= |ps| && DrawUpTo(ps, p).Some?
    ensures Get(DrawUpTo(ps, p).value, k) == CountOf(ps, p, k)
    decreases p
  {
    if p > 0 {
      GetStep(ps, p, k);
      assert DrawUpTo(ps, p - 1).Some?;
      assert p - 1 < p;
      GetCountOf(ps, p - 1, k);
    }
  }

  /** A count read backwards belongs to the last pair of its colour. */
  lemma {:induction false} CountOfLast(ps: seq<Pair>, p: nat, k: string, v: nat) returns (q: nat)
    requires p <= |ps| && CountOf(ps, p, k) == Some(v)
    ensures LastColourAt(ps, p, k, q) && ParseNat(ps[q].0) == Some(v)
    decreases p
  {
    if ps[p - 1].1 == k {
      return p - 1;
    }
    q := CountOfLast(ps, p - 1, k, v);
  }

  /** Each colour has the count of its last pair, pair `q`. */
  lemma DrawCount(ps: seq<Pair>, p: nat, k: string) returns (q: nat)
    requires p <= |ps| && DrawUpTo(ps, p).Some?
    requires Get(DrawUpTo(ps, p).value, k).Some?
    ensures LastColourAt(ps, p, k, q)
    ensures ParseNat(ps[q].0) == Some(Get(DrawUpTo(ps, p).value, k).value)
  {
    GetCountOf(ps, p, k);
    q := CountOfLast(ps, p, k, Get(DrawUpTo(ps, p).value, k).value);
  }
}
