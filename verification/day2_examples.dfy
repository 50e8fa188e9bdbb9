/** Worked games for day 2: the five games of the docstring of
    `get_fewest_cubes`, whose products are 48, 12, 1560, 630 and 36, the
    draws of the docstring of `clean_game`, and the record
    `Game 1: 3 blue, 4 red`. The lemmas are stated for any three distinct
    colour names `r`, `g` and `b`; `SampleSums` instantiates them with red,
    green and blue and the default limits. */
module GameExamples {
  import opened Wrappers
  import opened Dicts
  import opened Games
  import opened Plausibility
  import opened Fewest
  import opened GameFormat
  import opened GameSum
  import opened Decimal

  /** Every colour drawn is one of `r`, `g` and `b`. */
  predicate Among(draws: seq<Draw>, r: string, g: string, b: string) {
    forall i, j :: 0 <= i < |draws| && 0 <= j < |draws[i]| ==>
      draws[i][j].0 == r || draws[i][j].0 == g || draws[i][j].0 == b
  }

  /** Looking a key up in a three-entry dict. */
  lemma GetThree(r: string, g: string, b: string, x: nat, y: nat, z: nat, k: string)
    ensures Get([(r, x), (g, y), (b, z)], k)
         == if k == r then Some(x) else if k == g then Some(y) else if k == b then Some(z) else None
  {
    var d: Config := [(r, x), (g, y), (b, z)];
    assert d[1..] == [(g, y), (b, z)];
    assert d[1..][1..] == [(b, z)];
    assert d[1..][1..][1..] == [];
    assert Get(d[1..][1..], k) == if k == b then Some(z) else None;
    assert Get(d[1..], k) == if k == g then Some(y) else Get(d[1..][1..], k);
  }

  /** The product of three counts. */
  lemma ProductThree(x: nat, y: nat, z: nat)
    ensures Product([x, y, z]) == x * y * z
  {
    assert [x, y, z][..2] == [x, y];
    assert [x, y][..1] == [x];
    assert [x][..0] == [];
    assert Product([x]) == x;
    assert Product([x, y]) == x * y;
  }

  /** A game of three colours needs the product of their largest counts. */
  lemma FewestThree(draws: seq<Draw>, r: string, g: string, b: string, x: nat, y: nat, z: nat)
    requires r != g && r != b && g != b
    requires Among(draws, r, g, b)
    requires MaxCount(draws, r, x) && MaxCount(draws, g, y) && MaxCount(draws, b, z)
    ensures FewestCubes(draws) == x * y * z
  {
    var maxima: Config := [(r, x), (g, y), (b, z)];
    forall k
      ensures Get(maxima, k).Some? <==> Drawn(draws, k)
      ensures Get(maxima, k).Some? ==> MaxCount(draws, k, Get(maxima, k).value)
    {
      GetThree(r, g, b, x, y, z, k);
      if Drawn(draws, k) {
        var i, j :| 0 <= i < |draws| && 0 <= j < |draws[i]| && draws[i][j].0 == k;
      }
    }
    assert Keys(maxima) == [r, g, b];
    FewestOfMaxima(draws, maxima);
    assert Values(maxima) == [x, y, z];
    ProductThree(x, y, z);
  }

  /** Limits for three colours make a game of those colours plausible
      exactly when each colour's largest count is within its limit. */
  lemma PlausibleThree(draws: seq<Draw>, r: string, g: string, b: string, x: nat, y: nat, z: nat,
                       lr: nat, lg: nat, lb: nat)
    requires r != g && r != b && g != b
    requires Among(draws, r, g, b)
    requires MaxCount(draws, r, x) && MaxCount(draws, g, y) && MaxCount(draws, b, z)
    ensures TestPlausibility(draws, [(r, lr), (g, lg), (b, lb)]) == Some(x <= lr && y <= lg && z <= lb)
  {
    var config: Config := [(r, lr), (g, lg), (b, lb)];
    forall i, j | 0 <= i < |draws| && 0 <= j < |draws[i]|
      ensures draws[i][j].0 in Keys(config)
    {
      GetThree(r, g, b, lr, lg, lb, draws[i][j].0);
      GetSpec(config, draws[i][j].0);
    }
    PlausibleSpec(draws, config);
    if x <= lr && y <= lg && z <= lb {
      forall i, j | 0 <= i < |draws| && 0 <= j < |draws[i]|
        ensures Get(config, draws[i][j].0).Some? && draws[i][j].1 <= Get(config, draws[i][j].0).value
      {
        GetThree(r, g, b, lr, lg, lb, draws[i][j].0);
      }
    } else {
      var c, v := if x > lr then r else if y > lg then g else b, if x > lr then x else if y > lg then y else z;
      var i, j :| 0 <= i < |draws| && 0 <= j < |draws[i]| && draws[i][j] == (c, v);
      GetThree(r, g, b, lr, lg, lb, c);
    }
  }

  /** The limits of the default configuration, for colours `r`, `g` and `b`. */
  function Limits(r: string, g: string, b: string): Config {
    [(r, 12), (g, 13), (b, 14)]
  }

  /** A game of three colour names whose draws are valid dicts is one a
      record can express. */
  lemma WrittenThree(game: Game, r: string, g: string, b: string)
    requires IsColour(r) && IsColour(g) && IsColour(b)
    requires |game.draws| > 0 && Among(game.draws, r, g, b)
    requires forall i :: 0 <= i < |game.draws| ==> Valid(game.draws[i])
    ensures WellFormed(game)
  {
    forall i, j | 0 <= i < |game.draws| && 0 <= j < |game.draws[i]|
      ensures IsColour(game.draws[i][j].0)
    {
    }
  }

  /** The default limits name every colour of a game of those colours. */
  lemma NamedThree(draws: seq<Draw>, r: string, g: string, b: string)
    requires Among(draws, r, g, b)
    ensures Named(draws, Limits(r, g, b))
  {
    forall i, j | 0 <= i < |draws| && 0 <= j < |draws[i]|
      ensures draws[i][j].0 in Keys(Limits(r, g, b))
    {
      GetThree(r, g, b, 12, 13, 14, draws[i][j].0);
      GetSpec(Limits(r, g, b), draws[i][j].0);
    }
  }

  /** Five records, each well-formed with every colour named. */
  lemma FiveRecords(gs: seq<Game>, config: Config)
    requires |gs| == 5
    requires WellFormed(gs[0]) && WellFormed(gs[1]) && WellFormed(gs[2])
    requires WellFormed(gs[3]) && WellFormed(gs[4])
    requires Named(gs[0].draws, config) && Named(gs[1].draws, config) && Named(gs[2].draws, config)
    requires Named(gs[3].draws, config) && Named(gs[4].draws, config)
    ensures forall i :: 0 <= i < |gs| ==> WellFormed(gs[i]) && Named(gs[i].draws, config)
  {
    forall i | 0 <= i < |gs|
      ensures WellFormed(gs[i]) && Named(gs[i].draws, config)
    {
      if i == 0 {} else if i == 1 {} else if i == 2 {} else if i == 3 {} else {}
    }
  }

  /** Games 1 to 5, where games 1, 2 and 5 are within the limits, have the
      worked example's sums. */
  lemma FiveSums(gs: seq<Game>, config: Config)
    requires |gs| == 5
    requires gs[0].id == 1 && gs[1].id == 2 && gs[2].id == 3 && gs[3].id == 4 && gs[4].id == 5
    requires WithinLimits(gs[0].draws, config) && WithinLimits(gs[1].draws, config)
    requires !WithinLimits(gs[2].draws, config) && !WithinLimits(gs[3].draws, config)
    requires WithinLimits(gs[4].draws, config)
    requires FewestCubes(gs[0].draws) == 48 && FewestCubes(gs[1].draws) == 12
    requires FewestCubes(gs[2].draws) == 1560 && FewestCubes(gs[3].draws) == 630
    requires FewestCubes(gs[4].draws) == 36
    ensures PlausibleIds(gs, config) == 8 && Products(gs) == 2286
  {
    AddGame(gs, 0, config, 0, 0);
    AddGame(gs, 1, config, 1, 48);
    AddGame(gs, 2, config, 3, 60);
    AddGame(gs, 3, config, 3, 1620);
    AddGame(gs, 4, config, 3, 2250);
    assert gs[..5] == gs;
  }

  /** The draws of game 1 show only `r`, `g` and `b`, at most
      4, 2 and 6 of them, and each draw is a valid dict. */
  lemma Game1Maxima(r: string, g: string, b: string, draws: seq<Draw>)
    requires r != g && r != b && g != b
    requires draws == [[(b, 3), (r, 4)], [(b, 6), (g, 2), (r, 1)], [(g, 2)]]
    ensures Among(draws, r, g, b)
    ensures MaxCount(draws, r, 4) && MaxCount(draws, g, 2) && MaxCount(draws, b, 6)
    ensures forall i :: 0 <= i < |draws| ==> Valid(draws[i])
  {
    forall i, j | 0 <= i < |draws| && 0 <= j < |draws[i]|
      ensures draws[i][j].0 == r || draws[i][j].0 == g || draws[i][j].0 == b
      ensures draws[i][j].0 == r ==> draws[i][j].1 <= 4
      ensures draws[i][j].0 == g ==> draws[i][j].1 <= 2
      ensures draws[i][j].0 == b ==> draws[i][j].1 <= 6
    {
      if i == 0 {} else if i == 1 {} else {}
    }
    forall i | 0 <= i < |draws| ensures Valid(draws[i]) {
      if i == 0 {} else if i == 1 {} else {}
    }
    assert draws[0][1] == (r, 4);
    assert draws[1][1] == (g, 2);
    assert draws[1][0] == (b, 6);
  }

  /** The fewest cubes for game 1 multiply to 48, and the default
      limits allow it. */
  lemma Game1(r: string, g: string, b: string, draws: seq<Draw>)
    requires r != g && r != b && g != b
    requires draws == [[(b, 3), (r, 4)], [(b, 6), (g, 2), (r, 1)], [(g, 2)]]
    ensures FewestCubes(draws) == 48
    ensures TestPlausibility(draws, Limits(r, g, b)) == Some(true)
  {
    Game1Maxima(r, g, b, draws);
    FewestThree(draws, r, g, b, 4, 2, 6);
    PlausibleThree(draws, r, g, b, 4, 2, 6, 12, 13, 14);
  }

  /** Game 1 can be written as a record, names only limited colours,
      is within the default limits and needs 48 cubes. */
  lemma Game1Record(r: string, g: string, b: string, game: Game)
    requires r != g && r != b && g != b
    requires IsColour(r) && IsColour(g) && IsColour(b)
    requires game == Game(1, [[(b, 3), (r, 4)], [(b, 6), (g, 2), (r, 1)], [(g, 2)]])
    ensures WellFormed(game) && Named(game.draws, Limits(r, g, b))
    ensures WithinLimits(game.draws, Limits(r, g, b))
    ensures FewestCubes(game.draws) == 48
  {
    Game1Maxima(r, g, b, game.draws);
    Game1(r, g, b, game.draws);
    WrittenThree(game, r, g, b);
    NamedThree(game.draws, r, g, b);
    PlausibleSpec(game.draws, Limits(r, g, b));
  }

  /** The draws of game 2 show only `r`, `g` and `b`, at most
      1, 3 and 4 of them, and each draw is a valid dict. */
  lemma Game2Maxima(r: string, g: string, b: string, draws: seq<Draw>)
    requires r != g && r != b && g != b
    requires draws == [[(b, 1), (g, 2)], [(b, 4), (g, 3), (r, 1)], [(g, 1), (b, 1)]]
    ensures Among(draws, r, g, b)
    ensures MaxCount(draws, r, 1) && MaxCount(draws, g, 3) && MaxCount(draws, b, 4)
    ensures forall i :: 0 <= i < |draws| ==> Valid(draws[i])
  {
    forall i, j | 0 <= i < |draws| && 0 <= j < |draws[i]|
      ensures draws[i][j].0 == r || draws[i][j].0 == g || draws[i][j].0 == b
      ensures draws[i][j].0 == r ==> draws[i][j].1 <= 1
      ensures draws[i][j].0 == g ==> draws[i][j].1 <= 3
      ensures draws[i][j].0 == b ==> draws[i][j].1 <= 4
    {
      if i == 0 {} else if i == 1 {} else {}
    }
    forall i | 0 <= i < |draws| ensures Valid(draws[i]) {
      if i == 0 {} else if i == 1 {} else {}
    }
    assert draws[1][2] == (r, 1);
    assert draws[1][1] == (g, 3);
    assert draws[1][0] == (b, 4);
  }

  /** The fewest cubes for game 2 multiply to 12, and the default
      limits allow it. */
  lemma Game2(r: string, g: string, b: string, draws: seq<Draw>)
    requires r != g && r != b && g != b
    requires draws == [[(b, 1), (g, 2)], [(b, 4), (g, 3), (r, 1)], [(g, 1), (b, 1)]]
    ensures FewestCubes(draws) == 12
    ensures TestPlausibility(draws, Limits(r, g, b)) == Some(true)
  {
    Game2Maxima(r, g, b, draws);
    FewestThree(draws, r, g, b, 1, 3, 4);
    PlausibleThree(draws, r, g, b, 1, 3, 4, 12, 13, 14);
  }

  /** Game 2 can be written as a record, names only limited colours,
      is within the default limits and needs 12 cubes. */
  lemma Game2Record(r: string, g: string, b: string, game: Game)
    requires r != g && r != b && g != b
    requires IsColour(r) && IsColour(g) && IsColour(b)
    requires game == Game(2, [[(b, 1), (g, 2)], [(b, 4), (g, 3), (r, 1)], [(g, 1), (b, 1)]])
    ensures WellFormed(game) && Named(game.draws, Limits(r, g, b))
    ensures WithinLimits(game.draws, Limits(r, g, b))
    ensures FewestCubes(game.draws) == 12
  {
    Game2Maxima(r, g, b, game.draws);
    Game2(r, g, b, game.draws);
    WrittenThree(game, r, g, b);
    NamedThree(game.draws, r, g, b);
    PlausibleSpec(game.draws, Limits(r, g, b));
  }

  /** The draws of game 3 show only `r`, `g` and `b`, at most
      20, 13 and 6 of them, and each draw is a valid dict. */
  lemma Game3Maxima(r: string, g: string, b: string, draws: seq<Draw>)
    requires r != g && r != b && g != b
    requires draws == [[(b, 6), (g, 8), (r, 20)], [(b, 5), (g, 13), (r, 4)], [(g, 5), (r, 1)]]
    ensures Among(draws, r, g, b)
    ensures MaxCount(draws, r, 20) && MaxCount(draws, g, 13) && MaxCount(draws, b, 6)
    ensures forall i :: 0 <= i < |draws| ==> Valid(draws[i])
  {
    forall i, j | 0 <= i < |draws| && 0 <= j < |draws[i]|
      ensures draws[i][j].0 == r || draws[i][j].0 == g || draws[i][j].0 == b
      ensures draws[i][j].0 == r ==> draws[i][j].1 <= 20
      ensures draws[i][j].0 == g ==> draws[i][j].1 <= 13
      ensures draws[i][j].0 == b ==> draws[i][j].1 <= 6
    {
      if i == 0 {} else if i == 1 {} else {}
    }
    forall i | 0 <= i < |draws| ensures Valid(draws[i]) {
      if i == 0 {} else if i == 1 {} else {}
    }
    assert draws[0][2] == (r, 20);
    assert draws[1][1] == (g, 13);
    assert draws[0][0] == (b, 6);
  }

  /** The fewest cubes for game 3 multiply to 1560, and the default
      limits do not allow it. */
  lemma Game3(r: string, g: string, b: string, draws: seq<Draw>)
    requires r != g && r != b && g != b
    requires draws == [[(b, 6), (g, 8), (r, 20)], [(b, 5), (g, 13), (r, 4)], [(g, 5), (r, 1)]]
    ensures FewestCubes(draws) == 1560
    ensures TestPlausibility(draws, Limits(r, g, b)) == Some(false)
  {
    Game3Maxima(r, g, b, draws);
    FewestThree(draws, r, g, b, 20, 13, 6);
    PlausibleThree(draws, r, g, b, 20, 13, 6, 12, 13, 14);
  }

  /** Game 3 can be written as a record, names only limited colours,
      is not within the default limits and needs 1560 cubes. */
  lemma Game3Record(r: string, g: string, b: string, game: Game)
    requires r != g && r != b && g != b
    requires IsColour(r) && IsColour(g) && IsColour(b)
    requires game == Game(3, [[(b, 6), (g, 8), (r, 20)], [(b, 5), (g, 13), (r, 4)], [(g, 5), (r, 1)]])
    ensures WellFormed(game) && Named(game.draws, Limits(r, g, b))
    ensures !WithinLimits(game.draws, Limits(r, g, b))
    ensures FewestCubes(game.draws) == 1560
  {
    Game3Maxima(r, g, b, game.draws);
    Game3(r, g, b, game.draws);
    WrittenThree(game, r, g, b);
    NamedThree(game.draws, r, g, b);
    PlausibleSpec(game.draws, Limits(r, g, b));
  }

  /** The draws of game 4 show only `r`, `g` and `b`, at most
      14, 3 and 15 of them, and each draw is a valid dict. */
  lemma Game4Maxima(r: string, g: string, b: string, draws: seq<Draw>)
    requires r != g && r != b && g != b
    requires draws == [[(b, 6), (g, 1), (r, 3)], [(g, 3), (r, 6)], [(g, 3), (b, 15), (r, 14)]]
    ensures Among(draws, r, g, b)
    ensures MaxCount(draws, r, 14) && MaxCount(draws, g, 3) && MaxCount(draws, b, 15)
    ensures forall i :: 0 <= i < |draws| ==> Valid(draws[i])
  {
    forall i, j | 0 <= i < |draws| && 0 <= j < |draws[i]|
      ensures draws[i][j].0 == r || draws[i][j].0 == g || draws[i][j].0 == b
      ensures draws[i][j].0 == r ==> draws[i][j].1 <= 14
      ensures draws[i][j].0 == g ==> draws[i][j].1 <= 3
      ensures draws[i][j].0 == b ==> draws[i][j].1 <= 15
    {
      if i == 0 {} else if i == 1 {} else {}
    }
    forall i | 0 <= i < |draws| ensures Valid(draws[i]) {
      if i == 0 {} else if i == 1 {} else {}
    }
    assert draws[2][2] == (r, 14);
    assert draws[1][0] == (g, 3);
    assert draws[2][1] == (b, 15);
  }

  /** The fewest cubes for game 4 multiply to 630, and the default
      limits do not allow it. */
  lemma Game4(r: string, g: string, b: string, draws: seq<Draw>)
    requires r != g && r != b && g != b
    requires draws == [[(b, 6), (g, 1), (r, 3)], [(g, 3), (r, 6)], [(g, 3), (b, 15), (r, 14)]]
    ensures FewestCubes(draws) == 630
    ensures TestPlausibility(draws, Limits(r, g, b)) == Some(false)
  {
    Game4Maxima(r, g, b, draws);
    FewestThree(draws, r, g, b, 14, 3, 15);
    PlausibleThree(draws, r, g, b, 14, 3, 15, 12, 13, 14);
  }

  /** Game 4 can be written as a record, names only limited colours,
      is not within the default limits and needs 630 cubes. */
  lemma Game4Record(r: string, g: string, b: string, game: Game)
    requires r != g && r != b && g != b
    requires IsColour(r) && IsColour(g) && IsColour(b)
    requires game == Game(4, [[(b, 6), (g, 1), (r, 3)], [(g, 3), (r, 6)], [(g, 3), (b, 15), (r, 14)]])
    ensures WellFormed(game) && Named(game.draws, Limits(r, g, b))
    ensures !WithinLimits(game.draws, Limits(r, g, b))
    ensures FewestCubes(game.draws) == 630
  {
    Game4Maxima(r, g, b, game.draws);
    Game4(r, g, b, game.draws);
    WrittenThree(game, r, g, b);
    NamedThree(game.draws, r, g, b);
    PlausibleSpec(game.draws, Limits(r, g, b));
  }

  /** The draws of game 5 show only `r`, `g` and `b`, at most
      6, 3 and 2 of them, and each draw is a valid dict. */
  lemma Game5Maxima(r: string, g: string, b: string, draws: seq<Draw>)
    requires r != g && r != b && g != b
    requires draws == [[(b, 1), (g, 3), (r, 6)], [(b, 2), (g, 2), (r, 1)]]
    ensures Among(draws, r, g, b)
    ensures MaxCount(draws, r, 6) && MaxCount(draws, g, 3) && MaxCount(draws, b, 2)
    ensures forall i :: 0 <= i < |draws| ==> Valid(draws[i])
  {
    forall i, j | 0 <= i < |draws| && 0 <= j < |draws[i]|
      ensures draws[i][j].0 == r || draws[i][j].0 == g || draws[i][j].0 == b
      ensures draws[i][j].0 == r ==> draws[i][j].1 <= 6
      ensures draws[i][j].0 == g ==> draws[i][j].1 <= 3
      ensures draws[i][j].0 == b ==> draws[i][j].1 <= 2
    {
      if i == 0 {} else {}
    }
    forall i | 0 <= i < |draws| ensures Valid(draws[i]) {
      if i == 0 {} else {}
    }
    assert draws[0][2] == (r, 6);
    assert draws[0][1] == (g, 3);
    assert draws[1][0] == (b, 2);
  }

  /** The fewest cubes for game 5 multiply to 36, and the default
      limits allow it. */
  lemma Game5(r: string, g: string, b: string, draws: seq<Draw>)
    requires r != g && r != b && g != b
    requires draws == [[(b, 1), (g, 3), (r, 6)], [(b, 2), (g, 2), (r, 1)]]
    ensures FewestCubes(draws) == 36
    ensures TestPlausibility(draws, Limits(r, g, b)) == Some(true)
  {
    Game5Maxima(r, g, b, draws);
    FewestThree(draws, r, g, b, 6, 3, 2);
    PlausibleThree(draws, r, g, b, 6, 3, 2, 12, 13, 14);
  }

  /** Game 5 can be written as a record, names only limited colours,
      is within the default limits and needs 36 cubes. */
  lemma Game5Record(r: string, g: string, b: string, game: Game)
    requires r != g && r != b && g != b
    requires IsColour(r) && IsColour(g) && IsColour(b)
    requires game == Game(5, [[(b, 1), (g, 3), (r, 6)], [(b, 2), (g, 2), (r, 1)]])
    ensures WellFormed(game) && Named(game.draws, Limits(r, g, b))
    ensures WithinLimits(game.draws, Limits(r, g, b))
    ensures FewestCubes(game.draws) == 36
  {
    Game5Maxima(r, g, b, game.draws);
    Game5(r, g, b, game.draws);
    WrittenThree(game, r, g, b);
    NamedThree(game.draws, r, g, b);
    PlausibleSpec(game.draws, Limits(r, g, b));
  }

  /** The draws of the game of the docstring of `clean_game` show only `r`, `g` and `b`, at most
      6, 3 and 2 of them, and each draw is a valid dict. */
  lemma GameCMaxima(r: string, g: string, b: string, draws: seq<Draw>)
    requires r != g && r != b && g != b
    requires draws == [[(r, 2), (g, 2)], [(r, 6), (g, 3)], [(r, 2), (g, 1), (b, 2)], [(r, 1)]]
    ensures Among(draws, r, g, b)
    ensures MaxCount(draws, r, 6) && MaxCount(draws, g, 3) && MaxCount(draws, b, 2)
    ensures forall i :: 0 <= i < |draws| ==> Valid(draws[i])
  {
    forall i, j | 0 <= i < |draws| && 0 <= j < |draws[i]|
      ensures draws[i][j].0 == r || draws[i][j].0 == g || draws[i][j].0 == b
      ensures draws[i][j].0 == r ==> draws[i][j].1 <= 6
      ensures draws[i][j].0 == g ==> draws[i][j].1 <= 3
      ensures draws[i][j].0 == b ==> draws[i][j].1 <= 2
    {
      if i == 0 {} else if i == 1 {} else if i == 2 {} else {}
    }
    forall i | 0 <= i < |draws| ensures Valid(draws[i]) {
      if i == 0 {} else if i == 1 {} else if i == 2 {} else {}
    }
    assert draws[1][0] == (r, 6);
    assert draws[1][1] == (g, 3);
    assert draws[2][2] == (b, 2);
  }

  /** The fewest cubes for the game of the docstring of `clean_game` multiply to 36, and the default
      limits allow it. */
  lemma GameC(r: string, g: string, b: string, draws: seq<Draw>)
    requires r != g && r != b && g != b
    requires draws == [[(r, 2), (g, 2)], [(r, 6), (g, 3)], [(r, 2), (g, 1), (b, 2)], [(r, 1)]]
    ensures FewestCubes(draws) == 36
    ensures TestPlausibility(draws, Limits(r, g, b)) == Some(true)
  {
    GameCMaxima(r, g, b, draws);
    FewestThree(draws, r, g, b, 6, 3, 2);
    PlausibleThree(draws, r, g, b, 6, 3, 2, 12, 13, 14);
  }

  /** The five games of the docstring of `get_fewest_cubes`, written as
      records, sum to 8 for the numbers of the plausible games (1, 2 and 5)
      and to 2286 for the products. */
  lemma DocumentSums(r: string, g: string, b: string, gs: seq<Game>)
    requires r != g && r != b && g != b
    requires IsColour(r) && IsColour(g) && IsColour(b)
    requires |gs| == 5
    requires gs[0] == Game(1, [[(b, 3), (r, 4)], [(b, 6), (g, 2), (r, 1)], [(g, 2)]])
    requires gs[1] == Game(2, [[(b, 1), (g, 2)], [(b, 4), (g, 3), (r, 1)], [(g, 1), (b, 1)]])
    requires gs[2] == Game(3, [[(b, 6), (g, 8), (r, 20)], [(b, 5), (g, 13), (r, 4)], [(g, 5), (r, 1)]])
    requires gs[3] == Game(4, [[(b, 6), (g, 1), (r, 3)], [(g, 3), (r, 6)], [(g, 3), (b, 15), (r, 14)]])
    requires gs[4] == Game(5, [[(b, 1), (g, 3), (r, 6)], [(b, 2), (g, 2), (r, 1)]])
    ensures SumGames(Records(gs), Limits(r, g, b)) == Some(Sums(8, 2286))
  {
    Game1Record(r, g, b, gs[0]);
    Game2Record(r, g, b, gs[1]);
    Game3Record(r, g, b, gs[2]);
    Game4Record(r, g, b, gs[3]);
    Game5Record(r, g, b, gs[4]);
    FiveRecords(gs, Limits(r, g, b));
    SumOfRecords(gs, Limits(r, g, b));
    FiveSums(gs, Limits(r, g, b));
  }

  /** The same with the colour names and the default limits of
      `max_config`. */
  lemma SampleSums(gs: seq<Game>)
    requires |gs| == 5
    requires gs[0] == Game(1, [[("blue", 3), ("red", 4)], [("blue", 6), ("green", 2), ("red", 1)], [("green", 2)]])
    requires gs[1] == Game(2, [[("blue", 1), ("green", 2)], [("blue", 4), ("green", 3), ("red", 1)], [("green", 1), ("blue", 1)]])
    requires gs[2] == Game(3, [[("blue", 6), ("green", 8), ("red", 20)], [("blue", 5), ("green", 13), ("red", 4)], [("green", 5), ("red", 1)]])
    requires gs[3] == Game(4, [[("blue", 6), ("green", 1), ("red", 3)], [("green", 3), ("red", 6)], [("green", 3), ("blue", 15), ("red", 14)]])
    requires gs[4] == Game(5, [[("blue", 1), ("green", 3), ("red", 6)], [("blue", 2), ("green", 2), ("red", 1)]])
    ensures SumGames(Records(gs), DefaultConfig) == Some(Sums(8, 2286))
  {
    PuzzleColours();
    DocumentSums("red", "green", "blue", gs);
  }

  /** The colour names of the puzzle are written in lower-case letters. */
  lemma PuzzleColours()
    ensures IsColour("red") && IsColour("green") && IsColour("blue")
  {
  }

  /** Game 1 with one draw of 3 blue and 4 red cubes is written
      `Game 1: 3 blue, 4 red`. */
  lemma FormatExample(g: Game)
    requires g == Game(1, [[("blue", 3), ("red", 4)]])
    ensures FormatGame(g) == "Game 1: 3 blue, 4 red"
  {
    var d := g.draws[0];
    assert Show(3) == "3" && Show(4) == "4" && Show(1) == "1";
    assert Items(d)[0] == "3 blue" && Items(d)[1] == "4 red";
    assert Items(d) == ["3 blue", "4 red"];
    assert FormatDraw(d) == "3 blue, 4 red";
    assert FormatDraws(g.draws) == ["3 blue, 4 red"];
  }

  /** The record `Game 1: 3 blue, 4 red` parses to game 1 with one draw of
      3 blue and 4 red cubes. */
  lemma ParseExample(line: string)
    requires line == "Game 1: 3 blue, 4 red"
    ensures CleanGame(line) == Some(Game(1, [[("blue", 3), ("red", 4)]]))
  {
    var g := Game(1, [[("blue", 3), ("red", 4)]]);
    FormatExample(g);
    PuzzleColours();
    assert WrittenDraw(g.draws[0]);
    CleanFormat(g);
  }
}
