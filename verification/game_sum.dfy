/** The fold of `sum_games`: for each record, the game number joins the first
    sum when the game is plausible, and the product of its fewest cubes joins
    the second. Reading the file and printing the sums are not modelled: the
    document is a sequence of records and the two sums are the result. A
    record that makes `clean_game` or `test_plausibility` raise ends the
    whole run: that is `None` here. */
module GameSum {
  import opened Wrappers
  import opened Games
  import opened GameFormat
  import opened Plausibility
  import opened Fewest
  import opened Dicts

  /** The two sums, `sum_idx` and `sum_prod`. */
  datatype Sums = Sums(ids: nat, products: nat)

  /** What one record adds to the sums: its game number if the game is
      plausible (`game_idx * game_flag`), and its fewest-cubes product. */
  function GameTotals(line: string, config: Config): Option<Sums> {
    match CleanGame(line)
    case None => None
    case Some(g) =>
      match TestPlausibility(g.draws, config)
      case None => None
      case Some(flag) => Some(Sums(if flag then g.id else 0, FewestCubes(g.draws)))
  }

  /** What the records add, in order. */
  function RecordValues(lines: seq<string>, config: Config): seq<Option<Sums>>
  {
    seq(|lines|, i requires 0 <= i < |lines| => GameTotals(lines[i], config))
  }

  /** Two sums added componentwise, failing when either fails. */
  function AddSums(x: Option<Sums>, y: Option<Sums>): Option<Sums> {
    if x.Some? && y.Some? then Some(Sums(x.value.ids + y.value.ids, x.value.products + y.value.products))
    else None
  }

  /** A left fold of the componentwise sum from `(0, 0)` that fails as soon
      as one record fails. */
  function SumAll(vs: seq<Option<Sums>>): Option<Sums>
    decreases |vs|
  {
    if |vs| == 0 then Some(Sums(0, 0))
    else AddSums(SumAll(vs[..|vs| - 1]), vs[|vs| - 1])
  }

  /** Reference definition of the document's two sums. */
  function SumGames(lines: seq<string>, config: Config): Option<Sums> {
    SumAll(RecordValues(lines, config))
  }

  /** The fold fails exactly when some record fails. */
  lemma {:induction false} SumAllFails(vs: seq<Option<Sums>>)
    ensures SumAll(vs).None? <==> exists i :: 0 <= i < |vs| && vs[i].None?
    decreases |vs|
  {
    if |vs| > 0 {
      var init := vs[..|vs| - 1];
      SumAllFails(init);
      if exists i :: 0 <= i < |init| && init[i].None? {
        var i :| 0 <= i < |init| && init[i].None?;
        assert vs[i].None?;
      }
    }
  }

  /** Folding in two parts adds the parts' sums. */
  lemma {:induction false} SumAllAppend(a: seq<Option<Sums>>, b: seq<Option<Sums>>)
    ensures SumAll(a + b) == AddSums(SumAll(a), SumAll(b))
    decreases |b|
  {
    if |b| == 0 {
      assert a + b == a;
    } else {
      var b' := b[..|b| - 1];
      assert (a + b)[..|a + b| - 1] == a + b';
      assert (a + b)[|a + b| - 1] == b[|b| - 1];
      SumAllAppend(a, b');
    }
  }

  /** The document's sums fail exactly when some record fails. */
  lemma {:induction false} SumGamesFails(lines: seq<string>, config: Config)
    ensures SumGames(lines, config).None?
        <==> exists i :: 0 <= i < |lines| && GameTotals(lines[i], config).None?
  {
    var vs := RecordValues(lines, config);
    SumAllFails(vs);
    assert forall i :: 0 <= i < |lines| ==> vs[i] == GameTotals(lines[i], config);
    if exists i :: 0 <= i < |vs| && vs[i].None? {
      var i :| 0 <= i < |vs| && vs[i].None?;
      assert vs[i] == GameTotals(lines[i], config);
    }
  }

  /** Summing a document in two parts adds the parts' sums. */
  lemma {:induction false} SumGamesAppend(a: seq<string>, b: seq<string>, config: Config)
    ensures SumGames(a + b, config) == AddSums(SumGames(a, config), SumGames(b, config))
  {
    RecordValuesAppend(a, b, config);
    SumAllAppend(RecordValues(a, config), RecordValues(b, config));
  }

  /** The records of a document in two parts add what each part adds. */
  lemma RecordValuesAppend(a: seq<string>, b: seq<string>, config: Config)
    ensures RecordValues(a + b, config) == RecordValues(a, config) + RecordValues(b, config)
  {
  }

  // ---------------------------------------------------------------------------
  // The sums of a document of well-formed records

  /** The records of some games, one per game. */
  function Records(gs: seq<Game>): seq<string>
  {
    seq(|gs|, i requires 0 <= i < |gs| => FormatGame(gs[i]))
  }

  /** What a game adds to the sums, from the reference definition of
      plausibility. */
  function GameSums(g: Game, config: Config): Sums {
    Sums(if WithinLimits(g.draws, config) then g.id else 0, FewestCubes(g.draws))
  }

  /** What the games add, in order. */
  function GameValues(gs: seq<Game>, config: Config): seq<Option<Sums>>
  {
    seq(|gs|, i requires 0 <= i < |gs| => Some(GameSums(gs[i], config)))
  }

  /** The numbers of the games whose counts are all within their limits,
      added up. */
  function PlausibleIds(gs: seq<Game>, config: Config): nat
    decreases |gs|
  {
    if |gs| == 0 then 0
    else
      var g := gs[|gs| - 1];
      PlausibleIds(gs[..|gs| - 1], config) + if WithinLimits(g.draws, config) then g.id else 0
  }

  /** The fewest-cubes products of the games, added up. */
  function Products(gs: seq<Game>): nat
    decreases |gs|
  {
    if |gs| == 0 then 0 else Products(gs[..|gs| - 1]) + FewestCubes(gs[|gs| - 1].draws)
  }

  /** One more game adds its number, if plausible, and its product. */
  lemma AddGame(gs: seq<Game>, n: nat, config: Config, ids: nat, products: nat)
    requires n < |gs|
    requires PlausibleIds(gs[..n], config) == ids && Products(gs[..n]) == products
    ensures PlausibleIds(gs[..n + 1], config)
         == ids + if WithinLimits(gs[n].draws, config) then gs[n].id else 0
    ensures Products(gs[..n + 1]) == products + FewestCubes(gs[n].draws)
  {
    assert gs[..n + 1][..n] == gs[..n];
  }

  /** What a record of a game with every colour named adds to the sums. */
  lemma GameTotalsOfRecord(g: Game, config: Config)
    requires WellFormed(g) && Named(g.draws, config)
    ensures GameTotals(FormatGame(g), config) == Some(GameSums(g, config))
  {
    CleanFormat(g);
    PlausibleSpec(g.draws, config);
    assert TestPlausibility(g.draws, config) == Some(WithinLimits(g.draws, config));
  }

  /** Each record of well-formed games adds what its game adds. */
  lemma RecordsValues(gs: seq<Game>, config: Config)
    requires forall i :: 0 <= i < |gs| ==> WellFormed(gs[i]) && Named(gs[i].draws, config)
    ensures RecordValues(Records(gs), config) == GameValues(gs, config)
  {
    forall i | 0 <= i < |gs|
      ensures RecordValues(Records(gs), config)[i] == GameValues(gs, config)[i]
    {
      GameTotalsOfRecord(gs[i], config);
    }
  }

  /** Folding what the games add gives the plausible games' numbers and the
      products. */
  lemma {:induction false} SumOfGames(gs: seq<Game>, config: Config)
    ensures SumAll(GameValues(gs, config)) == Some(Sums(PlausibleIds(gs, config), Products(gs)))
    decreases |gs|
  {
    if |gs| > 0 {
      var init := gs[..|gs| - 1];
      assert GameValues(gs, config)[..|gs| - 1] == GameValues(init, config);
      SumOfGames(init, config);
    }
  }

  /** For a document of well-formed records whose colours all have limits,
      the sums are the plausible games' numbers and the products. */
  lemma SumOfRecords(gs: seq<Game>, config: Config)
    requires forall i :: 0 <= i < |gs| ==> WellFormed(gs[i]) && Named(gs[i].draws, config)
    ensures SumGames(Records(gs), config) == Some(Sums(PlausibleIds(gs, config), Products(gs)))
  {
    RecordsValues(gs, config);
    SumOfGames(gs, config);
  }
}
