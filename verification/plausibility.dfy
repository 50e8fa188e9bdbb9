/** `test_plausibility`: whether every count of every draw is within the
    limit for its colour. The Python code builds the whole list of
    comparisons before `all` reads it, so a colour without a limit raises a
    `KeyError` whatever the other comparisons say: that is `None` here. */
module Plausibility {
  import opened Wrappers
  import opened Dicts
  import opened Games

  /** The limit for each colour, `max_config`. */
  type Config = Dict<string, nat>

  /** The default `max_config`: 12 red, 13 green and 14 blue cubes. */
  const DefaultConfig: Config := [("red", 12), ("green", 13), ("blue", 14)]

  /** `hand[color] <= max_config[color]` for each colour of one draw, in
      order, and'ed together; `None` for a colour without a limit. */
  function CheckDraw(d: Draw, config: Config): Option<bool>
    decreases |d|
  {
    if |d| == 0 then Some(true)
    else
      match Get(config, d[0].0)
      case None => None
      case Some(limit) =>
        match CheckDraw(d[1..], config)
        case None => None
        case Some(rest) => Some(d[0].1 <= limit && rest)
  }

  /** `test_plausibility(draws, max_config)`. */
  function TestPlausibility(draws: seq<Draw>, config: Config): Option<bool>
    decreases |draws|
  {
    if |draws| == 0 then Some(true)
    else
      match CheckDraw(draws[0], config)
      case None => None
      case Some(b) =>
        match TestPlausibility(draws[1..], config)
        case None => None
        case Some(rest) => Some(b && rest)
  }

  // ---------------------------------------------------------------------------
  // Reference definitions

  /** Every colour drawn has a limit. */
  predicate Named(draws: seq<Draw>, config: Config) {
    forall i, j :: 0 <= i < |draws| && 0 <= j < |draws[i]| ==> draws[i][j].0 in Keys(config)
  }

  /** Every count drawn is within the limit for its colour. */
  predicate WithinLimits(draws: seq<Draw>, config: Config) {
    forall i, j :: 0 <= i < |draws| && 0 <= j < |draws[i]| ==>
      Get(config, draws[i][j].0).Some? && draws[i][j].1 <= Get(config, draws[i][j].0).value
  }

  /** One draw's check fails exactly on a colour without a limit, and holds
      exactly when each count is within its limit. */
  lemma {:induction false} CheckDrawSpec(d: Draw, config: Config)
    ensures CheckDraw(d, config).None? <==> exists j :: 0 <= j < |d| && d[j].0 !in Keys(config)
    ensures CheckDraw(d, config) == Some(true)
        <==> forall j :: 0 <= j < |d| ==>
               Get(config, d[j].0).Some? && d[j].1 <= Get(config, d[j].0).value
    decreases |d|
  {
    if |d| > 0 {
      GetSpec(config, d[0].0);
      CheckDrawSpec(d[1..], config);
      assert forall j :: 1 <= j < |d| ==> d[j] == d[1..][j - 1];
    }
  }

  /** `test_plausibility` raises exactly when some colour drawn has no limit,
      and is true exactly when every count is within its limit. */
  lemma {:induction false} PlausibleSpec(draws: seq<Draw>, config: Config)
    ensures TestPlausibility(draws, config).None? <==> !Named(draws, config)
    ensures TestPlausibility(draws, config) == Some(true) <==> WithinLimits(draws, config)
    decreases |draws|
  {
    if |draws| > 0 {
      CheckDrawSpec(draws[0], config);
      PlausibleSpec(draws[1..], config);
      assert forall i :: 1 <= i < |draws| ==> draws[i] == draws[1..][i - 1];
      if Named(draws[1..], config) && exists j :: 0 <= j < |draws[0]| && draws[0][j].0 !in Keys(config) {
        var j :| 0 <= j < |draws[0]| && draws[0][j].0 !in Keys(config);
        assert !Named(draws, config) by {
          assert draws[0][j].0 !in Keys(config);
        }
      }
    }
  }

  /** Dropping draws keeps a game plausible: every draw of `fewer` is a draw
      of `draws`. */
  lemma RemoveDraws(draws: seq<Draw>, fewer: seq<Draw>, config: Config)
    requires forall i :: 0 <= i < |fewer| ==> fewer[i] in draws
    requires TestPlausibility(draws, config) == Some(true)
    ensures TestPlausibility(fewer, config) == Some(true)
  {
    PlausibleSpec(draws, config);
    PlausibleSpec(fewer, config);
    forall i, j | 0 <= i < |fewer| && 0 <= j < |fewer[i]|
      ensures Get(config, fewer[i][j].0).Some? && fewer[i][j].1 <= Get(config, fewer[i][j].0).value
    {
      var i' :| 0 <= i' < |draws| && draws[i'] == fewer[i];
      assert fewer[i][j] == draws[i'][j];
    }
  }

  /** `more` has a limit for every colour `config` has one for, never a lower
      one. */
  ghost predicate Raises(config: Config, more: Config) {
    forall k :: Get(config, k).Some? ==> Get(more, k).Some? && Get(config, k).value <= Get(more, k).value
  }

  /** Raising limits keeps a game plausible. */
  lemma RaiseLimits(draws: seq<Draw>, config: Config, more: Config)
    requires Raises(config, more)
    requires TestPlausibility(draws, config) == Some(true)
    ensures TestPlausibility(draws, more) == Some(true)
  {
    PlausibleSpec(draws, config);
    PlausibleSpec(draws, more);
    forall i, j | 0 <= i < |draws| && 0 <= j < |draws[i]|
      ensures Get(more, draws[i][j].0).Some? && draws[i][j].1 <= Get(more, draws[i][j].0).value
    {
      var k := draws[i][j].0;
      assert Get(config, k).Some?;
    }
  }
}
