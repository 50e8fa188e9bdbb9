/** `get_fewest_cubes`: the largest count drawn of each colour, in the order
    the colours first appear, and the product of those maxima. */
module Fewest {
  import opened Wrappers
  import opened Dicts
  import opened Games
  import opened Plausibility

  /** `max(a, b)` on counts. */
  function Max(a: nat, b: nat): (r: nat)
    ensures r >= a && r >= b && (r == a || r == b)
  {
    if a >= b then a else b
  }

  /** The inner loop: `max_cubes[color] = max(hand[color],
      max_cubes.get(color, 0))` for each colour of one draw, in order. */
  function MaxStep(m: Config, d: Draw): Config
    decreases |d|
  {
    if |d| == 0 then m
    else MaxStep(Put(m, d[0].0, Max(d[0].1, GetOr(m, d[0].0, 0))), d[1..])
  }

  /** The first loop, over the draws in order, from an empty dict. */
  function MaxCubes(draws: seq<Draw>): Config
    decreases |draws|
  {
    if |draws| == 0 then []
    else MaxStep(MaxCubes(draws[..|draws| - 1]), draws[|draws| - 1])
  }

  /** The second loop: `product *= value` from 1. */
  function Product(vs: seq<nat>): nat
    decreases |vs|
  {
    if |vs| == 0 then 1 else Product(vs[..|vs| - 1]) * vs[|vs| - 1]
  }

  /** `get_fewest_cubes(draws)`. */
  function FewestCubes(draws: seq<Draw>): (r: nat)
    ensures |draws| == 0 ==> r == 1
  {
    Product(Values(MaxCubes(draws)))
  }

  // ---------------------------------------------------------------------------
  // Reference definitions

  /** Some draw shows colour `k`. */
  predicate Drawn(draws: seq<Draw>, k: string) {
    exists i, j :: 0 <= i < |draws| && 0 <= j < |draws[i]| && draws[i][j].0 == k
  }

  /** `v` is the largest count any draw shows for colour `k`. */
  predicate MaxCount(draws: seq<Draw>, k: string, v: nat) {
    (forall i, j :: 0 <= i < |draws| && 0 <= j < |draws[i]| && draws[i][j].0 == k ==> draws[i][j].1 <= v)
    && exists i, j :: 0 <= i < |draws| && 0 <= j < |draws[i]| && draws[i][j] == (k, v)
  }

  // ---------------------------------------------------------------------------
  // The maxima

  /** One draw adds exactly its colours. */
  lemma {:induction false} MaxStepKeys(m: Config, d: Draw, k: string)
    ensures Get(MaxStep(m, d), k).None?
        <==> Get(m, k).None? && forall j :: 0 <= j < |d| ==> d[j].0 != k
    decreases |d|
  {
    if |d| > 0 {
      var c := d[0].0;
      var m' := Put(m, c, Max(d[0].1, GetOr(m, c, 0)));
      MaxStepKeys(m', d[1..], k);
      PutGet(m, c, Max(d[0].1, GetOr(m, c, 0)), k);
      assert forall j :: 1 <= j < |d| ==> d[j] == d[1..][j - 1];
    }
  }

  /** One assignment of the inner loop, seen from colour `k`. */
  lemma PutMax(m: Config, c: string, n: nat, k: string)
    ensures k != c ==> Get(Put(m, c, Max(n, GetOr(m, c, 0))), k) == Get(m, k)
    ensures k == c ==> Get(Put(m, c, Max(n, GetOr(m, c, 0))), k) == Some(Max(n, GetOr(m, c, 0)))
  {
    PutGet(m, c, Max(n, GetOr(m, c, 0)), k);
  }

  /** After one draw, a colour's running maximum bounds its old maximum and
      its counts in the draw. */
  lemma {:induction false} MaxStepBound(m: Config, d: Draw, k: string)
    requires Get(MaxStep(m, d), k).Some?
    ensures Get(m, k).Some? ==> Get(m, k).value <= Get(MaxStep(m, d), k).value
    ensures forall j :: 0 <= j < |d| && d[j].0 == k ==> d[j].1 <= Get(MaxStep(m, d), k).value
    decreases |d|
  {
    if |d| > 0 {
      var c := d[0].0;
      var m' := Put(m, c, Max(d[0].1, GetOr(m, c, 0)));
      assert MaxStep(m, d) == MaxStep(m', d[1..]);
      PutMax(m, c, d[0].1, k);
      MaxStepKeys(m', d[1..], k);
      MaxStepBound(m', d[1..], k);
      assert forall j :: 1 <= j < |d| ==> d[j] == d[1..][j - 1];
    }
  }

  /** After one draw, a colour's running maximum is its old maximum or one
      of its counts in the draw. */
  lemma {:induction false} MaxStepAttained(m: Config, d: Draw, k: string)
    requires Get(MaxStep(m, d), k).Some?
    ensures Get(m, k) == Get(MaxStep(m, d), k)
         || exists j :: 0 <= j < |d| && d[j] == (k, Get(MaxStep(m, d), k).value)
    decreases |d|
  {
    if |d| > 0 {
      var c := d[0].0;
      var m' := Put(m, c, Max(d[0].1, GetOr(m, c, 0)));
      var v := Get(MaxStep(m, d), k).value;
      assert MaxStep(m, d) == MaxStep(m', d[1..]);
      PutMax(m, c, d[0].1, k);
      MaxStepKeys(m', d[1..], k);
      MaxStepAttained(m', d[1..], k);
      if Get(m', k) != Get(MaxStep(m, d), k) {
        var j :| 0 <= j < |d[1..]| && d[1..][j] == (k, v);
        assert d[j + 1] == (k, v);
      } else if k == c && Get(m, k) != Get(MaxStep(m, d), k) {
        assert d[0] == (k, v);
      }
    }
  }

  /** One draw keeps the maxima a valid dict. */
  lemma {:induction false} MaxStepValid(m: Config, d: Draw)
    requires Valid(m)
    ensures Valid(MaxStep(m, d))
    decreases |d|
  {
    if |d| > 0 {
      var m' := Put(m, d[0].0, Max(d[0].1, GetOr(m, d[0].0, 0)));
      PutValid(m, d[0].0, Max(d[0].1, GetOr(m, d[0].0, 0)));
      MaxStepValid(m', d[1..]);
    }
  }

  /** The maxima form a valid dict. */
  lemma {:induction false} MaxCubesValid(draws: seq<Draw>)
    ensures Valid(MaxCubes(draws))
    decreases |draws|
  {
    if |draws| > 0 {
      MaxCubesValid(draws[..|draws| - 1]);
      MaxStepValid(MaxCubes(draws[..|draws| - 1]), draws[|draws| - 1]);
    }
  }

  /** A colour is drawn in a game with one more draw exactly when it was
      drawn before or the new draw shows it. */
  lemma DrawnStep(init: seq<Draw>, d: Draw, k: string)
    ensures Drawn(init + [d], k) <==> Drawn(init, k) || exists j :: 0 <= j < |d| && d[j].0 == k
  {
    var draws := init + [d];
    assert forall i :: 0 <= i < |init| ==> draws[i] == init[i];
    assert draws[|init|] == d;
    if Drawn(draws, k) {
      var i, j :| 0 <= i < |draws| && 0 <= j < |draws[i]| && draws[i][j].0 == k;
      if i < |init| {
        assert init[i][j].0 == k;
      }
    }
  }

  /** The maxima have exactly the colours drawn. */
  lemma {:induction false} MaxCubesKeys(draws: seq<Draw>, k: string)
    ensures Get(MaxCubes(draws), k).None? <==> !Drawn(draws, k)
    decreases |draws|
  {
    if |draws| > 0 {
      var init, d := draws[..|draws| - 1], draws[|draws| - 1];
      assert draws == init + [d];
      MaxCubesKeys(init, k);
      MaxStepKeys(MaxCubes(init), d, k);
      DrawnStep(init, d, k);
    }
  }

  /** Each colour's maximum is its largest count drawn. */
  lemma {:induction false} MaxCubesValue(draws: seq<Draw>, k: string)
    requires Get(MaxCubes(draws), k).Some?
    ensures MaxCount(draws, k, Get(MaxCubes(draws), k).value)
    decreases |draws|
  {
    var init, d := draws[..|draws| - 1], draws[|draws| - 1];
    var m := MaxCubes(init);
    var v := Get(MaxCubes(draws), k).value;
    assert draws == init + [d];
    MaxStepBound(m, d, k);
    MaxStepAttained(m, d, k);
    if Get(m, k).Some? {
      MaxCubesValue(init, k);
    } else {
      MaxCubesKeys(init, k);
    }
    MaxCountStep(init, d, k, v, Get(m, k));
  }

  /** The maxima have exactly the colours drawn, each with its largest
      count. */
  lemma MaxCubesSpec(draws: seq<Draw>, k: string)
    ensures Get(MaxCubes(draws), k).None? <==> !Drawn(draws, k)
    ensures Get(MaxCubes(draws), k).Some? ==> MaxCount(draws, k, Get(MaxCubes(draws), k).value)
  {
    MaxCubesKeys(draws, k);
    if Get(MaxCubes(draws), k).Some? {
      MaxCubesValue(draws, k);
    }
  }

  /** The step of `MaxCubesSpec` for a colour the last draw may show. */
  lemma MaxCountStep(init: seq<Draw>, d: Draw, k: string, v: nat, prev: Option<nat>)
    requires prev.None? ==> !Drawn(init, k)
    requires prev.Some? ==> MaxCount(init, k, prev.value) && prev.value <= v
    requires forall j :: 0 <= j < |d| && d[j].0 == k ==> d[j].1 <= v
    requires prev == Some(v) || exists j :: 0 <= j < |d| && d[j] == (k, v)
    ensures MaxCount(init + [d], k, v)
  {
    var draws := init + [d];
    var n := |draws|;
    assert forall i :: 0 <= i < n - 1 ==> init[i] == draws[i];
    if prev == Some(v) {
      var i, j :| 0 <= i < |init| && 0 <= j < |init[i]| && init[i][j] == (k, v);
      assert draws[i][j] == (k, v);
    } else {
      var j :| 0 <= j < |d| && d[j] == (k, v);
      assert draws[n - 1][j] == (k, v);
    }
  }

  // ---------------------------------------------------------------------------
  // The maxima are the least limits that make the game plausible

  /** The maxima make every draw plausible. */
  lemma Sufficient(draws: seq<Draw>)
    ensures TestPlausibility(draws, MaxCubes(draws)) == Some(true)
  {
    var m := MaxCubes(draws);
    PlausibleSpec(draws, m);
    forall i, j | 0 <= i < |draws| && 0 <= j < |draws[i]|
      ensures Get(m, draws[i][j].0).Some? && draws[i][j].1 <= Get(m, draws[i][j].0).value
    {
      MaxCubesSpec(draws, draws[i][j].0);
    }
  }

  /** Limits make a game plausible exactly when they are at least its
      maxima: the maxima are the fewest cubes of each colour. */
  lemma LeastLimits(draws: seq<Draw>, config: Config)
    ensures TestPlausibility(draws, config) == Some(true) <==> Raises(MaxCubes(draws), config)
  {
    var m := MaxCubes(draws);
    if Raises(m, config) {
      Sufficient(draws);
      RaiseLimits(draws, m, config);
    }
    if TestPlausibility(draws, config) == Some(true) {
      PlausibleSpec(draws, config);
      forall k | Get(m, k).Some?
        ensures Get(config, k).Some? && Get(m, k).value <= Get(config, k).value
      {
        MaxCubesSpec(draws, k);
        var i, j :| 0 <= i < |draws| && 0 <= j < |draws[i]| && draws[i][j] == (k, Get(m, k).value);
      }
    }
  }

  // ---------------------------------------------------------------------------
  // The product does not depend on the order of the colours or the draws

  lemma MulSwap(a: nat, b: nat, c: nat)
    ensures a * b * c == a * c * b
  {
  }

  /** Taking one value out of a product divides it out. */
  lemma {:induction false} ProductRemove(vs: seq<nat>, j: nat)
    requires j < |vs|
    ensures Product(vs) == Product(vs[..j] + vs[j + 1..]) * vs[j]
    decreases |vs|
  {
    var n := |vs|;
    if j == n - 1 {
      assert vs[..j] + vs[j + 1..] == vs[..n - 1];
    } else {
      var init := vs[..n - 1];
      ProductRemove(init, j);
      var rest := vs[..j] + vs[j + 1..];
      assert rest[..|rest| - 1] == init[..j] + init[j + 1..];
      assert rest[|rest| - 1] == vs[n - 1];
      assert init[j] == vs[j];
      MulSwap(Product(init[..j] + init[j + 1..]), vs[j], vs[n - 1]);
    }
  }

  /** Dropping the last entry of one dict and the same entry from another
      keeps them valid and with the same entries. */
  lemma DropSameEntry<K>(d1: Dict<K, nat>, d2: Dict<K, nat>, j: nat, r1: Dict<K, nat>, r2: Dict<K, nat>)
    requires Valid(d1) && Valid(d2) && |d1| > 0 && j < |d2|
    requires forall e :: e in d1 <==> e in d2
    requires d2[j] == d1[|d1| - 1]
    requires r1 == d1[..|d1| - 1] && r2 == d2[..j] + d2[j + 1..]
    ensures Valid(r1) && Valid(r2)
    ensures forall e :: e in r1 <==> e in r2
  {
    var n := |d1|;
    assert forall i :: 0 <= i < |r2| ==> r2[i] == (if i < j then d2[i] else d2[i + 1]);
    forall x | x in r1 ensures x in r2 {
      var i :| 0 <= i < n - 1 && d1[i] == x;
      assert x in d2;
      var i' :| 0 <= i' < |d2| && d2[i'] == x;
      if i' < j {
        assert r2[i'] == x;
      } else {
        assert r2[i' - 1] == x;
      }
    }
    forall x | x in r2 ensures x in r1 {
      var i :| 0 <= i < |r2| && r2[i] == x;
      assert x in d1;
      var i' :| 0 <= i' < n && d1[i'] == x;
      assert r1[i'] == x;
    }
  }

  /** A non-empty sequence holds its first element. */
  lemma FirstIn<T>(a: seq<T>)
    ensures |a| > 0 ==> a[0] in a
  {
  }

  /** A sequence whose elements all occur in an empty one is empty. */
  lemma NothingIn<T>(a: seq<T>, b: seq<T>)
    requires |b| == 0 && forall x :: x in a ==> x in b
    ensures |a| == 0
  {
    FirstIn(a);
  }

  /** Two valid dicts with the same entries, in any order, have the same
      product of values. */
  lemma {:induction false} ProductSameEntries<K>(d1: Dict<K, nat>, d2: Dict<K, nat>)
    requires Valid(d1) && Valid(d2)
    requires forall e :: e in d1 <==> e in d2
    ensures Product(Values(d1)) == Product(Values(d2))
    decreases |d1|
  {
    if |d1| == 0 {
      NothingIn(d2, d1);
      assert Values(d1) == Values(d2);
    } else {
      var n := |d1|;
      var e := d1[n - 1];
      assert e in d1;
      var j :| 0 <= j < |d2| && d2[j] == e;
      var r1 := d1[..n - 1];
      var r2 := d2[..j] + d2[j + 1..];
      DropSameEntry(d1, d2, j, r1, r2);
      ProductSameEntries(r1, r2);
      assert Values(r1) == Values(d1)[..n - 1];
      assert Values(r2) == Values(d2)[..j] + Values(d2)[j + 1..];
      ProductRemove(Values(d2), j);
      assert Values(d2)[j] == e.1 == Values(d1)[n - 1];
      assert Product(Values(d1)) == Product(Values(r1)) * e.1;
    }
  }

  /** Reordering or repeating draws does not change the product: it depends
      only on which draws occur. */
  lemma FewestSameDraws(draws: seq<Draw>, other: seq<Draw>)
    requires forall d :: d in draws <==> d in other
    ensures FewestCubes(draws) == FewestCubes(other)
  {
    var m1, m2 := MaxCubes(draws), MaxCubes(other);
    forall k ensures Get(m1, k) == Get(m2, k) {
      SameMaxima(draws, other, k);
    }
    MaxCubesValid(draws);
    MaxCubesValid(other);
    SameGetsSameEntries(m1, m2);
    ProductSameEntries(m1, m2);
  }

  /** `get_fewest_cubes` is the product, over the colours drawn, of each
      colour's largest count, whatever order the colours are taken in:
      `maxima` is any valid dict holding exactly those colours and counts. */
  lemma FewestOfMaxima(draws: seq<Draw>, maxima: Config)
    requires Valid(maxima)
    requires forall k :: Get(maxima, k).Some? <==> Drawn(draws, k)
    requires forall k :: Get(maxima, k).Some? ==> MaxCount(draws, k, Get(maxima, k).value)
    ensures FewestCubes(draws) == Product(Values(maxima))
  {
    var m := MaxCubes(draws);
    forall k ensures Get(m, k) == Get(maxima, k) {
      MaxCubesSpec(draws, k);
      if Get(m, k).Some? {
        MaxCountUnique(draws, k, Get(m, k).value, Get(maxima, k).value);
      }
    }
    MaxCubesValid(draws);
    SameGetsSameEntries(m, maxima);
    ProductSameEntries(m, maxima);
  }

  /** Games with the same draws have the same maxima. */
  lemma SameMaxima(draws: seq<Draw>, other: seq<Draw>, k: string)
    requires forall d :: d in draws <==> d in other
    ensures Get(MaxCubes(draws), k) == Get(MaxCubes(other), k)
  {
    MaxCubesSpec(draws, k);
    MaxCubesSpec(other, k);
    SameMaximaOneWay(draws, other, k);
    SameMaximaOneWay(other, draws, k);
    var r1, r2 := Get(MaxCubes(draws), k), Get(MaxCubes(other), k);
    if r1.Some? && r2.Some? {
      MaxCountUnique(other, k, r1.value, r2.value);
    }
  }

  /** A colour has one largest count. */
  lemma MaxCountUnique(draws: seq<Draw>, k: string, v: nat, w: nat)
    requires MaxCount(draws, k, v) && MaxCount(draws, k, w)
    ensures v == w
  {
    var i, j :| 0 <= i < |draws| && 0 <= j < |draws[i]| && draws[i][j] == (k, v);
    var i', j' :| 0 <= i' < |draws| && 0 <= j' < |draws[i']| && draws[i'][j'] == (k, w);
    assert draws[i][j].0 == k && draws[i'][j'].0 == k;
  }

  /** Every draw of `draws` is one of `other`'s, so a colour drawn in one is
      drawn in the other, and a largest count of one is a largest count of
      the other. */
  lemma SameMaximaOneWay(draws: seq<Draw>, other: seq<Draw>, k: string)
    requires forall d :: d in draws <==> d in other
    ensures Drawn(draws, k) ==> Drawn(other, k)
    ensures forall v :: MaxCount(draws, k, v) ==> MaxCount(other, k, v)
  {
    if Drawn(draws, k) {
      var i, j :| 0 <= i < |draws| && 0 <= j < |draws[i]| && draws[i][j].0 == k;
      assert draws[i] in other;
      var i' :| 0 <= i' < |other| && other[i'] == draws[i];
      assert other[i'][j].0 == k;
    }
    forall v | MaxCount(draws, k, v) ensures MaxCount(other, k, v) {
      var i, j :| 0 <= i < |draws| && 0 <= j < |draws[i]| && draws[i][j] == (k, v);
      assert draws[i] in other;
      var i' :| 0 <= i' < |other| && other[i'] == draws[i];
      assert other[i'][j] == (k, v);
      forall a, b | 0 <= a < |other| && 0 <= b < |other[a]| && other[a][b].0 == k
        ensures other[a][b].1 <= v
      {
        assert other[a] in draws;
        var a' :| 0 <= a' < |draws| && draws[a'] == other[a];
        assert draws[a'][b] == other[a][b];
      }
    }
  }
}
