/**
 * The weighted clan draw of the spin simulator. The uniform random number the
 * source takes from `Math.random()` is an explicit parameter `u`, a real in
 * [0, 1); weights are exact reals.
 */
module GameLogic {
  import opened Types

  /** Sum of the rarities of the first `k` clans, added left to right as the reduce does. */
  function Prefix(clans: seq<Clan>, k: nat): real
    requires k <= |clans|
  {
    if k == 0 then 0.0 else Prefix(clans, k - 1) + clans[k - 1].rarity
  }

  /** The upper end of clan `i`'s slice of [0, total): rarities of clans 0 to i. */
  function Upper(clans: seq<Clan>, i: nat): real
    requires i < |clans|
  {
    Prefix(clans, i + 1)
  }

  /** `totalWeight`: the sum of all rarities. */
  function TotalWeight(clans: seq<Clan>): (t: real)
    ensures NonNegativeRarities(clans) ==> 0.0 <= t
    ensures clans == [] ==> t == 0.0
  {
    TotalNonNegative(clans);
    Prefix(clans, |clans|)
  }

  lemma TotalNonNegative(clans: seq<Clan>)
    ensures NonNegativeRarities(clans) ==> 0.0 <= Prefix(clans, |clans|)
  {
    if NonNegativeRarities(clans) {
      PrefixMonotone(clans, 0, |clans|);
    }
  }

  /** The scaled draw `Math.random() * totalWeight`. */
  function Draw(clans: seq<Clan>, u: real): (r: real)
    ensures TotalWeight(clans) == 0.0 ==> r == 0.0
  {
    u * TotalWeight(clans)
  }

  ghost predicate NonNegativeRarities(clans: seq<Clan>)
  {
    forall i :: 0 <= i < |clans| ==> 0.0 <= clans[i].rarity
  }

  /**
   * The first position at or after `k` whose running prefix sum exceeds the
   * draw `r`, or None when no prefix sum from `k` on exceeds it.
   */
  function FirstAboveFrom(clans: seq<Clan>, k: nat, r: real): (i: Option<nat>)
    requires k <= |clans|
    ensures i.Some? ==> k <= i.value < |clans| && r < Upper(clans, i.value)
    ensures i.Some? ==> forall j :: k <= j < i.value ==> Upper(clans, j) <= r
    ensures i.None? ==> forall j :: k <= j < |clans| ==> Upper(clans, j) <= r
    decreases |clans| - k
  {
    if k == |clans| then None
    else if r < Upper(clans, k) then Some(k)
    else FirstAboveFrom(clans, k + 1, r)
  }

  /** The first clan whose prefix sum exceeds the draw `r`, if any. */
  function FirstAbove(clans: seq<Clan>, r: real): (i: Option<nat>)
    ensures i.Some? ==> i.value < |clans| && r < Upper(clans, i.value)
    ensures i.Some? ==> forall j :: 0 <= j < i.value ==> Upper(clans, j) <= r
    ensures i.None? ==> forall j :: 0 <= j < |clans| ==> Upper(clans, j) <= r
  {
    FirstAboveFrom(clans, 0, r)
  }

  /**
   * The position `spinClan` picks for the draw `u`: the first clan whose
   * prefix sum exceeds `u * total`, falling back to the last clan.
   */
  function SpinIndex(clans: seq<Clan>, u: real): (i: nat)
    requires |clans| > 0
    ensures i < |clans|
  {
    match FirstAbove(clans, Draw(clans, u))
    case Some(i) => i
    case None => |clans| - 1
  }

  /**
   * `spinClan`: walk the clans in order, subtracting each rarity from the
   * draw, and return the first clan whose rarity exceeds what is left; the
   * last clan when the walk runs off the end. The array is only read.
   */
  method SpinClan(clans: array<Clan>, u: real) returns (c: Clan)
    requires clans.Length > 0
    ensures c == clans[SpinIndex(clans[..], u)]
    ensures c in clans[..]
  {
    ghost var s := clans[..];
    var random := u * TotalWeight(clans[..]);
    ghost var r := random;
    var i := 0;
    while i < clans.Length
      invariant 0 <= i <= clans.Length
      invariant random == r - Prefix(s, i)
      invariant FirstAbove(s, r) == FirstAboveFrom(s, i, r)
    {
      if random < clans[i].rarity {
        return clans[i];
      }
      random := random - clans[i].rarity;
      i := i + 1;
    }
    return clans[clans.Length - 1];
  }

  /**
   * `simulateSpins`: `count` spins, one draw each, collected in draw order.
   * A count of zero or less gives no spins.
   */
  method SimulateSpins(clans: array<Clan>, count: int, draws: seq<real>) returns (results: seq<Clan>)
    requires count > 0 ==> clans.Length > 0
    requires count <= |draws|
    ensures |results| == if count < 0 then 0 else count
    ensures forall k :: 0 <= k < |results| ==> results[k] == clans[SpinIndex(clans[..], draws[k])]
    ensures forall k :: 0 <= k < |results| ==> results[k] in clans[..]
  {
    results := [];
    var i := 0;
    while i < count
      invariant 0 <= i <= (if count < 0 then 0 else count)
      invariant |results| == i
      invariant forall k :: 0 <= k < i ==> results[k] == clans[SpinIndex(clans[..], draws[k])]
    {
      var c := SpinClan(clans, draws[i]);
      results := results + [c];
      i := i + 1;
    }
  }

  // ---------------------------------------------------------------------
  // Properties of the draw

  /** With nonnegative rarities the prefix sums never decrease. */
  lemma {:induction false} PrefixMonotone(clans: seq<Clan>, j: nat, k: nat)
    requires NonNegativeRarities(clans)
    requires j <= k <= |clans|
    ensures Prefix(clans, j) <= Prefix(clans, k)
    decreases k - j
  {
    if j < k {
      PrefixMonotone(clans, j, k - 1);
    }
  }

  lemma {:induction false} FirstAboveFromIsFirst(clans: seq<Clan>, k: nat, r: real, i: nat)
    requires k <= i < |clans|
    requires r < Upper(clans, i)
    requires forall j :: k <= j < i ==> Upper(clans, j) <= r
    ensures FirstAboveFrom(clans, k, r) == Some(i)
    decreases i - k
  {
    if k < i {
      FirstAboveFromIsFirst(clans, k + 1, r, i);
    }
  }

  /**
   * FirstAbove is exactly "the first index whose prefix sum exceeds r":
   * both directions of the characterisation.
   */
  lemma FirstAboveIff(clans: seq<Clan>, r: real, i: nat)
    requires i < |clans|
    ensures FirstAbove(clans, r) == Some(i) <==>
            r < Upper(clans, i) && forall j :: 0 <= j < i ==> Upper(clans, j) <= r
  {
    if r < Upper(clans, i) && forall j :: 0 <= j < i ==> Upper(clans, j) <= r {
      FirstAboveFromIsFirst(clans, 0, r, i);
    }
  }

  /** In exact arithmetic a draw below the total always stops the walk: the fallback is unreachable. */
  lemma FallbackUnreachable(clans: seq<Clan>, r: real)
    requires |clans| > 0
    requires r < TotalWeight(clans)
    ensures FirstAbove(clans, r).Some?
  {
    assert Upper(clans, |clans| - 1) == TotalWeight(clans);
  }

  /** A uniform draw in [0, 1) scaled by a positive total lands in [0, total). */
  lemma DrawInRange(clans: seq<Clan>, u: real)
    requires 0.0 <= u < 1.0
    requires 0.0 < TotalWeight(clans)
    ensures 0.0 <= Draw(clans, u) < TotalWeight(clans)
  {
    var t := TotalWeight(clans);
    assert Draw(clans, u) == u * t;
    assert 0.0 < (1.0 - u) * t;
    assert 0.0 <= u * t;
  }

  /**
   * The prefix-sum characterisation of `spinClan`: for nonnegative rarities
   * with a positive total, clan `i` is picked exactly when the scaled draw
   * falls in [Prefix(i), Prefix(i + 1)), a slice as wide as its rarity.
   */
  lemma SpinSelectsSlice(clans: seq<Clan>, u: real, i: nat)
    requires NonNegativeRarities(clans)
    requires 0.0 < TotalWeight(clans)
    requires 0.0 <= u < 1.0
    requires i < |clans|
    ensures Upper(clans, i) - Prefix(clans, i) == clans[i].rarity
    ensures SpinIndex(clans, u) == i <==>
            Prefix(clans, i) <= Draw(clans, u) < Upper(clans, i)
  {
    var r := Draw(clans, u);
    DrawInRange(clans, u);
    FallbackUnreachable(clans, r);
    assert SpinIndex(clans, u) == FirstAbove(clans, r).value;
    SliceIff(clans, r, i);
  }

  /** For a draw the scan does stop on, it stops at `i` exactly when the draw lies in `i`'s slice. */
  lemma SliceIff(clans: seq<Clan>, r: real, i: nat)
    requires NonNegativeRarities(clans)
    requires i < |clans| && 0.0 <= r
    requires FirstAbove(clans, r).Some?
    ensures FirstAbove(clans, r).value == i <==> Prefix(clans, i) <= r < Upper(clans, i)
  {
    FirstAboveIff(clans, r, i);
    if Prefix(clans, i) <= r < Upper(clans, i) {
      forall j | 0 <= j < i
        ensures Upper(clans, j) <= r
      {
        PrefixMonotone(clans, j + 1, i);
      }
    }
    if FirstAbove(clans, r).value == i && i > 0 {
      assert Upper(clans, i - 1) <= r;
    }
  }

  /**
   * The walk never stops at a clan of rarity 0 (for a nonnegative draw):
   * such a clan comes out only through the fallback, and only when it is last.
   */
  lemma ZeroRarityOnlyAsFallback(clans: seq<Clan>, u: real, i: nat)
    requires 0.0 <= Draw(clans, u)
    requires i < |clans| && clans[i].rarity == 0.0
    requires SpinIndex(clans, u) == i
    ensures FirstAbove(clans, Draw(clans, u)).None?
    ensures i == |clans| - 1
  {
    assert Upper(clans, i) == Prefix(clans, i);
    if i > 0 {
      assert Upper(clans, i - 1) == Prefix(clans, i);
    }
  }

  lemma {:induction false} PrefixOfZeros(clans: seq<Clan>, k: nat)
    requires k <= |clans|
    requires forall i :: 0 <= i < |clans| ==> clans[i].rarity == 0.0
    ensures Prefix(clans, k) == 0.0
  {
    if k > 0 {
      PrefixOfZeros(clans, k - 1);
    }
  }

  /** When every rarity is 0 the draw is 0 and the last clan is returned. */
  lemma AllZeroGivesLast(clans: seq<Clan>, u: real)
    requires |clans| > 0
    requires forall i :: 0 <= i < |clans| ==> clans[i].rarity == 0.0
    ensures Draw(clans, u) == 0.0
    ensures SpinIndex(clans, u) == |clans| - 1
  {
    PrefixOfZeros(clans, |clans|);
    forall j | 0 <= j < |clans|
      ensures Upper(clans, j) <= 0.0
    {
      PrefixOfZeros(clans, j + 1);
    }
  }

  /** A single clan of positive rarity among zeros is picked by every draw. */
  lemma SinglePositiveAlwaysPicked(clans: seq<Clan>, u: real, p: nat)
    requires NonNegativeRarities(clans)
    requires p < |clans| && 0.0 < clans[p].rarity
    requires forall i :: 0 <= i < |clans| && i != p ==> clans[i].rarity == 0.0
    requires 0.0 <= u < 1.0
    ensures SpinIndex(clans, u) == p
  {
    PrefixMonotone(clans, 0, p);
    PrefixMonotone(clans, p + 1, |clans|);
    var r := Draw(clans, u);
    DrawInRange(clans, u);
    FallbackUnreachable(clans, r);
    var i := SpinIndex(clans, u);
    if i != p {
      ZeroRarityOnlyAsFallback(clans, u, i);
    }
  }

  /** The worked example: rarities 70, 25, 5 and u = 0.5 give r = 50 < 70, the first clan. */
  lemma ExampleTrace(a: Clan, b: Clan, c: Clan)
    requires a.rarity == 70.0 && b.rarity == 25.0 && c.rarity == 5.0
    ensures Draw([a, b, c], 0.5) == 50.0
    ensures SpinIndex([a, b, c], 0.5) == 0
    ensures SpinIndex([a, b, c], 0.8) == 1
    ensures SpinIndex([a, b, c], 0.97) == 2
  {
    var s := [a, b, c];
    assert Prefix(s, 1) == 70.0;
    assert Prefix(s, 2) == 95.0;
    assert TotalWeight(s) == 100.0;
    FirstAboveIff(s, 80.0, 1);
    FirstAboveIff(s, 97.0, 2);
  }
}
