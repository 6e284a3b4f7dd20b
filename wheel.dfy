/**
 * The spin wheel's session state: whether a spin is under way, the clan on
 * show, the ten most recent results and the running statistics.
 */
module Wheel {
  import opened Types
  import opened Seqs
  import GameLogic

  /** How many recent results the history keeps. */
  const HistoryLimit: nat := 10

  datatype Stats = Stats(totalSpins: nat, bestPull: Option<Clan>)

  const InitialStats: Stats := Stats(0, None)

  /** The history updater: the new result in front, then at most nine older ones. */
  function PushHistory(prev: seq<Clan>, result: Clan): (h: seq<Clan>)
    ensures |h| == Min(|prev| + 1, HistoryLimit)
    ensures h[0] == result
    ensures h[1..] == prev[..|h| - 1]
  {
    Take([result] + prev, HistoryLimit)
  }

  /** A result replaces the best pull when there is none yet or it is strictly rarer. */
  predicate IsNewBest(best: Option<Clan>, result: Clan)
  {
    best.None? || result.rarity < best.value.rarity
  }

  /** The statistics updater: one more spin, and the best pull if the result beats it. */
  function UpdateStats(prev: Stats, result: Clan): (s: Stats)
    ensures s.totalSpins == prev.totalSpins + 1
    ensures prev.bestPull.None? ==> s.bestPull == Some(result)
    ensures prev.bestPull.Some? && result.rarity < prev.bestPull.value.rarity ==> s.bestPull == Some(result)
    ensures prev.bestPull.Some? && prev.bestPull.value.rarity <= result.rarity ==> s.bestPull == prev.bestPull
    ensures s.bestPull.Some? && s.bestPull.value.rarity <= result.rarity
    ensures prev.bestPull.Some? ==> s.bestPull.value.rarity <= prev.bestPull.value.rarity
  {
    Stats(prev.totalSpins + 1, if IsNewBest(prev.bestPull, result) then Some(result) else prev.bestPull)
  }

  /** The history after the results `pulls` (oldest first), starting empty. */
  function HistoryAfter(pulls: seq<Clan>): seq<Clan>
  {
    if pulls == [] then []
    else PushHistory(HistoryAfter(pulls[..|pulls| - 1]), pulls[|pulls| - 1])
  }

  /** The statistics after the results `pulls` (oldest first), starting from zero. */
  function StatsAfter(pulls: seq<Clan>): Stats
  {
    if pulls == [] then InitialStats
    else UpdateStats(StatsAfter(pulls[..|pulls| - 1]), pulls[|pulls| - 1])
  }

  /** `pulls[i]` has the least rarity of all the pulls, and every earlier pull is strictly less rare. */
  ghost predicate IsEarliestRarest(pulls: seq<Clan>, i: nat)
  {
    && i < |pulls|
    && (forall j :: 0 <= j < |pulls| ==> pulls[i].rarity <= pulls[j].rarity)
    && (forall j :: 0 <= j < i ==> pulls[i].rarity < pulls[j].rarity)
  }

  /** The history holds the last ten results, most recent first. */
  lemma {:induction false} HistoryIsRecentFirst(pulls: seq<Clan>)
    ensures |HistoryAfter(pulls)| == Min(|pulls|, HistoryLimit)
    ensures forall k :: 0 <= k < |HistoryAfter(pulls)| ==> HistoryAfter(pulls)[k] == pulls[|pulls| - 1 - k]
    decreases |pulls|
  {
    if pulls != [] {
      var init := pulls[..|pulls| - 1];
      HistoryIsRecentFirst(init);
      var h := HistoryAfter(pulls);
      forall k | 0 <= k < |h|
        ensures h[k] == pulls[|pulls| - 1 - k]
      {
        if k > 0 {
          assert h[k] == h[1..][k - 1];
          assert h[k] == HistoryAfter(init)[k - 1];
        }
      }
    }
  }

  /** The spin counter counts every result. */
  lemma {:induction false} TotalSpinsCountsPulls(pulls: seq<Clan>)
    ensures StatsAfter(pulls).totalSpins == |pulls|
    decreases |pulls|
  {
    if pulls != [] {
      TotalSpinsCountsPulls(pulls[..|pulls| - 1]);
    }
  }

  /**
   * Over the whole session, not just the last ten, the best pull is the
   * earliest result of least rarity; it is unset only before the first spin.
   */
  lemma {:induction false} BestPullIsEarliestRarest(pulls: seq<Clan>)
    ensures StatsAfter(pulls).bestPull.None? <==> pulls == []
    ensures pulls != [] ==> exists i: nat :: IsEarliestRarest(pulls, i) && StatsAfter(pulls).bestPull == Some(pulls[i])
    decreases |pulls|
  {
    if pulls != [] {
      var n := |pulls| - 1;
      var init, x := pulls[..n], pulls[n];
      BestPullIsEarliestRarest(init);
      var prev := StatsAfter(init).bestPull;
      assert StatsAfter(pulls) == UpdateStats(StatsAfter(init), x);
      assert forall j :: 0 <= j < n ==> pulls[j] == init[j];
      if init == [] {
        assert StatsAfter(pulls).bestPull == Some(pulls[0]);
        assert IsEarliestRarest(pulls, 0);
      } else {
        var i: nat :| IsEarliestRarest(init, i) && prev == Some(init[i]);
        if x.rarity < init[i].rarity {
          assert StatsAfter(pulls).bestPull == Some(pulls[n]);
          assert IsEarliestRarest(pulls, n);
        } else {
          assert StatsAfter(pulls).bestPull == Some(pulls[i]);
          assert IsEarliestRarest(pulls, i);
        }
      }
    }
  }

  /** Three results of rarity 10, 3, 3: the second is the best pull; the tie does not replace it. */
  lemma TieKeepsEarlierBest(x: Clan, y: Clan, z: Clan)
    requires x.rarity == 10.0 && y.rarity == 3.0 && z.rarity == 3.0
    ensures StatsAfter([x, y, z]) == Stats(3, Some(y))
  {
    assert [x, y, z][..2] == [x, y];
    assert [x, y][..1] == [x];
    assert [x][..0] == [];
    assert StatsAfter([x]) == Stats(1, Some(x));
    assert StatsAfter([x, y]) == Stats(2, Some(y));
  }

  /**
   * `Math.floor(Math.random() * clans.length)`: the index whose unit slice of
   * [0, n) contains the scaled draw.
   */
  function PreviewIndex(n: nat, u: real): (k: nat)
    requires n > 0 && 0.0 <= u < 1.0
    ensures k < n
    ensures k as real <= u * n as real < k as real + 1.0
  {
    var x := u * n as real;
    assert 0.0 <= x < 1.0 * n as real;
    x.Floor
  }

  class SpinWheel {
    /** The clans to spin over; the page that renders the wheel owns this array. */
    const clans: array<Clan>
    var isSpinning: bool
    var currentClan: Option<Clan>
    var displayClan: Option<Clan>
    var history: seq<Clan>
    var stats: Stats
    /** Every result of this session, oldest first. */
    ghost var pulls: seq<Clan>

    ghost predicate Valid()
      reads this
    {
      history == HistoryAfter(pulls) && stats == StatsAfter(pulls)
    }

    /** A fresh session: nothing spun, no best pull, empty history, not spinning. */
    constructor (clans: array<Clan>)
      ensures this.clans == clans
      ensures !isSpinning && currentClan == None && displayClan == None
      ensures history == [] && stats == InitialStats
      ensures pulls == [] && Valid()
    {
      this.clans := clans;
      isSpinning := false;
      currentClan := None;
      displayClan := None;
      history := [];
      stats := InitialStats;
      pulls := [];
    }

    /**
     * `spin`: ignored while a spin is under way; otherwise starts one.
     * `started` tells which of the two happened.
     */
    method Spin() returns (started: bool)
      modifies this`isSpinning
      ensures started == !old(isSpinning)
      ensures isSpinning
    {
      if isSpinning {
        return false;
      }
      isSpinning := true;
      return true;
    }

    /**
     * One frame of the rolling animation: show the clan at a uniformly drawn
     * index. Only the displayed clan changes; history and statistics do not.
     */
    method ShowPreview(u: real)
      requires 0.0 <= u < 1.0
      modifies this`displayClan
      ensures clans.Length == 0 ==> displayClan == None
      ensures clans.Length > 0 ==> displayClan == Some(clans[PreviewIndex(clans.Length, u)])
      ensures clans.Length > 0 ==> displayClan.Some? && displayClan.value in clans[..]
    {
      if clans.Length == 0 {
        displayClan := None;
      } else {
        displayClan := Some(clans[PreviewIndex(clans.Length, u)]);
      }
    }

    /**
     * `finishSpin`: one draw decides the result, which becomes the current and
     * displayed clan, goes to the front of the history and updates the statistics.
     */
    method FinishSpin(u: real)
      requires Valid()
      requires clans.Length > 0
      modifies this
      ensures Valid()
      ensures pulls == old(pulls) + [clans[GameLogic.SpinIndex(clans[..], u)]]
      ensures currentClan == Some(pulls[|pulls| - 1]) && displayClan == currentClan
      ensures !isSpinning
      ensures history == PushHistory(old(history), pulls[|pulls| - 1])
      ensures stats == UpdateStats(old(stats), pulls[|pulls| - 1])
      ensures stats.totalSpins == old(stats.totalSpins) + 1
    {
      var result := GameLogic.SpinClan(clans, u);
      currentClan := Some(result);
      displayClan := Some(result);
      isSpinning := false;
      history := PushHistory(history, result);
      stats := UpdateStats(stats, result);
      pulls := pulls + [result];
      assert pulls[..|pulls| - 1] == old(pulls);
    }
  }
}
