/**
 * The spin simulator page: the wheel over the loaded clans, then the drop
 * rate table, for which the same clan array is sorted in place by rarity.
 */
module SpinSimulator {
  import opened Types
  import Wheel
  import StableSort

  /** The sort key of the drop rate table: `(a, b) => a.rarity - b.rarity`. */
  function Rarity(c: Clan): real
  {
    c.rarity
  }

  /** `Object.keys(clan.stats).join(', ')`. */
  function Join(parts: seq<string>, sep: string): (r: string)
    ensures parts == [] ==> r == []
    ensures |parts| == 1 ==> r == parts[0]
  {
    if parts == [] then []
    else if |parts| == 1 then parts[0]
    else parts[0] + sep + Join(parts[1..], sep)
  }

  function StatKeys(stats: seq<(string, string)>): (keys: seq<string>)
    ensures |keys| == |stats|
    ensures forall k :: 0 <= k < |keys| ==> keys[k] == stats[k].0
  {
    seq(|stats|, k requires 0 <= k < |stats| => stats[k].0)
  }

  datatype DropRateRow = DropRateRow(name: string, tier: Tier, rarity: real, buffs: string)

  function RowOf(c: Clan): DropRateRow
  {
    DropRateRow(c.name, c.tier, c.rarity, Join(StatKeys(c.stats), ", "))
  }

  /** The drop rate table: one row per clan, in the order given. */
  function DropRateTable(clans: seq<Clan>): (rows: seq<DropRateRow>)
    ensures |rows| == |clans|
    ensures forall k :: 0 <= k < |rows| ==>
      rows[k].name == clans[k].name && rows[k].tier == clans[k].tier && rows[k].rarity == clans[k].rarity
    ensures forall k :: 0 <= k < |rows| ==> rows[k].buffs == Join(StatKeys(clans[k].stats), ", ")
  {
    seq(|clans|, k requires 0 <= k < |clans| => RowOf(clans[k]))
  }

  /** Rendering the table on sorted clans lists the rarities in non-decreasing order. */
  lemma TableRaritiesAscend(clans: seq<Clan>)
    ensures |DropRateTable(StableSort.SortedBy(clans, Rarity))| == |clans|
    ensures var t := DropRateTable(StableSort.SortedBy(clans, Rarity));
      forall j, k :: 0 <= j < k < |t| ==> t[j].rarity <= t[k].rarity
  {
    StableSort.SortIsOrdered(clans, Rarity);
    StableSort.SortIsPermutation(clans, Rarity);
  }

  /**
   * Rendering the page: the wheel is handed the loaded array itself, and the
   * table then sorts that same array in place. The wheel therefore spins over
   * the clans in ascending rarity order, not in file order.
   */
  method RenderPage(clans: array<Clan>) returns (wheel: Wheel.SpinWheel, rows: seq<DropRateRow>)
    modifies clans
    ensures fresh(wheel) && wheel.clans == clans
    ensures wheel.Valid() && wheel.pulls == [] && !wheel.isSpinning
    ensures clans[..] == StableSort.SortedBy(old(clans[..]), Rarity)
    ensures rows == DropRateTable(clans[..])
  {
    wheel := new Wheel.SpinWheel(clans);
    StableSort.SortByKey(clans, Rarity);
    rows := DropRateTable(clans[..]);
  }
}
