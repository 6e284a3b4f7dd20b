/** The two-slot clan comparison page. */
module Compare {
  import opened Types
  import opened Seqs

  /** Whether a slot holds a clan. */
  predicate IsSet(slot: Option<Clan>)
  {
    slot.Some?
  }

  function SlotId(slot: Option<Clan>): string
  {
    if slot.Some? then slot.value.id else ""
  }

  /** The ids of the selected clans, in slot order: `filter(c => c !== null).map(c => c.id)`. */
  function ExcludeIds(selected: seq<Option<Clan>>): (ids: seq<string>)
    ensures |ids| == |Filter(selected, IsSet)|
    ensures forall k :: 0 <= k < |ids| ==> ids[k] == Filter(selected, IsSet)[k].value.id
  {
    var filled := Filter(selected, IsSet);
    seq(|filled|, k requires 0 <= k < |filled| => SlotId(filled[k]))
  }

  /** With two slots, the excluded ids are those of the filled slots, first slot first. */
  lemma ExcludeIdsOfTwo(x: Option<Clan>, y: Option<Clan>)
    ensures ExcludeIds([x, y]) ==
      (if x.Some? then [x.value.id] else []) + (if y.Some? then [y.value.id] else [])
  {
    var sel := [x, y];
    assert sel[..1] == [x];
    assert sel[..1][..0] == [];
    assert Filter(sel, IsSet) == (if x.Some? then [x] else []) + (if y.Some? then [y] else []);
  }

  function NotExcluded(excludeIds: seq<string>): Clan -> bool
  {
    (c: Clan) => c.id !in excludeIds
  }

  /** The clans a selector offers: all clans whose id is not excluded, in catalogue order. */
  function AvailableClans(clans: seq<Clan>, excludeIds: seq<string>): (r: seq<Clan>)
    ensures forall k :: 0 <= k < |r| ==> r[k] in clans && r[k].id !in excludeIds
    ensures forall k :: 0 <= k < |clans| && clans[k].id !in excludeIds ==> clans[k] in r
  {
    FilterMembers(clans, NotExcluded(excludeIds));
    Filter(clans, NotExcluded(excludeIds))
  }

  /** A clan chosen in either slot is never offered by either selector. */
  lemma SelectedNeverOffered(clans: seq<Clan>, x: Option<Clan>, y: Option<Clan>, c: Clan)
    requires c in AvailableClans(clans, ExcludeIds([x, y]))
    ensures x.Some? ==> c.id != x.value.id
    ensures y.Some? ==> c.id != y.value.id
  {
    ExcludeIdsOfTwo(x, y);
    var r := AvailableClans(clans, ExcludeIds([x, y]));
    var k :| 0 <= k < |r| && r[k] == c;
  }

  /** The quick comparison table appears when both slots hold a clan. */
  function ShowsSummary(selected: seq<Option<Clan>>): (b: bool)
    requires |selected| == 2
    ensures b <==> |ExcludeIds(selected)| == 2
  {
    assert selected == [selected[0], selected[1]];
    ExcludeIdsOfTwo(selected[0], selected[1]);
    selected[0].Some? && selected[1].Some?
  }

  /** The empty-state prompt appears when neither slot holds a clan. */
  function ShowsEmptyState(selected: seq<Option<Clan>>): (b: bool)
    requires |selected| == 2
    ensures b <==> ExcludeIds(selected) == []
  {
    assert selected == [selected[0], selected[1]];
    ExcludeIdsOfTwo(selected[0], selected[1]);
    selected[0].None? && selected[1].None?
  }

  /**
   * The summary shows exactly when two ids are excluded, the prompt exactly
   * when none are; the two never show together.
   */
  lemma SummaryAndEmptyState(x: Option<Clan>, y: Option<Clan>)
    ensures ShowsSummary([x, y]) <==> |ExcludeIds([x, y])| == 2
    ensures ShowsEmptyState([x, y]) <==> ExcludeIds([x, y]) == []
    ensures !(ShowsSummary([x, y]) && ShowsEmptyState([x, y]))
  {
    ExcludeIdsOfTwo(x, y);
  }

  datatype Band = Red | Purple | Blue | Green | Yellow

  function BandRank(b: Band): nat
  {
    match b
    case Red => 0
    case Purple => 1
    case Blue => 2
    case Green => 3
    case Yellow => 4
  }

  /** The colour of the pull-rate bar: rarer clans get the earlier bands. */
  function PullRateBand(rarity: real): (b: Band)
    ensures b == Red <==> rarity < 1.0
    ensures b == Purple <==> 1.0 <= rarity < 5.0
    ensures b == Blue <==> 5.0 <= rarity < 10.0
    ensures b == Green <==> 10.0 <= rarity < 20.0
    ensures b == Yellow <==> 20.0 <= rarity
  {
    if rarity < 1.0 then Red
    else if rarity < 5.0 then Purple
    else if rarity < 10.0 then Blue
    else if rarity < 20.0 then Green
    else Yellow
  }

  /** A less rare clan never gets an earlier band. */
  lemma PullRateBandMonotone(a: real, b: real)
    requires a <= b
    ensures BandRank(PullRateBand(a)) <= BandRank(PullRateBand(b))
  {
  }

  /** The width of the pull-rate bar in percent: the rarity, capped at 100. */
  function BarWidth(rarity: real): (w: real)
    ensures w <= 100.0 && w <= rarity
    ensures w == rarity || w == 100.0
  {
    if rarity <= 100.0 then rarity else 100.0
  }

  /** Both slots are clear, or at least not holding two clans with the same id. */
  ghost predicate DistinctSlots(selected: seq<Option<Clan>>)
  {
    |selected| == 2 && (selected[0].Some? && selected[1].Some? ==> selected[0].value.id != selected[1].value.id)
  }

  class ComparePage {
    /** The clan catalogue, in file order. */
    const clans: seq<Clan>
    var selectedClans: seq<Option<Clan>>

    ghost predicate Valid()
      reads this
    {
      |selectedClans| == 2
    }

    /** Both slots start empty. */
    constructor (clans: seq<Clan>)
      ensures this.clans == clans
      ensures selectedClans == [None, None]
      ensures Valid() && DistinctSlots(selectedClans)
    {
      this.clans := clans;
      selectedClans := [None, None];
    }

    /** `handleSelect`: put `clan` in slot `index`; the other slot is untouched. */
    method HandleSelect(index: nat, clan: Clan)
      requires Valid() && index < 2
      modifies this
      ensures Valid()
      ensures selectedClans[index] == Some(clan)
      ensures selectedClans[1 - index] == old(selectedClans[1 - index])
    {
      var newSelection := selectedClans;
      newSelection := newSelection[index := Some(clan)];
      selectedClans := newSelection;
    }

    /** `handleClear`: empty slot `index`; the other slot is untouched. */
    method HandleClear(index: nat)
      requires Valid() && index < 2
      modifies this
      ensures Valid()
      ensures selectedClans[index] == None
      ensures selectedClans[1 - index] == old(selectedClans[1 - index])
      ensures old(DistinctSlots(selectedClans)) ==> DistinctSlots(selectedClans)
    {
      var newSelection := selectedClans;
      newSelection := newSelection[index := None];
      selectedClans := newSelection;
    }

    /**
     * Picking entry `k` of an empty slot's dropdown: the selector is a dropdown
     * only while its slot is empty, and it lists the clans not already chosen.
     * So the two slots never end up holding clans with the same id.
     */
    method PickFromDropdown(index: nat, k: nat)
      requires Valid() && index < 2 && selectedClans[index].None?
      requires k < |AvailableClans(clans, ExcludeIds(selectedClans))|
      modifies this
      ensures Valid()
      ensures selectedClans[index] == Some(AvailableClans(clans, ExcludeIds(old(selectedClans)))[k])
      ensures selectedClans[1 - index] == old(selectedClans[1 - index])
      ensures DistinctSlots(selectedClans)
    {
      var offered := AvailableClans(clans, ExcludeIds(selectedClans));
      var clan := offered[k];
      assert selectedClans == [selectedClans[0], selectedClans[1]];
      SelectedNeverOffered(clans, selectedClans[0], selectedClans[1], clan);
      HandleSelect(index, clan);
    }
  }
}
