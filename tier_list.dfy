/** The clan tier list: clans grouped by tier and shown tier by tier in rank order. */
module TierList {
  import opened Types
  import opened Seqs

  /** The order the tier rows are shown in. */
  const TierOrder: seq<Tier> := [SPlus, S, A, B, C, D]

  /** A tier's position in TierOrder. */
  function Rank(t: Tier): (k: nat)
    ensures k < |TierOrder| && TierOrder[k] == t
  {
    match t
    case SPlus => 0
    case S => 1
    case A => 2
    case B => 3
    case C => 4
    case D => 5
  }

  function OfTier(t: Tier): Clan -> bool
  {
    (c: Clan) => c.tier == t
  }

  /** The clans of tier `t`, in input order. */
  function Bucket(clans: seq<Clan>, t: Tier): (b: seq<Clan>)
    ensures |b| <= |clans|
    ensures forall k :: 0 <= k < |b| ==> b[k].tier == t
  {
    Filter(clans, OfTier(t))
  }

  /** Appending a clan adds it to the end of its own tier's bucket and leaves the others alone. */
  lemma BucketSnoc(init: seq<Clan>, c: Clan, t: Tier)
    ensures Bucket(init + [c], t) == Bucket(init, t) + (if c.tier == t then [c] else [])
  {
    assert (init + [c])[..|init|] == init;
  }

  /**
   * `clansByTier`: reduce the clans into a dictionary from tier to clans,
   * creating a bucket the first time a tier is met and appending to it.
   */
  method GroupByTier(clans: seq<Clan>) returns (byTier: map<Tier, seq<Clan>>)
    ensures forall t :: t in byTier <==> exists k :: 0 <= k < |clans| && clans[k].tier == t
    ensures forall t :: t in byTier ==> byTier[t] == Bucket(clans, t)
  {
    byTier := map[];
    var i := 0;
    while i < |clans|
      invariant 0 <= i <= |clans|
      invariant forall t :: t in byTier <==> exists k :: 0 <= k < i && clans[k].tier == t
      invariant forall t :: t in byTier ==> byTier[t] == Bucket(clans[..i], t)
    {
      var clan := clans[i];
      assert clans[..i + 1] == clans[..i] + [clan];
      forall t
        ensures Bucket(clans[..i + 1], t) == Bucket(clans[..i], t) + (if clan.tier == t then [clan] else [])
      {
        BucketSnoc(clans[..i], clan, t);
      }
      BucketEmpty(clans[..i], clan.tier);
      if clan.tier !in byTier {
        byTier := byTier[clan.tier := []];
      }
      byTier := byTier[clan.tier := byTier[clan.tier] + [clan]];
      i := i + 1;
    }
    assert clans[..i] == clans;
  }

  /** A bucket is empty exactly when no clan has that tier. */
  lemma BucketEmpty(clans: seq<Clan>, t: Tier)
    ensures Bucket(clans, t) == [] <==> !exists k :: 0 <= k < |clans| && clans[k].tier == t
  {
    var b := Bucket(clans, t);
    FilterMembers(clans, OfTier(t));
    if b != [] {
      assert b[0] in clans && b[0].tier == t;
    }
  }

  /** Every clan sits in the bucket of its own tier and in no other. */
  lemma BucketMembership(clans: seq<Clan>, t: Tier, c: Clan)
    ensures c in Bucket(clans, t) <==> c in clans && c.tier == t
  {
    var b := Bucket(clans, t);
    FilterMembers(clans, OfTier(t));
    if c in b {
      var k :| 0 <= k < |b| && b[k] == c;
    }
    if c in clans && c.tier == t {
      var k :| 0 <= k < |clans| && clans[k] == c;
    }
  }

  /** The buckets of the tiers in `order`, joined in that order. */
  function BucketsIn(order: seq<Tier>, byTier: map<Tier, seq<Clan>>): seq<Clan>
  {
    if order == [] then [] else BucketOrEmpty(byTier, order[0]) + BucketsIn(order[1..], byTier)
  }

  /** The buckets of `clans` for the tiers in `order`, joined in that order. */
  function BucketsOf(order: seq<Tier>, clans: seq<Clan>): seq<Clan>
  {
    if order == [] then [] else Bucket(clans, order[0]) + BucketsOf(order[1..], clans)
  }

  /** With no tier repeated in `order`, each clan of a listed tier appears as often as in the input. */
  lemma {:induction false} BucketsOfCount(order: seq<Tier>, clans: seq<Clan>, x: Clan)
    requires forall j, k :: 0 <= j < k < |order| ==> order[j] != order[k]
    ensures multiset(BucketsOf(order, clans))[x] == if x.tier in order then multiset(clans)[x] else 0
    decreases |order|
  {
    if order != [] {
      var tail := order[1..];
      assert forall j, k :: 0 <= j < k < |tail| ==> tail[j] == order[j + 1] && tail[k] == order[k + 1];
      BucketsOfCount(tail, clans, x);
      FilterCount(clans, OfTier(order[0]), x);
      assert x.tier in order <==> x.tier == order[0] || x.tier in tail;
      assert order[0] !in tail;
    }
  }

  /** The buckets partition the clans: together they hold each clan exactly as often as the input. */
  lemma BucketsPartition(clans: seq<Clan>)
    ensures multiset(BucketsOf(TierOrder, clans)) == multiset(clans)
    ensures |BucketsOf(TierOrder, clans)| == |clans|
  {
    TierOrderRanks();
    forall x
      ensures multiset(BucketsOf(TierOrder, clans))[x] == multiset(clans)[x]
    {
      BucketsOfCount(TierOrder, clans, x);
    }
    assert multiset(BucketsOf(TierOrder, clans)) == multiset(clans);
    assert |multiset(BucketsOf(TierOrder, clans))| == |multiset(clans)|;
  }

  /** The bucket the page shows for `t`: `clansByTier[tier] || []`. */
  function BucketOrEmpty(byTier: map<Tier, seq<Clan>>, t: Tier): (b: seq<Clan>)
    ensures t in byTier ==> b == byTier[t]
    ensures b == [] <==> t !in byTier || byTier[t] == []
  {
    if t in byTier then byTier[t] else []
  }

  /** The rows for the tiers in `order`, skipping tiers with no clans. */
  function RowsFor(order: seq<Tier>, byTier: map<Tier, seq<Clan>>): (rows: seq<(Tier, seq<Clan>)>)
    ensures |rows| <= |order|
    ensures forall k :: 0 <= k < |rows| ==> rows[k].1 != []
    decreases |order|
  {
    if order == [] then []
    else
      var rest := RowsFor(order[1..], byTier);
      var b := BucketOrEmpty(byTier, order[0]);
      if |b| == 0 then rest else [(order[0], b)] + rest
  }

  /** The rows of the tier list page, in the order of TierOrder. */
  function Rows(byTier: map<Tier, seq<Clan>>): (rows: seq<(Tier, seq<Clan>)>)
    ensures |rows| <= |TierOrder|
    ensures forall k :: 0 <= k < |rows| ==> rows[k].1 != []
  {
    RowsFor(TierOrder, byTier)
  }

  /** The clans of the rows, row after row. */
  function RowClans(rows: seq<(Tier, seq<Clan>)>): seq<Clan>
  {
    if rows == [] then [] else rows[0].1 + RowClans(rows[1..])
  }

  /** Each row for `order` is a tier of `order` that has clans, carrying that tier's whole bucket. */
  lemma {:induction false} RowsForSound(order: seq<Tier>, byTier: map<Tier, seq<Clan>>)
    ensures forall k :: 0 <= k < |RowsFor(order, byTier)| ==>
      RowsFor(order, byTier)[k].0 in order &&
      RowsFor(order, byTier)[k].1 == BucketOrEmpty(byTier, RowsFor(order, byTier)[k].0) &&
      RowsFor(order, byTier)[k].1 != []
    decreases |order|
  {
    if order != [] {
      var tail := order[1..];
      RowsForSound(tail, byTier);
      assert forall t :: t in tail ==> t in order;
    }
  }

  /** Each tier of `order` that has clans gets a row. */
  lemma {:induction false} RowsForComplete(order: seq<Tier>, byTier: map<Tier, seq<Clan>>, t: Tier)
    requires t in order && BucketOrEmpty(byTier, t) != []
    ensures exists k :: 0 <= k < |RowsFor(order, byTier)| && RowsFor(order, byTier)[k].0 == t
    decreases |order|
  {
    var rows := RowsFor(order, byTier);
    var tail := order[1..];
    if t == order[0] {
      assert rows[0].0 == t;
    } else {
      assert t in tail;
      RowsForComplete(tail, byTier, t);
      var rest := RowsFor(tail, byTier);
      var k :| 0 <= k < |rest| && rest[k].0 == t;
      if BucketOrEmpty(byTier, order[0]) != [] {
        assert rows[k + 1] == rest[k];
      }
    }
  }

  /** Rows keep the relative order of `order`. */
  lemma {:induction false} RowsForOrdered(order: seq<Tier>, byTier: map<Tier, seq<Clan>>)
    requires forall j, k :: 0 <= j < k < |order| ==> Rank(order[j]) < Rank(order[k])
    ensures forall j, k :: 0 <= j < k < |RowsFor(order, byTier)| ==>
      Rank(RowsFor(order, byTier)[j].0) < Rank(RowsFor(order, byTier)[k].0)
    decreases |order|
  {
    if order != [] {
      var tail := order[1..];
      assert forall j, k :: 0 <= j < k < |tail| ==> tail[j] == order[j + 1] && tail[k] == order[k + 1];
      RowsForOrdered(tail, byTier);
      RowsForSound(tail, byTier);
      assert forall t :: t in tail ==> Rank(order[0]) < Rank(t);
    }
  }

  lemma TierOrderRanks()
    ensures forall j, k :: 0 <= j < k < |TierOrder| ==> Rank(TierOrder[j]) < Rank(TierOrder[k])
    ensures forall j, k :: 0 <= j < k < |TierOrder| ==> TierOrder[j] != TierOrder[k]
    ensures forall t :: t in TierOrder
  {
    assert forall j :: 0 <= j < |TierOrder| ==> Rank(TierOrder[j]) == j;
    forall t
      ensures t in TierOrder
    {
      assert TierOrder[Rank(t)] == t;
    }
  }

  /**
   * The displayed rows: each belongs to a tier that has clans and shows that
   * tier's whole bucket; every tier with clans has a row; rows follow TierOrder.
   */
  lemma RowsShape(byTier: map<Tier, seq<Clan>>)
    ensures forall k :: 0 <= k < |Rows(byTier)| ==>
      Rows(byTier)[k].1 == BucketOrEmpty(byTier, Rows(byTier)[k].0) && Rows(byTier)[k].1 != []
    ensures forall t :: BucketOrEmpty(byTier, t) != [] ==>
      exists k :: 0 <= k < |Rows(byTier)| && Rows(byTier)[k].0 == t
    ensures forall j, k :: 0 <= j < k < |Rows(byTier)| ==> Rank(Rows(byTier)[j].0) < Rank(Rows(byTier)[k].0)
  {
    TierOrderRanks();
    RowsForSound(TierOrder, byTier);
    RowsForOrdered(TierOrder, byTier);
    forall t | BucketOrEmpty(byTier, t) != []
      ensures exists k :: 0 <= k < |Rows(byTier)| && Rows(byTier)[k].0 == t
    {
      RowsForComplete(TierOrder, byTier, t);
      var rows := RowsFor(TierOrder, byTier);
      var k :| 0 <= k < |rows| && rows[k].0 == t;
      assert Rows(byTier)[k].0 == t;
    }
  }

  lemma {:induction false} RowClansOfRowsFor(order: seq<Tier>, byTier: map<Tier, seq<Clan>>)
    ensures RowClans(RowsFor(order, byTier)) == BucketsIn(order, byTier)
    decreases |order|
  {
    if order != [] {
      RowClansOfRowsFor(order[1..], byTier);
      if BucketOrEmpty(byTier, order[0]) == [] {
        assert BucketsIn(order, byTier) == BucketsIn(order[1..], byTier);
      } else {
        var rows := RowsFor(order, byTier);
        assert rows[1..] == RowsFor(order[1..], byTier);
      }
    }
  }

  lemma {:induction false} BucketsInMatch(order: seq<Tier>, clans: seq<Clan>, byTier: map<Tier, seq<Clan>>)
    requires forall t :: BucketOrEmpty(byTier, t) == Bucket(clans, t)
    ensures BucketsIn(order, byTier) == BucketsOf(order, clans)
    decreases |order|
  {
    if order != [] {
      BucketsInMatch(order[1..], clans, byTier);
    }
  }

  /**
   * Given the grouping's two guarantees, reading the dictionary with `|| []`
   * gives, for every tier, exactly that tier's clans in input order.
   */
  lemma GroupedBucketsMatch(clans: seq<Clan>, byTier: map<Tier, seq<Clan>>)
    requires forall t :: t in byTier ==> byTier[t] == Bucket(clans, t)
    requires forall t :: t in byTier <==> exists k :: 0 <= k < |clans| && clans[k].tier == t
    ensures forall t :: BucketOrEmpty(byTier, t) == Bucket(clans, t)
  {
    forall t
      ensures BucketOrEmpty(byTier, t) == Bucket(clans, t)
    {
      BucketEmpty(clans, t);
    }
  }

  /**
   * The page lists every clan exactly once: the clans shown across the rows,
   * built from the grouped dictionary, are a permutation of the input.
   */
  lemma DisplayedClansArePermutation(clans: seq<Clan>, byTier: map<Tier, seq<Clan>>)
    requires forall t :: t in byTier ==> byTier[t] == Bucket(clans, t)
    requires forall t :: t in byTier <==> exists k :: 0 <= k < |clans| && clans[k].tier == t
    ensures multiset(RowClans(Rows(byTier))) == multiset(clans)
  {
    GroupedBucketsMatch(clans, byTier);
    RowClansOfRowsFor(TierOrder, byTier);
    BucketsInMatch(TierOrder, clans, byTier);
    BucketsPartition(clans);
  }
}
