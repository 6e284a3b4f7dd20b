/** The home page's "Top Clans" strip. */
module FeaturedClans {
  import opened Types
  import opened Seqs

  const FeaturedLimit: nat := 4

  predicate IsTopTier(c: Clan)
  {
    c.tier == SPlus || c.tier == S
  }

  /**
   * `topClans`: the first four clans of tier S+ or S, in input order; all of
   * them when there are fewer than four.
   */
  function TopClans(clans: seq<Clan>): (r: seq<Clan>)
    ensures |r| <= FeaturedLimit
    ensures forall k :: 0 <= k < |r| ==> r[k] in clans && (r[k].tier == SPlus || r[k].tier == S)
    ensures |r| == Min(FeaturedLimit, |Filter(clans, IsTopTier)|)
    ensures r == Filter(clans, IsTopTier)[..|r|]
    ensures |r| < FeaturedLimit ==>
      forall k :: 0 <= k < |clans| && IsTopTier(clans[k]) ==> clans[k] in r
  {
    FilterMembers(clans, IsTopTier);
    FirstMatching(clans, IsTopTier, FeaturedLimit)
  }

  /** The links of the featured cards, one per featured clan, each naming its clan's id. */
  function FeaturedLinks(clans: seq<Clan>): (links: seq<string>)
    ensures |links| == |TopClans(clans)|
    ensures forall k :: 0 <= k < |links| ==> ClanIdOfHref(links[k]) == Some(TopClans(clans)[k].id)
  {
    var top := TopClans(clans);
    var links := seq(|top|, k requires 0 <= k < |top| => ClanHref(top[k]));
    assert forall k :: 0 <= k < |links| ==> links[k] == ClanHref(top[k]);
    forall k | 0 <= k < |links|
      ensures ClanIdOfHref(links[k]) == Some(top[k].id)
    {
      ClanHrefRoundTrip(top[k]);
    }
    links
  }
}
