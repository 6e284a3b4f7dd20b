/** The record types of the site's data files: clans and game codes. */
module Types {

  datatype Option<T> = None | Some(value: T)

  /** A clan's tier; the type allows exactly these six. */
  datatype Tier = SPlus | S | A | B | C | D

  /**
   * A clan (a technique that can be spun). `rarity` is its drop rate in
   * percent and doubles as its weight; `stats` keeps the buff entries in
   * their key order.
   */
  datatype Clan = Clan(
    id: string,
    name: string,
    rarity: real,
    tier: Tier,
    image: Option<string>,
    description: string,
    grade: Option<string>,
    stats: seq<(string, string)>,
    moves: seq<string>)

  datatype CodeStatus = Active | Expired

  /** A redeemable game code. */
  datatype GameCode = GameCode(
    id: string,
    code: string,
    reward: string,
    status: CodeStatus,
    lastChecked: string,
    isNew: Option<bool>)

  const ClanPathPrefix: string := "/wiki/clans/"

  /** The wiki link of a clan: the clan path followed by the clan's id. */
  function ClanHref(c: Clan): (h: string)
    ensures |h| == |ClanPathPrefix| + |c.id|
    ensures h[..|ClanPathPrefix|] == ClanPathPrefix && h[|ClanPathPrefix|..] == c.id
  {
    ClanPathPrefix + c.id
  }

  /** Reads the clan id back out of a wiki link, if it is one. */
  function ClanIdOfHref(h: string): Option<string>
  {
    if |ClanPathPrefix| <= |h| && h[..|ClanPathPrefix|] == ClanPathPrefix
    then Some(h[|ClanPathPrefix|..])
    else None
  }

  /** A clan's link names that clan's id and nothing else. */
  lemma ClanHrefRoundTrip(c: Clan)
    ensures ClanIdOfHref(ClanHref(c)) == Some(c.id)
  {
  }

  /** Two clans share a link exactly when they share an id. */
  lemma ClanHrefInjective(c: Clan, d: Clan)
    ensures ClanHref(c) == ClanHref(d) <==> c.id == d.id
  {
    if ClanHref(c) == ClanHref(d) {
      ClanHrefRoundTrip(c);
      ClanHrefRoundTrip(d);
    }
  }
}
