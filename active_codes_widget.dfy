/** The home page's "Active Codes" widget. */
module ActiveCodesWidget {
  import opened Types
  import opened Seqs
  import Codes

  const ShownLimit: nat := 4

  /** The codes on the widget: the first four active codes, in input order. */
  function ShownCodes(codes: seq<GameCode>): (r: seq<GameCode>)
    ensures |r| <= ShownLimit
    ensures forall k :: 0 <= k < |r| ==> r[k] in codes && r[k].status == Active
    ensures |r| == Min(ShownLimit, |Codes.ActiveCodes(codes)|)
    ensures r == Codes.ActiveCodes(codes)[..|r|]
  {
    FirstMatching(codes, Codes.IsActive, ShownLimit)
  }

  /** The count in "View All N Codes": every active code, not capped at four. */
  function ViewAllCount(codes: seq<GameCode>): (n: nat)
    ensures |ShownCodes(codes)| <= n
    ensures n <= ShownLimit ==> n == |ShownCodes(codes)|
    ensures n > ShownLimit ==> |ShownCodes(codes)| == ShownLimit
    ensures n == Codes.ActiveBadgeCount(codes)
  {
    |Filter(codes, Codes.IsActive)|
  }

  /** The "No active codes" message shows exactly when no code is active. */
  function ShowsEmptyMessage(codes: seq<GameCode>): (b: bool)
    ensures b <==> forall k :: 0 <= k < |codes| ==> codes[k].status != Active
  {
    var shown := ShownCodes(codes);
    var active := Codes.ActiveCodes(codes);
    FilterMembers(codes, Codes.IsActive);
    assert active != [] ==> |shown| > 0 && active[0] in codes;
    |shown| == 0
  }
}
