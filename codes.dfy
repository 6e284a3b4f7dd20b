/** The codes page: working codes first, expired codes below. */
module Codes {
  import opened Types
  import opened Seqs

  predicate IsActive(c: GameCode)
  {
    c.status == Active
  }

  predicate IsExpired(c: GameCode)
  {
    c.status == Expired
  }

  /** `activeCodes`: the codes whose status is active, in file order. */
  function ActiveCodes(codes: seq<GameCode>): (r: seq<GameCode>)
    ensures |r| <= |codes|
    ensures forall k :: 0 <= k < |r| ==> r[k] in codes && r[k].status == Active
    ensures forall k :: 0 <= k < |codes| && codes[k].status == Active ==> codes[k] in r
  {
    FilterMembers(codes, IsActive);
    Filter(codes, IsActive)
  }

  /** `expiredCodes`: the codes whose status is expired, in file order. */
  function ExpiredCodes(codes: seq<GameCode>): (r: seq<GameCode>)
    ensures |r| <= |codes|
    ensures forall k :: 0 <= k < |r| ==> r[k] in codes && r[k].status == Expired
    ensures forall k :: 0 <= k < |codes| && codes[k].status == Expired ==> codes[k] in r
  {
    FilterMembers(codes, IsExpired);
    Filter(codes, IsExpired)
  }

  /**
   * Every code is either active or expired, so the two lists split the codes:
   * together they hold each code as often as the file does, and no code is in both.
   */
  lemma CodesPartition(codes: seq<GameCode>)
    ensures multiset(ActiveCodes(codes)) + multiset(ExpiredCodes(codes)) == multiset(codes)
    ensures |ActiveCodes(codes)| + |ExpiredCodes(codes)| == |codes|
    ensures multiset(ActiveCodes(codes)) !! multiset(ExpiredCodes(codes))
  {
    FilterSplit(codes, IsActive, IsExpired);
    forall x
      ensures multiset(ActiveCodes(codes))[x] == 0 || multiset(ExpiredCodes(codes))[x] == 0
    {
      FilterCount(codes, IsActive, x);
      FilterCount(codes, IsExpired, x);
    }
  }

  /** Both lists keep file order: codes appended to the file are appended to their list. */
  lemma CodesKeepFileOrder(older: seq<GameCode>, newer: seq<GameCode>)
    ensures ActiveCodes(older + newer) == ActiveCodes(older) + ActiveCodes(newer)
    ensures ExpiredCodes(older + newer) == ExpiredCodes(older) + ExpiredCodes(newer)
  {
    FilterAppend(older, newer, IsActive);
    FilterAppend(older, newer, IsExpired);
  }

  /** The "N Active" badge: the number of active codes, which is all the codes but the expired ones. */
  function ActiveBadgeCount(codes: seq<GameCode>): (n: nat)
    ensures n == |codes| - |ExpiredCodes(codes)|
  {
    CodesPartition(codes);
    |ActiveCodes(codes)|
  }

  /** The "No active codes" placeholder shows exactly when no code is active. */
  function ShowsNoActivePlaceholder(codes: seq<GameCode>): (b: bool)
    ensures b <==> forall k :: 0 <= k < |codes| ==> !IsActive(codes[k])
  {
    var active := ActiveCodes(codes);
    FilterMembers(codes, IsActive);
    assert active != [] ==> active[0] in codes;
    |active| == 0
  }
}
