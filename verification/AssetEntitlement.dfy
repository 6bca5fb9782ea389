/** From the entitlement to the assets it covers (app/core/asset_entitlement.py).

    The inventory is the ascending sequence of asset ids, as the queries order it; an entitlement is
    what LicenseModel.Entitlement gives: licensed, and the limit (None: unlimited). */
module AssetEntitlement {
  import opened Options
  import opened LicenseModel
  import opened LicenseSystem
  import opened LicenseWindows

  type Grant = (bool, Option<nat>)

  ghost predicate Inventory(ids: seq<int>) {
    && (forall i, j :: 0 <= i < j < |ids| ==> ids[i] < ids[j])
    && (forall i :: 0 <= i < |ids| ==> ids[i] > 0)
  }

  /** _position: how many assets have an id up to this one. */
  function Position(ids: seq<int>, asset: int): nat {
    if ids == [] then 0 else (if ids[0] <= asset then 1 else 0) + Position(ids[1..], asset)
  }

  function IsAssetLicensed(g: Grant, ids: seq<int>, asset: Option<int>): bool {
    if !g.0 then false
    else if g.1.None? then true
    else if asset.None? then false
    else Position(ids, asset.value) <= g.1.value
  }

  datatype Usage = Usage(used: nat, maxAssets: Option<nat>, unlimited: bool, overLimit: bool,
                         remaining: Option<nat>, licensedThroughId: Option<int>)

  function UsageOf(g: Grant, ids: seq<int>): Usage {
    var used := |ids|;
    var over := g.0 && g.1.Some? && used > g.1.value;
    Usage(used, if g.0 then g.1 else Some(0), g.0 && g.1.None?, over,
          if g.0 && g.1.None? then None else Some(Room(if g.1.Some? then g.1.value else 0, used)),
          if !over then None else if g.1.value > 0 then Some(ids[g.1.value - 1]) else Some(0))
  }

  /** max(limit - used, 0). */
  function Room(limit: nat, used: nat): nat { if limit > used then limit - used else 0 }

  /** check_asset_capacity does not raise. */
  predicate CapacityAllows(g: Grant, used: nat, adding: int) {
    g.0 && (g.1.None? || adding <= 0 || used + adding <= g.1.value)
  }

  function RemainingCapacity(g: Grant, used: nat): Option<nat> {
    if !g.0 then Some(0) else if g.1.None? then None else Some(Room(g.1.value, used))
  }

  /** _refuse_assets_beyond_the_license does not raise. */
  predicate FlushAllows(g: Grant, used: nat, newAssets: nat) {
    newAssets == 0 || !g.0 || g.1.None? || used + newAssets <= g.1.value
  }

  // ---------- which assets are covered ----------

  lemma {:induction false} NothingBelow(ids: seq<int>, asset: int)
    requires forall i :: 0 <= i < |ids| ==> ids[i] > asset
    ensures Position(ids, asset) == 0
  {
    if ids != [] {
      NothingBelow(ids[1..], asset);
    }
  }

  lemma {:induction false} PositionOfTheKth(ids: seq<int>, k: nat)
    requires Inventory(ids) && k < |ids|
    ensures Position(ids, ids[k]) == k + 1
  {
    if k == 0 {
      NothingBelow(ids[1..], ids[0]);
    } else {
      assert ids[1..][k - 1] == ids[k];
      PositionOfTheKth(ids[1..], k - 1);
    }
  }

  ghost function Covered(g: Grant, ids: seq<int>): set<int> {
    set i | 0 <= i < |ids| && IsAssetLicensed(g, ids, Some(ids[i])) :: ids[i]
  }

  /** How many assets a grant covers. */
  function CoveredCount(g: Grant, used: nat): nat {
    if !g.0 then 0 else if g.1.None? || used <= g.1.value then used else g.1.value
  }

  lemma {:induction false} DistinctPrefix(ids: seq<int>, n: nat)
    requires Inventory(ids) && n <= |ids|
    ensures |set i | 0 <= i < n :: ids[i]| == n
  {
    if n > 0 {
      DistinctPrefix(ids, n - 1);
      assert (set i | 0 <= i < n :: ids[i]) == (set i | 0 <= i < n - 1 :: ids[i]) + {ids[n - 1]};
    }
  }

  /** A license covers the oldest assets, exactly min(used, limit) of them. */
  lemma CoversTheOldest(g: Grant, ids: seq<int>)
    requires Inventory(ids)
    ensures Covered(g, ids) == set i | 0 <= i < CoveredCount(g, |ids|) :: ids[i]
    ensures |Covered(g, ids)| == CoveredCount(g, |ids|)
  {
    forall k | 0 <= k < |ids| ensures IsAssetLicensed(g, ids, Some(ids[k])) <==> k < CoveredCount(g, |ids|) {
      PositionOfTheKth(ids, k);
    }
    DistinctPrefix(ids, CoveredCount(g, |ids|));
  }

  /** For every existing asset, is_asset_licensed agrees with the through-id the asset list shows. */
  lemma ThroughIdAgrees(g: Grant, ids: seq<int>, k: nat)
    requires Inventory(ids) && k < |ids|
    ensures IsAssetLicensed(g, ids, Some(ids[k])) <==>
            g.0 && (UsageOf(g, ids).licensedThroughId.None? || ids[k] <= UsageOf(g, ids).licensedThroughId.value)
  {
    PositionOfTheKth(ids, k);
  }

  /** A target that is not in the inventory is covered by an unlimited license only. */
  lemma UnknownTargetNeedsUnlimited(g: Grant, ids: seq<int>)
    ensures IsAssetLicensed(g, ids, None) <==> g.0 && g.1.None?
  {
  }

  // ---------- adding assets ----------

  /** Assets may be added exactly if the license covers them and all that are there, and none may without one. */
  lemma AddedAssetsAreCovered(g: Grant, used: nat, adding: int)
    ensures adding > 0 ==> (CapacityAllows(g, used, adding) <==> g.0 && CoveredCount(g, used + adding) == used + adding)
    ensures adding <= 0 ==> (CapacityAllows(g, used, adding) <==> g.0)
  {
  }

  ghost predicate HasRoom(g: Grant, used: nat) { forall adding: nat :: adding > 0 ==> CapacityAllows(g, used, adding) }

  /** The figures shown, by what they promise: room for how many more, whether for any number, and whether an
      asset is left out. The grant is one that `entitlement` gives. */
  lemma UsageTellsTheTruth(g: Grant, ids: seq<int>)
    requires Inventory(ids) && (!g.0 ==> g.1 == Some(0))
    ensures var u := UsageOf(g, ids);
            && u.used == |ids|
            && u.maxAssets == g.1
            && (u.unlimited <==> HasRoom(g, |ids|))
            && (u.remaining.None? <==> HasRoom(g, |ids|))
            && (u.remaining.Some? ==>
                  forall adding: nat :: adding > 0 ==>
                    (CapacityAllows(g, |ids|, adding) <==> adding <= u.remaining.value))
            && (u.overLimit <==> g.0 && exists k :: 0 <= k < |ids| && !IsAssetLicensed(g, ids, Some(ids[k])))
  {
    if g.0 && g.1.Some? {
      assert !CapacityAllows(g, |ids|, g.1.value + 1);
      if |ids| > g.1.value {
        PositionOfTheKth(ids, g.1.value);
      }
      forall k | 0 <= k < |ids| ensures IsAssetLicensed(g, ids, Some(ids[k])) <==> k < g.1.value {
        PositionOfTheKth(ids, k);
      }
    } else if !g.0 {
      assert !CapacityAllows(g, |ids|, 1);
    }
  }

  /** Under a valid license the three checks accept the same numbers; without one the first two accept nothing. */
  lemma ChecksAgree(g: Grant, used: nat, adding: nat)
    requires adding > 0
    ensures CapacityAllows(g, used, adding) <==> g.0 && FlushAllows(g, used, adding)
    ensures CapacityAllows(g, used, adding) <==>
            RemainingCapacity(g, used).None? || adding <= RemainingCapacity(g, used).value
  {
  }

  /** One flush of a session: what it inserts and deletes, under the grant in force then. */
  datatype Flush = Flush(g: Grant, inserted: nat, deleted: nat)

  /** The size of the inventory after a serial run of flushes; a refused flush changes nothing. */
  function Flushed(used: nat, run: seq<Flush>): nat
    decreases |run|
  {
    if run == [] then used
    else
      var f := run[0];
      var next := if FlushAllows(f.g, used, f.inserted) then Room(used + f.inserted, f.deleted) else used;
      Flushed(next, run[1..])
  }

  /** No serial run of flushes under valid licenses of at most `limit` assets takes the inventory past
      the limit; an inventory that is already past it does not grow. */
  lemma {:induction false} FlushesStayWithinTheLimit(used: nat, run: seq<Flush>, limit: nat)
    requires forall i :: 0 <= i < |run| ==> run[i].g.0 && run[i].g.1.Some? && run[i].g.1.value <= limit
    ensures Flushed(used, run) <= if used <= limit then limit else used
    decreases |run|
  {
    if run != [] {
      var f := run[0];
      var left := if FlushAllows(f.g, used, f.inserted) then Room(used + f.inserted, f.deleted) else used;
      FlushesStayWithinTheLimit(left, run[1..], limit);
    }
  }

  // ---------- with the license lifecycle ----------

  /** A smaller grant covers a subset. */
  lemma SmallerGrantCoversLess(a: Grant, b: Grant, ids: seq<int>)
    requires AtMost(a, b)
    ensures Covered(a, ids) <= Covered(b, ids)
  {
  }

  /** Over every run in which a worker gets no signed answer, the assets it covers later are among
      those it covers now, whatever else happens. */
  lemma CoverageOnlyShrinks(setup: Setup, s: System, events: seq<Event>, w: nat, now: int, later: int, ids: seq<int>)
    requires w < |s.nodes| && Quiet(setup, s, events, w) && now <= later
    requires !SetBack(s.nodes[w].proc.maxSeen, now) && !SetBack(s.nodes[w].proc.state.issuedAt, now)
    ensures Covered(Entitlement(Get(Run(setup, s, events).nodes[w].proc, later).0), ids) <=
            Covered(Entitlement(Get(s.nodes[w].proc, now).0), ids)
  {
    EntitlementOnlyShrinks(setup, s, events, w, now, later);
    SmallerGrantCoversLess(Entitlement(Get(Run(setup, s, events).nodes[w].proc, later).0),
                           Entitlement(Get(s.nodes[w].proc, now).0), ids);
  }
}
