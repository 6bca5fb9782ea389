/** Two lists of network zones made one (alembic/versions/e3b5d7f9a1c2_one_zone_list.py). */
module ZoneMerge {
  import opened Options
  import opened PyText

  const NAME_LENGTH := 100

  // ---------- the key of a name ----------

  /** str.lower and the filter [^a-z0-9], one character at a time: outside ASCII only the Kelvin sign and
      the dotted capital I leave a letter behind. */
  function KeyChar(c: char): string {
    if 'A' <= c <= 'Z' then [(c as int + 32) as char]
    else if 'a' <= c <= 'z' || '0' <= c <= '9' then [c]
    else if c == '\U{212a}' then "k"
    else if c == '\U{130}' then "i"
    else ""
  }

  function Letters(s: string): string { if s == "" then "" else KeyChar(s[0]) + Letters(s[1..]) }

  function Alias(key: string): string {
    if key == "internal" then "internalserverzone" else if key == "external" then "internetpublic" else key
  }

  function Key(name: string): string { Alias(Letters(name)) }

  function RoleKey(role: Option<string>): string { if role.None? then "" else Key(role.value) }

  /** The letters a to z and digits of a text. */
  function LettersAndDigits(s: string): string {
    if s == "" then ""
    else (if 'a' <= s[0] <= 'z' || '0' <= s[0] <= '9' then [s[0]] else "") + LettersAndDigits(s[1..])
  }

  /** On ASCII names the key is what is left of the name in lower case. */
  lemma {:induction false} LettersOfAscii(name: string)
    requires forall i :: 0 <= i < |name| ==> name[i] < '\U{80}'
    ensures Letters(name) == LettersAndDigits(AsciiLower(name))
  {
    if name != "" {
      LettersOfAscii(name[1..]);
      assert AsciiLower(name)[1..] == AsciiLower(name[1..]);
    }
  }

  /** But for two names, which stand for two others. */
  lemma KeyIsTheLetters(name: string)
    ensures Letters(name) != "internal" && Letters(name) != "external" ==> Key(name) == Letters(name)
    ensures Letters(name) == "internal" ==> Key(name) == "internalserverzone"
    ensures Letters(name) == "external" ==> Key(name) == "internetpublic"
    ensures Letters("\U{212a}") == "k" && Letters("\U{130}") == "i"
  {
    assert "\U{212a}"[1..] == "" && "\U{130}"[1..] == "";
  }

  /** The name a new zone gets. */
  function Short(name: string): string {
    if |Strip(name)| <= NAME_LENGTH then Strip(name) else Strip(name)[..NAME_LENGTH]
  }

  predicate Fits(name: string) { |Strip(name)| <= NAME_LENGTH }

  // ---------- the rows ----------

  /** A zone is named by its place in the list of risk_zones. */
  datatype Profile = Profile(zone: Option<nat>, changed: Option<int>, zoneIsDefault: bool)
  datatype Asset = Asset(role: Option<string>, changed: Option<int>, profile: Option<Profile>)
  datatype Db = Db(zones: seq<string>, network: Option<seq<string>>, assets: seq<Asset>)

  /** The zone rows and the dictionary from key to zone. */
  datatype Zones = Zones(names: seq<string>, index: map<string, nat>)

  function ZoneOf(a: Asset): Option<nat> { if a.profile.None? then None else a.profile.value.zone }

  predicate ZoneIn(a: Asset, zones: nat) { ZoneOf(a).Some? ==> ZoneOf(a).value < zones }

  ghost predicate Distinct(names: seq<string>) { forall i, j :: 0 <= i < j < |names| ==> names[i] != names[j] }

  ghost predicate Linked(assets: seq<Asset>, from: nat, zones: nat) {
    forall i :: from <= i < |assets| ==> ZoneIn(assets[i], zones)
  }

  /** The unique index on names, the foreign key of the profiles, and the width of network_zones.zone_name. */
  ghost predicate Valid(db: Db) {
    && Distinct(db.zones)
    && Linked(db.assets, 0, |db.zones|)
    && (db.network.Some? ==> forall n :: n in db.network.value ==> |n| <= NAME_LENGTH)
  }

  ghost predicate Sound(z: Zones) {
    && Distinct(z.names)
    && (forall k :: k in z.index ==> z.index[k] < |z.names|)
  }

  // ---------- what the migration computes ----------

  /** The first zone of a key counts. */
  function Index(names: seq<string>): (m: map<string, nat>)
    ensures forall k :: k in m ==> m[k] < |names| && Key(names[m[k]]) == k
    ensures forall i :: 0 <= i < |names| ==> Key(names[i]) in m && m[Key(names[i])] <= i
  {
    if names == [] then map[]
    else
      var n := |names| - 1;
      var m := Index(names[..n]);
      assert forall i :: 0 <= i < n ==> names[i] == names[..n][i];
      if Key(names[n]) in m then m else m[Key(names[n]) := n]
  }

  lemma IndexNext(names: seq<string>, i: nat)
    requires i < |names|
    ensures var m := Index(names[..i]);
            Index(names[..i + 1]) == if Key(names[i]) in m then m else m[Key(names[i]) := i]
  {
    assert names[..i + 1][..i] == names[..i];
  }

  /** More zones may be there, none is gone, renamed or found under another key. */
  ghost predicate Extends(z: Zones, r: Zones) {
    && z.names <= r.names
    && (forall k :: k in z.index ==> k in r.index && r.index[k] == z.index[k])
  }

  /** zone_for; None when the unique index refuses the new name. */
  function ZoneFor(z: Zones, name: string): (r: Option<Zones>)
    ensures Sound(z) && r.Some? ==> Sound(r.value) && Extends(z, r.value)
  {
    if Key(name) == "" || Key(name) in z.index then Some(z)
    else if Short(name) in z.names then None
    else Some(Zones(z.names + [Short(name)], z.index[Key(name) := |z.names|]))
  }

  function AddAll(z: Zones, names: seq<string>): (r: Option<Zones>)
    ensures Sound(z) && r.Some? ==> Sound(r.value) && Extends(z, r.value)
    decreases |names|
  {
    if names == [] then Some(z)
    else
      var z1 := ZoneFor(z, names[0]);
      if z1.None? then None else AddAll(z1.value, names[1..])
  }

  predicate RiskIsNewer(a: Asset) {
    && a.profile.Some? && a.profile.value.changed.Some?
    && (a.changed.None? || a.profile.value.changed.value >= a.changed.value)
  }

  /** The zone of the risk profile stays; otherwise the role decides. */
  predicate KeepsRiskZone(names: seq<string>, a: Asset)
    requires ZoneIn(a, |names|)
  {
    ZoneOf(a).Some? && (RoleKey(a.role) == "" || RoleKey(a.role) == Key(names[ZoneOf(a).value]) || RiskIsNewer(a))
  }

  function InZone(a: Asset, zone: nat, name: string, now: int): Asset {
    a.(role := Some(name),
       profile := Some(if a.profile.None? then Profile(Some(zone), Some(now), false)
                       else a.profile.value.(zone := Some(zone), zoneIsDefault := false)))
  }

  datatype Placing = Refused | Placed(zones: Zones, asset: Asset)

  function Place(z: Zones, a: Asset, now: int): (r: Placing)
    requires Sound(z) && ZoneIn(a, |z.names|)
    ensures r.Placed? ==> Sound(r.zones) && Extends(z, r.zones)
  {
    if KeepsRiskZone(z.names, a) then Placed(z, a.(role := Some(z.names[ZoneOf(a).value])))
    else if RoleKey(a.role) == "" then Placed(z, a)
    else
      var z1 := ZoneFor(z, a.role.value);
      if z1.None? then Refused
      else
        var zone := z1.value.index[RoleKey(a.role)];
        Placed(z1.value, InZone(a, zone, z1.value.names[zone], now))
  }

  datatype Placings = AllRefused | AllPlaced(zones: Zones, assets: seq<Asset>)

  /** The rows from the i-th on, each changed in its place. */
  function PlaceFrom(z: Zones, assets: seq<Asset>, i: nat, now: int): (r: Placings)
    requires i <= |assets| && Sound(z) && Linked(assets, i, |z.names|)
    ensures r.AllPlaced? ==> |r.assets| == |assets| && (forall j :: 0 <= j < i ==> r.assets[j] == assets[j])
    ensures r.AllPlaced? ==> Sound(r.zones) && Extends(z, r.zones)
    decreases |assets| - i
  {
    if i == |assets| then AllPlaced(z, assets)
    else
      var p := Place(z, assets[i], now);
      if p.Refused? then AllRefused
      else
        StillLinked(z, assets, i, p);
        PlaceFrom(p.zones, assets[i := p.asset], i + 1, now)
  }

  lemma StillLinked(z: Zones, assets: seq<Asset>, i: nat, p: Placing)
    requires i < |assets| && Linked(assets, i, |z.names|) && p.Placed? && Extends(z, p.zones)
    ensures Linked(assets[i := p.asset], i + 1, |p.zones.names|)
  {
  }

  /** The zones with those of the network list; None when the unique index refuses one. */
  function WithNetwork(db: Db): Option<Zones> {
    AddAll(Zones(db.zones, Index(db.zones)), if db.network.None? then [] else db.network.value)
  }

  /** First the network zones, then the assets. */
  function Merge(db: Db, now: int): (r: Placings)
    requires Valid(db)
    ensures r.AllPlaced? ==> |r.assets| == |db.assets|
  {
    var z := WithNetwork(db);
    if z.None? then AllRefused else PlaceFrom(z.value, db.assets, 0, now)
  }

  lemma NetworkFirst(db: Db, z: Zones, now: int)
    requires Valid(db) && WithNetwork(db) == Some(z)
    ensures Sound(z) && Linked(db.assets, 0, |z.names|) && Merge(db, now) == PlaceFrom(z, db.assets, 0, now)
  {
  }

  /** The whole migration; None when it fails and is rolled back. */
  function Upgraded(db: Db, now: int): Option<Db>
    requires Valid(db)
  {
    var r := Merge(db, now);
    if r.AllRefused? then None else Some(Db(r.zones.names, None, r.assets))
  }

  // ---------- the migration on the database ----------

  class Database {
    var zones: seq<string>
    var network: Option<seq<string>>
    var assets: seq<Asset>
    /** The dictionary the migration keeps while it runs. */
    var index: map<string, nat>

    function View(): Db
      reads this
    {
      Db(zones, network, assets)
    }

    function Known(): Zones
      reads this
    {
      Zones(zones, index)
    }

    method ReadZones()
      modifies this`index
      ensures index == Index(zones)
    {
      index := map[];
      for i := 0 to |zones|
        invariant index == Index(zones[..i])
      {
        IndexNext(zones, i);
        if Key(zones[i]) !in index {
          index := index[Key(zones[i]) := i];
        }
      }
      assert zones[..|zones|] == zones;
    }

    /** False when the insert is refused. */
    method FindOrAdd(name: string) returns (ok: bool)
      requires Sound(Known())
      modifies this`zones, this`index
      ensures ok <==> ZoneFor(old(Known()), name).Some?
      ensures ok ==> Known() == ZoneFor(old(Known()), name).value
    {
      var key := Key(name);
      if key == "" || key in index {
        return true;
      }
      if Short(name) in zones {
        return false;
      }
      index := index[key := |zones|];
      zones := zones + [Short(name)];
      return true;
    }

    method AddNetworkZones(names: seq<string>) returns (ok: bool)
      requires Sound(Known())
      modifies this`zones, this`index
      ensures ok <==> AddAll(old(Known()), names).Some?
      ensures ok ==> Known() == AddAll(old(Known()), names).value
    {
      assert names[0..] == names;
      for i := 0 to |names|
        invariant Sound(Known()) && AddAll(old(Known()), names) == AddAll(Known(), names[i..])
      {
        assert names[i..][0] == names[i] && names[i..][1..] == names[i + 1..];
        ok := FindOrAdd(names[i]);
        if !ok {
          return;
        }
      }
      ok := true;
    }

    method PlaceAsset(i: nat, now: int) returns (ok: bool)
      requires i < |assets| && Sound(Known()) && ZoneIn(assets[i], |zones|)
      modifies this`zones, this`index, this`assets
      ensures ok <==> Place(old(Known()), old(assets[i]), now).Placed?
      ensures ok ==> Known() == Place(old(Known()), old(assets[i]), now).zones
                     && assets == old(assets)[i := Place(old(Known()), old(assets[i]), now).asset]
    {
      var a := assets[i];
      var name;
      if KeepsRiskZone(zones, a) {
        name := zones[ZoneOf(a).value];
      } else {
        if RoleKey(a.role) == "" {
          return true;
        }
        ok := FindOrAdd(a.role.value);
        if !ok {
          return;
        }
        var zone := index[Key(a.role.value)];
        name := zones[zone];
        if a.profile.None? {
          assets := assets[i := assets[i].(profile := Some(Profile(Some(zone), Some(now), false)))];
        } else {
          var moved := a.profile.value.(zone := Some(zone), zoneIsDefault := false);
          assets := assets[i := assets[i].(profile := Some(moved))];
        }
      }
      if a.role != Some(name) {
        assets := assets[i := assets[i].(role := Some(name))];
      }
      ok := true;
    }

    method PlaceAssets(now: int) returns (ok: bool)
      requires Sound(Known()) && Linked(assets, 0, |zones|)
      modifies this`zones, this`index, this`assets
      ensures ok <==> PlaceFrom(old(Known()), old(assets), 0, now).AllPlaced?
      ensures ok ==> AllPlaced(Known(), assets) == PlaceFrom(old(Known()), old(assets), 0, now)
    {
      var n := |assets|;
      for i := 0 to n
        invariant |assets| == n && Sound(Known()) && Linked(assets, i, |zones|)
        invariant PlaceFrom(Known(), assets, i, now) == PlaceFrom(old(Known()), old(assets), 0, now)
      {
        ghost var p := Place(Known(), assets[i], now);
        if p.Placed? {
          StillLinked(Known(), assets, i, p);
        }
        ok := PlaceAsset(i, now);
        if !ok {
          return;
        }
      }
      ok := true;
    }

    method MergeNetwork() returns (ok: bool)
      requires Valid(View())
      modifies this`zones, this`index
      ensures ok <==> WithNetwork(old(View())).Some?
      ensures ok ==> Known() == WithNetwork(old(View())).value
    {
      ReadZones();
      ok := true;
      if network.Some? {
        ok := AddNetworkZones(network.value);
      }
    }

    /** A refused insert ends the migration and its transaction is rolled back. */
    method Upgrade(now: int) returns (ok: bool)
      requires Valid(View())
      modifies this
      ensures ok <==> Upgraded(old(View()), now).Some?
      ensures View() == if ok then Upgraded(old(View()), now).value else old(View())
    {
      var before := View();
      ok := MergeNetwork();
      if !ok {
        zones := before.zones;
        return;
      }
      NetworkFirst(before, Known(), now);
      ok := PlaceAssets(now);
      if !ok {
        zones, assets := before.zones, before.assets;
        return;
      }
      network := None;
    }
  }

  // ---------- what happened to one asset ----------

  /** The zones an asset was placed among. */
  lemma {:induction false} RowPlaced(z: Zones, assets: seq<Asset>, i: nat, now: int, j: nat) returns (before: Zones)
    requires i <= j < |assets| && Sound(z) && Linked(assets, i, |z.names|) && PlaceFrom(z, assets, i, now).AllPlaced?
    ensures Sound(before) && ZoneIn(assets[j], |before.names|) && Extends(z, before)
    ensures var r, p := PlaceFrom(z, assets, i, now), Place(before, assets[j], now);
            p.Placed? && Extends(p.zones, r.zones) && r.assets[j] == p.asset
    decreases |assets| - i
  {
    var p := Place(z, assets[i], now);
    StillLinked(z, assets, i, p);
    if i == j {
      before := z;
    } else {
      before := RowPlaced(p.zones, assets[i := p.asset], i + 1, now, j);
    }
  }

  /** The role says which zone: no risk zone is kept and the name has a key. */
  predicate TakesRole(a: Asset, names: seq<string>)
    requires ZoneIn(a, |names|)
  {
    !KeepsRiskZone(names, a) && RoleKey(a.role) != ""
  }

  /** Without a zone in either place. */
  predicate Nowhere(a: Asset) { ZoneOf(a).None? && RoleKey(a.role) == "" }

  /** In one zone, whose name is the role. */
  predicate AtRest(a: Asset, names: seq<string>) {
    if ZoneOf(a).None?
    then RoleKey(a.role) == ""
    else ZoneOf(a).value < |names| && a.role == Some(names[ZoneOf(a).value])
  }

  /** What placing does to one asset, in any state of the zones. */
  ghost predicate Settled(a: Asset, names: seq<string>, r: Asset, after: seq<string>, now: int)
    requires ZoneIn(a, |names|)
  {
    && AtRest(r, after) && r.changed == a.changed
    && (r == a || ZoneOf(r).Some?)
    && (ZoneOf(r).None? <==> Nowhere(a))
    && (KeepsRiskZone(names, a) ==> r.profile == a.profile)
    && (TakesRole(a, names) ==>
          && r.profile.Some?
          && !r.profile.value.zoneIsDefault
          && r.profile.value.changed == if a.profile.None? then Some(now) else a.profile.value.changed)
  }

  lemma PlaceSettles(z: Zones, a: Asset, now: int)
    requires Sound(z) && ZoneIn(a, |z.names|) && Place(z, a, now).Placed?
    ensures Settled(a, z.names, Place(z, a, now).asset, Place(z, a, now).zones.names, now)
  {
  }

  /** More zones, before or after, change nothing in that. */
  lemma StaysSettled(a: Asset, names: seq<string>, before: seq<string>, r: Asset, after: seq<string>, last: seq<string>,
                     now: int)
    requires ZoneIn(a, |names|) && names <= before && after <= last && Settled(a, before, r, after, now)
    ensures Settled(a, names, r, last, now)
  {
    if ZoneOf(a).Some? {
      assert names[ZoneOf(a).value] == before[ZoneOf(a).value];
    }
    if ZoneOf(r).Some? {
      assert after[ZoneOf(r).value] == last[ZoneOf(r).value];
    }
  }

  lemma AfterNetwork(db: Db, now: int) returns (z: Zones)
    requires Valid(db) && Merge(db, now).AllPlaced?
    ensures Sound(z) && db.zones <= z.names && Linked(db.assets, 0, |z.names|)
    ensures PlaceFrom(z, db.assets, 0, now) == Merge(db, now)
    ensures WithNetwork(db) == Some(z)
  {
    z := WithNetwork(db).value;
  }

  /** Every asset ends in exactly one zone whose name is its role, or is left alone without any; the zone is
      the risk profile's unless the role names another and is the newer of the two. */
  lemma EveryAssetIsPlaced(db: Db, now: int, i: nat)
    requires Valid(db) && Upgraded(db, now).Some? && i < |db.assets|
    ensures ZoneIn(db.assets[i], |db.zones|) && i < |Upgraded(db, now).value.assets|
    ensures Settled(db.assets[i], db.zones, Upgraded(db, now).value.assets[i], Upgraded(db, now).value.zones, now)
  {
    var z := AfterNetwork(db, now);
    var before := RowPlaced(z, db.assets, 0, now, i);
    var p := Place(before, db.assets[i], now);
    PlaceSettles(before, db.assets[i], now);
    StaysSettled(db.assets[i], db.zones, before.names, p.asset, p.zones.names, Merge(db, now).zones.names, now);
  }

  /** The result is a sound database again: names unique, every profile's zone there, and no zone lost. */
  lemma UpgradeIsSound(db: Db, now: int)
    requires Valid(db) && Upgraded(db, now).Some?
    ensures Valid(Upgraded(db, now).value) && db.zones <= Upgraded(db, now).value.zones
    ensures Upgraded(db, now).value.network.None?
  {
    var z := AfterNetwork(db, now);
    var r := Upgraded(db, now).value;
    forall i | 0 <= i < |r.assets| ensures ZoneIn(r.assets[i], |r.zones|) {
      EveryAssetIsPlaced(db, now, i);
    }
  }

  // ---------- a second run ----------

  lemma {:induction false} NothingToPlace(z: Zones, assets: seq<Asset>, i: nat, now: int)
    requires i <= |assets| && Sound(z) && Linked(assets, i, |z.names|)
    requires forall j :: i <= j < |assets| ==> AtRest(assets[j], z.names)
    ensures PlaceFrom(z, assets, i, now) == AllPlaced(z, assets)
    decreases |assets| - i
  {
    if i < |assets| {
      var p := Place(z, assets[i], now);
      assert p == Placed(z, assets[i]);
      assert assets[i := assets[i]] == assets;
      StillLinked(z, assets, i, p);
      NothingToPlace(z, assets, i + 1, now);
    }
  }

  lemma RestingIsKept(db: Db, later: int)
    requires Valid(db) && db.network.None? && forall i :: 0 <= i < |db.assets| ==> AtRest(db.assets[i], db.zones)
    ensures Upgraded(db, later) == Some(db)
  {
    NothingToPlace(Zones(db.zones, Index(db.zones)), db.assets, 0, later);
  }

  /** A second run changes nothing, whenever it is. */
  lemma SecondRunChangesNothing(db: Db, now: int, later: int)
    requires Valid(db) && Upgraded(db, now).Some?
    ensures Valid(Upgraded(db, now).value)
    ensures Upgraded(Upgraded(db, now).value, later) == Upgraded(db, now)
  {
    UpgradeIsSound(db, now);
    var r := Upgraded(db, now).value;
    forall i | 0 <= i < |r.assets| ensures AtRest(r.assets[i], r.zones) {
      EveryAssetIsPlaced(db, now, i);
    }
    RestingIsKept(r, later);
  }

  lemma RoleDecides(z: Zones, a: Asset, now: int)
    requires Sound(z) && ZoneIn(a, |z.names|) && TakesRole(a, z.names) && Place(z, a, now).Placed?
    ensures RoleKey(a.role) in Place(z, a, now).zones.index
    ensures ZoneOf(Place(z, a, now).asset) == Some(Place(z, a, now).zones.index[RoleKey(a.role)])
  {
  }

  lemma RowByRole(db: Db, now: int, i: nat)
    requires Valid(db) && Merge(db, now).AllPlaced? && i < |db.assets|
    requires ZoneIn(db.assets[i], |db.zones|) && TakesRole(db.assets[i], db.zones)
    ensures var r := Merge(db, now);
            RoleKey(db.assets[i].role) in r.zones.index &&
              ZoneOf(r.assets[i]) == Some(r.zones.index[RoleKey(db.assets[i].role)])
  {
    var z := AfterNetwork(db, now);
    var before := RowPlaced(z, db.assets, 0, now, i);
    if ZoneOf(db.assets[i]).Some? {
      assert db.zones[ZoneOf(db.assets[i]).value] == before.names[ZoneOf(db.assets[i]).value];
    }
    RoleDecides(before, db.assets[i], now);
  }

  /** Roles that are one name to the key share a zone. */
  lemma SameKeySameZone(db: Db, now: int, i: nat, j: nat)
    requires Valid(db) && Merge(db, now).AllPlaced? && i < |db.assets| && j < |db.assets|
    requires ZoneIn(db.assets[i], |db.zones|) && TakesRole(db.assets[i], db.zones)
    requires ZoneIn(db.assets[j], |db.zones|) && TakesRole(db.assets[j], db.zones)
    requires RoleKey(db.assets[i].role) == RoleKey(db.assets[j].role)
    ensures ZoneOf(Merge(db, now).assets[i]) == ZoneOf(Merge(db, now).assets[j])
  {
    RowByRole(db, now, i);
    RowByRole(db, now, j);
  }
}
