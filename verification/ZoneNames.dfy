/** With names that fit the column, one zone per key: what the zone merge does to the names. */
module ZoneNames {
  import opened Options
  import opened PyText
  import opened ZoneMerge
  import opened ZoneInsertion

  // ---------- a new zone has the key it was made for ----------

  lemma {:induction false} LettersConcat(a: string, b: string)
    ensures Letters(a + b) == Letters(a) + Letters(b)
  {
    if a == "" {
      assert a + b == b;
    } else {
      assert (a + b)[0] == a[0] && (a + b)[1..] == a[1..] + b;
      LettersConcat(a[1..], b);
    }
  }

  lemma {:induction false} NoLettersInSpace(s: string)
    requires forall i :: 0 <= i < |s| ==> IsSpace(s[i])
    ensures Letters(s) == ""
  {
    if s != "" {
      assert IsSpace(s[0]) && KeyChar(s[0]) == "";
      NoLettersInSpace(s[1..]);
    }
  }

  lemma SpaceInFront(s: string, k: nat)
    requires k <= |s| && forall i :: 0 <= i < k ==> IsSpace(s[i])
    ensures Letters(s[k..]) == Letters(s)
  {
    assert s == s[..k] + s[k..];
    LettersConcat(s[..k], s[k..]);
    NoLettersInSpace(s[..k]);
  }

  lemma SpaceBehind(s: string, k: nat)
    requires k <= |s| && forall i :: k <= i < |s| ==> IsSpace(s[i])
    ensures Letters(s[..k]) == Letters(s)
  {
    assert s == s[..k] + s[k..];
    LettersConcat(s[..k], s[k..]);
    NoLettersInSpace(s[k..]);
  }

  lemma StripKeepsKey(name: string)
    ensures Key(Strip(name)) == Key(name)
  {
    SpaceInFront(name, |name| - |LStrip(name)|);
    SpaceBehind(LStrip(name), |Strip(name)|);
  }

  /** A name that fits keeps its key when it is written. */
  lemma FittingNameKeepsKey(name: string)
    requires Fits(name)
    ensures Key(Short(name)) == Key(name)
  {
    StripKeepsKey(name);
  }

  // ---------- the migration as one list of names ----------

  lemma {:induction false} AddAllAppend(z: Zones, a: seq<string>, b: seq<string>)
    ensures AddAll(z, a + b) == if AddAll(z, a).None? then None else AddAll(AddAll(z, a).value, b)
    decreases |a|
  {
    if a == [] {
      assert a + b == b;
    } else {
      assert (a + b)[0] == a[0] && (a + b)[1..] == a[1..] + b;
      if ZoneFor(z, a[0]).Some? {
        AddAllAppend(ZoneFor(z, a[0]).value, a[1..], b);
      }
    }
  }

  /** The roles of the assets that take their zone from it; only stored zones decide that. */
  function RolesTaken(zones: seq<string>, assets: seq<Asset>): seq<string>
    requires Linked(assets, 0, |zones|)
  {
    if assets == [] then []
    else
      assert forall i :: 0 <= i < |assets| - 1 ==> assets[1..][i] == assets[i + 1];
      (if TakesRole(assets[0], zones) then [assets[0].role.value] else []) + RolesTaken(zones, assets[1..])
  }

  lemma StillTakes(zones: seq<string>, names: seq<string>, a: Asset)
    requires zones <= names && ZoneIn(a, |zones|)
    ensures TakesRole(a, names) <==> TakesRole(a, zones)
  {
    if ZoneOf(a).Some? {
      assert names[ZoneOf(a).value] == zones[ZoneOf(a).value];
    }
  }

  lemma PlaceAddsTheRole(z: Zones, a: Asset, now: int)
    requires Sound(z) && ZoneIn(a, |z.names|)
    ensures if TakesRole(a, z.names) then (Place(z, a, now).Placed? <==> ZoneFor(z, a.role.value).Some?)
                                          && (Place(z, a, now).Placed? ==>
                                            Place(z, a, now).zones == ZoneFor(z, a.role.value).value)
            else Place(z, a, now).Placed? && Place(z, a, now).zones == z
  {
  }

  lemma {:induction false} PlaceFromAddsTheRoles(z: Zones, assets: seq<Asset>, i: nat, now: int, zones: seq<string>)
    requires i <= |assets| && Sound(z) && zones <= z.names && Linked(assets, i, |zones|)
    requires Linked(assets[i..], 0, |zones|)
    requires Linked(assets, i, |z.names|)
    ensures var r, added := PlaceFrom(z, assets, i, now), AddAll(z, RolesTaken(zones, assets[i..]));
            (r.AllPlaced? <==> added.Some?) && (r.AllPlaced? ==> r.zones == added.value)
    decreases |assets| - i
  {
    if i < |assets| {
      var a, rows := assets[i], assets[i..];
      assert rows[0] == a && rows[1..] == assets[i + 1..];
      StillTakes(zones, z.names, a);
      PlaceAddsTheRole(z, a, now);
      var roles := RolesTaken(zones, assets[i + 1..]);
      if TakesRole(a, zones) {
        assert ([a.role.value] + roles)[1..] == roles;
      } else {
        assert [] + roles == roles;
      }
      var p := Place(z, a, now);
      if p.Placed? {
        StillLinked(z, assets, i, p);
        assert assets[i := p.asset][i + 1..] == assets[i + 1..];
        PlaceFromAddsTheRoles(p.zones, assets[i := p.asset], i + 1, now, zones);
      }
    }
  }

  function NetworkNames(db: Db): seq<string> { if db.network.None? then [] else db.network.value }

  /** All names the migration looks up, in its order. */
  function Wanted(db: Db): seq<string>
    requires Valid(db)
  {
    NetworkNames(db) + RolesTaken(db.zones, db.assets)
  }

  /** Those it makes zones for. */
  function Inserted(db: Db): seq<Item>
    requires Valid(db)
  {
    New(Index(db.zones).Keys, Tags(Wanted(db)))
  }

  lemma MergeAddsTheWanted(db: Db, now: int)
    requires Valid(db)
    ensures var r, added := Merge(db, now), AddItems(Zones(db.zones, Index(db.zones)), Tags(Wanted(db)));
            (r.AllPlaced? <==> added.Some?) && (r.AllPlaced? ==> r.zones == added.value)
  {
    var z0, roles := Zones(db.zones, Index(db.zones)), RolesTaken(db.zones, db.assets);
    AddAllByItems(z0, Wanted(db));
    AddAllAppend(z0, NetworkNames(db), roles);
    if AddAll(z0, NetworkNames(db)).Some? {
      assert db.assets[0..] == db.assets;
      PlaceFromAddsTheRoles(AddAll(z0, NetworkNames(db)).value, db.assets, 0, now, db.zones);
    }
  }

  /** The migration succeeds exactly if the names it inserts, as they are written, differ from those stored and
      from each other; then these are the zones it adds. */
  lemma UpgradeSucceedsIff(db: Db, now: int)
    requires Valid(db)
    ensures Upgraded(db, now).Some? <==> Distinct(db.zones + Shorts(Inserted(db)))
    ensures Upgraded(db, now).Some? ==> Upgraded(db, now).value.zones == db.zones + Shorts(Inserted(db))
  {
    MergeAddsTheWanted(db, now);
    AddItemsIff(Zones(db.zones, Index(db.zones)), Tags(Wanted(db)));
  }

  predicate RoleFits(a: Asset) { a.role.Some? ==> Fits(a.role.value) }

  lemma {:induction false} TakenFit(zones: seq<string>, assets: seq<Asset>)
    requires Linked(assets, 0, |zones|) && forall i :: 0 <= i < |assets| ==> RoleFits(assets[i])
    ensures forall i :: 0 <= i < |RolesTaken(zones, assets)| ==> Fits(RolesTaken(zones, assets)[i])
  {
    if assets != [] {
      assert forall i :: 0 <= i < |assets| - 1 ==> assets[1..][i] == assets[i + 1];
      TakenFit(zones, assets[1..]);
    }
  }

  lemma ShortNamesFit(name: string)
    requires |name| <= NAME_LENGTH
    ensures Fits(name)
  {
  }

  /** What is inserted was wanted. */
  lemma InsertedIsWanted(db: Db, i: nat)
    requires Valid(db) && i < |Inserted(db)|
    ensures Inserted(db)[i] == Tag(Inserted(db)[i].name) && Inserted(db)[i].name in Wanted(db)
  {
    var n := NewIsTagged(Index(db.zones).Keys, Wanted(db), i);
  }

  /** Roles that fit are never refused, and each new zone has the key it was made for. */
  lemma FittingNamesNeverFail(db: Db, now: int)
    requires Valid(db) && forall i :: 0 <= i < |db.assets| ==> RoleFits(db.assets[i])
    ensures Upgraded(db, now).Some?
    ensures forall i :: 0 <= i < |Inserted(db)| ==> Inserted(db)[i].shortKey == Inserted(db)[i].key
  {
    var items := Inserted(db);
    TakenFit(db.zones, db.assets);
    forall i | 0 <= i < |items| ensures items[i].shortKey == items[i].key == Key(items[i].short) {
      InsertedIsWanted(db, i);
      var n := items[i].name;
      if n in NetworkNames(db) {
        ShortNamesFit(n);
      }
      FittingNameKeepsKey(n);
    }
    NewIsNew(Index(db.zones).Keys, Tags(Wanted(db)));
    UpgradeSucceedsIff(db, now);
    DistinctByKey(Key, db.zones, items, Index(db.zones).Keys);
  }

  // ---------- one zone per network zone ----------

  function KeysOf(names: seq<string>): (r: seq<string>)
    ensures |r| == |names| && forall i :: 0 <= i < |r| ==> r[i] == Key(names[i])
  {
    Keys(Key, names)
  }

  lemma StoredKeys(zones: seq<string>, key: string)
    ensures key in Index(zones) <==> key in KeysOf(zones)
  {
    if key in Index(zones) {
      assert KeysOf(zones)[Index(zones)[key]] == key;
    }
    if key in KeysOf(zones) {
      var i :| 0 <= i < |KeysOf(zones)| && KeysOf(zones)[i] == key;
      assert Key(zones[i]) in Index(zones);
    }
  }

  lemma NewZonesKeys(db: Db, now: int)
    requires Valid(db) && Upgraded(db, now).Some?
    ensures KeysOf(Upgraded(db, now).value.zones) == KeysOf(db.zones) + ShortKeys(Inserted(db))
  {
    UpgradeSucceedsIff(db, now);
    forall i | 0 <= i < |Inserted(db)| ensures Inserted(db)[i].shortKey == Key(Inserted(db)[i].short) {
      InsertedIsWanted(db, i);
    }
    KeysAfter(Key, db.zones, Inserted(db));
  }

  /** A network zone with a new key is the name its zone is made for, and keeps the key. */
  lemma NetworkZoneKeepsKey(db: Db, i: nat) returns (j: nat)
    requires Valid(db) && i < |NetworkNames(db)| && Key(NetworkNames(db)[i]) != ""
    requires Key(NetworkNames(db)[i]) !in Index(db.zones)
    ensures j < |Inserted(db)| && Inserted(db)[j].key == Key(NetworkNames(db)[i]) == Inserted(db)[j].shortKey
  {
    var known, network := Index(db.zones).Keys, Tags(NetworkNames(db));
    j := NewHasKey(known, network, i);
    var n := NewIsTagged(known, NetworkNames(db), j);
    TagsAppend(NetworkNames(db), RolesTaken(db.zones, db.assets));
    NewAppend(known, network, Tags(RolesTaken(db.zones, db.assets)));
    ShortNamesFit(n);
    FittingNameKeepsKey(n);
  }

  /** Every network zone whose name has a key is there afterwards, exactly one zone with that key if none had it
      before and the same ones otherwise, exactly if no name with another key is cut to one with that key. */
  lemma EveryNetworkZoneIsThereOnceIff(db: Db, now: int, i: nat)
    requires Valid(db) && Upgraded(db, now).Some? && i < |NetworkNames(db)| && Key(NetworkNames(db)[i]) != ""
    ensures OnceOrAsBefore(KeysOf(db.zones), KeysOf(Upgraded(db, now).value.zones), Key(NetworkNames(db)[i])) <==>
            !CutTo(Inserted(db), Key(NetworkNames(db)[i]))
  {
    var key := Key(NetworkNames(db)[i]);
    NewZonesKeys(db, now);
    StoredKeys(db.zones, key);
    NewIsNew(Index(db.zones).Keys, Tags(Wanted(db)));
    if key in Index(db.zones) {
      StoredKeyIff(KeysOf(db.zones), Inserted(db), key);
    } else {
      var j := NetworkZoneKeepsKey(db, i);
      NewKeyIff(KeysOf(db.zones), Inserted(db), key, j);
    }
  }

  // ---------- the zone of an asset ----------

  lemma ItemFor(db: Db, j: nat)
    requires Valid(db) && j < |Inserted(db)|
    ensures Kept(Inserted(db), Inserted(db)[j].key) <==> Inserted(db)[j].shortKey == Inserted(db)[j].key
    ensures Inserted(db)[j].shortKey == Key(Inserted(db)[j].short)
  {
    NewIsNew(Index(db.zones).Keys, Tags(Wanted(db)));
    KeptByItsItem(Index(db.zones).Keys, Inserted(db), j);
    InsertedIsWanted(db, j);
  }

  lemma StoredIsKept(db: Db, key: string)
    requires Valid(db) && key in Index(db.zones)
    ensures Kept(Inserted(db), key)
  {
    NewIsNew(Index(db.zones).Keys, Tags(Wanted(db)));
    KnownIsKept(Index(db.zones).Keys, Inserted(db), key);
  }

  /** Where a key is found after the migration. */
  lemma FoundAfter(db: Db, now: int, key: string) returns (j: nat)
    requires Valid(db) && Merge(db, now).AllPlaced? && key in Merge(db, now).zones.index
    ensures var z := Merge(db, now).zones;
            z.index[key] < |z.names| &&
            if key in Index(db.zones) then z.names[z.index[key]] == db.zones[Index(db.zones)[key]]
            else j < |Inserted(db)| && Inserted(db)[j].key == key && z.names[z.index[key]] == Inserted(db)[j].short
  {
    var z0 := Zones(db.zones, Index(db.zones));
    MergeAddsTheWanted(db, now);
    AddItemsIff(z0, Tags(Wanted(db)));
    j := FoundAt(z0, Tags(Wanted(db)), key);
  }

  /** The zone found under a key after the migration has that key, unless it was made under a cut name. */
  lemma FoundUnder(db: Db, now: int, key: string)
    requires Valid(db) && Merge(db, now).AllPlaced? && key in Merge(db, now).zones.index
    ensures var z := Merge(db, now).zones;
            z.index[key] < |z.names| && (Key(z.names[z.index[key]]) == key <==> Kept(Inserted(db), key))
  {
    var j := FoundAfter(db, now, key);
    if key in Index(db.zones) {
      StoredIsKept(db, key);
    } else {
      ItemFor(db, j);
    }
  }

  /** The asset has a zone, and its risk profile was changed no earlier than the asset. */
  predicate ProfileIsNewer(a: Asset) {
    match ZoneOf(a)
    case None => false
    case Some(_) =>
      match (a.profile.value.changed, a.changed)
      case (None, _) => false
      case (Some(_), None) => true
      case (Some(profile), Some(asset)) => profile >= asset
  }

  /** Of two conflicting zones the one changed last stays: the profile's, if it has a time and the asset has no
      later one. Otherwise nothing typed in is lost, and the asset ends in a zone of the very key of its role,
      exactly if the zone was there, or made under a name that keeps the key. */
  lemma TheNewerZoneStaysIff(db: Db, now: int, i: nat)
    requires Valid(db) && Upgraded(db, now).Some? && i < |db.assets| && RoleKey(db.assets[i].role) != ""
    ensures |Upgraded(db, now).value.assets| == |db.assets| && ZoneIn(db.assets[i], |db.zones|)
    ensures var a, r := db.assets[i], Upgraded(db, now).value;
            var after, key := r.assets[i], RoleKey(a.role);
            && AtRest(after, r.zones) && ZoneOf(after).Some?
            && (if ZoneOf(a).Some? && Key(db.zones[ZoneOf(a).value]) == key
                then ZoneOf(after) == ZoneOf(a) && RoleKey(after.role) == key
                else if ProfileIsNewer(a) then after.profile == a.profile
                else RoleKey(after.role) == key <==> Kept(Inserted(db), key))
  {
    EveryAssetIsPlaced(db, now, i);
    UpgradeIsSound(db, now);
    var a, r := db.assets[i], Upgraded(db, now).value;
    if TakesRole(a, db.zones) {
      RowByRole(db, now, i);
      FoundUnder(db, now, RoleKey(a.role));
    } else {
      assert r.zones[ZoneOf(a).value] == db.zones[ZoneOf(a).value];
    }
  }

  // ---------- names that do not fit ----------

  /** A database that holds nothing but these network zones, and assets with nothing but these roles. */
  function Small(network: seq<string>, roles: seq<string>): Db {
    Db([], Some(network), seq(|roles|, i requires 0 <= i < |roles| => Asset(Some(roles[i]), None, None)))
  }

  lemma SmallWants(network: seq<string>, roles: seq<string>)
    requires (forall n :: n in network ==> |n| <= NAME_LENGTH) && (forall i :: 0 <= i < |roles| ==> Key(roles[i]) != "")
    ensures Valid(Small(network, roles)) && Wanted(Small(network, roles)) == network + roles
    ensures Index(Small(network, roles).zones).Keys == {}
  {
    AllTaken(roles, Small(network, roles).assets);
  }

  lemma SmallInserts(network: seq<string>, roles: seq<string>)
    requires (forall n :: n in network ==> |n| <= NAME_LENGTH) && (forall i :: 0 <= i < |roles| ==> Key(roles[i]) != "")
    requires AllNew({}, Tags(network + roles))
    ensures Valid(Small(network, roles)) && Inserted(Small(network, roles)) == Tags(network + roles)
  {
    SmallWants(network, roles);
    AllNewAreNew({}, Tags(network + roles));
  }

  lemma {:induction false} AllTaken(roles: seq<string>, assets: seq<Asset>)
    requires |assets| == |roles|
    requires forall i :: 0 <= i < |roles| ==> Key(roles[i]) != "" && assets[i] == Asset(Some(roles[i]), None, None)
    ensures Linked(assets, 0, 0) && RolesTaken([], assets) == roles
  {
    if roles != [] {
      AllTaken(roles[1..], assets[1..]);
      assert TakesRole(assets[0], []);
      assert [roles[0]] + roles[1..] == roles;
    }
  }

  lemma TwoTags(a: string, b: string)
    ensures Tags([a, b]) == [Tag(a), Tag(b)]
  {
    assert [a, b][1..] == [b];
  }

  lemma TwoNames(a: string, b: string)
    requires Key(a) != "" && Key(b) != "" && Key(a) != Key(b)
    ensures AllNew({}, Tags([a, b])) && Tags([a, b]) == [Tag(a), Tag(b)]
    ensures [] + Shorts([Tag(a), Tag(b)]) == [Short(a), Short(b)]
  {
    TwoTags(a, b);
    TwoNew(Tag(a), Tag(b));
  }

  lemma Twice(x: string)
    ensures !Distinct([x, x])
  {
    assert [x, x][0] == [x, x][1];
  }

  /** Two roles with different keys but the same name to be written: the unique index refuses the second and
      the migration fails. */
  lemma SameShortNameFails(a: string, b: string, now: int)
    requires Key(a) != "" && Key(b) != "" && Key(a) != Key(b) && Short(a) == Short(b)
    ensures Valid(Small([], [a, b])) && Upgraded(Small([], [a, b]), now).None?
  {
    assert [] + [a, b] == [a, b];
    TwoNames(a, b);
    SmallInserts([], [a, b]);
    UpgradeSucceedsIff(Small([], [a, b]), now);
    Twice(Short(a));
  }

  lemma TwoDiffer(x: string, y: string)
    requires x != y
    ensures Distinct([x, y])
  {
  }

  lemma CutRoleIsWritten(name: string, role: string, now: int)
    requires |name| <= NAME_LENGTH && Short(name) == name && Key(name) != "" && Key(role) != ""
    requires Key(role) != Key(name)
    requires Short(role) != name
    ensures var db := Small([name], [role]);
            Valid(db) && Inserted(db) == [Tag(name), Tag(role)] && Upgraded(db, now).Some?
            && Upgraded(db, now).value.zones == [name, Short(role)] && RoleKey(db.assets[0].role) == Key(role)
  {
    assert [name] + [role] == [name, role];
    TwoNames(name, role);
    SmallInserts([name], [role]);
    TwoDiffer(name, Short(role));
    UpgradeSucceedsIff(Small([name], [role]), now);
  }

  /** A role that is cut to a name with the key of a network zone: the migration succeeds with two zones of
      that key, and the asset's zone no longer has the key of its role. */
  lemma CutRoleTakesAKey(name: string, role: string, now: int)
    requires |name| <= NAME_LENGTH && Short(name) == name && Key(name) != "" && Key(role) != ""
    requires Key(role) != Key(name)
    requires Short(role) != name && Key(Short(role)) == Key(name)
    ensures var db := Small([name], [role]);
            && Valid(db) && Upgraded(db, now).Some?
            && Upgraded(db, now).value.zones == [name, Short(role)]
            && !OnceOrAsBefore(KeysOf(db.zones), KeysOf([name, Short(role)]), Key(name))
            && |Upgraded(db, now).value.assets| == 1
            && RoleKey(Upgraded(db, now).value.assets[0].role) != Key(role)
  {
    var db := Small([name], [role]);
    CutRoleIsWritten(name, role, now);
    assert CutTo(Inserted(db), Key(name)) by {
      assert Inserted(db)[1].shortKey == Key(name);
    }
    EveryNetworkZoneIsThereOnceIff(db, now, 0);
    assert !Kept(Inserted(db), Key(role)) by {
      assert Inserted(db)[1].key == Key(role) != Inserted(db)[1].shortKey;
    }
    TheNewerZoneStaysIff(db, now, 0);
  }

  predicate Plain(s: string) { forall i :: 0 <= i < |s| ==> 'a' <= s[i] <= 'z' }

  lemma {:induction false} PlainNamesAreTheirLetters(s: string)
    requires Plain(s)
    ensures Letters(s) == s
  {
    if s != "" {
      PlainNamesAreTheirLetters(s[1..]);
      assert KeyChar(s[0]) == [s[0]] && [s[0]] + s[1..] == s;
    }
  }

  lemma NothingToStrip(s: string)
    requires s != "" && !IsSpace(s[0]) && !IsSpace(s[|s| - 1])
    ensures Strip(s) == s
  {
    assert LStrip(s) == s[0..] == s;
    assert RStrip(s) == s[..|s|] == s;
  }

  lemma LongLetters(name: string, letters: string)
    requires Letters(name) == letters && |letters| > 8
    ensures Key(name) == letters
  {
  }

  lemma ShortOf(name: string)
    requires Strip(name) == name
    ensures Short(name) == if |name| <= NAME_LENGTH then name else name[..NAME_LENGTH]
  {
  }

  lemma PlainLongName(s: string)
    requires Plain(s) && |s| > 8
    ensures Key(s) == s && Short(s) == if |s| <= NAME_LENGTH then s else s[..NAME_LENGTH]
  {
    PlainNamesAreTheirLetters(s);
    LongLetters(s, s);
    NothingToStrip(s);
    ShortOf(s);
  }

  /** As do two roles that differ only beyond the hundredth character. */
  lemma LongRolesFail(a: string, b: string, now: int)
    requires Plain(a) && Plain(b) && |a| > NAME_LENGTH && |b| > NAME_LENGTH && a != b
    requires a[..NAME_LENGTH] == b[..NAME_LENGTH]
    ensures Valid(Small([], [a, b])) && Upgraded(Small([], [a, b]), now).None?
  {
    PlainLongName(a);
    PlainLongName(b);
    SameShortNameFails(a, b, now);
  }

  /** A name behind a dash has its key. */
  lemma DashedName(name: string, dashed: string)
    requires Plain(name) && |name| > 8 && dashed == "-" + name
    ensures Key(dashed) == name && Short(dashed) == if |dashed| <= NAME_LENGTH then dashed else dashed[..NAME_LENGTH]
  {
    PlainNamesAreTheirLetters(name);
    LettersConcat("-", name);
    assert Letters("-") == "";
    LongLetters(dashed, name);
    NothingToStrip(dashed);
    ShortOf(dashed);
  }

  /** As for a role of a hundred and one characters or more: a dash, 99 letters that name a network zone, and at
      least one letter more. */
  lemma LongRoleTakesAKey(name: string, longer: string, now: int)
    requires Plain(name) && Plain(longer) && |name| == NAME_LENGTH - 1 && name < longer
    ensures Upgraded(Small([name], ["-" + longer]), now).Some?
    ensures Upgraded(Small([name], ["-" + longer]), now).value.zones == [name, "-" + name]
  {
    PlainLongName(name);
    DashedName(name, "-" + name);
    DashedName(longer, "-" + longer);
    assert ("-" + longer)[..NAME_LENGTH] == "-" + name;
    CutRoleTakesAKey(name, "-" + longer, now);
  }
}
