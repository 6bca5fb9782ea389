/** Which names of the zone merge become zones, and under what they are found: on names tagged with their keys. */
module ZoneInsertion {
  import opened Options
  import opened PyText
  import opened ZoneMerge

  /** A name, its key, the name a zone made for it gets, and that name's key. */
  datatype Item = Item(name: string, key: string, short: string, shortKey: string)

  function Tag(name: string): Item { Item(name, Key(name), Short(name), Key(Short(name))) }

  function Tags(names: seq<string>): (r: seq<Item>)
    ensures |r| == |names| && forall i :: 0 <= i < |r| ==> r[i] == Tag(names[i])
  {
    if names == [] then [] else [Tag(names[0])] + Tags(names[1..])
  }

  lemma {:induction false} TagsAppend(a: seq<string>, b: seq<string>)
    ensures Tags(a + b) == Tags(a) + Tags(b)
  {
    if a == [] {
      assert a + b == b;
    } else {
      assert (a + b)[0] == a[0] && (a + b)[1..] == a[1..] + b;
      TagsAppend(a[1..], b);
      assert Tags(a + b) == [Tag(a[0])] + (Tags(a[1..]) + Tags(b));
    }
  }

  /** zone_for on a tagged name. */
  function FindOrAddItem(z: Zones, x: Item): (r: Option<Zones>)
    ensures Sound(z) && r.Some? ==> Sound(r.value)
  {
    if x.key == "" || x.key in z.index then Some(z)
    else if x.short in z.names then None
    else Some(Zones(z.names + [x.short], z.index[x.key := |z.names|]))
  }

  function AddItems(z: Zones, items: seq<Item>): (r: Option<Zones>)
    decreases |items|
  {
    if items == [] then Some(z)
    else
      var z1 := FindOrAddItem(z, items[0]);
      if z1.None? then None else AddItems(z1.value, items[1..])
  }

  lemma {:induction false} AddAllByItems(z: Zones, names: seq<string>)
    ensures AddAll(z, names) == AddItems(z, Tags(names))
    decreases |names|
  {
    if names != [] {
      assert ZoneFor(z, names[0]) == FindOrAddItem(z, Tag(names[0]));
      if ZoneFor(z, names[0]).Some? {
        AddAllByItems(ZoneFor(z, names[0]).value, names[1..]);
      }
      assert Tags(names)[1..] == Tags(names[1..]);
    }
  }

  /** The items that start a new zone: the first of each key that is not known. */
  function New(known: set<string>, items: seq<Item>): seq<Item>
    decreases |items|
  {
    if items == [] then []
    else if items[0].key == "" || items[0].key in known then New(known, items[1..])
    else [items[0]] + New(known + {items[0].key}, items[1..])
  }

  function Shorts(items: seq<Item>): (r: seq<string>)
    ensures |r| == |items| && forall i :: 0 <= i < |r| ==> r[i] == items[i].short
  {
    if items == [] then [] else [items[0].short] + Shorts(items[1..])
  }

  function ShortKeys(items: seq<Item>): (r: seq<string>)
    ensures |r| == |items| && forall i :: 0 <= i < |r| ==> r[i] == items[i].shortKey
  {
    if items == [] then [] else [items[0].shortKey] + ShortKeys(items[1..])
  }

  /** All new: of keys that are neither empty, nor known, nor repeated. */
  predicate AllNew(known: set<string>, items: seq<Item>) {
    && (forall i :: 0 <= i < |items| ==> items[i].key != "" && items[i].key !in known)
    && (forall i, j :: 0 <= i < j < |items| ==> items[i].key != items[j].key)
  }

  lemma {:induction false} NewIsNew(known: set<string>, items: seq<Item>)
    ensures AllNew(known, New(known, items))
    ensures forall i :: 0 <= i < |New(known, items)| ==> New(known, items)[i] in items
    decreases |items|
  {
    if items != [] {
      if items[0].key == "" || items[0].key in known {
        NewIsNew(known, items[1..]);
      } else {
        var known', rest := known + {items[0].key}, New(known + {items[0].key}, items[1..]);
        NewIsNew(known', items[1..]);
        forall i | 0 <= i < |rest| ensures rest[i].key != items[0].key && rest[i].key !in known {
          assert rest[i].key !in known';
        }
      }
    }
  }

  lemma {:induction false} AllNewAreNew(known: set<string>, items: seq<Item>)
    requires AllNew(known, items)
    ensures New(known, items) == items
    decreases |items|
  {
    if items != [] {
      var rest := items[1..];
      assert forall i :: 0 <= i < |rest| ==> rest[i] == items[i + 1];
      AllNewAreNew(known + {items[0].key}, rest);
    }
  }

  lemma {:induction false} NewHasKey(known: set<string>, items: seq<Item>, i: nat) returns (j: nat)
    requires i < |items| && items[i].key != "" && items[i].key !in known
    ensures j < |New(known, items)| && New(known, items)[j].key == items[i].key
    decreases |items|
  {
    var skip := items[0].key == "" || items[0].key in known;
    if !skip && items[0].key == items[i].key {
      j := 0;
    } else {
      assert items[1..][i - 1] == items[i];
      j := NewHasKey(if skip then known else known + {items[0].key}, items[1..], i - 1);
      j := if skip then j else j + 1;
    }
  }

  lemma {:induction false} NewAppend(known: set<string>, a: seq<Item>, b: seq<Item>)
    ensures New(known, a) <= New(known, a + b)
    decreases |a|
  {
    if a != [] {
      assert (a + b)[0] == a[0] && (a + b)[1..] == a[1..] + b;
      NewAppend(if a[0].key == "" || a[0].key in known then known else known + {a[0].key}, a[1..], b);
    }
  }

  lemma ShortsCons(names: seq<string>, x: Item, rest: seq<Item>)
    ensures names + Shorts([x] + rest) == (names + [x.short]) + Shorts(rest)
    ensures x.short in names ==> !Distinct(names + Shorts([x] + rest))
  {
    assert ([x] + rest)[1..] == rest;
    var s := names + Shorts([x] + rest);
    if x.short in names {
      var i :| 0 <= i < |names| && names[i] == x.short;
      assert s[i] == s[|names|];
    }
  }

  /** Adding the items succeeds exactly if what is written for the new ones differs from all there is and from
      each other; then exactly these zones are added. */
  lemma {:induction false} AddItemsIff(z: Zones, items: seq<Item>)
    requires Sound(z)
    ensures AddItems(z, items).Some? <==> Distinct(z.names + Shorts(New(z.index.Keys, items)))
    ensures AddItems(z, items).Some? ==> AddItems(z, items).value.names == z.names + Shorts(New(z.index.Keys, items))
    decreases |items|
  {
    if items == [] {
      assert z.names + [] == z.names;
    } else if items[0].key == "" || items[0].key in z.index {
      AddItemsIff(z, items[1..]);
    } else {
      ShortsCons(z.names, items[0], New(z.index.Keys + {items[0].key}, items[1..]));
      if items[0].short !in z.names {
        var z1 := FindOrAddItem(z, items[0]).value;
        assert z1.names == z.names + [items[0].short] && z1.index.Keys == z.index.Keys + {items[0].key};
        AddItemsIff(z1, items[1..]);
      }
    }
  }

  lemma DistinctConcat(a: seq<string>, b: seq<string>)
    requires Distinct(a) && Distinct(b) && forall i :: 0 <= i < |b| ==> b[i] !in a
    ensures Distinct(a + b)
  {
  }

  /** Names whose keys differ differ. */
  lemma DistinctByKey(keyOf: string -> string, zones: seq<string>, items: seq<Item>, known: set<string>)
    requires Distinct(zones) && AllNew(known, items)
    requires forall i :: 0 <= i < |zones| ==> keyOf(zones[i]) in known
    requires forall i :: 0 <= i < |items| ==> keyOf(items[i].short) == items[i].key
    ensures Distinct(zones + Shorts(items))
  {
    var b := Shorts(items);
    forall i, j | 0 <= i < j < |b| ensures b[i] != b[j] {
      assert keyOf(b[i]) == items[i].key != items[j].key == keyOf(b[j]);
    }
    forall i | 0 <= i < |b| ensures b[i] !in zones {
      assert keyOf(b[i]) == items[i].key;
    }
    DistinctConcat(zones, b);
  }

  /** What starts a zone is one of the names. */
  lemma NewIsTagged(known: set<string>, names: seq<string>, j: nat) returns (n: string)
    requires j < |New(known, Tags(names))|
    ensures n in names && New(known, Tags(names))[j] == Tag(n)
  {
    NewIsNew(known, Tags(names));
    var k :| 0 <= k < |Tags(names)| && Tags(names)[k] == New(known, Tags(names))[j];
    n := names[k];
  }

  /** Keys stay where they are, and each new one is found at the zone made for it. */
  lemma {:induction false} FoundAt(z: Zones, items: seq<Item>, key: string) returns (j: nat)
    requires Sound(z) && AddItems(z, items).Some? && key in AddItems(z, items).value.index
    ensures key in z.index ==> AddItems(z, items).value.index[key] == z.index[key]
    ensures key !in z.index ==> j < |New(z.index.Keys, items)| && New(z.index.Keys, items)[j].key == key
                                && AddItems(z, items).value.index[key] == |z.names| + j
    decreases |items|
  {
    j := 0;
    if items != [] {
      var z1 := FindOrAddItem(z, items[0]).value;
      j := FoundAt(z1, items[1..], key);
      if items[0].key != "" && items[0].key !in z.index {
        assert z1.index.Keys == z.index.Keys + {items[0].key};
        j := if key == items[0].key then 0 else j + 1;
      }
    }
  }

  // ---------- one zone per key ----------

  /** The zones with this key, given the keys of all zones. */
  function WithKey(keys: seq<string>, key: string): set<nat> { set i: nat | i < |keys| && keys[i] == key }

  /** One zone has the key if none had it before; those that had it still do, and no other. */
  predicate OnceOrAsBefore(before: seq<string>, after: seq<string>, key: string) {
    if WithKey(before, key) == {} then |WithKey(after, key)| == 1 else WithKey(after, key) == WithKey(before, key)
  }

  /** A name with another key is cut to one with this key. */
  predicate CutTo(items: seq<Item>, key: string) {
    exists i :: 0 <= i < |items| && items[i].key != key && items[i].shortKey == key
  }

  lemma OneIn(keys: seq<string>, key: string, z: nat)
    requires z < |keys| && keys[z] == key && forall i :: 0 <= i < |keys| && i != z ==> keys[i] != key
    ensures |WithKey(keys, key)| == 1
  {
    assert WithKey(keys, key) == {z};
  }

  lemma TwoIn(keys: seq<string>, key: string, x: nat, y: nat)
    requires x < |keys| && y < |keys| && keys[x] == key == keys[y] && x != y
    ensures |WithKey(keys, key)| != 1
  {
    var s := WithKey(keys, key);
    assert x in s && y in s - {x} && |s - {x}| == |s| - 1;
  }

  lemma StoredKeyIn(keys: seq<string>, cut: seq<string>, key: string)
    ensures WithKey(keys + cut, key) == WithKey(keys, key) <==> key !in cut
  {
    var after, n := keys + cut, |keys|;
    if key in cut {
      var k :| 0 <= k < |cut| && cut[k] == key;
      assert after[n + k] == key;
      assert n + k in WithKey(after, key) && n + k !in WithKey(keys, key);
    } else {
      assert forall i :: n <= i < |after| ==> after[i] == cut[i - n];
    }
  }

  /** A stored key: no inserted item has it. */
  lemma StoredKeyIff(keys: seq<string>, items: seq<Item>, key: string)
    requires key in keys && forall i :: 0 <= i < |items| ==> items[i].key != key
    ensures OnceOrAsBefore(keys, keys + ShortKeys(items), key) <==> !CutTo(items, key)
  {
    StoredKeyIn(keys, ShortKeys(items), key);
    var k :| 0 <= k < |keys| && keys[k] == key;
    assert k in WithKey(keys, key);
  }

  /** A new key: the j-th inserted item has it, and keeps it. */
  lemma NewKeyIff(keys: seq<string>, items: seq<Item>, key: string, j: nat)
    requires key !in keys && j < |items| && items[j].key == key == items[j].shortKey
    requires forall i :: 0 <= i < |items| && i != j ==> items[i].key != key
    ensures OnceOrAsBefore(keys, keys + ShortKeys(items), key) <==> !CutTo(items, key)
  {
    var n, cut := |keys|, ShortKeys(items);
    NewKeyIn(keys, cut, key, j);
    assert WithKey(keys, key) == {};
    if CutTo(items, key) {
      var k :| 0 <= k < |items| && items[k].key != key && items[k].shortKey == key;
      assert cut[k] == key && k != j;
    }
  }

  lemma NewKeyIn(keys: seq<string>, cut: seq<string>, key: string, j: nat)
    requires key !in keys && j < |cut| && cut[j] == key
    ensures |WithKey(keys + cut, key)| == 1 <==> forall k :: 0 <= k < |cut| && k != j ==> cut[k] != key
  {
    var after, n := keys + cut, |keys|;
    assert after[n + j] == key;
    if k :| 0 <= k < |cut| && k != j && cut[k] == key {
      assert after[n + k] == key;
      TwoIn(after, key, n + j, n + k);
    } else {
      forall i | 0 <= i < |after| && i != n + j ensures after[i] != key {
        if i >= n {
          assert after[i] == cut[i - n];
        }
      }
      OneIn(after, key, n + j);
    }
  }

  /** Every name inserted for this key is written with it. */
  predicate Kept(items: seq<Item>, key: string) {
    forall i :: 0 <= i < |items| && items[i].key == key ==> items[i].shortKey == key
  }

  lemma KeptByItsItem(known: set<string>, items: seq<Item>, j: nat)
    requires AllNew(known, items) && j < |items|
    ensures Kept(items, items[j].key) <==> items[j].shortKey == items[j].key
  {
  }

  lemma KnownIsKept(known: set<string>, items: seq<Item>, key: string)
    requires AllNew(known, items) && key in known
    ensures Kept(items, key)
  {
  }

  // ---------- the keys of names ----------

  function Keys(keyOf: string -> string, names: seq<string>): (r: seq<string>)
    ensures |r| == |names| && forall i :: 0 <= i < |r| ==> r[i] == keyOf(names[i])
  {
    if names == [] then [] else [keyOf(names[0])] + Keys(keyOf, names[1..])
  }

  lemma KeysAfter(keyOf: string -> string, zones: seq<string>, items: seq<Item>)
    requires forall i :: 0 <= i < |items| ==> items[i].shortKey == keyOf(items[i].short)
    ensures Keys(keyOf, zones + Shorts(items)) == Keys(keyOf, zones) + ShortKeys(items)
  {
    var a, b, n := Keys(keyOf, zones + Shorts(items)), Keys(keyOf, zones) + ShortKeys(items), |zones|;
    forall i | 0 <= i < |a| ensures a[i] == b[i] {
      if i >= n {
        assert (zones + Shorts(items))[i] == items[i - n].short && b[i] == items[i - n].shortKey;
      }
    }
  }

  lemma TwoNew(x: Item, y: Item)
    requires x.key != "" && y.key != "" && x.key != y.key
    ensures AllNew({}, [x, y]) && [] + Shorts([x, y]) == [x.short, y.short]
  {
  }
}
