/** The migration that settles what the risk threshold keys mean
    (alembic/versions/20260827_risk_level_threshold_keys.py). */
module ThresholdKeys {
  import opened Options

  // ---------- scores, bands and levels ----------

  datatype Level = Low | Medium | High | VeryHigh | Critical

  /** risk_level_<name>_threshold for the five names, and any other setting. */
  datatype Key = LowKey | MediumKey | HighKey | VeryHighKey | CriticalKey | Other(name: string)

  type Settings = map<Key, real>

  /** The inclusive lower bounds of the four bands above the floor. */
  datatype Bounds = Bounds(medium: real, high: real, veryHigh: real, critical: real)

  const DEFAULTS := Bounds(20.0, 40.0, 60.0, 80.0)

  /** The CASE of _rederive_levels: highest band first. */
  function LevelFor(b: Bounds, score: real): Level {
    if score >= b.critical then Critical
    else if score >= b.veryHigh then VeryHigh
    else if score >= b.high then High
    else if score >= b.medium then Medium
    else Low
  }

  predicate InOrder(b: Bounds) { 0.0 <= b.medium < b.high < b.veryHigh < b.critical <= 100.0 }

  /** int(): towards zero. */
  function Truncated(x: real): real { if x >= 0.0 then x.Floor as real else -((-x).Floor as real) }

  function Written(b: Bounds): Bounds {
    Bounds(Truncated(b.medium), Truncated(b.high), Truncated(b.veryHigh), Truncated(b.critical))
  }

  predicate Whole(b: Bounds) { Written(b) == b }

  // ---------- the two conventions, as their readers read them ----------

  predicate OffsetConvention(s: Settings) { LowKey in s }

  /** All four keys of the convention the table is in. */
  predicate Complete(s: Settings) {
    && MediumKey in s && HighKey in s && CriticalKey in s
    && (OffsetConvention(s) || VeryHighKey in s)
  }

  /** A key opens the band above the one it names, except critical. */
  function OffsetReader(s: Settings, score: real): Level
    requires LowKey in s && MediumKey in s && HighKey in s && CriticalKey in s
  {
    if score >= s[CriticalKey] then Critical
    else if score >= s[HighKey] then VeryHigh
    else if score >= s[MediumKey] then High
    else if score >= s[LowKey] then Medium
    else Low
  }

  /** A key opens the band it names. */
  function NaturalReader(s: Settings, score: real): Level
    requires MediumKey in s && HighKey in s && VeryHighKey in s && CriticalKey in s
  {
    if score >= s[CriticalKey] then Critical
    else if score >= s[VeryHighKey] then VeryHigh
    else if score >= s[HighKey] then High
    else if score >= s[MediumKey] then Medium
    else Low
  }

  function Reader(s: Settings, score: real): Level
    requires Complete(s)
  {
    if OffsetConvention(s) then OffsetReader(s, score) else NaturalReader(s, score)
  }

  // ---------- what the migration computes ----------

  function Get(s: Settings, k: Key, default: real): real { if k in s then s[k] else default }

  function StoredBounds(s: Settings): Bounds {
    if OffsetConvention(s)
    then Bounds(s[LowKey], Get(s, MediumKey, DEFAULTS.high), Get(s, HighKey, DEFAULTS.veryHigh),
      Get(s, CriticalKey, DEFAULTS.critical))
    else Bounds(Get(s, MediumKey, DEFAULTS.medium), Get(s, HighKey, DEFAULTS.high),
      Get(s, VeryHighKey, DEFAULTS.veryHigh), Get(s, CriticalKey, DEFAULTS.critical))
  }

  function SettledBounds(s: Settings): Bounds { if InOrder(StoredBounds(s)) then StoredBounds(s) else DEFAULTS }

  /** The settings that hold exactly these bounds in the natural convention, other rows as they were. */
  function Holding(s: Settings, b: Bounds): Settings {
    s[MediumKey := b.medium][HighKey := b.high][VeryHighKey := b.veryHigh][CriticalKey := b.critical] - {LowKey}
  }

  function Upgraded(s: Settings): Settings { Holding(s, Written(SettledBounds(s))) }

  /** A stored level; a score that is NULL keeps the level it has. */
  datatype Row = Row(score: Option<real>, level: Option<Level>)

  function Rederived(row: Row, b: Bounds): Row {
    if row.score.None? then row else row.(level := Some(LevelFor(b, row.score.value)))
  }

  function NaturalBounds(s: Settings): Bounds {
    Bounds(Get(s, MediumKey, DEFAULTS.medium), Get(s, HighKey, DEFAULTS.high),
      Get(s, VeryHighKey, DEFAULTS.veryHigh), Get(s, CriticalKey, DEFAULTS.critical))
  }

  /** The two updates change only rows that are there; the very_high row goes. */
  function Downgraded(s: Settings): Settings {
    var b := Written(NaturalBounds(s));
    var s1 := s[LowKey := b.medium];
    var s2 := if MediumKey in s1 then s1[MediumKey := b.high] else s1;
    (if HighKey in s2 then s2[HighKey := b.veryHigh] else s2) - {VeryHighKey}
  }

  // ---------- the migration on the database ----------

  /** A row of risk_settings; its key is unique there. */
  datatype Setting = Setting(key: Key, value: real)

  ghost predicate UniqueKeys(rows: seq<Setting>) { forall i, j :: 0 <= i < j < |rows| ==> rows[i].key != rows[j].key }

  predicate HasKey(rows: seq<Setting>, k: Key) { exists i :: 0 <= i < |rows| && rows[i].key == k }

  /** What the rows say. */
  function Table(rows: seq<Setting>): (t: Settings)
    ensures forall k :: k in t <==> HasKey(rows, k)
    ensures forall i :: 0 <= i < |rows| ==> rows[i].key in t && (UniqueKeys(rows) ==> t[rows[i].key] == rows[i].value)
  {
    if rows == [] then map[]
    else
      assert forall i :: 0 <= i < |rows| - 1 ==> rows[1..][i] == rows[i + 1];
      Table(rows[1..])[rows[0].key := rows[0].value]
  }

  class RiskDatabase {
    var settings: seq<Setting>
    var scores: array<Row>
    var history: array<Row>

    /** UPDATE ... WHERE setting_key = :key; how many rows there were. */
    method Update(key: Key, value: real) returns (rowcount: nat)
      requires UniqueKeys(settings)
      modifies this`settings
      ensures UniqueKeys(settings) && |settings| == |old(settings)|
      ensures forall i :: 0 <= i < |settings| ==>
                settings[i] == if old(settings)[i].key == key then Setting(key, value) else old(settings)[i]
      ensures rowcount > 0 <==> key in Table(old(settings))
      ensures Table(settings) == if rowcount > 0 then Table(old(settings))[key := value] else Table(old(settings))
    {
      rowcount := 0;
      var n := |settings|;
      for i := 0 to n
        invariant |settings| == n && (rowcount > 0 <==> exists j :: 0 <= j < i && old(settings)[j].key == key)
        invariant forall j :: 0 <= j < i ==>
                    settings[j] == if old(settings)[j].key == key then Setting(key, value) else old(settings)[j]
        invariant forall j :: i <= j < n ==> settings[j] == old(settings)[j]
      {
        if settings[i].key == key {
          settings := settings[i := Setting(key, value)];
          rowcount := rowcount + 1;
        }
      }
      UpdatedTable(old(settings), settings, key, value);
    }

    method Insert(key: Key, value: real)
      requires UniqueKeys(settings) && key !in Table(settings)
      modifies this`settings
      ensures UniqueKeys(settings) && Table(settings) == Table(old(settings))[key := value]
      ensures |settings| == |old(settings)| + 1
    {
      settings := settings + [Setting(key, value)];
      InsertedTable(old(settings), key, value);
    }

    /** DELETE ... WHERE setting_key = :key */
    method Delete(key: Key)
      requires UniqueKeys(settings)
      modifies this`settings
      ensures UniqueKeys(settings) && Table(settings) == Table(old(settings)) - {key}
    {
      var kept: seq<Setting> := [];
      for i := 0 to |settings|
        invariant UniqueKeys(kept)
        invariant forall r :: r in kept <==> r.key != key && r in settings[..i]
      {
        if settings[i].key != key {
          kept := kept + [settings[i]];
        }
      }
      assert settings[..|settings|] == settings;
      DeletedTable(settings, kept, key);
      settings := kept;
    }

    /** Updates the row of the key, or inserts one: after it the key has exactly one row, with the value cut to a
        whole number, and every other row is as it was. */
    method Upsert(key: Key, value: real)
      requires UniqueKeys(settings)
      modifies this`settings
      ensures UniqueKeys(settings) && Table(settings) == Table(old(settings))[key := Truncated(value)]
      ensures |settings| == |old(settings)| + (if key in Table(old(settings)) then 0 else 1)
    {
      var updated := Update(key, Truncated(value));
      if updated == 0 {
        Insert(key, Truncated(value));
      }
    }

    /** The four rows of the natural convention, and no row of the retired key. */
    method WriteBounds(bounds: Bounds)
      requires UniqueKeys(settings)
      modifies this`settings
      ensures UniqueKeys(settings) && Table(settings) == Holding(Table(old(settings)), Written(bounds))
    {
      Upsert(MediumKey, bounds.medium);
      Upsert(HighKey, bounds.high);
      Upsert(VeryHighKey, bounds.veryHigh);
      Upsert(CriticalKey, bounds.critical);
      Delete(LowKey);
    }

    static method RederiveTable(rows: array<Row>, b: Bounds)
      modifies rows
      ensures forall i :: 0 <= i < rows.Length ==> rows[i] == Rederived(old(rows[i]), b)
    {
      for n := 0 to rows.Length
        invariant forall i :: 0 <= i < n ==> rows[i] == Rederived(old(rows[i]), b)
        invariant forall i :: n <= i < rows.Length ==> rows[i] == old(rows[i])
      {
        if rows[n].score.Some? {
          rows[n] := Row(rows[n].score, Some(LevelFor(b, rows[n].score.value)));
        }
      }
    }

    method Upgrade()
      requires scores != history && UniqueKeys(settings)
      modifies this`settings, scores, history
      ensures UniqueKeys(settings) && Table(settings) == Upgraded(Table(old(settings)))
      ensures var b := SettledBounds(Table(old(settings)));
              && (forall i :: 0 <= i < scores.Length ==> scores[i] == Rederived(old(scores[i]), b))
              && (forall i :: 0 <= i < history.Length ==> history[i] == Rederived(old(history[i]), b))
    {
      var stored := Table(settings);
      var bounds;
      if LowKey in stored {
        bounds := Bounds(stored[LowKey], Get(stored, MediumKey, 40.0), Get(stored, HighKey, 60.0),
          Get(stored, CriticalKey, 80.0));
      } else {
        bounds := NaturalBounds(stored);
      }
      if bounds.medium >= bounds.high || bounds.high >= bounds.veryHigh || bounds.veryHigh >= bounds.critical
         || bounds.medium < 0.0 || bounds.critical > 100.0 {
        bounds := DEFAULTS;
      }
      WriteBounds(bounds);
      RederiveTable(scores, bounds);
      RederiveTable(history, bounds);
    }

    /** The retired key is inserted, which its unique index refuses when it is there; then nothing is changed. */
    method Downgrade() returns (ok: bool)
      requires UniqueKeys(settings)
      modifies this`settings
      ensures ok <==> LowKey !in Table(old(settings))
      ensures if ok
              then UniqueKeys(settings) && Table(settings) == Downgraded(Table(old(settings)))
              else settings == old(settings)
    {
      var bounds := NaturalBounds(Table(settings));
      if LowKey in Table(settings) {
        return false;
      }
      Insert(LowKey, Truncated(bounds.medium));
      var _ := Update(MediumKey, Truncated(bounds.high));
      var _ := Update(HighKey, Truncated(bounds.veryHigh));
      Delete(VeryHighKey);
      return true;
    }
  }

  /** What the migration takes a bound to be: the stored value, or this one if there is none. */
  predicate TakenAs(s: Settings, k: Key, default: real, bound: real) {
    if k in s then bound == s[k] else bound == default
  }

  /** The four bounds a table holds, key by key in the convention it is in. */
  predicate Holds(s: Settings, b: Bounds) {
    if LowKey in s
    then
      && b.medium == s[LowKey]
      && TakenAs(s, MediumKey, 40.0, b.high)
      && TakenAs(s, HighKey, 60.0, b.veryHigh)
      && TakenAs(s, CriticalKey, 80.0, b.critical)
    else
      && TakenAs(s, MediumKey, 20.0, b.medium)
      && TakenAs(s, HighKey, 40.0, b.high)
      && TakenAs(s, VeryHighKey, 60.0, b.veryHigh)
      && TakenAs(s, CriticalKey, 80.0, b.critical)
  }

  /** They are written, cut to whole numbers, if they are in order from 0 to 100; else 20, 40, 60 and 80 are. */
  lemma UpgradeWritesTheStoredBounds(s: Settings, b: Bounds)
    requires Holds(s, b)
    ensures var u := Upgraded(s);
            && MediumKey in u && HighKey in u && VeryHighKey in u && CriticalKey in u
            && (if 0.0 <= b.medium < b.high < b.veryHigh < b.critical <= 100.0
                then u[MediumKey] == Truncated(b.medium) && u[HighKey] == Truncated(b.high)
                     && u[VeryHighKey] == Truncated(b.veryHigh) && u[CriticalKey] == Truncated(b.critical)
                else u[MediumKey] == 20.0 && u[HighKey] == 40.0 && u[VeryHighKey] == 60.0 && u[CriticalKey] == 80.0)
  {
    WholeDefaults();
  }

  /** Rows with unique keys say exactly this. */
  lemma SameTable(rows: seq<Setting>, t: Settings)
    requires UniqueKeys(rows) && forall k :: k in t <==> HasKey(rows, k)
    requires forall i :: 0 <= i < |rows| ==> rows[i].key in t && t[rows[i].key] == rows[i].value
    ensures Table(rows) == t
  {
    assert Table(rows).Keys == t.Keys;
    forall k | k in t ensures Table(rows)[k] == t[k] {
      var i :| 0 <= i < |rows| && rows[i].key == k;
    }
  }

  lemma UpdatedTable(rows: seq<Setting>, rows': seq<Setting>, key: Key, value: real)
    requires UniqueKeys(rows) && |rows'| == |rows|
    requires forall i :: 0 <= i < |rows| ==> rows'[i] == if rows[i].key == key then Setting(key, value) else rows[i]
    ensures UniqueKeys(rows') && Table(rows') == if key in Table(rows) then Table(rows)[key := value] else Table(rows)
  {
    var t := if key in Table(rows) then Table(rows)[key := value] else Table(rows);
    assert forall i :: 0 <= i < |rows| ==> rows'[i].key == rows[i].key;
    forall k ensures k in t <==> HasKey(rows', k) {
      if k in t {
        var i :| 0 <= i < |rows| && rows[i].key == k;
        assert rows'[i].key == k;
      }
    }
    SameTable(rows', t);
  }

  lemma InsertedTable(rows: seq<Setting>, key: Key, value: real)
    requires UniqueKeys(rows) && key !in Table(rows)
    ensures UniqueKeys(rows + [Setting(key, value)]) && Table(rows + [Setting(key, value)]) == Table(rows)[key := value]
  {
    var rows' := rows + [Setting(key, value)];
    forall k ensures k in Table(rows)[key := value] <==> HasKey(rows', k) {
      if k in Table(rows) {
        var i :| 0 <= i < |rows| && rows[i].key == k;
        assert rows'[i].key == k;
      } else if k == key {
        assert rows'[|rows|].key == k;
      }
    }
    SameTable(rows', Table(rows)[key := value]);
  }

  lemma DeletedTable(rows: seq<Setting>, kept: seq<Setting>, key: Key)
    requires UniqueKeys(rows) && UniqueKeys(kept) && forall r :: r in kept <==> r.key != key && r in rows
    ensures Table(kept) == Table(rows) - {key}
  {
    var t := Table(rows) - {key};
    forall i | 0 <= i < |kept| ensures kept[i].key in t && t[kept[i].key] == kept[i].value {
      assert kept[i] in kept;
      var j :| 0 <= j < |rows| && rows[j] == kept[i];
    }
    forall k | k in t ensures HasKey(kept, k) {
      var j :| 0 <= j < |rows| && rows[j].key == k;
      assert rows[j] in kept;
    }
    SameTable(kept, t);
  }

  // ---------- highest band first is the number of bounds reached ----------

  function Rank(l: Level): nat {
    match l
    case Low => 0
    case Medium => 1
    case High => 2
    case VeryHigh => 3
    case Critical => 4
  }

  function Reached(bounds: seq<real>, score: real): nat {
    if bounds == [] then 0 else (if score >= bounds[0] then 1 else 0) + Reached(bounds[1..], score)
  }

  /** With bands in order the level counts the bounds the score has reached, a score on a bound reaching it. */
  lemma LevelCountsBounds(b: Bounds, score: real)
    requires InOrder(b)
    ensures Rank(LevelFor(b, score)) == Reached([b.medium, b.high, b.veryHigh, b.critical], score)
  {
    ReachedOne([], b.critical, score);
    ReachedOne([b.critical], b.veryHigh, score);
    ReachedOne([b.veryHigh, b.critical], b.high, score);
    ReachedOne([b.high, b.veryHigh, b.critical], b.medium, score);
    assert [b.critical] + [] == [b.critical];
  }

  lemma ReachedOne(above: seq<real>, bound: real, score: real)
    ensures Reached([bound] + above, score) == (if score >= bound then 1 else 0) + Reached(above, score)
  {
    assert ([bound] + above)[1..] == above;
  }

  // ---------- the result is a sound table ----------

  lemma TruncatedFacts(x: real)
    requires x >= 0.0
    ensures 0.0 <= Truncated(x) <= x && Truncated(Truncated(x)) == Truncated(x)
    ensures Truncated(x) == x <==> x == x.Floor as real
  {
  }

  lemma TruncatedKeepsOrder(x: real, y: real)
    requires 0.0 <= x <= y
    ensures Truncated(x) <= Truncated(y)
  {
    assert x.Floor as real <= x <= y < (y.Floor + 1) as real;
    assert x.Floor < y.Floor + 1;
  }

  /** Whatever was stored, the written table is complete, natural, made of whole numbers and never out of
      order; two bands run together only if their bounds had the same whole part. */
  lemma UpgradeWritesASoundTable(s: Settings)
    ensures var u, b := Upgraded(s), SettledBounds(s);
            && Complete(u) && !OffsetConvention(u) && Whole(StoredBounds(u)) && StoredBounds(u) == Written(b)
            && 0.0 <= u[MediumKey] <= u[HighKey] <= u[VeryHighKey] <= u[CriticalKey] <= 100.0
            && (InOrder(StoredBounds(u)) <==>
              Truncated(b.medium) != Truncated(b.high) && Truncated(b.high) != Truncated(b.veryHigh) &&
                Truncated(b.veryHigh) != Truncated(b.critical))
            && (forall k: Key :: k.Other? ==> (k in u <==> k in s) && (k in s ==> u[k] == s[k]))
  {
    var b := SettledBounds(s);
    TruncatedFacts(b.medium);
    TruncatedFacts(b.high);
    TruncatedFacts(b.veryHigh);
    TruncatedFacts(b.critical);
    TruncatedKeepsOrder(b.medium, b.high);
    TruncatedKeepsOrder(b.high, b.veryHigh);
    TruncatedKeepsOrder(b.veryHigh, b.critical);
  }

  lemma WholeTablesComeOutInOrder(s: Settings)
    requires Whole(StoredBounds(s))
    ensures InOrder(StoredBounds(Upgraded(s))) && StoredBounds(Upgraded(s)) == SettledBounds(s)
    ensures Upgraded(Upgraded(s)) == Upgraded(s)
  {
    WholeDefaults();
  }

  lemma WholeDefaults()
    ensures Whole(DEFAULTS)
  {
    assert Truncated(20.0) == 20.0 && Truncated(40.0) == 40.0 && Truncated(60.0) == 60.0 && Truncated(80.0) == 80.0;
  }

  // ---------- the rows agree with the settings, exactly for whole bounds ----------

  ghost predicate SameLevels(b: Bounds, c: Bounds) { forall score :: LevelFor(b, score) == LevelFor(c, score) }

  lemma CutBoundMoves(b: Bounds, x: real)
    requires InOrder(b) && x in {b.medium, b.high, b.veryHigh, b.critical} && Truncated(x) != x
    ensures LevelFor(Written(b), Truncated(x)) != LevelFor(b, Truncated(x))
  {
    TruncatedFacts(x);
  }

  /** Levels derived from the bounds as stored are those of the bounds as written back exactly when no
      fraction was cut off; otherwise the cut bound itself is a score on which they differ. */
  lemma LevelsMatchTheWrittenBoundsIffWhole(b: Bounds)
    requires InOrder(b)
    ensures SameLevels(b, Written(b)) <==> Whole(b)
  {
    if !Whole(b) {
      var x :| x in {b.medium, b.high, b.veryHigh, b.critical} && Truncated(x) != x;
      CutBoundMoves(b, x);
    }
  }

  /** After an upgrade of whole numbers every row with a score carries the level the settings give it. */
  lemma RowsAgreeWithTheSettings(s: Settings, row: Row)
    requires Whole(StoredBounds(s)) && row.score.Some?
    ensures Rederived(row, SettledBounds(s)).level == Some(Reader(Upgraded(s), row.score.value))
  {
    WholeDefaults();
  }

  // ---------- the meaning of a score is kept ----------

  ghost predicate MeaningKept(s: Settings)
    requires Complete(s)
  {
    forall score :: Reader(Upgraded(s), score) == Reader(s, score)
  }

  lemma ReadersReadTheBounds(s: Settings)
    requires Complete(s)
    ensures forall score :: Reader(s, score) == LevelFor(StoredBounds(s), score)
    ensures forall score :: Reader(Upgraded(s), score) == LevelFor(Written(SettledBounds(s)), score)
  {
  }

  /** A level function determines its bounds. */
  lemma SameLevelsSameBounds(b: Bounds, c: Bounds)
    requires SameLevels(b, c) && InOrder(c)
    ensures b == c
  {
    assert LevelFor(b, c.critical) == LevelFor(c, c.critical) && LevelFor(b, b.critical) == LevelFor(c, b.critical);
    assert LevelFor(b, c.veryHigh) == LevelFor(c, c.veryHigh) && LevelFor(b, b.veryHigh) == LevelFor(c, b.veryHigh);
    assert LevelFor(b, c.high) == LevelFor(c, c.high) && LevelFor(b, b.high) == LevelFor(c, b.high);
    assert LevelFor(b, c.medium) == LevelFor(c, c.medium) && LevelFor(b, b.medium) == LevelFor(c, b.medium);
  }

  /** Every score keeps the level its own convention gave it, exactly when the stored bounds are whole,
      strictly ascending and within 0..100; any other table is changed in meaning. */
  lemma UpgradeKeepsTheMeaningIff(s: Settings)
    requires Complete(s)
    ensures MeaningKept(s) <==> InOrder(StoredBounds(s)) && Whole(StoredBounds(s))
  {
    var b := StoredBounds(s);
    ReadersReadTheBounds(s);
    assert MeaningKept(s) <==> SameLevels(b, Written(SettledBounds(s))) by {
      assert MeaningKept(s) ==> forall score :: LevelFor(b, score) == LevelFor(Written(SettledBounds(s)), score) by {
        if MeaningKept(s) {
          forall score ensures LevelFor(b, score) == LevelFor(Written(SettledBounds(s)), score) {
            assert Reader(Upgraded(s), score) == Reader(s, score);
          }
        }
      }
    }
    WholeDefaults();
    if InOrder(b) {
      LevelsMatchTheWrittenBoundsIffWhole(b);
    } else if MeaningKept(s) {
      SameLevelsSameBounds(b, DEFAULTS);
    }
  }

  // ---------- there and back ----------

  /** A downgrade gives an offset table back exactly when it was complete, whole, in order and held no
      very_high row. */
  lemma DowngradeRestoresIff(s: Settings)
    requires OffsetConvention(s)
    ensures Downgraded(Upgraded(s)) == s <==>
            Complete(s) && VeryHighKey !in s && InOrder(StoredBounds(s)) && Whole(StoredBounds(s))
  {
  }

  ghost predicate DowngradeKeepsMeaning(s: Settings)
    requires Complete(s) && !OffsetConvention(s)
  {
    forall score :: Reader(Downgraded(s), score) == Reader(s, score)
  }

  /** The offset reader sees after a downgrade what the natural one saw before it exactly when no fraction
      is cut off the three lower bounds; the critical one is not rewritten. */
  lemma DowngradeKeepsTheMeaningIff(s: Settings)
    requires Complete(s) && !OffsetConvention(s) && InOrder(NaturalBounds(s))
    ensures DowngradeKeepsMeaning(s) <==>
            Truncated(s[MediumKey]) == s[MediumKey] && Truncated(s[HighKey]) == s[HighKey] &&
              Truncated(s[VeryHighKey]) == s[VeryHighKey]
  {
    var b, d := NaturalBounds(s), Downgraded(s);
    var c := Written(b).(critical := b.critical);
    assert d[LowKey] == c.medium && d[MediumKey] == c.high && d[HighKey] == c.veryHigh && d[CriticalKey] == c.critical;
    forall score ensures Reader(d, score) == LevelFor(c, score) && Reader(s, score) == LevelFor(b, score) {
    }
    if DowngradeKeepsMeaning(s) {
      forall score ensures LevelFor(b, score) == LevelFor(c, score) {
        assert Reader(d, score) == Reader(s, score);
      }
      TruncatedFacts(b.medium);
      TruncatedFacts(b.high);
      TruncatedFacts(b.veryHigh);
      assert LevelFor(b, c.medium) == LevelFor(c, c.medium) && LevelFor(b, c.high) == LevelFor(c, c.high);
      assert LevelFor(b, c.veryHigh) == LevelFor(c, c.veryHigh);
    }
  }
}
