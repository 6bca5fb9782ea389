/** Firewall shadow analysis (scripts/fortinet_audit_cli.py): reporting a policy must mean that it never
    decides a packet. */
module ShadowAnalysis {
  import opened Options
  import opened PyText

  datatype Policy = Policy(id: string, status: string, action: string, srcintf: seq<string>, dstintf: seq<string>,
                           srcaddr: seq<string>, dstaddr: seq<string>, service: seq<string>)

  datatype Shadow = Shadow(shadowedId: string, byId: string)

  const ALL_TOKENS := {"all", "any", "all_services", "all-service", "all_tcp", "all_udp", "all_icmp"}

  /** ASCII lower case is enough here: no letter of ALL_TOKENS is the lower case of a letter outside ASCII. */
  predicate IsAllToken(token: string) { AsciiLower(token) in ALL_TOKENS }

  /** The seven words, in any case. */
  lemma AllTokensAre(token: string)
    ensures var t := AsciiLower(token);
            IsAllToken(token) <==>
              || t == "all" || t == "any"
              || t == "all_services" || t == "all-service"
              || t == "all_tcp" || t == "all_udp" || t == "all_icmp"
  {
  }

  predicate AnyAll(tokens: seq<string>) { exists i :: 0 <= i < |tokens| && IsAllToken(tokens[i]) }

  predicate SetCovers(a: seq<string>, b: seq<string>) {
    AnyAll(a) || forall x :: x in b ==> x in a
  }

  /** The test in the two loops: p1 is reported to shadow p2. */
  predicate Shadows(p1: Policy, p2: Policy) {
    && p1.action == "accept"
    && p2.action == "accept"
    && SetCovers(p1.srcintf, p2.srcintf)
    && SetCovers(p1.dstintf, p2.dstintf)
    && SetCovers(p1.srcaddr, p2.srcaddr)
    && SetCovers(p1.dstaddr, p2.dstaddr)
    && SetCovers(p1.service, p2.service)
  }

  function Enabled(policies: seq<Policy>): seq<Policy> {
    if policies == [] then []
    else (if policies[0].status != "disable" then [policies[0]] else []) + Enabled(policies[1..])
  }

  /** The same between policies of the configuration: neither is disabled. */
  predicate Hides(p1: Policy, p2: Policy) {
    p1.status != "disable" && p2.status != "disable" && Shadows(p1, p2)
  }

  /** A policy and an earlier one that hides it, by their ids. */
  predicate ReportedPair(policies: seq<Policy>, s: Shadow) {
    exists a, b :: 0 <= a < b < |policies| && Hides(policies[a], policies[b]) &&
      s == Shadow(policies[b].id, policies[a].id)
  }

  /** By the first policy, or by a later one. */
  predicate HiddenBy(p: Policy, rest: seq<Policy>, s: Shadow) {
    exists b :: 0 <= b < |rest| && Hides(p, rest[b]) && s == Shadow(rest[b].id, p.id)
  }

  lemma PairHead(ps: seq<Policy>, s: Shadow)
    requires ps != []
    ensures ReportedPair(ps, s) <==> HiddenBy(ps[0], ps[1..], s) || ReportedPair(ps[1..], s)
  {
    PairOfMore(ps, s);
    var rest := ps[1..];
    if ReportedPair(ps, s) {
      var a, b :| 0 <= a < b < |ps| && Hides(ps[a], ps[b]) && s == Shadow(ps[b].id, ps[a].id);
      assert rest[b - 1] == ps[b];
      if a > 0 {
        assert rest[a - 1] == ps[a];
      }
    }
  }

  lemma PairOfMore(ps: seq<Policy>, s: Shadow)
    requires ps != []
    ensures HiddenBy(ps[0], ps[1..], s) || ReportedPair(ps[1..], s) ==> ReportedPair(ps, s)
  {
    var rest := ps[1..];
    if HiddenBy(ps[0], rest, s) {
      var b :| 0 <= b < |rest| && Hides(ps[0], rest[b]) && s == Shadow(rest[b].id, ps[0].id);
      assert ps[b + 1] == rest[b];
    }
    if ReportedPair(rest, s) {
      var a, b :| 0 <= a < b < |rest| && Hides(rest[a], rest[b]) && s == Shadow(rest[b].id, rest[a].id);
      assert ps[a + 1] == rest[a] && ps[b + 1] == rest[b];
    }
  }

  lemma {:induction false} EnabledMembers(policies: seq<Policy>, p: Policy)
    ensures p in Enabled(policies) <==> p in policies && p.status != "disable"
  {
    if policies != [] {
      EnabledMembers(policies[1..], p);
      assert p in policies <==> p == policies[0] || p in policies[1..];
    }
  }

  lemma HiddenAmongEnabled(p: Policy, rest: seq<Policy>, s: Shadow)
    ensures HiddenBy(p, Enabled(rest), s) <==> HiddenBy(p, rest, s)
  {
    if HiddenBy(p, Enabled(rest), s) {
      var b :| 0 <= b < |Enabled(rest)| && Hides(p, Enabled(rest)[b]) && s == Shadow(Enabled(rest)[b].id, p.id);
      EnabledMembers(rest, Enabled(rest)[b]);
      var k :| 0 <= k < |rest| && rest[k] == Enabled(rest)[b];
    }
    if HiddenBy(p, rest, s) {
      var b :| 0 <= b < |rest| && Hides(p, rest[b]) && s == Shadow(rest[b].id, p.id);
      EnabledMembers(rest, rest[b]);
      var k :| 0 <= k < |Enabled(rest)| && Enabled(rest)[k] == rest[b];
    }
  }

  /** Leaving out the disabled policies first changes no pair. */
  lemma {:induction false} EnabledPairs(policies: seq<Policy>, s: Shadow)
    ensures ReportedPair(Enabled(policies), s) <==> ReportedPair(policies, s)
  {
    if policies != [] {
      var p, rest := policies[0], policies[1..];
      EnabledPairs(rest, s);
      PairHead(policies, s);
      if p.status != "disable" {
        assert Enabled(policies) == [p] + Enabled(rest) && Enabled(policies)[1..] == Enabled(rest);
        PairHead(Enabled(policies), s);
        HiddenAmongEnabled(p, rest, s);
      } else {
        assert Enabled(policies) == Enabled(rest);
      }
    }
  }

  /** The pairs the two loops collect once i, j have reached these values. */
  predicate Found(ps: seq<Policy>, i: nat, j: nat, s: Shadow) {
    exists a, b ::
      0 <= a < b < |ps| && (a < i || (a == i && b < j)) && Shadows(ps[a], ps[b]) && s == Shadow(ps[b].id, ps[a].id)
  }

  predicate NoDuplicates(s: seq<Shadow>) { forall i, j :: 0 <= i < j < |s| ==> s[i] != s[j] }

  /** Exactly the shadowed pairs among the policies that are not disabled, each pair of ids once. */
  method Analyse(policies: seq<Policy>) returns (out: seq<Shadow>)
    ensures forall s :: s in out <==> ReportedPair(policies, s)
    ensures NoDuplicates(out)
  {
    var ps := Enabled(policies);
    var shadows: seq<Shadow> := [];
    for i := 0 to |ps|
      invariant forall s :: s in shadows <==> Found(ps, i, 0, s)
    {
      var j := i + 1;
      while j < |ps|
        invariant i < j <= |ps|
        invariant forall s :: s in shadows <==> Found(ps, i, j, s)
      {
        if Shadows(ps[i], ps[j]) {
          shadows := shadows + [Shadow(ps[j].id, ps[i].id)];
        }
        j := j + 1;
      }
      assert forall s :: Found(ps, i, |ps|, s) <==> Found(ps, i + 1, 0, s);
    }
    out := [];
    for k := 0 to |shadows|
      invariant NoDuplicates(out) && forall s :: s in out <==> s in shadows[..k]
    {
      if shadows[k] !in out {
        out := out + [shadows[k]];
      }
    }
    assert shadows[..|shadows|] == shadows;
    assert forall s :: s in out <==> Found(ps, |ps|, 0, s);
    forall s ensures Found(ps, |ps|, 0, s) <==> ReportedPair(policies, s) {
      FoundAll(policies, s);
      EnabledPairs(policies, s);
    }
  }

  lemma FoundAll(policies: seq<Policy>, s: Shadow)
    ensures var ps := Enabled(policies); Found(ps, |ps|, 0, s) <==> ReportedPair(ps, s)
  {
    var ps := Enabled(policies);
    forall k | 0 <= k < |ps| ensures ps[k].status != "disable" {
      EnabledMembers(policies, ps[k]);
    }
    if Found(ps, |ps|, 0, s) {
      var a, b :| 0 <= a < b < |ps| && Shadows(ps[a], ps[b]) && s == Shadow(ps[b].id, ps[a].id);
      assert Hides(ps[a], ps[b]);
    }
  }

  // ---------- coverage is a preorder ----------

  lemma CoversTransitive(a: seq<string>, b: seq<string>, c: seq<string>)
    requires SetCovers(a, b) && SetCovers(b, c)
    ensures SetCovers(a, c)
  {
    if AnyAll(b) {
      var i :| 0 <= i < |b| && IsAllToken(b[i]);
      assert b[i] in b;
      if b[i] in a {
        var k :| 0 <= k < |a| && a[k] == b[i];
      }
    }
  }

  lemma CoverageIsAPreorder(p: Policy, q: Policy, r: Policy)
    ensures p.action == "accept" ==> Shadows(p, p)
    ensures Shadows(p, q) && Shadows(q, r) ==> Shadows(p, r)
  {
    if Shadows(p, q) && Shadows(q, r) {
      CoversTransitive(p.srcintf, q.srcintf, r.srcintf);
      CoversTransitive(p.dstintf, q.dstintf, r.dstintf);
      CoversTransitive(p.srcaddr, q.srcaddr, r.srcaddr);
      CoversTransitive(p.dstaddr, q.dstaddr, r.dstaddr);
      CoversTransitive(p.service, q.service, r.service);
    }
  }

  ghost predicate Reported(ps: seq<Policy>, j: nat)
    requires j < |ps|
  {
    exists i :: 0 <= i < j && Hides(ps[i], ps[j])
  }

  /** Every reported policy is also covered by an earlier one that is not reported itself. */
  lemma CoveredByAnUnreportedOne(ps: seq<Policy>, j: nat) returns (i: nat)
    requires j < |ps| && Reported(ps, j)
    ensures i < j && !Reported(ps, i) && Hides(ps[i], ps[j])
  {
    i :| 0 <= i < j && Hides(ps[i], ps[j]);
    if Reported(ps, i) {
      var k := CoveredByAnUnreportedOne(ps, i);
      CoverageIsAPreorder(ps[k], ps[i], ps[j]);
      i := k;
    }
  }

  // ---------- what the policies mean ----------

  datatype Part = SrcIntf | DstIntf | SrcAddr | DstAddr | Service

  function Names(p: Policy, part: Part): seq<string> {
    match part
    case SrcIntf => p.srcintf
    case DstIntf => p.dstintf
    case SrcAddr => p.srcaddr
    case DstAddr => p.dstaddr
    case Service => p.service
  }

  lemma ShadowsByPart(p1: Policy, p2: Policy)
    ensures Shadows(p1, p2) <==>
            p1.action == "accept" && p2.action == "accept" && forall part :: SetCovers(Names(p1, part), Names(p2, part))
  {
    if p1.action == "accept" && p2.action == "accept" && forall part :: SetCovers(Names(p1, part), Names(p2, part)) {
      assert SetCovers(Names(p1, SrcIntf), Names(p2, SrcIntf)) && SetCovers(Names(p1, DstIntf), Names(p2, DstIntf));
      assert SetCovers(Names(p1, SrcAddr), Names(p2, SrcAddr)) && SetCovers(Names(p1, DstAddr), Names(p2, DstAddr));
      assert SetCovers(Names(p1, Service), Names(p2, Service));
    }
  }

  /** What a packet is to the policies: the names it falls under, part by part. A meaning of the names gives
      every packet such a set; nothing is assumed of it. */
  type Packet = iset<(Part, string)>

  ghost predicate Hits(packet: Packet, part: Part, names: seq<string>) {
    exists i :: 0 <= i < |names| && (part, names[i]) in packet
  }

  ghost predicate Matches(p: Policy, packet: Packet) {
    forall part :: Hits(packet, part, Names(p, part))
  }

  /** A disabled policy takes no packet. */
  ghost predicate Takes(p: Policy, packet: Packet) { p.status != "disable" && Matches(p, packet) }

  /** The first policy that takes it decides the packet. */
  ghost function FirstMatch(ps: seq<Policy>, packet: Packet): Option<Policy> {
    if ps == [] then None
    else if Takes(ps[0], packet) then Some(ps[0])
    else FirstMatch(ps[1..], packet)
  }

  /** Every name that is an all-token, in every part. */
  ghost function AllTokens(): Packet { iset x: (Part, string) | IsAllToken(x.1) }

  /** The packet falls under every all-token: what the analysis takes these tokens to mean. */
  ghost predicate AllMeansEverything(packet: Packet) { AllTokens() <= packet }

  ghost predicate HasName(packet: Packet, part: Part) { exists name :: (part, name) in packet }

  /** Some policy could match the packet. */
  ghost predicate Matchable(packet: Packet) { forall part :: HasName(packet, part) }

  lemma {:induction false} FirstMatchAppend(ps: seq<Policy>, p: Policy, packet: Packet)
    ensures FirstMatch(ps + [p], packet) ==
            if FirstMatch(ps, packet).Some? then FirstMatch(ps, packet)
            else if Takes(p, packet) then Some(p)
            else None
  {
    if ps != [] {
      assert (ps + [p])[1..] == ps[1..] + [p];
      FirstMatchAppend(ps[1..], p, packet);
    }
  }

  lemma {:induction false} SomeMatch(ps: seq<Policy>, i: nat, packet: Packet)
    requires i < |ps| && Takes(ps[i], packet)
    ensures FirstMatch(ps, packet).Some?
  {
    if i > 0 {
      assert ps[1..][i - 1] == ps[i];
      SomeMatch(ps[1..], i - 1, packet);
    }
  }

  lemma {:induction false} FirstMatchAt(ps: seq<Policy>, j: nat, packet: Packet)
    requires j < |ps| && Takes(ps[j], packet) && forall i :: 0 <= i < j ==> !Takes(ps[i], packet)
    ensures FirstMatch(ps, packet) == Some(ps[j])
  {
    if j > 0 {
      forall i | 0 <= i < j - 1 ensures !Takes(ps[1..][i], packet) {
        assert ps[1..][i] == ps[i + 1];
      }
      FirstMatchAt(ps[1..], j - 1, packet);
    }
  }

  lemma {:induction false} DecidedBy(ps: seq<Policy>, packet: Packet)
    requires FirstMatch(ps, packet).Some?
    ensures FirstMatch(ps, packet).value in ps && Takes(FirstMatch(ps, packet).value, packet)
  {
    if !Takes(ps[0], packet) {
      DecidedBy(ps[1..], packet);
    }
  }

  // ---------- removing policies ----------

  /** The first n policies without those at these places. */
  ghost function Without(ps: seq<Policy>, drop: set<nat>, n: nat): seq<Policy>
    requires n <= |ps|
  {
    if n == 0 then [] else Without(ps, drop, n - 1) + if n - 1 in drop then [] else [ps[n - 1]]
  }

  /** With a policy every later copy of it is dropped. */
  ghost predicate TakesCopies(ps: seq<Policy>, drop: set<nat>) {
    forall j: nat, k: nat :: j < k < |ps| && j in drop && ps[k] == ps[j] ==> k in drop
  }

  /** One name for each part. */
  datatype Choice = Choice(srcintf: string, dstintf: string, srcaddr: string, dstaddr: string, service: string)

  function Pick(c: Choice, part: Part): string {
    match part
    case SrcIntf => c.srcintf
    case DstIntf => c.dstintf
    case SrcAddr => c.srcaddr
    case DstAddr => c.dstaddr
    case Service => c.service
  }

  ghost predicate Chooses(p: Policy, c: Choice) { forall part :: Pick(c, part) in Names(p, part) }

  /** In each part the policy has the name chosen, or one that every packet falls under. `wide` are the names
      that every packet does; what else the names mean is open. */
  ghost predicate Catches(p: Policy, c: Choice, wide: Packet) {
    forall part :: Hits(wide, part, Names(p, part)) || Pick(c, part) in Names(p, part)
  }

  ghost predicate Caught(ps: seq<Policy>, j: nat, c: Choice, wide: Packet)
    requires j <= |ps|
  {
    exists i :: 0 <= i < j && ps[i].status != "disable" && Catches(ps[i], c, wide)
  }

  /** Each choice of names from a dropped policy is caught by an earlier policy; disabled ones do not count. */
  ghost predicate CaughtEarlier(ps: seq<Policy>, drop: set<nat>, wide: Packet) {
    forall j: nat, c :: j < |ps| && j in drop && ps[j].status != "disable" && Chooses(ps[j], c) ==>
      Caught(ps, j, c, wide)
  }

  /** Removing these policies changes the deciding policy of no packet, whatever the names outside `wide` mean. */
  ghost predicate RemovalIsHarmless(ps: seq<Policy>, drop: set<nat>, wide: Packet) {
    forall packet :: wide <= packet ==> FirstMatch(Without(ps, drop, |ps|), packet) == FirstMatch(ps, packet)
  }

  lemma HitName(packet: Packet, part: Part, names: seq<string>) returns (name: string)
    requires Hits(packet, part, names)
    ensures name in names && (part, name) in packet
  {
    var i :| 0 <= i < |names| && (part, names[i]) in packet;
    name := names[i];
  }

  lemma HitChoice(p: Policy, packet: Packet) returns (c: Choice)
    requires Matches(p, packet)
    ensures Chooses(p, c) && forall part :: (part, Pick(c, part)) in packet
  {
    var a := HitName(packet, SrcIntf, Names(p, SrcIntf));
    var b := HitName(packet, DstIntf, Names(p, DstIntf));
    var d := HitName(packet, SrcAddr, Names(p, SrcAddr));
    var e := HitName(packet, DstAddr, Names(p, DstAddr));
    var f := HitName(packet, Service, Names(p, Service));
    c := Choice(a, b, d, e, f);
  }

  lemma CatcherMatches(p: Policy, c: Choice, wide: Packet, packet: Packet)
    requires wide <= packet && Catches(p, c, wide) && forall part :: (part, Pick(c, part)) in packet
    ensures Matches(p, packet)
  {
    forall part ensures Hits(packet, part, Names(p, part)) {
      if Hits(wide, part, Names(p, part)) {
        var i :| 0 <= i < |Names(p, part)| && (part, Names(p, part)[i]) in wide;
        assert (part, Names(p, part)[i]) in packet;
      } else {
        var i :| 0 <= i < |Names(p, part)| && Names(p, part)[i] == Pick(c, part);
      }
    }
  }

  lemma {:induction false} DropPrefix(ps: seq<Policy>, drop: set<nat>, wide: Packet, n: nat, packet: Packet)
    requires n <= |ps| && wide <= packet && CaughtEarlier(ps, drop, wide)
    ensures FirstMatch(Without(ps, drop, n), packet) == FirstMatch(ps[..n], packet)
  {
    if n > 0 {
      var p := ps[n - 1];
      DropPrefix(ps, drop, wide, n - 1, packet);
      assert ps[..n] == ps[..n - 1] + [p];
      FirstMatchAppend(ps[..n - 1], p, packet);
      if n - 1 !in drop {
        FirstMatchAppend(Without(ps, drop, n - 1), p, packet);
      } else {
        assert Without(ps, drop, n) == Without(ps, drop, n - 1);
        if Takes(p, packet) {
          var c := HitChoice(p, packet);
          assert Caught(ps, n - 1, c, wide);
          var i :| 0 <= i < n - 1 && ps[i].status != "disable" && Catches(ps[i], c, wide);
          CatcherMatches(ps[i], c, wide, packet);
          SomeMatch(ps[..n - 1], i, packet);
        }
      }
    }
  }

  lemma {:induction false} KeptPlace(ps: seq<Policy>, drop: set<nat>, n: nat, p: Policy) returns (k: nat)
    requires n <= |ps| && p in Without(ps, drop, n)
    ensures k < n && k !in drop && ps[k] == p
  {
    if p in Without(ps, drop, n - 1) {
      k := KeptPlace(ps, drop, n - 1, p);
    } else {
      k := n - 1;
    }
  }

  /** The packet that falls under these names and the wide ones, and nothing else. */
  ghost function Only(c: Choice, wide: Packet): Packet {
    wide + iset x: (Part, string) | x.1 == Pick(c, x.0)
  }

  lemma OnlyCatchersMatch(p: Policy, c: Choice, wide: Packet)
    ensures Chooses(p, c) ==> Matches(p, Only(c, wide))
    ensures Matches(p, Only(c, wide)) ==> Catches(p, c, wide)
  {
    if Chooses(p, c) {
      forall part ensures Hits(Only(c, wide), part, Names(p, part)) {
        assert Pick(c, part) in Names(p, part);
        var i :| 0 <= i < |Names(p, part)| && Names(p, part)[i] == Pick(c, part);
        assert (part, Names(p, part)[i]) in Only(c, wide);
      }
    }
    if Matches(p, Only(c, wide)) {
      forall part ensures Hits(wide, part, Names(p, part)) || Pick(c, part) in Names(p, part) {
        var name := HitName(Only(c, wide), part, Names(p, part));
        if name != Pick(c, part) {
          var i :| 0 <= i < |Names(p, part)| && Names(p, part)[i] == name;
          assert (part, Names(p, part)[i]) in wide;
        }
      }
    }
  }

  lemma UncaughtDecides(ps: seq<Policy>, drop: set<nat>, wide: Packet, j: nat, c: Choice)
    requires TakesCopies(ps, drop) && j < |ps| && j in drop && ps[j].status != "disable"
    requires Chooses(ps[j], c) && !Caught(ps, j, c, wide)
    ensures FirstMatch(ps, Only(c, wide)) == Some(ps[j])
    ensures FirstMatch(Without(ps, drop, |ps|), Only(c, wide)) != Some(ps[j])
  {
    var packet := Only(c, wide);
    OnlyCatchersMatch(ps[j], c, wide);
    forall i | 0 <= i < j ensures !Takes(ps[i], packet) {
      OnlyCatchersMatch(ps[i], c, wide);
    }
    FirstMatchAt(ps, j, packet);
    if FirstMatch(Without(ps, drop, |ps|), packet) == Some(ps[j]) {
      DecidedBy(Without(ps, drop, |ps|), packet);
      var k := KeptPlace(ps, drop, |ps|, ps[j]);
    }
  }

  /** Whatever the policies, and whatever the names mean as long as every packet falls under the wide ones:
      removing policies changes no decision exactly if earlier policies catch every choice of names with which
      a removed one could be the first to match. */
  lemma RemovalKeepsDecisionsIff(ps: seq<Policy>, drop: set<nat>, wide: Packet)
    requires TakesCopies(ps, drop)
    ensures RemovalIsHarmless(ps, drop, wide) <==> CaughtEarlier(ps, drop, wide)
  {
    if CaughtEarlier(ps, drop, wide) {
      forall packet | wide <= packet
        ensures FirstMatch(Without(ps, drop, |ps|), packet) == FirstMatch(ps, packet)
      {
        DropPrefix(ps, drop, wide, |ps|, packet);
        assert ps[..|ps|] == ps;
      }
    } else {
      var j: nat, c :| j < |ps| && j in drop && ps[j].status != "disable" && Chooses(ps[j], c) &&
        !Caught(ps, j, c, wide);
      UncaughtDecides(ps, drop, wide, j, c);
      assert wide <= Only(c, wide);
    }
  }

  // ---------- removing the reported policies ----------

  ghost function ReportedOnes(ps: seq<Policy>): set<nat> { set j: nat | j < |ps| && Reported(ps, j) }

  /** p1 covers p2 without any all-token but the wide ones. */
  ghost predicate CoversWithin(p1: Policy, p2: Policy, wide: Packet) {
    forall part :: Hits(wide, part, Names(p1, part)) || forall x :: x in Names(p2, part) ==> x in Names(p1, part)
  }

  ghost predicate CoveredWithin(ps: seq<Policy>, j: nat, wide: Packet)
    requires j < |ps|
  {
    exists i :: 0 <= i < j && ps[i].status != "disable" && CoversWithin(ps[i], ps[j], wide)
  }

  /** Where every all-token is wide, the reported policies are so covered. */
  lemma ReportedAreCovered(ps: seq<Policy>, j: nat, wide: Packet)
    requires AllTokens() <= wide && j < |ps| && Reported(ps, j)
    ensures CoveredWithin(ps, j, wide)
  {
    var i :| 0 <= i < j && Hides(ps[i], ps[j]);
    ShadowsByPart(ps[i], ps[j]);
    forall part | AnyAll(Names(ps[i], part)) ensures Hits(wide, part, Names(ps[i], part)) {
      var k :| 0 <= k < |Names(ps[i], part)| && IsAllToken(Names(ps[i], part)[k]);
      assert (part, Names(ps[i], part)[k]) in AllTokens();
    }
    assert forall part :: SetCovers(Names(ps[i], part), Names(ps[j], part));
    assert CoversWithin(ps[i], ps[j], wide);
  }

  lemma CoveredAreCaught(ps: seq<Policy>, drop: set<nat>, wide: Packet)
    requires forall j: nat :: j < |ps| && j in drop ==> CoveredWithin(ps, j, wide)
    ensures CaughtEarlier(ps, drop, wide)
  {
    forall j: nat, c | j < |ps| && j in drop && Chooses(ps[j], c) ensures Caught(ps, j, c, wide) {
      assert CoveredWithin(ps, j, wide);
      var i :| 0 <= i < j && ps[i].status != "disable" && CoversWithin(ps[i], ps[j], wide);
      assert Catches(ps[i], c, wide);
    }
  }

  /** Removing all reported policies together is harmless exactly if earlier policies catch every choice from
      them by wide names or the chosen ones. With no wide name: whatever the tokens mean. It is when each of
      them is covered without any other all-token, and so always when all all-tokens are wide. */
  lemma RemovingTheReportedIsHarmlessIff(ps: seq<Policy>, wide: Packet)
    ensures RemovalIsHarmless(ps, ReportedOnes(ps), wide) <==> CaughtEarlier(ps, ReportedOnes(ps), wide)
    ensures (forall j: nat :: j < |ps| && Reported(ps, j) ==> CoveredWithin(ps, j, wide)) ==>
              RemovalIsHarmless(ps, ReportedOnes(ps), wide)
    ensures AllTokens() <= wide ==> RemovalIsHarmless(ps, ReportedOnes(ps), wide)
  {
    var drop := ReportedOnes(ps);
    forall j: nat, k: nat | j < k < |ps| && j in drop && ps[k] == ps[j] ensures k in drop {
      var i :| 0 <= i < j && Hides(ps[i], ps[j]);
      assert Reported(ps, k);
    }
    RemovalKeepsDecisionsIff(ps, drop, wide);
    if AllTokens() <= wide {
      forall j: nat | j < |ps| && Reported(ps, j) ensures CoveredWithin(ps, j, wide) {
        ReportedAreCovered(ps, j, wide);
      }
    }
    if forall j: nat :: j < |ps| && Reported(ps, j) ==> CoveredWithin(ps, j, wide) {
      CoveredAreCaught(ps, drop, wide);
    }
  }

  ghost predicate SameDecision(ps: seq<Policy>, packet: Packet) {
    FirstMatch(Without(ps, ReportedOnes(ps), |ps|), packet) == FirstMatch(ps, packet)
  }

  /** So where the all-tokens mean everything, shadow analysis preserves meaning: removing all reported policies
      together leaves the deciding policy of every packet the same. */
  lemma RemovingReportedPoliciesChangesNoDecision(ps: seq<Policy>, packet: Packet)
    requires AllMeansEverything(packet)
    ensures SameDecision(ps, packet)
  {
    RemovingTheReportedIsHarmlessIff(ps, AllTokens());
  }

  lemma {:induction false} NothingMatches(ps: seq<Policy>, packet: Packet)
    requires !Matchable(packet)
    ensures FirstMatch(ps, packet) == None
  {
    var part :| !HasName(packet, part);
    if ps != [] {
      assert !Hits(packet, part, Names(ps[0], part));
      NothingMatches(ps[1..], packet);
    }
  }

  /** The policy with one name in each part. */
  function Single(name: Part -> string): Policy {
    Policy("", "enable", "accept", [name(SrcIntf)], [name(DstIntf)], [name(SrcAddr)], [name(DstAddr)], [name(Service)])
  }

  lemma SingleNames(name: Part -> string, part: Part)
    ensures Names(Single(name), part) == [name(part)]
  {
  }

  /** A policy with an all-token in one part shadows the one with a name there, although it need not match. */
  lemma Misreported(packet: Packet, open: Part, token: string, name: Part -> string) returns (ps: seq<Policy>)
    requires IsAllToken(token) && (open, token) !in packet && forall part :: (part, name(part)) in packet
    ensures |ps| == 2 && Names(ps[0], open) == [token] && Reported(ps, 1)
    ensures FirstMatch(ps, packet) == Some(ps[1]) && FirstMatch(Without(ps, ReportedOnes(ps), 2), packet) == None
  {
    var other := (part: Part) => if part == open then token else name(part);
    var p1, p2 := Single(other), Single(name);
    ps := [p1, p2];
    forall part ensures SetCovers(Names(p1, part), Names(p2, part)) && Hits(packet, part, Names(p2, part)) {
      SingleNames(other, part);
      SingleNames(name, part);
      assert Names(p1, part)[0] == other(part) && Names(p2, part)[0] == name(part);
    }
    ShadowsByPart(p1, p2);
    assert Hides(ps[0], ps[1]);
    SingleNames(other, open);
    assert !Hits(packet, open, Names(p1, open));
    FirstMatchAt(ps, 1, packet);
    var drop := ReportedOnes(ps);
    assert !Reported(ps, 0) && Reported(ps, 1) && Without(ps, drop, 1) == [p1] == Without(ps, drop, 2);
    assert [p1][1..] == [];
  }

  /** That is what they must mean: removal of the reported policies is harmless for a packet, whatever the
      policies, exactly if no policy could match it at all or it falls under every all-token. */
  lemma RemovalIsHarmlessIff(packet: Packet)
    ensures (forall ps :: SameDecision(ps, packet)) <==> !Matchable(packet) || AllMeansEverything(packet)
  {
    if !Matchable(packet) {
      forall ps ensures SameDecision(ps, packet) {
        NothingMatches(ps, packet);
        NothingMatches(Without(ps, ReportedOnes(ps), |ps|), packet);
      }
    } else if AllMeansEverything(packet) {
      forall ps ensures SameDecision(ps, packet) {
        RemovingReportedPoliciesChangesNoDecision(ps, packet);
      }
    } else {
      var x :| x in AllTokens() && x !in packet;
      assert HasName(packet, SrcIntf) && HasName(packet, DstIntf) && HasName(packet, SrcAddr) &&
        HasName(packet, DstAddr) && HasName(packet, Service);
      var a :| (SrcIntf, a) in packet;
      var b :| (DstIntf, b) in packet;
      var c :| (SrcAddr, c) in packet;
      var d :| (DstAddr, d) in packet;
      var e :| (Service, e) in packet;
      var name := (part: Part) =>
        match part case SrcIntf => a case DstIntf => b case SrcAddr => c case DstAddr => d case Service => e;
      var ps := Misreported(packet, x.0, x.1, name);
      assert !SameDecision(ps, packet);
    }
  }

  lemma LowerTcp()
    ensures AsciiLower("_TCP") == "_tcp"
  {
    assert AsciiLower("P") == "p";
    assert AsciiLower("CP") == "cp";
    assert AsciiLower("TCP") == "tcp";
  }

  lemma AllTcpIsAToken()
    ensures IsAllToken("ALL_TCP")
  {
    LowerTcp();
    assert AsciiLower("L_TCP") == "l_tcp";
    assert AsciiLower("LL_TCP") == "ll_tcp";
    assert AsciiLower("ALL_TCP") == "all_tcp";
  }

  /** To a device ALL_TCP is every TCP service and no more. A DNS query over UDP falls under "all" and under
      DNS, not under ALL_TCP: the policy for DNS behind one for ALL_TCP is reported, and decides it. */
  lemma AllTcpIsNotEverything(packet: Packet) returns (ps: seq<Policy>)
    requires (forall part :: (part, "all") in packet) && (Service, "DNS") in packet && (Service, "ALL_TCP") !in packet
    ensures |ps| == 2 && ps[0].service == ["ALL_TCP"] && Reported(ps, 1)
    ensures FirstMatch(ps, packet) == Some(ps[1]) && FirstMatch(Without(ps, ReportedOnes(ps), 2), packet) == None
  {
    AllTcpIsAToken();
    ps := Misreported(packet, Service, "ALL_TCP", (part: Part) => if part.Service? then "DNS" else "all");
  }

  // ---------- what the report names: ids ----------

  /** The places of the policies with one of these ids. */
  ghost function OnesWith(ps: seq<Policy>, ids: set<string>): set<nat> { set j: nat | j < |ps| && ps[j].id in ids }

  ghost function ReportedIds(ps: seq<Policy>): set<string> {
    set j | 0 <= j < |ps| && Reported(ps, j) :: ps[j].id
  }

  /** The report names exactly the ids of the reported policies. */
  lemma TheReportNamesThem(ps: seq<Policy>, id: string)
    ensures id in ReportedIds(ps) <==> exists s: Shadow :: ReportedPair(ps, s) && s.shadowedId == id
  {
    if id in ReportedIds(ps) {
      var j :| 0 <= j < |ps| && Reported(ps, j) && ps[j].id == id;
      var i :| 0 <= i < j && Hides(ps[i], ps[j]);
      assert ReportedPair(ps, Shadow(ps[j].id, ps[i].id));
    }
    if s: Shadow :| ReportedPair(ps, s) && s.shadowedId == id {
      var a, b :| 0 <= a < b < |ps| && Hides(ps[a], ps[b]) && s == Shadow(ps[b].id, ps[a].id);
      assert Reported(ps, b);
    }
  }

  /** Removing every policy with one of these ids is harmless exactly under that condition. */
  lemma RemovalByIdIsHarmlessIff(ps: seq<Policy>, ids: set<string>, wide: Packet)
    ensures RemovalIsHarmless(ps, OnesWith(ps, ids), wide) <==> CaughtEarlier(ps, OnesWith(ps, ids), wide)
  {
    RemovalKeepsDecisionsIff(ps, OnesWith(ps, ids), wide);
  }

  /** So for the ids of the report; with all all-tokens wide it holds when only reported policies carry them. */
  lemma RemovingReportedIdsIsHarmlessIff(ps: seq<Policy>, wide: Packet)
    ensures var drop := OnesWith(ps, ReportedIds(ps));
            RemovalIsHarmless(ps, drop, wide) <==> CaughtEarlier(ps, drop, wide)
    ensures AllTokens() <= wide && (forall j :: 0 <= j < |ps| && ps[j].id in ReportedIds(ps) ==> Reported(ps, j)) ==>
              CaughtEarlier(ps, OnesWith(ps, ReportedIds(ps)), wide)
  {
    RemovalByIdIsHarmlessIff(ps, ReportedIds(ps), wide);
    forall j: nat | AllTokens() <= wide && j < |ps| && Reported(ps, j) ensures CoveredWithin(ps, j, wide) {
      ReportedAreCovered(ps, j, wide);
    }
    if AllTokens() <= wide && forall j :: 0 <= j < |ps| && ps[j].id in ReportedIds(ps) ==> Reported(ps, j) {
      CoveredAreCaught(ps, OnesWith(ps, ReportedIds(ps)), wide);
    }
  }

  /** When they are not: the parser gives every block without a numeric id the id "?", and a report about one
      such policy then names another that decides packets. */
  lemma SharedIdsMislead(first: Policy, shadowed: Policy, other: Policy, c: Choice, wide: Packet)
    requires Hides(first, shadowed) && shadowed.id == other.id && other.status != "disable"
    requires Chooses(other, c) && !Catches(first, c, wide) && !Catches(shadowed, c, wide)
    ensures var ps := [first, shadowed, other]; !RemovalIsHarmless(ps, OnesWith(ps, ReportedIds(ps)), wide)
  {
    var ps := [first, shadowed, other];
    assert Hides(ps[0], ps[1]);
    assert Reported(ps, 1) && ps[1].id in ReportedIds(ps);
    assert Chooses(ps[2], c) && forall i :: 0 <= i < 2 ==> !Catches(ps[i], c, wide);
    RemovingReportedIdsIsHarmlessIff(ps, wide);
  }

  lemma SmallNames()
    ensures !IsAllToken("a") && !IsAllToken("b") && IsAllToken("all")
  {
    assert AsciiLower("l") == "l" && AsciiLower("ll") == "ll" && AsciiLower("all") == "all";
    assert AsciiLower("a") == "a" && AsciiLower("b") == "b";
  }

  /** For instance: two policies without a number, one for the source of the policy before it, one for another. */
  lemma SharedIdsExample() returns (ps: seq<Policy>)
    ensures |ps| == 3 && ps[1].id == "?" == ps[2].id && ps[2].srcaddr == ["b"]
    ensures !RemovalIsHarmless(ps, OnesWith(ps, ReportedIds(ps)), AllTokens())
  {
    var first := Policy("1", "enable", "accept", ["all"], ["all"], ["a"], ["all"], ["all"]);
    var shadowed := first.(id := "?");
    var other := shadowed.(srcaddr := ["b"]);
    ps := [first, shadowed, other];
    var c := Choice("all", "all", "b", "all", "all");
    SmallNames();
    assert Names(first, SrcAddr) == ["a"] && !AnyAll(["a"]) && Pick(c, SrcAddr) == "b";
    assert Chooses(other, c) && !Catches(first, c, AllTokens()) && !Catches(shadowed, c, AllTokens());
    SharedIdsMislead(first, shadowed, other, c, AllTokens());
  }
}
