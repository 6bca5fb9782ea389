/** Several worker processes on one license storage, as a state machine: any interleaving of their
    calls, with any clock readings, replies and write failures, restarts, and writes from outside. */
module LicenseSystem {
  import opened Options
  import opened LicenseToken
  import opened LicenseModel

  /** Where a process is. Startup attaches and then restores before anything else runs in it
      (app/main.py). Between the two halves of a sync the other threads go on, another sync does not. */
  datatype Phase = Down | Restoring | Idle | Syncing(todo: Pending)

  /** `answers`: what validations of the process's threads came back with, not yet taken as its state. */
  datatype Node = Node(proc: Proc, phase: Phase, answers: multiset<Answer>)

  datatype System = System(store: Storage, nodes: seq<Node>)

  datatype Event =
    | Boot(w: nat)
    | Restore(w: nat, now: Time)
    | Ask(w: nat, now: Time)                                                // get_license_state
    | Validate(w: nat, reply: Reply, nonce: string)                         // client.validate() comes back
    | Refresh(w: nat, a: Answer, now: Time, seen: Time, ok: bool, read: Time)  // refresh_license_state goes on with it
    | Refuse(w: nat, now: Time, seen: Time, ok: bool)                       // mark_license_rejected
    | Lose(w: nat, seen: Time, ok: bool)                                    // mark_license_server_offline
    | Begin(w: nat, mono: Time)                                             // sync_with_storage, stamps
    | End(w: nat, reply: Reply, nonce: string, now: Time, seen: Time, ok: bool, read: Time)  // and load
    | Install(data: Option<LicenseData>)                                    // a license file is written
    | Overwrite(entry: Option<CacheEntry>)                                  // the cache is written from outside
    | Remove(both: bool)                                                    // the license file (or both) deleted

  predicate Running(n: Node) { n.phase.Idle? || n.phase.Syncing? }

  function Call(n: Node, r: (Proc, Storage)): (Node, Storage) {
    (n.(proc := r.0), r.1)
  }

  /** One call in one process: the new process and the new files. */
  function NodeStep(setup: Setup, n: Node, st: Storage, e: Event): (Node, Storage) {
    match e
    case Boot(_) => (Node(Attach(FRESH, st), Restoring, multiset{}), st)
    case Restore(_, now) =>
      if n.phase.Restoring?
      then (n.(proc := RestoreCachedState(setup, n.proc, st, now), phase := Idle), st)
      else (n, st)
    case Ask(_, now) => if Running(n) then (n.(proc := Get(n.proc, now).1), st) else (n, st)
    case Validate(_, reply, nonce) =>
      if Running(n) then (n.(answers := n.answers + multiset{ClientValidate(setup, st, reply, nonce)}), st) else (n, st)
    case Refresh(_, a, now, seen, ok, read) =>
      if Running(n) && a in n.answers
      then Call(n.(answers := n.answers - multiset{a}), Refreshed(setup, n.proc, st, a, now, seen, ok, read))
      else (n, st)
    case Refuse(_, now, seen, ok) =>
      if Running(n) then Call(n, MarkRejected(setup, n.proc, st, now, seen, ok)) else (n, st)
    case Lose(_, seen, ok) =>
      if Running(n) then Call(n, MarkOffline(setup, n.proc, st, seen, ok)) else (n, st)
    case Begin(_, mono) =>
      if n.phase.Idle? then
        var (p, todo) := SyncBegin(n.proc, st, mono);
        (n.(proc := p, phase := if todo.Load? then Syncing(todo) else Idle), st)
      else (n, st)
    case End(_, reply, nonce, now, seen, ok, read) =>
      if n.phase.Syncing?
      then Call(n.(phase := Idle), SyncEnd(setup, n.proc, st, n.phase.todo, reply, nonce, now, seen, ok, read))
      else (n, st)
    case _ => (n, st)
  }

  predicate External(e: Event) { e.Install? || e.Overwrite? || e.Remove? }

  function ExternalStep(st: Storage, e: Event): Storage
    requires External(e)
  {
    match e
    case Install(data) => WriteLicense(st, data)
    case Overwrite(entry) => WriteCache(st, entry)
    case Remove(both) => if both then st.(license := None, cache := None) else st.(license := None)
  }

  function Step(setup: Setup, s: System, e: Event): (s': System)
    ensures |s'.nodes| == |s.nodes|
  {
    if External(e) then s.(store := ExternalStep(s.store, e))
    else if e.w >= |s.nodes| then s
    else
      var (n, st) := NodeStep(setup, s.nodes[e.w], s.store, e);
      System(st, s.nodes[e.w := n])
  }

  function Run(setup: Setup, s: System, events: seq<Event>): (s': System)
    ensures |s'.nodes| == |s.nodes|
    decreases |events|
  {
    if events == [] then s else Run(setup, Step(setup, s, events[0]), events[1..])
  }

  const DOWN := Node(FRESH, Down, multiset{})

  /** Nothing runs yet; the files may hold anything. */
  ghost predicate Initial(s: System) {
    && WellStamped(s.store)
    && forall w :: 0 <= w < |s.nodes| ==> s.nodes[w] == DOWN
  }

  ghost predicate WellStamped(st: Storage) {
    (st.license.Some? ==> st.license.value.stamp <= st.writes) && (st.cache.Some? ==> st.cache.value.stamp <= st.writes)
  }

  ghost predicate NoBoot(events: seq<Event>, w: nat) {
    forall i :: 0 <= i < |events| ==> !(events[i].Boot? && events[i].w == w)
  }

  lemma {:induction false} RunAppend(setup: Setup, s: System, a: seq<Event>, b: seq<Event>)
    ensures Run(setup, s, a + b) == Run(setup, Run(setup, s, a), b)
    decreases |a|
  {
    if a == [] {
      assert a + b == b;
    } else {
      assert (a + b)[0] == a[0] && (a + b)[1..] == a[1..] + b;
      RunAppend(setup, Step(setup, s, a[0]), a[1..], b);
    }
  }

  lemma {:induction false} RunLast(setup: Setup, s: System, events: seq<Event>)
    requires events != []
    ensures Run(setup, s, events) == Step(setup, Run(setup, s, events[..|events| - 1]), events[|events| - 1])
  {
    var n := |events| - 1;
    assert events == events[..n] + [events[n]];
    RunAppend(setup, s, events[..n], [events[n]]);
    assert [events[n]][1..] == [];
  }

  lemma RunThree(setup: Setup, s: System, events: seq<Event>) returns (r: System)
    requires |events| == 3
    ensures r == Step(setup, Step(setup, Step(setup, s, events[0]), events[1]), events[2]) == Run(setup, s, events)
  {
    r := Step(setup, Step(setup, Step(setup, s, events[0]), events[1]), events[2]);
    var s1 := Step(setup, s, events[0]);
    var s2 := Step(setup, s1, events[1]);
    assert events[1..][1..] == [events[2]] && [events[2]][1..] == [];
    assert Run(setup, s2, [events[2]]) == Run(setup, r, []) == r;
    assert Run(setup, s1, events[1..]) == Run(setup, s2, [events[2]]);
  }

  lemma RunFive(setup: Setup, s: System, events: seq<Event>) returns (r: System)
    requires |events| == 5
    ensures var s3 := Step(setup, Step(setup, Step(setup, s, events[0]), events[1]), events[2]);
            r == Step(setup, Step(setup, s3, events[3]), events[4])
    ensures r == Run(setup, s, events)
  {
    var s2 := Step(setup, Step(setup, s, events[0]), events[1]);
    r := RunThree(setup, s2, events[2..]);
    assert events[1..][1..] == events[2..] && events[1..][0] == events[1];
  }

  // ---------- what holds in every reachable state ----------

  /** A raw "valid" comes from a token a trusted key signed for this machine, and every entitlement field is
      what that token says. */
  ghost predicate Honest(setup: Setup, p: Proc) {
    p.state.valid ==>
      && p.state.lastValidatedAt.Some?
      && p.signedToken.Some?
      && setup.trust.signed(p.signedToken.value).Some?
      && var s := ClaimsToState(setup.trust.signed(p.signedToken.value).value, p.signedToken.value);
         && Genuine(setup.trust, s)
         && s.valid
         && p.state == Apply(p.state, s)
         && p.state.issuedAt == UtcFromEpoch(s.issuedAt)
  }

  ghost predicate NodeInv(setup: Setup, n: Node) {
    && Honest(setup, n.proc)
    && (forall a :: a in n.answers && a.Signed? ==> Genuine(setup.trust, a.state))
    && (n.phase.Down? ==> n == DOWN)
    && (n.phase.Restoring? ==> n.proc.state == NO_LICENSE && n.proc.signedToken.None?)
    && (!n.phase.Down? ==> n.proc.attached)
    && (n.phase.Syncing? ==> n.phase.todo.Load? && (n.phase.todo.licenseGone <==> n.proc.licenseStamp.None?))
  }

  ghost predicate SystemInv(setup: Setup, s: System) {
    && WellStamped(s.store)
    && forall w :: 0 <= w < |s.nodes| ==> NodeInv(setup, s.nodes[w])
  }

  lemma VerifiedIsGenuine(setup: Setup, st: Storage, reply: Reply, nonce: string)
    ensures var a := ClientValidate(setup, st, reply, nonce); a.Signed? ==> Genuine(setup.trust, a.state)
    ensures var stored := StoredAnswer(setup, st); stored.Some? ==>
              Genuine(setup.trust, stored.value.0) && UtcFromEpoch(stored.value.0.issuedAt) == Some(stored.value.1)
  {
  }

  /** Any answer to a validation that is genuine, if it is signed, leaves an honest state. */
  lemma AnswerIsHonest(setup: Setup, p: Proc, st: Storage, a: Answer, now: Time, seen: Time, ok: bool, read: Time)
    requires Honest(setup, p) && WellStamped(st) && (a.Signed? ==> Genuine(setup.trust, a.state))
    ensures var (p', st') := Refreshed(setup, p, st, a, now, seen, ok, read);
            Honest(setup, p') && p'.attached == p.attached && p'.licenseStamp == p.licenseStamp && WellStamped(st')
  {
  }

  lemma AdoptedIsHonest(setup: Setup, p: Proc, st: Storage)
    requires Honest(setup, p)
    ensures var p' := AdoptCachedAnswer(setup, p, st);
            Honest(setup, p') && p'.attached == p.attached && p'.licenseStamp == p.licenseStamp
  {
    VerifiedIsGenuine(setup, st, NoAnswer, "");
  }

  lemma EndInv(setup: Setup, n: Node, st: Storage, e: Event)
    requires NodeInv(setup, n) && WellStamped(st) && e.End?
    ensures NodeInv(setup, NodeStep(setup, n, st, e).0) && WellStamped(NodeStep(setup, n, st, e).1)
  {
    VerifiedIsGenuine(setup, st, e.reply, e.nonce);
    AnswerIsHonest(setup, n.proc, st, ClientValidate(setup, st, e.reply, e.nonce), e.now, e.seen, e.ok, e.read);
    AdoptedIsHonest(setup, n.proc, st);
  }

  lemma RefreshInv(setup: Setup, n: Node, st: Storage, e: Event)
    requires NodeInv(setup, n) && WellStamped(st) && e.Refresh?
    ensures NodeInv(setup, NodeStep(setup, n, st, e).0) && WellStamped(NodeStep(setup, n, st, e).1)
  {
    if e.a in n.answers {
      AnswerIsHonest(setup, n.proc, st, e.a, e.now, e.seen, e.ok, e.read);
    }
  }

  lemma RestoreInv(setup: Setup, n: Node, st: Storage, e: Event)
    requires NodeInv(setup, n) && e.Restore?
    ensures NodeInv(setup, NodeStep(setup, n, st, e).0)
  {
    VerifiedIsGenuine(setup, st, NoAnswer, "");
  }

  lemma SmallCallInv(setup: Setup, n: Node, st: Storage, e: Event)
    requires NodeInv(setup, n) && WellStamped(st) && (e.Boot? || e.Ask? || e.Refuse? || e.Lose? || e.Begin?)
    ensures NodeInv(setup, NodeStep(setup, n, st, e).0) && WellStamped(NodeStep(setup, n, st, e).1)
  {
  }

  lemma ValidateInv(setup: Setup, n: Node, st: Storage, e: Event)
    requires NodeInv(setup, n) && e.Validate?
    ensures NodeInv(setup, NodeStep(setup, n, st, e).0)
  {
    VerifiedIsGenuine(setup, st, e.reply, e.nonce);
  }

  lemma NodeStepInv(setup: Setup, n: Node, st: Storage, e: Event)
    requires NodeInv(setup, n) && WellStamped(st)
    ensures NodeInv(setup, NodeStep(setup, n, st, e).0) && WellStamped(NodeStep(setup, n, st, e).1)
  {
    if e.Restore? {
      RestoreInv(setup, n, st, e);
    } else if e.Validate? {
      ValidateInv(setup, n, st, e);
    } else if e.Refresh? {
      RefreshInv(setup, n, st, e);
    } else if e.End? {
      EndInv(setup, n, st, e);
    } else if !External(e) {
      SmallCallInv(setup, n, st, e);
    }
  }

  lemma StepInv(setup: Setup, s: System, e: Event)
    requires SystemInv(setup, s)
    ensures SystemInv(setup, Step(setup, s, e))
  {
    if !External(e) && e.w < |s.nodes| {
      NodeStepInv(setup, s.nodes[e.w], s.store, e);
    }
  }

  lemma {:induction false} RunInv(setup: Setup, s: System, events: seq<Event>)
    requires SystemInv(setup, s)
    ensures SystemInv(setup, Run(setup, s, events))
    decreases |events|
  {
    if events != [] {
      StepInv(setup, s, events[0]);
      RunInv(setup, Step(setup, s, events[0]), events[1..]);
    }
  }

  /** The event hands worker w a signed answer: its own, an installed offline license file, or one
      another worker cached. */
  predicate TakesAnswer(setup: Setup, s: System, e: Event, w: nat)
    requires w < |s.nodes|
  {
    var n := s.nodes[w];
    match e
    case Refresh(i, a, _, _, _, _) => i == w && Running(n) && a in n.answers && a.Signed?
    case End(i, reply, nonce, _, _, _, _) =>
      && i == w
      && n.phase.Syncing?
      && n.phase.todo.Load?
      && !(n.phase.todo.licenseChanged && n.phase.todo.licenseGone)
      && (if n.phase.todo.licenseChanged && IsOffline(s.store) then ClientValidate(setup, s.store, reply, nonce).Signed?
          else Adopts(setup, n.proc, s.store))
    case _ => false
  }

  /** Over every run of every number of workers: a raw "valid" carries a validation time and a token
      a trusted key signed for this machine, and every entitlement field is what that token grants. So the case "valid
      but nothing to count the windows from" is never reached. */
  lemma NothingUnsignedBecomesALicense(setup: Setup, s: System, events: seq<Event>, w: nat)
    requires Initial(s) && w < |s.nodes|
    ensures Honest(setup, Run(setup, s, events).nodes[w].proc)
    ensures var p := Run(setup, s, events).nodes[w].proc;
            p.state.valid ==> p.state.issuedAt.Some? || p.state.lastValidatedAt.Some?
  {
    RunInv(setup, s, events);
  }
}
