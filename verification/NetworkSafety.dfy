/** What every step of the network protocol keeps. */
module NetworkSafety {
  import opened Prelude
  import opened NetworkLocks
  import opened NetworkProtocol

  /** Which jobs go with which lock status. */
  predicate Shape(job: Job, act: Act) {
    match act
    case Outside => job.Check? || job.Ready? || job.Resolve? || job.Resolved?
    case Waiting(n, _) => (job.CallCreate? && job.req.name == n) || (job.Resolved? && job.net.name == n)
    case Holding(n, _) =>
      || ((job.CallCreate? || Posting(job)) && job.req.name == n && (job.AddRules? ==> job.protos != {}))
      || (job.Unlabel? && job.net.name == n)
      || job.Return?
    case Releasing(_, _) => job.Return?
    case Finished => job.Return?
  }

  /** Jobs of a Create whose network has been made and whose mutex is still held. */
  predicate Posting(job: Job) {
    job.SetBridge? || job.GetBridge? || job.AddRules? || job.Cleanup? || job.AwaitCleanup?
  }

  /** A cleanup's nested Remove is about the very network its Create holds the lock of, and it
      never gets past Lock. */
  ghost predicate ChildOk(s: State, i: nat)
    requires WellShaped(s) && i < |s.jobs| && s.jobs[i].AwaitCleanup? && s.lk.acts[i].Holding?
  {
    var c := s.jobs[i].child;
    && c < |s.jobs| && c != i
    && match s.lk.acts[c]
       case Outside =>
         || s.jobs[c] == Resolve(s.jobs[i].req.name)
         || (s.jobs[c].Resolved? && s.jobs[c].net.name == s.jobs[i].req.name)
       case Waiting(n, m) => n == s.lk.acts[i].name && m == s.lk.acts[i].mutex
       case Finished => true
       case _ => false
  }

  ghost predicate ActivationOk(s: State, i: nat)
    requires WellShaped(s) && i < |s.jobs|
  {
    && Shape(s.jobs[i], s.lk.acts[i])
    && (Posting(s.jobs[i]) ==> s.jobs[i].req.name in s.nets)
    && (s.jobs[i].AwaitCleanup? ==> ChildOk(s, i))
  }

  ghost predicate CoreInv(s: State) {
    && WellShaped(s) && LockInv(s.lk) && NetsOk(s.nets)
    && forall i :: 0 <= i < |s.jobs| ==> ActivationOk(s, i)
  }

  /** Looking a live network up by its own name finds that network or nothing. */
  lemma LookupByName(nets: map<Name, Net>, n: Name)
    requires NetsOk(nets) && n in nets
    ensures GetNetwork(nets, n).Some? ==> GetNetwork(nets, n).value == nets[n]
  {
    assert Matches(nets[n], n);
  }

  lemma LookupIsFiled(nets: map<Name, Net>, q: string)
    requires NetsOk(nets) && GetNetwork(nets, q).Some?
    ensures var net := GetNetwork(nets, q).value; net.name in nets && nets[net.name] == net
  {
  }

  predicate MoveBy(v: LockMove, i: nat) {
    v.Spawn? || v.Work? || v.i == i
  }

  /** What a step of activation `i` may touch: its own job and lock status, and, inside the
      backend section of a name, that network and the rules of its bridge. */
  ghost predicate Effect(s: State, t: State, i: nat, v: LockMove) {
    && WellShaped(s) && i < |s.jobs| && CanMove(s.lk, v) && MoveBy(v, i) && t.lk == Move(s.lk, v)
    && |t.jobs| == |t.lk.acts|
    && (forall j :: 0 <= j < |s.jobs| && j != i ==> t.jobs[j] == s.jobs[j])
    && (forall k :: !InSection(s, i, k) ==>
          (k in s.nets <==> k in t.nets) && (k in s.nets ==> t.nets[k] == s.nets[k]))
  }

  predicate InSection(s: State, i: nat, k: Name)
    requires WellShaped(s) && i < |s.jobs|
  {
    s.lk.acts[i].Holding? && s.lk.acts[i].name == k
  }

  /** The part of the invariant a single activation's step needs. */
  ghost predicate LocalOk(s: State, i: nat) {
    WellShaped(s) && NetsOk(s.nets) && i < |s.jobs| && ActivationOk(s, i)
  }

  ghost predicate StepOk(s: State, t: State, i: nat, v: LockMove) {
    && Effect(s, t, i, v) && NetsOk(t.nets) && ActivationOk(t, i)
    && (v.Spawn? ==> ActivationOk(t, |s.jobs|) && t.jobs[|s.jobs|].Resolve?)
  }

  lemma OutsideEffect(s: State, i: nat, c: Choice) returns (v: LockMove)
    requires LocalOk(s, i) && Enabled(s, i, c) && s.lk.acts[i].Outside?
    ensures StepOk(s, OutsideStep(s, i, c), i, v)
  {
    v := match s.jobs[i]
      case Ready(req) => Ensure(i, req.name)
      case Resolved(net) => Ensure(i, net.name)
      case Check(req) => if c.Go? && GetNetwork(s.nets, req.name).Some? then Leave(i) else Work
      case Resolve(q) =>
        if c.Go? && GetNetwork(s.nets, q).Some? && !GetNetwork(s.nets, q).value.predefined then Work else Leave(i);
  }

  lemma LockEffect(s: State, i: nat)
    requires LocalOk(s, i) && Enabled(s, i, Go) && s.lk.acts[i].Waiting?
    ensures StepOk(s, LockStep(s, i), i, Lock(i))
  {
  }

  lemma CreateEffect(s: State, i: nat, c: Choice)
    requires LocalOk(s, i) && Enabled(s, i, c) && s.lk.acts[i].Holding? && s.jobs[i].CallCreate?
    ensures StepOk(s, CreateStep(s, i, c), i, Work)
  {
  }

  /** A step that only moves the job on, inside the backend section. */
  lemma JobEffect(s: State, i: nat, job: Job)
    requires LocalOk(s, i) && s.lk.acts[i].Holding? && Shape(job, s.lk.acts[i]) && !job.AwaitCleanup?
    requires Posting(job) ==> job.req.name in s.nets
    ensures StepOk(s, Advance(s, i, Work, job), i, Work)
  {
  }

  lemma DropEffect(s: State, t: State, i: nat, v: LockMove, p: Proto, bridge: string, present: bool)
    requires StepOk(s, t, i, v)
    ensures StepOk(s, WithDrop(t, p, bridge, present), i, v)
  {
  }

  lemma SetBridgeEffect(s: State, i: nat, c: Choice)
    requires LocalOk(s, i) && Enabled(s, i, c) && s.lk.acts[i].Holding? && s.jobs[i].SetBridge?
    ensures StepOk(s, SetBridgeStep(s, i, c), i, Work)
  {
  }

  lemma GetBridgeEffect(s: State, i: nat, c: Choice)
    requires LocalOk(s, i) && Enabled(s, i, c) && s.lk.acts[i].Holding? && s.jobs[i].GetBridge?
    ensures StepOk(s, GetBridgeStep(s, i, c), i, Work)
  {
  }

  lemma AddRulesEffect(s: State, i: nat, c: Choice)
    requires LocalOk(s, i) && Enabled(s, i, c) && s.lk.acts[i].Holding? && s.jobs[i].AddRules?
    ensures StepOk(s, AddRulesStep(s, i, c), i, Work)
  {
    var AddRules(req, b, protos) := s.jobs[i];
    var job := if c.ok then AfterRule(req, b, protos - {c.proto}) else Cleanup(req);
    JobEffect(s, i, job);
    if c.ok || c.wiped {
      DropEffect(s, Advance(s, i, Work, job), i, Work, c.proto, b, c.ok);
    }
  }

  lemma CleanupEffect(s: State, i: nat)
    requires LocalOk(s, i) && Enabled(s, i, Go) && s.lk.acts[i].Holding? && s.jobs[i].Cleanup?
    ensures StepOk(s, CleanupStep(s, i), i, Spawn)
  {
  }

  lemma UnlabelEffect(s: State, i: nat, c: Choice)
    requires LocalOk(s, i) && Enabled(s, i, c) && s.lk.acts[i].Holding? && s.jobs[i].Unlabel?
    ensures StepOk(s, UnlabelStep(s, i, c), i, Work)
  {
  }

  lemma ReturnEffect(s: State, i: nat, v: LockMove)
    requires LocalOk(s, i) && CanMove(s.lk, v)
    requires
      || (s.jobs[i].AwaitCleanup? && s.lk.acts[i].Holding? && v == Work)
      || (s.jobs[i].Return? && (v == Release(i) || v == Unlock(i)))
    ensures StepOk(s, Advance(s, i, v, Return), i, v)
  {
  }

  lemma StepEffect(s: State, i: nat, c: Choice) returns (v: LockMove)
    requires LocalOk(s, i) && Enabled(s, i, c)
    ensures StepOk(s, Next(s, i, c), i, v)
  {
    match s.lk.acts[i]
    case Outside => v := OutsideEffect(s, i, c);
    case Waiting(_, _) => v := Lock(i); LockEffect(s, i);
    case Releasing(_, _) => v := Unlock(i); ReturnEffect(s, i, v);
    case Holding(_, _) =>
      v := Work;
      match s.jobs[i]
      case CallCreate(_) => CreateEffect(s, i, c);
      case SetBridge(_) => SetBridgeEffect(s, i, c);
      case GetBridge(_) => GetBridgeEffect(s, i, c);
      case AddRules(_, _, _) => AddRulesEffect(s, i, c);
      case Cleanup(_) => v := Spawn; CleanupEffect(s, i);
      case AwaitCleanup(_, _) => ReturnEffect(s, i, v);
      case Unlabel(_, _, _, _) => UnlabelEffect(s, i, c);
      case Return => v := Release(i); ReturnEffect(s, i, v);
  }

  /** The step of a nested Remove: it resolves to its parent's name, is handed its parent's
      mutex, and cannot lock it. */
  lemma ChildStep(s: State, i: nat, c: Choice, p: nat)
    requires CoreInv(s) && Enabled(s, i, c) && p < |s.jobs| && p != i
    requires s.jobs[p].AwaitCleanup? && s.jobs[p].child == i
    ensures s.lk.acts[i].Outside? && s.lk.acts[p].Holding?
    ensures var t := OutsideStep(s, i, c);
            WellShaped(t) && |t.jobs| == |s.jobs| && t.jobs[p] == s.jobs[p] && t.lk.acts[p] == s.lk.acts[p] && ChildOk(t, p)
  {
    assert ActivationOk(s, i) && ActivationOk(s, p);
    LookupByName(s.nets, s.jobs[p].req.name);
    assert Owns(s.lk.acts[p], s.lk.acts[p].mutex);
  }

  /** Activations other than the one stepping keep their conditions. */
  lemma OtherKept(s: State, t: State, i: nat, v: LockMove, j: nat)
    requires CoreInv(s) && Effect(s, t, i, v) && j < |s.jobs| && j != i
    requires s.jobs[j].AwaitCleanup? && s.jobs[j].child == i ==> s.lk.acts[j].Holding? && ChildOk(t, j)
    ensures ActivationOk(t, j)
  {
    assert ActivationOk(s, i) && ActivationOk(s, j);
    if Posting(s.jobs[j]) && InSection(s, i, s.jobs[j].req.name) {
      MutualExclusion(s.lk, i, j);
    }
  }

  lemma CoreAssembled(s: State, t: State, i: nat, v: LockMove)
    requires CoreInv(s) && StepOk(s, t, i, v) && LockInv(t.lk)
    requires forall p :: 0 <= p < |s.jobs| && p != i && s.jobs[p].AwaitCleanup? && s.jobs[p].child == i ==>
      s.lk.acts[p].Holding? && t.jobs[p] == s.jobs[p] && t.lk.acts[p] == s.lk.acts[p] && ChildOk(t, p)
    ensures CoreInv(t)
  {
    forall j | 0 <= j < |t.jobs| ensures ActivationOk(t, j) {
      if j != i && j < |s.jobs| {
        OtherKept(s, t, i, v, j);
      }
    }
  }

  /** Every step keeps mutual exclusion, exact counters, unique bridges and the shape of every activation. */
  lemma StepKeepsCore(s: State, i: nat, c: Choice)
    requires CoreInv(s) && Enabled(s, i, c)
    ensures CoreInv(Next(s, i, c))
  {
    assert ActivationOk(s, i);
    var v := StepEffect(s, i, c);
    MoveKeepsInv(s.lk, v);
    forall p | 0 <= p < |s.jobs| && p != i && s.jobs[p].AwaitCleanup? && s.jobs[p].child == i
      ensures s.lk.acts[p].Holding? && Next(s, i, c).jobs[p] == s.jobs[p]
              && Next(s, i, c).lk.acts[p] == s.lk.acts[p] && ChildOk(Next(s, i, c), p)
    {
      ChildStep(s, i, c, p);
    }
    CoreAssembled(s, Next(s, i, c), i, v);
  }

  /** The request asks for DROP rules: the IPv4 one, and with IPv6 also that. */
  predicate AddsRules(req: CreateRequest) {
    req.bridgeDriver && req.disableICC
  }

  /** Deleting the rules named by the labels `seen` deletes all that such a request adds. */
  predicate Clears(seen: set<Icc>, ipv6: bool) {
    seen != {} && (ipv6 ==> IccV6 in seen)
  }

  /** A Remove that has looked its network up and not yet deleted it works from this snapshot. */
  predicate Pending(job: Job) {
    job.Resolved? || job.Unlabel?
  }

  /** A Create that asks for rules may make its network: no pending Remove of that name would leave
      one of them behind. */
  ghost predicate CreateGuard(s: State, i: nat, c: Choice)
    requires WellShaped(s) && Enabled(s, i, c)
  {
    c.Made? && c.id.Some? && AddsRules(s.jobs[i].req) ==>
      forall j :: 0 <= j < |s.jobs| && Pending(s.jobs[j]) && s.jobs[j].net.name == s.jobs[i].req.name ==>
        Clears(s.jobs[j].net.labels, s.jobs[i].req.ipv6)
  }

  /** Jobs of a Create that has rules yet to add. */
  predicate WillAdd(job: Job) {
    (job.SetBridge? || job.GetBridge? || job.AddRules?) && AddsRules(job.req)
  }

  /** The labels `seen` name every rule there is for the network of this name. */
  predicate RulesSeen(s: State, seen: set<Icc>, name: Name) {
    name in s.nets && s.nets[name].bridge.Some? ==>
      (s.nets[name].bridge.value in s.drop4 ==> seen != {}) && (s.nets[name].bridge.value in s.drop6 ==> IccV6 in seen)
  }

  predicate ClearedBy(create: Job, remove: Job) {
    WillAdd(create) && Pending(remove) && remove.net.name == create.req.name ==>
      Clears(remove.net.labels, create.req.ipv6)
  }

  /** Pending Removes will delete the rules that Creates of the same name are about to add. */
  ghost predicate AllCleared(s: State) {
    forall i, j :: 0 <= i < |s.jobs| && 0 <= j < |s.jobs| ==> ClearedBy(s.jobs[i], s.jobs[j])
  }

  /** What each job knows about the bridge and the rules of its network. */
  ghost predicate RuleOk(s: State, job: Job)
    requires Posting(job) ==> job.req.name in s.nets
  {
    match job
    case SetBridge(req) =>
      var net := s.nets[req.name];
      && net.bridge.Some? && net.bridge.value !in s.drop4 && net.bridge.value !in s.drop6
      && req.bridgeDriver && LabelsFor(req) <= net.labels
    case GetBridge(req) =>
      AddsRules(req) && LabelsFor(req) <= s.nets[req.name].labels
    case AddRules(req, b, protos) =>
      var net := s.nets[req.name];
      && net.bridge == Some(b) && AddsRules(req) && LabelsFor(req) <= net.labels && protos <= ProtosFor(req.ipv6)
    case Resolved(net) => RulesSeen(s, net.labels, net.name)
    case Unlabel(net, todo, b, protos) =>
      && todo <= net.labels && RulesSeen(s, net.labels, net.name)
      && (net.name in s.nets ==>
            && (protos != {} ==> s.nets[net.name].bridge == Some(b))
            && (s.nets[net.name].bridge.Some? ==>
                  Cleared(s, net.labels - todo, protos, s.nets[net.name].bridge.value)))
    case _ => true
  }

  /** The rules of the labels handled so far are gone, apart from the protocols still to come. */
  ghost predicate Cleared(s: State, done: set<Icc>, protos: set<Proto>, bridge: string) {
    && (done != {} && V4 !in protos ==> bridge !in s.drop4)
    && (IccV6 in done && V6 !in protos ==> bridge !in s.drop6)
  }

  ghost predicate RuleInv(s: State) {
    && CoreInv(s) && RulesOwned(s) && AllCleared(s)
    && forall i :: 0 <= i < |s.jobs| ==> (Posting(s.jobs[i]) ==> s.jobs[i].req.name in s.nets) && RuleOk(s, s.jobs[i])
  }


  /** New rules appear only for the bridge of the network whose section the step is in. */
  ghost predicate DropFrame(s: State, t: State, i: nat)
    requires WellShaped(s) && i < |s.jobs|
  {
    forall b ::
      && (b in t.drop4 && b !in s.drop4 ==> OwnBridge(s, i, b))
      && (b in t.drop6 && b !in s.drop6 ==> OwnBridge(s, i, b))
  }

  predicate OwnBridge(s: State, i: nat, b: string)
    requires WellShaped(s) && i < |s.jobs|
  {
    s.lk.acts[i].Holding? && s.lk.acts[i].name in s.nets && s.nets[s.lk.acts[i].name].bridge == Some(b)
  }

  /** After the step, pending Removes still see every rule of their network. */
  ghost predicate StillSeen(s: State, t: State) {
    forall j :: 0 <= j < |s.jobs| && Pending(s.jobs[j]) ==> RulesSeen(t, s.jobs[j].net.labels, s.jobs[j].net.name)
  }

  ghost predicate LocalRuleOk(s: State, i: nat) {
    LocalOk(s, i) && RulesOwned(s) && RuleOk(s, s.jobs[i])
  }

  /** What a step needs to know about the other activations. */
  ghost predicate OthersOk(s: State) {
    StillSeen(s, s) && AllCleared(s)
  }

  ghost predicate RuleStepOk(s: State, t: State, i: nat) {
    && WellShaped(s) && i < |s.jobs| && i < |t.jobs|
    && RulesOwned(t) && DropFrame(s, t, i) && StillSeen(s, t)
    && (Posting(t.jobs[i]) ==> t.jobs[i].req.name in t.nets) && RuleOk(t, t.jobs[i])
  }

  /** Jobs that have a rule to add, or a snapshot, have had it before, apart from a Create that makes
      its network and a Remove that looks one up. */
  lemma JobOrigin(s: State, i: nat, c: Choice)
    requires LocalOk(s, i) && Enabled(s, i, c) && !s.jobs[i].Resolve? && !s.jobs[i].CallCreate?
    ensures i < |Next(s, i, c).jobs|
    ensures var job := Next(s, i, c).jobs[i];
      && (Pending(job) ==> Pending(s.jobs[i]) && s.jobs[i].net == job.net)
      && (WillAdd(job) ==> WillAdd(s.jobs[i]) && s.jobs[i].req == job.req)
  {
  }

  lemma MadeIsCleared(s: State, i: nat, c: Choice, j: nat)
    requires LocalOk(s, i) && Enabled(s, i, c) && CreateGuard(s, i, c) && s.jobs[i].CallCreate? && j < |s.jobs| && j != i
    ensures i < |Next(s, i, c).jobs| && ClearedBy(Next(s, i, c).jobs[i], s.jobs[j]) && !Pending(Next(s, i, c).jobs[i])
  {
  }

  lemma LookedUpIsCleared(s: State, i: nat, c: Choice, k: nat)
    requires RuleInv(s) && Enabled(s, i, c) && s.jobs[i].Resolve? && k < |s.jobs| && k != i
    ensures i < |Next(s, i, c).jobs| && ClearedBy(s.jobs[k], Next(s, i, c).jobs[i]) && !WillAdd(Next(s, i, c).jobs[i])
  {
    assert ActivationOk(s, i) && ActivationOk(s, k) && RuleOk(s, s.jobs[k]);
    if GetNetwork(s.nets, s.jobs[i].query).Some? {
      LookupIsFiled(s.nets, s.jobs[i].query);
    }
  }

  lemma OwnJobCleared(s: State, i: nat, c: Choice, j: nat)
    requires RuleInv(s) && Enabled(s, i, c) && CreateGuard(s, i, c) && j < |s.jobs| && j != i
    ensures i < |Next(s, i, c).jobs|
    ensures ClearedBy(Next(s, i, c).jobs[i], s.jobs[j]) && ClearedBy(s.jobs[j], Next(s, i, c).jobs[i])
  {
    assert ActivationOk(s, i);
    if s.jobs[i].CallCreate? {
      MadeIsCleared(s, i, c, j);
    } else if s.jobs[i].Resolve? {
      LookedUpIsCleared(s, i, c, j);
    } else {
      JobOrigin(s, i, c);
      assert ClearedBy(s.jobs[i], s.jobs[j]) && ClearedBy(s.jobs[j], s.jobs[i]);
    }
  }

  lemma ClearedAssembled(s: State, t: State, i: nat)
    requires AllCleared(s) && i < |s.jobs| <= |t.jobs|
    requires forall j :: 0 <= j < |s.jobs| && j != i ==>
      t.jobs[j] == s.jobs[j] && ClearedBy(t.jobs[i], s.jobs[j]) && ClearedBy(s.jobs[j], t.jobs[i])
    requires forall j :: |s.jobs| <= j < |t.jobs| ==> t.jobs[j].Resolve?
    ensures AllCleared(t)
  {
  }

  lemma StepKeepsCleared(s: State, i: nat, c: Choice, t: State)
    requires RuleInv(s) && Enabled(s, i, c) && CreateGuard(s, i, c) && t == Next(s, i, c) && |s.jobs| <= |t.jobs|
    requires forall j :: 0 <= j < |s.jobs| && j != i ==> t.jobs[j] == s.jobs[j]
    requires forall j :: |s.jobs| <= j < |t.jobs| ==> t.jobs[j].Resolve?
    ensures AllCleared(t)
  {
    forall j | 0 <= j < |s.jobs| && j != i ensures ClearedBy(t.jobs[i], s.jobs[j]) && ClearedBy(s.jobs[j], t.jobs[i]) {
      OwnJobCleared(s, i, c, j);
    }
    ClearedAssembled(s, t, i);
  }

  /** A step that deletes rules, and nothing else. */
  lemma FewerRules(s: State, t: State, i: nat)
    requires WellShaped(s) && i < |s.jobs| && RulesOwned(s) && StillSeen(s, s)
    requires t.nets == s.nets && t.drop4 <= s.drop4 && t.drop6 <= s.drop6
    ensures RulesOwned(t) && DropFrame(s, t, i) && StillSeen(s, t)
  {
  }

  lemma OutsideRules(s: State, i: nat, c: Choice)
    requires LocalRuleOk(s, i) && OthersOk(s) && Enabled(s, i, c) && s.lk.acts[i].Outside?
    ensures RuleStepOk(s, OutsideStep(s, i, c), i)
  {
    if s.jobs[i].Resolve? && GetNetwork(s.nets, s.jobs[i].query).Some? {
      LookupIsFiled(s.nets, s.jobs[i].query);
    }
  }

  lemma LockRules(s: State, i: nat)
    requires LocalRuleOk(s, i) && OthersOk(s) && Enabled(s, i, Go) && s.lk.acts[i].Waiting?
    ensures RuleStepOk(s, LockStep(s, i), i)
  {
  }

  lemma CreateRules(s: State, i: nat, c: Choice)
    requires LocalRuleOk(s, i) && OthersOk(s) && Enabled(s, i, c) && CreateGuard(s, i, c)
    requires s.lk.acts[i].Holding? && s.jobs[i].CallCreate?
    ensures RuleStepOk(s, CreateStep(s, i, c), i)
  {
    var t := CreateStep(s, i, c);
    forall b | b in t.drop4 ensures exists n :: n in t.nets && OwnsV4(t.nets[n], b) {
      var n :| n in s.nets && OwnsV4(s.nets[n], b);
      assert n in t.nets && OwnsV4(t.nets[n], b);
    }
    forall b | b in t.drop6 ensures exists n :: n in t.nets && OwnsV6(t.nets[n], b) {
      var n :| n in s.nets && OwnsV6(s.nets[n], b);
      assert n in t.nets && OwnsV6(t.nets[n], b);
    }
  }

  lemma SetBridgeRules(s: State, i: nat, c: Choice)
    requires LocalRuleOk(s, i) && OthersOk(s) && Enabled(s, i, c)
    requires s.lk.acts[i].Holding? && s.jobs[i].SetBridge?
    ensures RuleStepOk(s, SetBridgeStep(s, i, c), i)
  {
    var t := SetBridgeStep(s, i, c);
    forall b | b in t.drop4 ensures exists n :: n in t.nets && OwnsV4(t.nets[n], b) {
      var n :| n in s.nets && OwnsV4(s.nets[n], b);
      assert n in t.nets && OwnsV4(t.nets[n], b);
    }
    forall b | b in t.drop6 ensures exists n :: n in t.nets && OwnsV6(t.nets[n], b) {
      var n :| n in s.nets && OwnsV6(s.nets[n], b);
      assert n in t.nets && OwnsV6(t.nets[n], b);
    }
  }

  lemma GetBridgeRules(s: State, i: nat, c: Choice)
    requires LocalRuleOk(s, i) && OthersOk(s) && Enabled(s, i, c)
    requires s.lk.acts[i].Holding? && s.jobs[i].GetBridge?
    ensures RuleStepOk(s, GetBridgeStep(s, i, c), i)
  {
  }

  lemma AddRulesRules(s: State, i: nat, c: Choice)
    requires LocalRuleOk(s, i) && OthersOk(s) && Enabled(s, i, c)
    requires s.lk.acts[i].Holding? && s.jobs[i].AddRules?
    ensures RuleStepOk(s, AddRulesStep(s, i, c), i)
  {
    var n := s.jobs[i].req.name;
    assert OwnsV4(s.nets[n], s.jobs[i].bridge);
    assert V6 in s.jobs[i].protos ==> OwnsV6(s.nets[n], s.jobs[i].bridge);
  }

  lemma CleanupRules(s: State, i: nat)
    requires LocalRuleOk(s, i) && OthersOk(s) && Enabled(s, i, Go)
    requires s.lk.acts[i].Holding? && s.jobs[i].Cleanup?
    ensures RuleStepOk(s, CleanupStep(s, i), i)
  {
  }

  lemma UnlabelRules(s: State, i: nat, c: Choice)
    requires LocalRuleOk(s, i) && OthersOk(s) && Enabled(s, i, c)
    requires s.lk.acts[i].Holding? && s.jobs[i].Unlabel?
    ensures RuleStepOk(s, UnlabelStep(s, i, c), i)
  {
    var t := UnlabelStep(s, i, c);
    if t.nets == s.nets {
      FewerRules(s, t, i);
    } else {
      NetworkGone(s, t, i);
    }
  }

  /** RemoveNetwork, after the rules of every label have been deleted. */
  lemma NetworkGone(s: State, t: State, i: nat)
    requires LocalRuleOk(s, i) && StillSeen(s, s) && s.lk.acts[i].Holding? && s.jobs[i].Unlabel?
    requires s.jobs[i].todo == {} && s.jobs[i].protos == {}
    requires t.nets == s.nets - {s.jobs[i].net.name} && t.drop4 == s.drop4 && t.drop6 == s.drop6
    ensures RulesOwned(t) && DropFrame(s, t, i) && StillSeen(s, t)
  {
    forall b | b in t.drop4 ensures exists n :: n in t.nets && OwnsV4(t.nets[n], b) {
      var n :| n in s.nets && OwnsV4(s.nets[n], b);
      assert n in t.nets && OwnsV4(t.nets[n], b);
    }
    forall b | b in t.drop6 ensures exists n :: n in t.nets && OwnsV6(t.nets[n], b) {
      var n :| n in s.nets && OwnsV6(s.nets[n], b);
      assert n in t.nets && OwnsV6(t.nets[n], b);
    }
  }

  lemma ReturnRules(s: State, i: nat, v: LockMove)
    requires LocalRuleOk(s, i) && OthersOk(s) && CanMove(s.lk, v) && !v.Spawn?
    ensures RuleStepOk(s, Advance(s, i, v, Return), i)
  {
  }

  lemma StepRules(s: State, i: nat, c: Choice)
    requires LocalRuleOk(s, i) && OthersOk(s) && Enabled(s, i, c) && CreateGuard(s, i, c)
    ensures RuleStepOk(s, Next(s, i, c), i)
  {
    match s.lk.acts[i]
    case Outside => OutsideRules(s, i, c);
    case Waiting(_, _) => LockRules(s, i);
    case Releasing(_, _) => ReturnRules(s, i, Unlock(i));
    case Holding(_, _) =>
      match s.jobs[i]
      case CallCreate(_) => CreateRules(s, i, c);
      case SetBridge(_) => SetBridgeRules(s, i, c);
      case GetBridge(_) => GetBridgeRules(s, i, c);
      case AddRules(_, _, _) => AddRulesRules(s, i, c);
      case Cleanup(_) => CleanupRules(s, i);
      case AwaitCleanup(_, _) => ReturnRules(s, i, Work);
      case Unlabel(_, _, _, _) => UnlabelRules(s, i, c);
      case Return => ReturnRules(s, i, Release(i));
  }

  /** Mutual exclusion and distinct bridges keep a step away from the rules of other activations' networks. */
  lemma OtherRuleKept(s: State, t: State, i: nat, v: LockMove, j: nat)
    requires RuleInv(s) && Effect(s, t, i, v) && DropFrame(s, t, i) && StillSeen(s, t)
    requires j < |s.jobs| && j != i
    ensures (Posting(s.jobs[j]) ==> s.jobs[j].req.name in t.nets) && RuleOk(t, s.jobs[j])
  {
    var job := s.jobs[j];
    assert ActivationOk(s, j) && RuleOk(s, job);
    if Posting(job) || job.Unlabel? {
      var k := if job.Unlabel? then job.net.name else job.req.name;
      if InSection(s, i, k) {
        assert s.lk.acts[j].Holding? && s.lk.acts[j].name == k;
        MutualExclusion(s.lk, i, j);
      }
      if k in s.nets && s.nets[k].bridge.Some? {
        assert !OwnBridge(s, i, s.nets[k].bridge.value);
      }
    }
  }

  lemma RulesAssembled(s: State, t: State, i: nat, v: LockMove)
    requires RuleInv(s) && CoreInv(t) && Effect(s, t, i, v) && RuleStepOk(s, t, i) && AllCleared(t)
    requires v.Spawn? ==> t.jobs[|s.jobs|].Resolve?
    ensures RuleInv(t)
  {
    forall j | 0 <= j < |t.jobs|
      ensures (Posting(t.jobs[j]) ==> t.jobs[j].req.name in t.nets) && RuleOk(t, t.jobs[j])
    {
      if j != i && j < |s.jobs| {
        OtherRuleKept(s, t, i, v, j);
      }
    }
  }

  lemma InvIsOthersOk(s: State)
    requires RuleInv(s)
    ensures OthersOk(s)
  {
    forall j | 0 <= j < |s.jobs| && (Pending(s.jobs[j]) || WillAdd(s.jobs[j])) ensures RuleOk(s, s.jobs[j]) {
      assert ActivationOk(s, j);
    }
  }

  /** Every guarded step keeps the rules owned. */
  lemma StepKeepsRules(s: State, i: nat, c: Choice)
    requires RuleInv(s) && Enabled(s, i, c) && CreateGuard(s, i, c)
    ensures RuleInv(Next(s, i, c))
  {
    StepKeepsCore(s, i, c);
    assert ActivationOk(s, i) && RuleOk(s, s.jobs[i]);
    var v := StepEffect(s, i, c);
    InvIsOthersOk(s);
    StepRules(s, i, c);
    StepKeepsCleared(s, i, c, Next(s, i, c));
    RulesAssembled(s, Next(s, i, c), i, v);
  }
}
