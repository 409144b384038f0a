/** Concrete runs: a Create that deadlocks itself, and a Remove that works from a stale snapshot. */
module NetworkWitnesses {
  import opened Prelude
  import opened NetworkLocks
  import opened NetworkProtocol
  import opened NetworkSafety
  import opened NetworkLiveness
  import opened NetworkRuns

  lemma NoNetworks(q: string)
    ensures GetNetwork(map[], q) == None
  {
  }

  lemma OneNetwork(nets: map<Name, Net>, n: Name)
    requires nets.Keys == {n} && nets[n].name == n
    ensures GetNetwork(nets, n) == Some(nets[n])
  {
    assert OnlyMatch(nets, n, n);
  }

  /** ensureLock and Lock on a name nobody uses. */
  lemma TakeLock(s0: State, s: State, i: nat) returns (t: State)
    requires Reaches(s0, s) && WellShaped(s) && i < |s.jobs| && s.lk.acts[i].Outside?
    requires s.jobs[i].Ready? || s.jobs[i].Resolved?
    requires s.lk.locks.next !in s.lk.locks.held
    requires (if s.jobs[i].Ready? then s.jobs[i].req.name else s.jobs[i].net.name) !in s.lk.locks.table
    ensures Reaches(s0, t)
    ensures
      var l, m := s.lk.locks, s.lk.locks.next;
      var n := if s.jobs[i].Ready? then s.jobs[i].req.name else s.jobs[i].net.name;
      t == s.(lk := LockState(Locks(l.table[n := Entry(m, 1)], m + 1, l.held + {m}), s.lk.acts[i := Holding(n, m)]),
              jobs := s.jobs[i := if s.jobs[i].Ready? then CallCreate(s.jobs[i].req)
                                  else Unlabel(s.jobs[i].net, s.jobs[i].net.labels, "", {})])
  {
    var s1 := OutsideStep(s, i, Go);
    ReachesStep(s0, s, i, Go);
    t := LockStep(s1, i);
    ReachesStep(s0, s1, i, Go);
    var n := if s.jobs[i].Ready? then s.jobs[i].req.name else s.jobs[i].net.name;
    assert t.lk.acts == s.lk.acts[i := Holding(n, s.lk.locks.next)];
  }

  /** releaseLock and Unlock by the only user of a name. */
  lemma DropLock(s0: State, s: State, i: nat) returns (t: State)
    requires Reaches(s0, s) && WellShaped(s) && i < |s.jobs| && s.lk.acts[i].Holding? && s.jobs[i].Return?
    requires s.lk.acts[i].name in s.lk.locks.table && s.lk.locks.table[s.lk.acts[i].name].activeReqs == 1
    ensures Reaches(s0, t)
    ensures t == s.(lk := LockState(
                      s.lk.locks.(table := s.lk.locks.table - {s.lk.acts[i].name}, held := s.lk.locks.held - {s.lk.acts[i].mutex}),
                      s.lk.acts[i := Finished]))
  {
    var s1 := Advance(s, i, Release(i), Return);
    ReachesStep(s0, s, i, Go);
    t := Advance(s1, i, Unlock(i), Return);
    ReachesStep(s0, s1, i, Go);
    assert t.lk.acts == s.lk.acts[i := Finished];
  }

  lemma LocksRestored(l: Locks, n: Name)
    requires n !in l.table && l.next !in l.held
    ensures l.table[n := Entry(l.next, 1)] - {n} == l.table && l.held + {l.next} - {l.next} == l.held
  {
  }

  /** A Create whose existence check finds nothing, up to a made network. */
  lemma MakeNetwork(s0: State, s: State, i: nat, bridge: string) returns (u: State, t: State)
    requires Reaches(s0, s) && WellShaped(s) && i < |s.jobs| && s.lk.acts[i].Outside? && s.jobs[i].Check?
    requires s.nets == map[] && s.lk.locks.next !in s.lk.locks.held && s.jobs[i].req.name !in s.lk.locks.table
    requires s.jobs[i].req.bridgeDriver && s.jobs[i].req.bridgeName == "" && s.jobs[i].req.disableICC
    ensures Reaches(s0, u) && WellShaped(u) && Enabled(u, i, Made(Some("id"), bridge)) && t == Next(u, i, Made(Some("id"), bridge))
    ensures u.jobs == s.jobs[i := CallCreate(s.jobs[i].req)]
    ensures Reaches(s0, t)
    ensures
      var l, m, req := s.lk.locks, s.lk.locks.next, s.jobs[i].req;
      t == State(
        LockState(Locks(l.table[req.name := Entry(m, 1)], m + 1, l.held + {m}), s.lk.acts[i := Holding(req.name, m)]),
        s.jobs[i := GetBridge(req)],
        map[req.name := Net(req.name, Some("id"), Some(bridge), LabelsFor(req), false)], s.drop4, s.drop6)
  {
    NoNetworks(s.jobs[i].req.name);
    var s1 := OutsideStep(s, i, Go);
    ReachesStep(s0, s, i, Go);
    u := TakeLock(s0, s1, i);
    t := CreateStep(u, i, Made(Some("id"), bridge));
    ReachesStep(s0, u, i, Made(Some("id"), bridge));
    assert u.jobs == s.jobs[i := CallCreate(s.jobs[i].req)];
    assert t.jobs == s.jobs[i := GetBridge(s.jobs[i].req)];
  }

  /** One request on an idle host deadlocks itself when reading the bridge name fails. */
  lemma DeadlockRun() returns (s: State, t: State)
    ensures Init(s) && |s.jobs| == 1 && Reaches(s, t) && WellShaped(t) && Stuck(t) && SelfDeadlocked(t, 0)
  {
    var req := CreateRequest("a", true, "", true, false, {});
    s := State(LockState(Locks(map[], 0, {}), [Outside]), [Check(req)], map[], {}, {});
    ReachesSelf(s);
    var s3, s4 := MakeNetwork(s, s, 0, "br-0");
    var s5 := GetBridgeStep(s4, 0, Fail);
    ReachesStep(s, s4, 0, Fail);
    assert s5.jobs == [Cleanup(req)] && s5.nets.Keys == {"a"} && s5.nets["a"].name == "a" && !s5.nets["a"].predefined;
    t := DeadlockAlone(s, s5);
  }

  lemma DeadlockAlone(s: State, u: State) returns (t: State)
    requires Init(s) && Reaches(s, u) && |u.jobs| == 1 && u.jobs[0].Cleanup?
    requires var n := u.jobs[0].req.name; u.nets.Keys == {n} && u.nets[n].name == n && !u.nets[n].predefined
    ensures Reaches(s, t) && WellShaped(t) && Stuck(t) && SelfDeadlocked(t, 0)
  {
    var evs :| Executes(s, evs, u);
    NetworkRuns.InitHolds(s);
    RunKeepsCore(s, evs, u);
    OneNetwork(u.nets, u.jobs[0].req.name);
    t := CleanupDeadlocks(u, 0);
    ReachesTransitive(s, u, t);
    StuckFromCleanup(s, t);
  }

  lemma ReachesTransitive(s: State, u: State, t: State)
    requires Reaches(s, u) && Reaches(u, t)
    ensures Reaches(s, t)
  {
    var evs :| Executes(u, evs, t);
    Chain(s, u, evs, t);
  }

  lemma {:induction false} Chain(s: State, u: State, evs: seq<Event>, t: State)
    requires Reaches(s, u) && Executes(u, evs, t)
    ensures Reaches(s, t)
    decreases |evs|
  {
    if evs != [] {
      ReachesStep(s, u, evs[0].i, evs[0].c);
      Chain(s, Next(u, evs[0].i, evs[0].c), evs[1..], t);
    }
  }

  /** With one request, its deadlock stops everything. */
  lemma StuckFromCleanup(s: State, t: State)
    requires Init(s) && Reaches(s, t) && WellShaped(t) && |t.jobs| == 2 && SelfDeadlocked(t, 0) && t.jobs[0].child == 1
    ensures Stuck(t)
  {
    var evs :| Executes(s, evs, t);
    NetworkRuns.InitHolds(s);
    RunKeepsCore(s, evs, t);
    assert ActivationOk(t, 0) && Owns(t.lk.acts[0], t.lk.acts[0].mutex);
    assert !t.lk.acts[0].Finished?;
    forall i, c | 0 <= i < |t.jobs| ensures !Enabled(t, i, c) {
      assert i == 0 || i == 1;
    }
  }

  /** handleNetworkLabels for a snapshot with no label, or only the IPv4 one. */
  lemma DeleteRules(s0: State, s: State, i: nat) returns (t: State)
    requires Reaches(s0, s) && WellShaped(s) && i < |s.jobs| && s.lk.acts[i].Holding? && s.jobs[i].Unlabel?
    requires var net := s.jobs[i].net;
      && s.jobs[i] == Unlabel(net, net.labels, "", {})
      && net.name in s.nets && s.nets[net.name].bridge.Some? && (net.labels == {} || net.labels == {IccV4})
    ensures Reaches(s0, t)
    ensures
      var net := s.jobs[i].net; var b := s.nets[net.name].bridge.value;
      t == s.(jobs := s.jobs[i := Unlabel(net, {}, if net.labels == {} then "" else b, {})],
              drop4 := if net.labels == {} then s.drop4 else s.drop4 - {b})
  {
    t := s;
    if s.jobs[i].net.labels != {} {
      var s3 := UnlabelStep(s, i, Pick(IccV4));
      ReachesStep(s0, s, i, Pick(IccV4));
      t := UnlabelStep(s3, i, Rule(V4, true, false));
      ReachesStep(s0, s3, i, Rule(V4, true, false));
      assert {IccV4} - {IccV4} == {} && {V4} - {V4} == {};
    } else {
      assert t.jobs == s.jobs[i := s.jobs[i]];
    }
  }

  /** A Remove that has the mutex, and a snapshot with no label or only the IPv4 one, deletes the
      network now on file with at most its IPv4 rule. */
  lemma RemoveInSection(s0: State, s: State, j: nat) returns (t: State)
    requires Reaches(s0, s) && WellShaped(s) && j < |s.jobs| && s.lk.acts[j].Holding? && s.jobs[j].Unlabel?
    requires var net := s.jobs[j].net;
      && s.jobs[j] == Unlabel(net, net.labels, "", {})
      && net.name in s.nets && s.nets[net.name].bridge.Some? && (net.labels == {} || net.labels == {IccV4})
    ensures Reaches(s0, t)
    ensures
      var net := s.jobs[j].net;
      t == s.(jobs := s.jobs[j := Return], nets := s.nets - {net.name},
              drop4 := if net.labels == {} then s.drop4 else s.drop4 - {s.nets[net.name].bridge.value})
  {
    var s1 := DeleteRules(s0, s, j);
    t := UnlabelStep(s1, j, Go);
    ReachesStep(s0, s1, j, Go);
    assert t.jobs == s.jobs[j := Return];
  }

  /** A Remove past its lookup runs alone to its end: it deletes at most the IPv4 rule of the
      bridge now on file, and the network now on file. */
  lemma RemoveAlone(s0: State, s: State, i: nat) returns (t: State)
    requires Reaches(s0, s) && WellShaped(s) && i < |s.jobs| && s.lk.acts[i].Outside? && s.jobs[i].Resolved?
    requires var net := s.jobs[i].net;
      && net.name !in s.lk.locks.table && s.lk.locks.next !in s.lk.locks.held
      && net.name in s.nets && s.nets[net.name].bridge.Some?
      && (net.labels == {} || net.labels == {IccV4})
    ensures Reaches(s0, t)
    ensures
      var net := s.jobs[i].net;
      t == State(
        LockState(s.lk.locks.(next := s.lk.locks.next + 1), s.lk.acts[i := Finished]), s.jobs[i := Return],
        s.nets - {net.name},
        if net.labels == {} then s.drop4 else s.drop4 - {s.nets[net.name].bridge.value}, s.drop6)
  {
    var net := s.jobs[i].net;
    var s2 := TakeLock(s0, s, i);
    var s5 := RemoveInSection(s0, s2, i);
    assert s5.jobs == s.jobs[i := Return];
    t := DropLock(s0, s5, i);
    LocksRestored(s.lk.locks, net.name);
    assert t.lk.acts == s.lk.acts[i := Finished];
  }

  lemma ReachesKeepsCore(s: State, t: State)
    requires CoreInv(s) && Reaches(s, t)
    ensures CoreInv(t)
  {
    var evs :| Executes(s, evs, t);
    RunKeepsCore(s, evs, t);
  }

  /** A Create with its bridge settled adds its rules. */
  lemma InstallRules(s0: State, s: State, i: nat) returns (t: State)
    requires Reaches(s0, s) && WellShaped(s) && i < |s.jobs| && s.lk.acts[i].Holding?
    requires s.jobs[i].AddRules? && s.jobs[i].protos == ProtosFor(s.jobs[i].req.ipv6)
    ensures Reaches(s0, t)
    ensures t == s.(jobs := s.jobs[i := Return], drop4 := s.drop4 + {s.jobs[i].bridge},
                    drop6 := if s.jobs[i].req.ipv6 then s.drop6 + {s.jobs[i].bridge} else s.drop6)
  {
    t := AddRulesStep(s, i, Rule(V4, true, false));
    ReachesStep(s0, s, i, Rule(V4, true, false));
    if s.jobs[i].req.ipv6 {
      assert {V4, V6} - {V4} == {V6};
      var s2 := t;
      t := AddRulesStep(s2, i, Rule(V6, true, false));
      ReachesStep(s0, s2, i, Rule(V6, true, false));
    }
    assert t.jobs == s.jobs[i := Return];
  }

  /** The bridge a request ends up with. */
  function BridgeOf(req: CreateRequest, given: string): string {
    if req.bridgeName != "" then req.bridgeName else given
  }

  /** A Create that has made its network, with the requested bridge name free, succeeds. */
  lemma FinishCreate(s0: State, s: State, i: nat, given: string) returns (t: State)
    requires Reaches(s0, s) && WellShaped(s) && i < |s.jobs| && s.lk.acts[i].Holding?
    requires (s.jobs[i].SetBridge? || s.jobs[i].GetBridge?) && AddsRules(s.jobs[i].req) && s.jobs[i] == PostCreate(s.jobs[i].req)
    requires s.jobs[i].req.name in s.nets && s.nets[s.jobs[i].req.name].bridge == Some(given)
    requires s.jobs[i].req.bridgeName == "" || !BridgeInUse(s.nets, s.jobs[i].req.bridgeName)
    ensures Reaches(s0, t)
    ensures
      var req := s.jobs[i].req; var b := BridgeOf(req, given);
      t == s.(jobs := s.jobs[i := Return], nets := s.nets[req.name := s.nets[req.name].(bridge := Some(b))],
              drop4 := s.drop4 + {b}, drop6 := if req.ipv6 then s.drop6 + {b} else s.drop6)
  {
    var req := s.jobs[i].req;
    var s1 := if s.jobs[i].SetBridge? then SetBridgeStep(s, i, Go) else GetBridgeStep(s, i, Go);
    ReachesStep(s0, s, i, Go);
    t := InstallRules(s0, s1, i);
    assert s.nets == s.nets[req.name := s.nets[req.name]];
    assert t.jobs == s.jobs[i := Return];
  }

  /** A pending Remove of a name that a Create holds gets to wait for its mutex. */
  lemma JoinQueue(s: State, i: nat, j: nat) returns (t: State)
    requires CoreInv(s) && i < |s.jobs| && s.lk.acts[i].Holding? && Posting(s.jobs[i])
    requires j < |s.jobs| && Pending(s.jobs[j]) && s.jobs[j].net.name == s.jobs[i].req.name
    ensures Reaches(s, t) && s.jobs[j].Resolved? && t.jobs == s.jobs && t.nets == s.nets && t.drop4 == s.drop4 && t.drop6 == s.drop6
    ensures t.lk.acts == s.lk.acts[j := Waiting(s.jobs[j].net.name, s.lk.acts[i].mutex)]
  {
    assert ActivationOk(s, i) && ActivationOk(s, j);
    ReachesSelf(s);
    t := s;
    if s.lk.acts[j].Holding? {
      MutualExclusion(s.lk, i, j);
    } else if s.lk.acts[j].Outside? {
      t := OutsideStep(s, j, Go);
      ReachesStep(s, s, j, Go);
      assert t.jobs == s.jobs;
    } else {
      assert t.lk.acts == s.lk.acts[j := s.lk.acts[j]];
    }
  }

  /** The Create leaves, and the Remove gets the mutex. */
  lemma HandOver(s0: State, s: State, i: nat, j: nat) returns (t: State)
    requires Reaches(s0, s) && WellShaped(s) && i < |s.jobs| && j < |s.jobs| && i != j
    requires s.lk.acts[i].Holding? && s.jobs[i].Return? && s.jobs[j].Resolved?
    requires s.lk.acts[j] == Waiting(s.lk.acts[i].name, s.lk.acts[i].mutex)
    ensures Reaches(s0, t) && WellShaped(t) && |t.jobs| == |s.jobs| && t.nets == s.nets && t.drop4 == s.drop4 && t.drop6 == s.drop6
    ensures t.lk.acts[j].Holding? && t.jobs[j] == Unlabel(s.jobs[j].net, s.jobs[j].net.labels, "", {})
  {
    var s1 := Advance(s, i, Release(i), Return);
    ReachesStep(s0, s, i, Go);
    var s2 := Advance(s1, i, Unlock(i), Return);
    ReachesStep(s0, s1, i, Go);
    t := LockStep(s2, j);
    ReachesStep(s0, s2, j, Go);
  }

  /** A rule for the bridge of a deleted network is owned by nobody. */
  lemma Orphaned(s: State, t: State, n: Name, b: string)
    requires NetsOk(s.nets) && n in s.nets && s.nets[n].bridge == Some(b) && t.nets == s.nets - {n}
    requires b in t.drop4 || b in t.drop6
    ensures !RulesOwned(t)
  {
    assert forall k :: k in t.nets ==> t.nets[k].bridge != Some(b);
  }

  lemma UnclearedLabels(seen: set<Icc>, ipv6: bool)
    requires !Clears(seen, ipv6)
    ensures seen == {} || (seen == {IccV4} && ipv6)
  {
    forall x | x in seen ensures x == IccV4 || x == IccV6 {
      assert x.IccV4? || x.IccV6?;
    }
  }

  /** The guard on Create is exact: from every state of every run in which a Create makes its network
      against the guard, its requested bridge name being free, the run can go on to a state with a
      DROP rule that no network owns. */
  lemma UnguardedCreateLosesRule(s: State, i: nat, c: Choice, j: nat) returns (t: State)
    requires CoreInv(s) && Enabled(s, i, c) && c.Made? && c.id.Some? && AddsRules(s.jobs[i].req)
    requires j < |s.jobs| && Pending(s.jobs[j]) && s.jobs[j].net.name == s.jobs[i].req.name
    requires !Clears(s.jobs[j].net.labels, s.jobs[i].req.ipv6)
    requires var b := s.jobs[i].req.bridgeName; b == "" || (!BridgeInUse(s.nets, b) && b != c.bridge)
    ensures Reaches(Next(s, i, c), t) && !RulesOwned(t)
  {
    var req, net := s.jobs[i].req, s.jobs[j].net;
    assert ActivationOk(s, i);
    StepKeepsCore(s, i, c);
    var s1 := Next(s, i, c);
    MadeState(s, i, c, j);
    var s2 := JoinQueue(s1, i, j);
    var s3 := FinishCreate(s1, s2, i, c.bridge);
    var s4 := HandOver(s1, s3, i, j);
    ReachesKeepsCore(s1, s4);
    UnclearedLabels(net.labels, req.ipv6);
    t := RemoveInSection(s1, s4, j);
    Orphaned(s4, t, req.name, BridgeOf(req, c.bridge));
  }

  /** The state after the network has been made. */
  lemma MadeState(s: State, i: nat, c: Choice, j: nat)
    requires LocalOk(s, i) && Enabled(s, i, c) && c.Made? && c.id.Some? && AddsRules(s.jobs[i].req)
    requires j < |s.jobs| && Pending(s.jobs[j])
    ensures var t, req := Next(s, i, c), s.jobs[i].req;
      && |t.jobs| == |s.jobs| == |t.lk.acts| && t.jobs[i] == PostCreate(req) && t.jobs[j] == s.jobs[j] && i != j
      && t.lk == s.lk && s.lk.acts[i].Holding? && s.lk.acts[i].name == req.name
      && req.name in t.nets && t.nets[req.name].bridge == Some(c.bridge)
      && (req.bridgeName != c.bridge && !BridgeInUse(s.nets, req.bridgeName) ==> !BridgeInUse(t.nets, req.bridgeName))
  {
  }

  function Host(next: nat, acts: seq<Act>, jobs: seq<Job>, nets: map<Name, Net>, drop4: set<string>, drop6: set<string>): State {
    State(LockState(Locks(map[], next, {}), acts), jobs, nets, drop4, drop6)
  }

  /** Two Removes look the same network up before either takes the lock. */
  lemma BothLookUp(first: Net, req: CreateRequest) returns (s: State, t: State)
    requires first.name == "a" && !first.predefined
    ensures Init(s) && |s.jobs| == 3 && Reaches(s, t)
    ensures t == Host(0, [Outside, Outside, Outside], [Resolved(first), Resolved(first), Check(req)], map["a" := first], {}, {})
  {
    s := Host(0, [Outside, Outside, Outside], [Resolve("a"), Resolve("a"), Check(req)], map["a" := first], {}, {});
    ReachesSelf(s);
    OneNetwork(s.nets, "a");
    var s1 := LookUp(s, s, 0, first);
    t := LookUp(s, s1, 1, first);
    assert t.jobs == [Resolved(first), Resolved(first), Check(req)];
  }

  lemma LookUp(s0: State, s: State, i: nat, net: Net) returns (t: State)
    requires Reaches(s0, s) && WellShaped(s) && i < |s.jobs| && s.lk.acts[i].Outside? && s.jobs[i].Resolve?
    requires GetNetwork(s.nets, s.jobs[i].query) == Some(net) && !net.predefined
    ensures Reaches(s0, t) && t == s.(jobs := s.jobs[i := Resolved(net)])
  {
    t := OutsideStep(s, i, Go);
    ReachesStep(s0, s, i, Go);
  }

  /** One of them finishes. */
  lemma OneFinishes(first: Net, req: CreateRequest) returns (s: State, t: State)
    requires first.name == "a" && !first.predefined && first.bridge == Some("b1") && (first.labels == {} || first.labels == {IccV4})
    ensures Init(s) && |s.jobs| == 3 && Reaches(s, t)
    ensures t == Host(1, [Outside, Finished, Outside], [Resolved(first), Return, Check(req)], map[], {}, {})
  {
    var s2: State;
    s, s2 := BothLookUp(first, req);
    t := RemoveAlone(s, s2, 1);
    assert t.nets == map[] && t.drop4 == {};
    assert t.jobs == [Resolved(first), Return, Check(req)];
    assert t.lk.acts == [Outside, Finished, Outside];
  }

  /** A Create of the same name gets as far as making its network. */
  lemma CreateUnderStaleRemove(first: Net, req: CreateRequest) returns (s: State, u: State)
    requires first.name == "a" && !first.predefined && first.bridge == Some("b1") && (first.labels == {} || first.labels == {IccV4})
    requires req == CreateRequest("a", true, "", true, req.ipv6, {})
    ensures Init(s) && |s.jobs| == 3 && Reaches(s, u) && WellShaped(u)
    ensures u.jobs == [Resolved(first), Return, CallCreate(req)] && Enabled(u, 2, Made(Some("id"), "b2"))
  {
    var s3, s4: State;
    s, s3 := OneFinishes(first, req);
    u, s4 := MakeNetwork(s, s3, 2, "b2");
    assert u.jobs == [Resolved(first), Return, CallCreate(req)];
  }

  /** The guard can be broken.  For every set of labels `seen` that does not clear the rules of a
      request, there is a run in which a Remove holds a snapshot labelled `seen` when the Create
      makes its network, and a continuation that leaves a DROP rule without a network. */
  lemma StaleRemoveLeavesRule(seen: set<Icc>, ipv6: bool) returns (s: State, u: State, t: State)
    requires !Clears(seen, ipv6)
    ensures Init(s) && |s.jobs| == 3 && Reaches(s, u) && WellShaped(u) && |u.jobs| == 3
    ensures u.jobs[0].Resolved? && u.jobs[0].net.labels == seen && u.jobs[2].CallCreate? && u.jobs[2].req.ipv6 == ipv6
    ensures Enabled(u, 2, Made(Some("id"), "b2")) && !CreateGuard(u, 2, Made(Some("id"), "b2"))
    ensures Reaches(s, t) && !RulesOwned(t)
  {
    UnclearedLabels(seen, ipv6);
    var c := Made(Some("id"), "b2");
    s, u := CreateUnderStaleRemove(Net("a", Some("x"), Some("b1"), seen, false), CreateRequest("a", true, "", true, ipv6, {}));
    assert Pending(u.jobs[0]) && u.jobs[0].net.name == u.jobs[2].req.name;
    NetworkRuns.InitHolds(s);
    ReachesKeepsCore(s, u);
    t := UnguardedCreateLosesRule(u, 2, c, 0);
    ReachesStep(s, u, 2, c);
    ReachesTransitive(s, Next(u, 2, c), t);
  }
}
