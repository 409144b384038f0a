/** What Create and Remove achieve, stated over the states of whole runs. */
module NetworkOutcomes {
  import opened Prelude
  import opened NetworkLocks
  import opened NetworkProtocol
  import opened NetworkSafety
  import opened NetworkRuns

  /** The states and events of a run. */
  ghost predicate IsRun(ss: seq<State>, evs: seq<Event>) {
    && |ss| == |evs| + 1
    && forall k :: 0 <= k < |evs| ==>
         WellShaped(ss[k]) && Enabled(ss[k], evs[k].i, evs[k].c) && ss[k + 1] == Next(ss[k], evs[k].i, evs[k].c)
  }

  function JobAt(s: State, i: nat): Option<Job> {
    if i < |s.jobs| then Some(s.jobs[i]) else None
  }

  /** Jobs that act on a bridge act on that of the network whose section they are in, and a Remove
      has deleted the rules of the labels it is done with. */
  ghost predicate StageOk(s: State, job: Job) {
    match job
    case AddRules(req, b, protos) =>
      && req.name in s.nets && s.nets[req.name].bridge == Some(b)
      && req.disableICC && (V6 in protos ==> req.ipv6)
    case GetBridge(req) => req.disableICC
    case Unlabel(net, todo, b, protos) =>
      && todo <= net.labels
      && (net.name in s.nets ==>
            && (protos != {} ==> s.nets[net.name].bridge == Some(b))
            && (s.nets[net.name].bridge.Some? ==>
                  Cleared(s, net.labels - todo, protos, s.nets[net.name].bridge.value)))
      && (protos != {} ==> net.name in s.nets && net.labels != {}) && (V6 in protos ==> IccV6 in net.labels)
    case _ => true
  }

  ghost predicate StageInv(s: State) {
    CoreInv(s) && forall i :: 0 <= i < |s.jobs| ==> StageOk(s, s.jobs[i])
  }

  /** A step changes the rules of its own network's bridge only. */
  ghost predicate OwnRules(s: State, t: State, i: nat)
    requires WellShaped(s) && i < |s.jobs|
  {
    forall b :: ((b in s.drop4) != (b in t.drop4)) || ((b in s.drop6) != (b in t.drop6)) ==> OwnBridge(s, i, b)
  }

  lemma StepOwnRules(s: State, i: nat, c: Choice)
    requires LocalOk(s, i) && StageOk(s, s.jobs[i]) && Enabled(s, i, c)
    ensures OwnRules(s, Next(s, i, c), i)
  {
  }

  lemma StepKeepsOwnStage(s: State, i: nat, c: Choice)
    requires LocalOk(s, i) && StageOk(s, s.jobs[i]) && Enabled(s, i, c)
    ensures i < |Next(s, i, c).jobs| && StageOk(Next(s, i, c), Next(s, i, c).jobs[i])
  {
  }

  /** A step of another activation leaves a held network and the rules of its bridge alone. */
  lemma SectionKept(s: State, t: State, i: nat, v: LockMove, j: nat, n: Name)
    requires CoreInv(s) && Effect(s, t, i, v) && OwnRules(s, t, i) && j < |s.jobs| && j != i
    requires s.lk.acts[j].Holding? && s.lk.acts[j].name == n
    ensures (n in t.nets <==> n in s.nets) && (n in s.nets ==> t.nets[n] == s.nets[n])
    ensures n in s.nets && s.nets[n].bridge.Some? ==>
      var b := s.nets[n].bridge.value; (b in t.drop4 <==> b in s.drop4) && (b in t.drop6 <==> b in s.drop6)
  {
    if InSection(s, i, n) {
      MutualExclusion(s.lk, i, j);
    }
  }

  lemma OtherStageKept(s: State, t: State, i: nat, v: LockMove, j: nat)
    requires StageInv(s) && Effect(s, t, i, v) && OwnRules(s, t, i) && j < |s.jobs| && j != i
    ensures StageOk(t, s.jobs[j])
  {
    assert ActivationOk(s, j) && StageOk(s, s.jobs[j]);
    if s.jobs[j].AddRules? || s.jobs[j].Unlabel? {
      SectionKept(s, t, i, v, j, s.lk.acts[j].name);
    }
  }

  lemma StageAssembled(s: State, t: State, i: nat, v: LockMove)
    requires StageInv(s) && CoreInv(t) && StepOk(s, t, i, v) && OwnRules(s, t, i) && StageOk(t, t.jobs[i])
    ensures StageInv(t)
  {
    forall j | 0 <= j < |t.jobs| ensures StageOk(t, t.jobs[j]) {
      if j != i && j < |s.jobs| {
        OtherStageKept(s, t, i, v, j);
      }
    }
  }

  lemma StepKeepsStage(s: State, i: nat, c: Choice) returns (v: LockMove)
    requires StageInv(s) && Enabled(s, i, c)
    ensures StageInv(Next(s, i, c)) && StepOk(s, Next(s, i, c), i, v) && OwnRules(s, Next(s, i, c), i)
  {
    assert ActivationOk(s, i) && StageOk(s, s.jobs[i]);
    v := StepEffect(s, i, c);
    StepKeepsCore(s, i, c);
    StepOwnRules(s, i, c);
    StepKeepsOwnStage(s, i, c);
    StageAssembled(s, Next(s, i, c), i, v);
  }

  lemma {:induction false} RunKeepsStage(ss: seq<State>, evs: seq<Event>, k: nat)
    requires IsRun(ss, evs) && Init(ss[0]) && k <= |evs|
    ensures StageInv(ss[k])
  {
    if k == 0 {
      NetworkRuns.InitHolds(ss[0]);
    } else {
      RunKeepsStage(ss, evs, k - 1);
      var v := StepKeepsStage(ss[k - 1], evs[k - 1].i, evs[k - 1].c);
    }
  }

  /** The network a request is for. */
  function Wanted(req: CreateRequest, id: string, bridge: Option<string>): Net {
    Net(req.name, Some(id), bridge,
        req.labels + (if req.bridgeDriver && req.disableICC then {if req.ipv6 then IccV6 else IccV4} else {}), false)
  }

  /** The bridge it ends up with: the requested one, else the default one. */
  function WantedBridge(req: CreateRequest, given: string): string {
    if req.bridgeName != "" then req.bridgeName else given
  }

  ghost predicate HasNetwork(s: State, net: Net) {
    net.name in s.nets && s.nets[net.name] == net
  }

  /** The network is there as requested, and so are its rules. */
  ghost predicate Delivered(s: State, req: CreateRequest, id: string, given: string) {
    if req.bridgeDriver then
      var b := WantedBridge(req, given);
      && HasNetwork(s, Wanted(req, id, Some(b)))
      && (req.disableICC ==> b in s.drop4 && (req.ipv6 ==> b in s.drop6))
    else HasNetwork(s, Wanted(req, id, None))
  }

  /** How far a Create that made its network has come. */
  ghost predicate Underway(s: State, i: nat, req: CreateRequest, id: string, given: string)
    requires WellShaped(s)
  {
    && i < |s.jobs| && s.lk.acts[i].Holding? && s.lk.acts[i].name == req.name
    && match s.jobs[i]
       case SetBridge(r) =>
         r == req && req.bridgeDriver && req.bridgeName != "" && HasNetwork(s, Wanted(req, id, Some(given)))
       case GetBridge(r) =>
         r == req && req.bridgeDriver && req.bridgeName == "" && req.disableICC && HasNetwork(s, Wanted(req, id, Some(given)))
       case AddRules(r, b, protos) =>
         && r == req && req.bridgeDriver && req.disableICC && b == WantedBridge(req, given)
         && HasNetwork(s, Wanted(req, id, Some(b)))
         && (V4 !in protos ==> b in s.drop4) && (req.ipv6 && V6 !in protos ==> b in s.drop6)
       case Return => Delivered(s, req, id, given)
       case Cleanup(r) => r == req
       case _ => false
  }

  lemma MadeIsUnderway(s: State, i: nat, id: string, given: string)
    requires LocalOk(s, i) && Enabled(s, i, Made(Some(id), given)) && s.jobs[i].CallCreate?
    ensures var t := Next(s, i, Made(Some(id), given)); WellShaped(t) && Underway(t, i, s.jobs[i].req, id, given)
  {
  }

  lemma SetBridgeUnderway(s: State, i: nat, c: Choice, req: CreateRequest, id: string, given: string)
    requires LocalOk(s, i) && Underway(s, i, req, id, given) && Enabled(s, i, c) && s.jobs[i].SetBridge?
    ensures WellShaped(SetBridgeStep(s, i, c)) && Underway(SetBridgeStep(s, i, c), i, req, id, given)
  {
  }

  lemma GetBridgeUnderway(s: State, i: nat, c: Choice, req: CreateRequest, id: string, given: string)
    requires LocalOk(s, i) && Underway(s, i, req, id, given) && Enabled(s, i, c) && s.jobs[i].GetBridge?
    ensures WellShaped(GetBridgeStep(s, i, c)) && Underway(GetBridgeStep(s, i, c), i, req, id, given)
  {
  }

  lemma AddRulesUnderway(s: State, i: nat, c: Choice, req: CreateRequest, id: string, given: string)
    requires LocalOk(s, i) && Underway(s, i, req, id, given) && Enabled(s, i, c) && s.jobs[i].AddRules?
    ensures WellShaped(AddRulesStep(s, i, c)) && Underway(AddRulesStep(s, i, c), i, req, id, given)
  {
    var t, b := AddRulesStep(s, i, c), s.jobs[i].bridge;
    if c.ok {
      assert forall p :: p in s.jobs[i].protos <==> p == c.proto || p in s.jobs[i].protos - {c.proto};
      assert t.nets == s.nets && (b in s.drop4 || c.proto.V4? ==> b in t.drop4) && (b in s.drop6 || c.proto.V6? ==> b in t.drop6);
    }
  }

  lemma OwnStepUnderway(s: State, i: nat, c: Choice, req: CreateRequest, id: string, given: string)
    requires LocalOk(s, i) && Underway(s, i, req, id, given) && Enabled(s, i, c) && !s.jobs[i].Cleanup? && !s.jobs[i].Return?
    ensures WellShaped(Next(s, i, c)) && Underway(Next(s, i, c), i, req, id, given)
  {
    match s.jobs[i]
    case SetBridge(_) => SetBridgeUnderway(s, i, c, req, id, given);
    case GetBridge(_) => GetBridgeUnderway(s, i, c, req, id, given);
    case AddRules(_, _, _) => AddRulesUnderway(s, i, c, req, id, given);
  }

  lemma OtherStepUnderway(s: State, t: State, i: nat, v: LockMove, j: nat, req: CreateRequest, id: string, given: string)
    requires StageInv(s) && Underway(s, j, req, id, given) && i != j
    requires Effect(s, t, i, v) && OwnRules(s, t, i) && t.jobs[j] == s.jobs[j] && t.lk.acts[j] == s.lk.acts[j]
    ensures Underway(t, j, req, id, given)
  {
    SectionKept(s, t, i, v, j, req.name);
  }

  lemma StepUnderway(s: State, i: nat, c: Choice, j: nat, req: CreateRequest, id: string, given: string)
    requires StageInv(s) && Enabled(s, i, c) && Underway(s, j, req, id, given) && !s.jobs[j].Cleanup? && !s.jobs[j].Return?
    ensures WellShaped(Next(s, i, c)) && Underway(Next(s, i, c), j, req, id, given)
  {
    assert ActivationOk(s, i);
    if i == j {
      OwnStepUnderway(s, i, c, req, id, given);
    } else {
      var v := StepKeepsStage(s, i, c);
      OtherStepUnderway(s, Next(s, i, c), i, v, j, req, id, given);
    }
  }

  /** Create `i` made its network at step `a`, and neither returned nor went to its cleanup up to state `m`. */
  ghost predicate MadeAndGoingOn(ss: seq<State>, evs: seq<Event>, a: nat, m: nat, i: nat, req: CreateRequest, id: string, given: string)
    requires |ss| == |evs| + 1
  {
    && a < m <= |evs| && evs[a] == Event(i, Made(Some(id), given)) && JobAt(ss[a], i) == Some(CallCreate(req))
    && forall k :: a < k < m ==> JobAt(ss[k], i) != Some(Return) && JobAt(ss[k], i) != Some(Cleanup(req))
  }

  lemma {:induction false} RunUnderway(ss: seq<State>, evs: seq<Event>, a: nat, m: nat, i: nat, req: CreateRequest, id: string, given: string)
    requires IsRun(ss, evs) && Init(ss[0]) && MadeAndGoingOn(ss, evs, a, m, i, req, id, given)
    ensures WellShaped(ss[m]) && Underway(ss[m], i, req, id, given)
  {
    RunKeepsStage(ss, evs, m - 1);
    if m == a + 1 {
      assert ActivationOk(ss[a], i);
      MadeIsUnderway(ss[a], i, id, given);
    } else {
      RunUnderway(ss, evs, a, m - 1, i, req, id, given);
      StepUnderway(ss[m - 1], evs[m - 1].i, evs[m - 1].c, i, req, id, given);
    }
  }

  /** Over every run: a Create that made its network and returns without having gone to its cleanup
      has delivered it, with the requested bridge name, labels and rules. */
  lemma CreateDelivers(ss: seq<State>, evs: seq<Event>, a: nat, m: nat, i: nat, req: CreateRequest, id: string, given: string)
    requires IsRun(ss, evs) && Init(ss[0]) && MadeAndGoingOn(ss, evs, a, m, i, req, id, given)
    requires JobAt(ss[m], i) == Some(Return)
    ensures Delivered(ss[m], req, id, given)
  {
    RunUnderway(ss, evs, a, m, i, req, id, given);
  }

  /** A query names a network by its name, or by a prefix of its ID with or without the algorithm. */
  predicate NamedBy(n: Net, query: string) {
    || n.name == query
    || (n.id.Some? && query <= n.id.value)
    || (n.id.Some? && "sha256:" + query <= n.id.value)
  }

  /** The query names this live network and no other. */
  ghost predicate OnlyNamed(nets: map<Name, Net>, query: string, n: Name) {
    n in nets && NamedBy(nets[n], query) && forall k :: k in nets && NamedBy(nets[k], query) ==> k == n
  }

  lemma LookupExactly(nets: map<Name, Net>, query: string)
    ensures GetNetwork(nets, query).Some? <==> exists n :: OnlyNamed(nets, query, n)
    ensures forall n :: OnlyNamed(nets, query, n) ==> GetNetwork(nets, query) == Some(nets[n])
  {
    forall n ensures OnlyMatch(nets, query, n) <==> OnlyNamed(nets, query, n) {
      assert forall k :: k in nets ==> (Matches(nets[k], query) <==> NamedBy(nets[k], query));
    }
  }

  /** A Remove goes on exactly if the listing succeeds and its query names one network, which is not
      pre-defined; it goes on with that network.  Otherwise it is finished, and nothing has changed. */
  lemma ResolveExactly(s: State, i: nat, c: Choice)
    requires LocalOk(s, i) && Enabled(s, i, c) && s.jobs[i].Resolve?
    ensures var t, q := Next(s, i, c), s.jobs[i].query;
      && t.nets == s.nets && t.drop4 == s.drop4 && t.drop6 == s.drop6 && |t.jobs| == |s.jobs| == |t.lk.acts|
      && (t.jobs[i].Resolved? <==> c.Go? && exists n :: OnlyNamed(s.nets, q, n) && !s.nets[n].predefined)
      && (t.jobs[i].Resolved? ==> exists n :: OnlyNamed(s.nets, q, n) && t.jobs[i].net == s.nets[n] && !s.nets[n].predefined)
      && (!t.jobs[i].Resolved? ==> t.lk.acts[i].Finished? && t.jobs[i].Return?)
  {
    LookupExactly(s.nets, s.jobs[i].query);
  }

  /** A Create goes on exactly if the listing fails or its name does not name exactly one network.
      Otherwise it is finished, and nothing has changed. */
  lemma CheckExactly(s: State, i: nat, c: Choice)
    requires LocalOk(s, i) && Enabled(s, i, c) && s.jobs[i].Check?
    ensures var t, req := Next(s, i, c), s.jobs[i].req;
      && t.nets == s.nets && t.drop4 == s.drop4 && t.drop6 == s.drop6 && |t.jobs| == |s.jobs| == |t.lk.acts|
      && t.jobs[i] == (if c.Fail? || !exists n :: OnlyNamed(s.nets, req.name, n) then Ready(req) else Return)
      && (t.jobs[i].Return? ==> t.lk.acts[i].Finished?)
  {
    LookupExactly(s.nets, s.jobs[i].req.name);
  }

  /** Network `n` is pre-defined, and nobody is about to touch it. */
  ghost predicate Untouched(s: State, n: Name, net: Net) {
    && n in s.nets && s.nets[n] == net && net.predefined
    && forall j :: 0 <= j < |s.jobs| ==>
         (Pending(s.jobs[j]) ==> s.jobs[j].net.name != n) && (Posting(s.jobs[j]) ==> s.jobs[j].req.name != n)
  }

  lemma OwnStepUntouched(s: State, i: nat, c: Choice, n: Name, net: Net)
    requires LocalOk(s, i) && Enabled(s, i, c) && Untouched(s, n, net)
    ensures var t := Next(s, i, c);
      && n in t.nets && t.nets[n] == net && i < |t.jobs|
      && (Pending(t.jobs[i]) ==> t.jobs[i].net.name != n) && (Posting(t.jobs[i]) ==> t.jobs[i].req.name != n)
  {
    if s.jobs[i].Resolve? {
      ResolveExactly(s, i, c);
    }
  }

  lemma UntouchedAssembled(s: State, t: State, i: nat, v: LockMove, n: Name, net: Net)
    requires StepOk(s, t, i, v) && Untouched(s, n, net) && n in t.nets && t.nets[n] == net
    requires (Pending(t.jobs[i]) ==> t.jobs[i].net.name != n) && (Posting(t.jobs[i]) ==> t.jobs[i].req.name != n)
    ensures Untouched(t, n, net)
  {
  }

  lemma StepUntouched(s: State, i: nat, c: Choice, n: Name, net: Net)
    requires StageInv(s) && Enabled(s, i, c) && Untouched(s, n, net)
    ensures Untouched(Next(s, i, c), n, net)
  {
    assert ActivationOk(s, i);
    var v := StepEffect(s, i, c);
    OwnStepUntouched(s, i, c, n, net);
    UntouchedAssembled(s, Next(s, i, c), i, v, n, net);
  }

  /** Over every run: a pre-defined network stays as it is. */
  lemma {:induction false} PredefinedStays(ss: seq<State>, evs: seq<Event>, k: nat, n: Name)
    requires IsRun(ss, evs) && Init(ss[0]) && k <= |evs| && n in ss[0].nets && ss[0].nets[n].predefined
    ensures Untouched(ss[k], n, ss[0].nets[n])
  {
    if k > 0 {
      PredefinedStays(ss, evs, k - 1, n);
      RunKeepsStage(ss, evs, k - 1);
      StepUntouched(ss[k - 1], evs[k - 1].i, evs[k - 1].c, n, ss[0].nets[n]);
    }
  }

  /** Between states `a` and `m` of the run, the query named exactly this network, which was not pre-defined. */
  ghost predicate WasNamed(ss: seq<State>, a: nat, m: nat, query: string, net: Net) {
    exists k: nat, n :: a <= k <= m < |ss| && OnlyNamed(ss[k].nets, query, n) && ss[k].nets[n] == net && !net.predefined
  }

  /** Where a Remove that began with this query at state `a` can be at state `m`. */
  ghost predicate Traced(ss: seq<State>, a: nat, m: nat, query: string, job: Job) {
    match job
    case Resolve(q) => q == query
    case Resolved(net) => WasNamed(ss, a, m, query, net)
    case Unlabel(net, _, _, _) => WasNamed(ss, a, m, query, net)
    case Return => true
    case _ => false
  }

  lemma TracedLater(ss: seq<State>, a: nat, m: nat, query: string, job: Job)
    requires Traced(ss, a, m, query, job) && m + 1 < |ss|
    ensures Traced(ss, a, m + 1, query, job)
  {
    if Pending(job) {
      var k: nat, n :| a <= k <= m && OnlyNamed(ss[k].nets, query, n) && ss[k].nets[n] == job.net && !job.net.predefined;
    }
  }

  /** A Remove keeps its snapshot. */
  lemma SnapshotKept(s: State, i: nat, c: Choice)
    requires LocalOk(s, i) && Enabled(s, i, c) && (s.jobs[i].Resolved? || s.jobs[i].Unlabel? || s.jobs[i].Return?)
    ensures i < |Next(s, i, c).jobs|
    ensures var job := Next(s, i, c).jobs[i]; job.Return? || (Pending(job) && Pending(s.jobs[i]) && job.net == s.jobs[i].net)
  {
  }

  lemma OwnStepTraced(ss: seq<State>, a: nat, m: nat, i: nat, c: Choice, query: string)
    requires a <= m && m + 1 < |ss| && LocalOk(ss[m], i) && Enabled(ss[m], i, c) && Traced(ss, a, m, query, ss[m].jobs[i])
    ensures i < |Next(ss[m], i, c).jobs| && Traced(ss, a, m + 1, query, Next(ss[m], i, c).jobs[i])
  {
    var job := ss[m].jobs[i];
    if job.Resolve? {
      ResolveExactly(ss[m], i, c);
      if Next(ss[m], i, c).jobs[i].Resolved? {
        var n :| OnlyNamed(ss[m].nets, query, n) && Next(ss[m], i, c).jobs[i].net == ss[m].nets[n] && !ss[m].nets[n].predefined;
        assert WasNamed(ss, a, m + 1, query, ss[m].nets[n]);
      }
    } else {
      TracedLater(ss, a, m, query, job);
      SnapshotKept(ss[m], i, c);
    }
  }

  lemma OtherJobsKept(s: State, i: nat, c: Choice, j: nat)
    requires StageInv(s) && Enabled(s, i, c) && j < |s.jobs| && j != i
    ensures j < |Next(s, i, c).jobs| && Next(s, i, c).jobs[j] == s.jobs[j]
  {
    assert ActivationOk(s, i);
    var v := StepEffect(s, i, c);
  }

  lemma StepTraced(ss: seq<State>, a: nat, m: nat, i: nat, c: Choice, j: nat, query: string)
    requires a <= m && m + 1 < |ss| && StageInv(ss[m]) && Enabled(ss[m], i, c) && ss[m + 1] == Next(ss[m], i, c)
    requires j < |ss[m].jobs| && Traced(ss, a, m, query, ss[m].jobs[j])
    ensures j < |ss[m + 1].jobs| && Traced(ss, a, m + 1, query, ss[m + 1].jobs[j])
  {
    assert ActivationOk(ss[m], i);
    if i == j {
      OwnStepTraced(ss, a, m, j, c, query);
    } else {
      OtherJobsKept(ss[m], i, c, j);
      TracedLater(ss, a, m, query, ss[m].jobs[j]);
    }
  }

  /** Over every run: the network a Remove works on is one its query named. */
  lemma {:induction false} RemovesOnlyNamed(ss: seq<State>, evs: seq<Event>, a: nat, m: nat, j: nat, query: string)
    requires IsRun(ss, evs) && Init(ss[0]) && a <= m <= |evs| && JobAt(ss[a], j) == Some(Resolve(query))
    ensures j < |ss[m].jobs| && Traced(ss, a, m, query, ss[m].jobs[j])
  {
    if m > a {
      RemovesOnlyNamed(ss, evs, a, m - 1, j, query);
      RunKeepsStage(ss, evs, m - 1);
      StepTraced(ss, a, m - 1, evs[m - 1].i, evs[m - 1].c, j, query);
    }
  }

  /** A network goes away only when a Remove that holds its lock has dealt with every label of its
      snapshot and RemoveNetwork succeeds; then no rule those labels name is left for its bridge. */
  lemma RemoveDelivers(s: State, i: nat, c: Choice, n: Name)
    requires StageInv(s) && Enabled(s, i, c) && n in s.nets && n !in Next(s, i, c).nets
    ensures c.Go? && s.jobs[i].Unlabel? && s.jobs[i].net.name == n && s.lk.acts[i].Holding? && s.lk.acts[i].name == n
    ensures var t := Next(s, i, c); t.nets == s.nets - {n} && t.drop4 == s.drop4 && t.drop6 == s.drop6
    ensures s.nets[n].bridge.Some? ==> var b := s.nets[n].bridge.value;
      (s.jobs[i].net.labels != {} ==> b !in s.drop4) && (IccV6 in s.jobs[i].net.labels ==> b !in s.drop6)
  {
    assert ActivationOk(s, i) && StageOk(s, s.jobs[i]);
  }

  /** A rule goes away only by a Remove of its network, for a protocol the labels of its snapshot
      name, or by a Create of its network whose insertion failed. */
  lemma RulesGoOnly(s: State, i: nat, c: Choice, b: string, p: Proto)
    requires StageInv(s) && Enabled(s, i, c) && HasRule(s, p, b) && !HasRule(Next(s, i, c), p, b)
    ensures OwnBridge(s, i, b) && c.Rule? && c.proto == p
    ensures
      || (s.jobs[i].AddRules? && !c.ok && c.wiped && (p.V6? ==> s.jobs[i].req.ipv6))
      || (s.jobs[i].Unlabel? && c.ok && s.jobs[i].net.labels != {} && (p.V6? ==> IccV6 in s.jobs[i].net.labels))
  {
    assert ActivationOk(s, i) && StageOk(s, s.jobs[i]);
  }

  /** A rule appears only by a Create of its network that asked for it. */
  lemma RulesComeOnly(s: State, i: nat, c: Choice, b: string, p: Proto)
    requires StageInv(s) && Enabled(s, i, c) && !HasRule(s, p, b) && HasRule(Next(s, i, c), p, b)
    ensures OwnBridge(s, i, b) && s.jobs[i].AddRules? && s.jobs[i].req.disableICC && (p.V6? ==> s.jobs[i].req.ipv6)
    ensures c.Rule? && c.ok && c.proto == p
  {
    assert ActivationOk(s, i) && StageOk(s, s.jobs[i]);
  }

  predicate HasRule(s: State, p: Proto, b: string) {
    match p
    case V4 => b in s.drop4
    case V6 => b in s.drop6
  }

  /** A network appears only by a Create of its name, and changes only in the bridge its Create asked for. */
  lemma NetworksChangeOnly(s: State, i: nat, c: Choice, n: Name)
    requires StageInv(s) && Enabled(s, i, c) && n in Next(s, i, c).nets
    ensures n !in s.nets ==> s.lk.acts[i].Holding? && s.jobs[i].CallCreate? && s.jobs[i].req.name == n && c.Made?
    ensures n in s.nets && Next(s, i, c).nets[n] != s.nets[n] ==>
      && s.lk.acts[i].Holding? && s.jobs[i].SetBridge? && s.jobs[i].req.name == n && c.Go?
      && Next(s, i, c).nets[n] == s.nets[n].(bridge := Some(s.jobs[i].req.bridgeName))
  {
    assert ActivationOk(s, i);
  }

  /** What CreateNetwork reported decides how a Create goes on: a failure or a network without an ID
      ends it, and such a network is left in place. */
  lemma CreateReturns(s: State, i: nat, c: Choice)
    requires StageInv(s) && Enabled(s, i, c) && s.lk.acts[i].Holding? && s.jobs[i].CallCreate?
    ensures var t, req := Next(s, i, c), s.jobs[i].req;
      && i < |t.jobs| && (c.Fail? ==> t.nets == s.nets && t.jobs[i].Return?)
      && (c.Made? ==> req.name in t.nets && t.nets[req.name].id == c.id && (c.id.None? ==> t.jobs[i].Return?))
  {
  }

  /** A Create goes to its cleanup exactly when a post-create call fails, or the bridge name it asks for
      is taken, or the config of its network has gone. */
  lemma CleansUpExactly(s: State, i: nat, c: Choice)
    requires StageInv(s) && Enabled(s, i, c) && s.lk.acts[i].Holding?
    requires s.jobs[i].SetBridge? || s.jobs[i].GetBridge? || s.jobs[i].AddRules?
    ensures var t, job := Next(s, i, c), s.jobs[i];
      i < |t.jobs| && (t.jobs[i].Cleanup? <==>
        || c.Fail? || (c.Rule? && !c.ok)
        || (!job.AddRules? && (job.req.name !in s.nets || s.nets[job.req.name].bridge.None?))
        || (job.SetBridge? && exists n :: n in s.nets && s.nets[n].bridge == Some(job.req.bridgeName)))
  {
  }

  /** A Remove in the backend section returns only with its network gone, or after a failed call, or
      because the config with the bridge name has gone. */
  lemma RemoveReturns(s: State, i: nat, c: Choice)
    requires StageInv(s) && Enabled(s, i, c) && s.lk.acts[i].Holding? && s.jobs[i].Unlabel?
    ensures var t, net := Next(s, i, c), s.jobs[i].net;
      i < |t.jobs| && (t.jobs[i].Return? <==>
        || c.Fail? || (c.Rule? && !c.ok) || (c.Go? && net.name !in t.nets)
        || (c.Pick? && (net.name !in s.nets || s.nets[net.name].bridge.None?)))
  {
  }
}
