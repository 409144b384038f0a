/** Network Create and Remove as an interleaving system.

    Any number of activations run concurrently.  Each is a job (how far its body has come)
    paired with a lock status.  A step runs one backend call, or one operation on the mutex
    table, of one activation; the `Choice` says how the call turned out, so a run with
    arbitrary choices is a run with failures injected at arbitrary calls.  The backend is a
    store of networks with their bridge and ICC labels, and the two sets of bridges that have
    a DROP rule in the IPv4 and IPv6 isolation chains. */
module NetworkProtocol {
  import opened Prelude
  import opened NetworkLocks

  /** The two label keys that mark a network with inter-container connectivity disabled. */
  datatype Icc = IccV4 | IccV6

  datatype Proto = V4 | V6

  datatype Net = Net(name: Name, id: Option<string>, bridge: Option<string>, labels: set<Icc>, predefined: bool)

  datatype CreateRequest = CreateRequest(
    name: Name, bridgeDriver: bool, bridgeName: string, disableICC: bool, ipv6: bool, labels: set<Icc>)

  datatype Job =
    | Check(req: CreateRequest)
    | Ready(req: CreateRequest)
    | CallCreate(req: CreateRequest)
    | SetBridge(req: CreateRequest)
    | GetBridge(req: CreateRequest)
    | AddRules(req: CreateRequest, bridge: string, protos: set<Proto>)
    | Cleanup(req: CreateRequest)
    | AwaitCleanup(req: CreateRequest, child: nat)
    | Resolve(query: string)
    | Resolved(net: Net)
    | Unlabel(net: Net, todo: set<Icc>, bridge: string, protos: set<Proto>)
    | Return

  datatype State = State(
    lk: LockState, jobs: seq<Job>, nets: map<Name, Net>, drop4: set<string>, drop6: set<string>)

  datatype Choice =
    | Go                                           // the call succeeds, or the step has one outcome
    | Fail                                         // the call reports an error
    | Made(id: Option<string>, bridge: string)     // CreateNetwork succeeds
    | Pick(key: Icc)                             // the next ICC label in map order
    | Rule(proto: Proto, ok: bool, wiped: bool)    // the next protocol, and what its rule call did

  /** The labels a created network carries: the requested ones, and the daemon's own ICC label. */
  function LabelsFor(req: CreateRequest): set<Icc> {
    req.labels + (if req.bridgeDriver && req.disableICC then {if req.ipv6 then IccV6 else IccV4} else {})
  }

  function ProtosFor(ipv6: bool): set<Proto> {
    if ipv6 then {V4, V6} else {V4}
  }

  predicate Matches(n: Net, query: string) {
    n.name == query || (n.id.Some? && ("sha256:" + query <= n.id.value || query <= n.id.value))
  }

  ghost predicate OnlyMatch(nets: map<Name, Net>, query: string, n: Name) {
    && n in nets && Matches(nets[n], query)
    && forall k :: k in nets && Matches(nets[k], query) ==> k == n
  }

  /** `getNetwork`: the single match, or nothing when there is no match or more than one. */
  ghost function GetNetwork(nets: map<Name, Net>, query: string): Option<Net> {
    if exists n :: OnlyMatch(nets, query, n)
    then var n :| OnlyMatch(nets, query, n); Some(nets[n])
    else None
  }

  predicate BridgeInUse(nets: map<Name, Net>, bridge: string) {
    exists n :: n in nets && nets[n].bridge == Some(bridge)
  }

  /** The first stage of HandlePostCreate. */
  function PostCreate(req: CreateRequest): Job {
    if !req.bridgeDriver then Return
    else if req.bridgeName != "" then SetBridge(req)
    else if req.disableICC then GetBridge(req)
    else Return
  }

  function AfterBridge(req: CreateRequest, bridge: string): Job {
    if req.disableICC then AddRules(req, bridge, ProtosFor(req.ipv6)) else Return
  }

  function AfterRule(req: CreateRequest, bridge: string, protos: set<Proto>): Job {
    if protos == {} then Return else AddRules(req, bridge, protos)
  }

  function WithDrop(s: State, p: Proto, bridge: string, present: bool): State {
    match p
    case V4 => s.(drop4 := if present then s.drop4 + {bridge} else s.drop4 - {bridge})
    case V6 => s.(drop6 := if present then s.drop6 + {bridge} else s.drop6 - {bridge})
  }

  /** Advance the lock status of activation `i` by `v` and set its job. */
  function Advance(s: State, i: nat, v: LockMove, job: Job): State
    requires i < |s.jobs| && CanMove(s.lk, v)
  {
    s.(lk := Move(s.lk, v), jobs := s.jobs[i := job])
  }

  predicate WellShaped(s: State) {
    |s.jobs| == |s.lk.acts|
  }

  /** May activation `i` take a step whose call turns out as `c`? */
  predicate Enabled(s: State, i: nat, c: Choice)
    requires WellShaped(s)
  {
    i < |s.jobs| &&
    match s.lk.acts[i]
    case Outside =>
      (match s.jobs[i]
       case Check(_) => c.Go? || c.Fail?
       case Ready(_) => c.Go?
       case Resolve(_) => c.Go? || c.Fail?
       case Resolved(_) => c.Go?
       case _ => false)
    case Waiting(_, m) =>
      c.Go? && m !in s.lk.locks.held && (s.jobs[i].CallCreate? || s.jobs[i].Resolved?)
    case Holding(_, _) =>
      (match s.jobs[i]
       case CallCreate(req) =>
         // nerdctl refuses a second network of the same name, and its default bridge names are unused ones.
         c.Fail? || (c.Made? && req.name !in s.nets && (req.bridgeDriver ==> !BridgeInUse(s.nets, c.bridge)))
       case SetBridge(_) => c.Go? || c.Fail?
       case GetBridge(_) => c.Go? || c.Fail?
       case AddRules(_, _, protos) => c.Rule? && c.proto in protos
       case Cleanup(_) => c.Go?
       case AwaitCleanup(_, child) => c.Go? && child < |s.jobs| && s.lk.acts[child].Finished?
       case Unlabel(_, todo, _, protos) =>
         if protos != {} then c.Rule? && c.proto in protos
         else if todo != {} then c.Fail? || (c.Pick? && c.key in todo)
         else c.Go? || c.Fail?
       case Return => c.Go?
       case _ => false)
    case Releasing(_, _) => c.Go?
    case Finished => false
  }

  ghost function Next(s: State, i: nat, c: Choice): State
    requires WellShaped(s) && Enabled(s, i, c)
  {
    match s.lk.acts[i]
    case Outside => OutsideStep(s, i, c)
    case Waiting(_, _) => LockStep(s, i)
    case Holding(_, _) =>
      (match s.jobs[i]
       case CallCreate(_) => CreateStep(s, i, c)
       case SetBridge(_) => SetBridgeStep(s, i, c)
       case GetBridge(_) => GetBridgeStep(s, i, c)
       case AddRules(_, _, _) => AddRulesStep(s, i, c)
       case Cleanup(_) => CleanupStep(s, i)
       case AwaitCleanup(_, _) => Advance(s, i, Work, Return)
       case Unlabel(_, _, _, _) => UnlabelStep(s, i, c)
       case Return => Advance(s, i, Release(i), Return))
    case Releasing(_, _) => Advance(s, i, Unlock(i), Return)
  }

  /** The lookups before the lock, and ensureLock. */
  ghost function OutsideStep(s: State, i: nat, c: Choice): State
    requires WellShaped(s) && Enabled(s, i, c) && s.lk.acts[i].Outside?
  {
    match s.jobs[i]
    case Check(req) =>
      // Any error of the existence check, even a failed listing, lets creation go on.
      if c.Go? && GetNetwork(s.nets, req.name).Some? then Advance(s, i, Leave(i), Return)
      else Advance(s, i, Work, Ready(req))
    case Ready(req) => Advance(s, i, Ensure(i, req.name), CallCreate(req))
    case Resolve(q) =>
      // Fail stands for a failed listing, a failed UsedNetworkInfo, or a network in use.
      if c.Go? && GetNetwork(s.nets, q).Some? && !GetNetwork(s.nets, q).value.predefined
      then Advance(s, i, Work, Resolved(GetNetwork(s.nets, q).value))
      else Advance(s, i, Leave(i), Return)
    case Resolved(net) => Advance(s, i, Ensure(i, net.name), s.jobs[i])
  }

  ghost function LockStep(s: State, i: nat): State
    requires WellShaped(s) && Enabled(s, i, Go) && s.lk.acts[i].Waiting?
  {
    Advance(s, i, Lock(i),
      if s.jobs[i].Resolved? then Unlabel(s.jobs[i].net, s.jobs[i].net.labels, "", {}) else s.jobs[i])
  }

  /** CreateNetwork.  A network that came back without an ID is left in place, with no cleanup. */
  ghost function CreateStep(s: State, i: nat, c: Choice): State
    requires WellShaped(s) && Enabled(s, i, c) && s.lk.acts[i].Holding? && s.jobs[i].CallCreate?
  {
    var req := s.jobs[i].req;
    if c.Fail? then Advance(s, i, Work, Return)
    else
      var net := Net(req.name, c.id, if req.bridgeDriver then Some(c.bridge) else None, LabelsFor(req), false);
      Advance(s, i, Work, if c.id.None? then Return else PostCreate(req)).(nets := s.nets[req.name := net])
  }

  /** setBridgeName: the uniqueness check and the write share the directory lock, so they are one
      step, as BridgeNames shows. */
  ghost function SetBridgeStep(s: State, i: nat, c: Choice): State
    requires WellShaped(s) && Enabled(s, i, c) && s.lk.acts[i].Holding? && s.jobs[i].SetBridge?
  {
    var req := s.jobs[i].req;
    if c.Go? && !BridgeInUse(s.nets, req.bridgeName) && req.name in s.nets && s.nets[req.name].bridge.Some?
    then Advance(s, i, Work, AfterBridge(req, req.bridgeName)).(
           nets := s.nets[req.name := s.nets[req.name].(bridge := Some(req.bridgeName))])
    else Advance(s, i, Work, Cleanup(req))
  }

  ghost function GetBridgeStep(s: State, i: nat, c: Choice): State
    requires WellShaped(s) && Enabled(s, i, c) && s.lk.acts[i].Holding? && s.jobs[i].GetBridge?
  {
    var req := s.jobs[i].req;
    if c.Go? && req.name in s.nets && s.nets[req.name].bridge.Some?
    then Advance(s, i, Work, AfterBridge(req, s.nets[req.name].bridge.value))
    else Advance(s, i, Work, Cleanup(req))
  }

  /** One protocol's addRule.  A failed insertion may have wiped a rule that was there before. */
  ghost function AddRulesStep(s: State, i: nat, c: Choice): State
    requires WellShaped(s) && Enabled(s, i, c) && s.lk.acts[i].Holding? && s.jobs[i].AddRules?
  {
    var AddRules(req, b, protos) := s.jobs[i];
    if c.ok then WithDrop(Advance(s, i, Work, AfterRule(req, b, protos - {c.proto})), c.proto, b, true)
    else if c.wiped then WithDrop(Advance(s, i, Work, Cleanup(req)), c.proto, b, false)
    else Advance(s, i, Work, Cleanup(req))
  }

  /** The deferred cleanup calls Remove on the same name, with the mutex still held. */
  ghost function CleanupStep(s: State, i: nat): State
    requires WellShaped(s) && Enabled(s, i, Go) && s.lk.acts[i].Holding? && s.jobs[i].Cleanup?
  {
    var t := Advance(s, i, Work, AwaitCleanup(s.jobs[i].req, |s.jobs|));
    t.(lk := Move(t.lk, Spawn), jobs := t.jobs + [Resolve(s.jobs[i].req.name)])
  }

  /** handleNetworkLabels over the snapshot's labels, then RemoveNetwork, which deletes by file name. */
  ghost function UnlabelStep(s: State, i: nat, c: Choice): State
    requires WellShaped(s) && Enabled(s, i, c) && s.lk.acts[i].Holding? && s.jobs[i].Unlabel?
  {
    var Unlabel(net, todo, b, protos) := s.jobs[i];
    if protos != {} then
      if c.ok then WithDrop(Advance(s, i, Work, Unlabel(net, todo, b, protos - {c.proto})), c.proto, b, false)
      else Advance(s, i, Work, Return)
    else if todo != {} then
      if c.Pick? && net.name in s.nets && s.nets[net.name].bridge.Some?
      then Advance(s, i, Work, Unlabel(net, todo - {c.key}, s.nets[net.name].bridge.value, ProtosFor(c.key == IccV6)))
      else Advance(s, i, Work, Return)
    else if c.Go? then Advance(s, i, Work, Return).(nets := s.nets - {net.name})
    else Advance(s, i, Work, Return)
  }

  /** Initially nothing is locked, every request is unstarted, and the backend is consistent. */
  ghost predicate Init(s: State) {
    && WellShaped(s) && LockInit(s.lk)
    && (forall i :: 0 <= i < |s.jobs| ==> s.jobs[i].Check? || s.jobs[i].Resolve?)
    && NetsOk(s.nets) && RulesOwned(s)
  }

  /** Networks are filed under their names, and no two share a bridge. */
  ghost predicate NetsOk(nets: map<Name, Net>) {
    && (forall n :: n in nets ==> nets[n].name == n)
    && (forall n, k :: n in nets && k in nets && nets[n].bridge.Some? && nets[n].bridge == nets[k].bridge ==> n == k)
  }

  predicate OwnsV4(n: Net, bridge: string) {
    n.bridge == Some(bridge) && n.labels != {}
  }

  predicate OwnsV6(n: Net, bridge: string) {
    n.bridge == Some(bridge) && IccV6 in n.labels
  }

  /** No rule outlives its network: every DROP rule is for the bridge of a live network with an ICC label. */
  ghost predicate RulesOwned(s: State) {
    && (forall b :: b in s.drop4 ==> exists n :: n in s.nets && OwnsV4(s.nets[n], b))
    && (forall b :: b in s.drop6 ==> exists n :: n in s.nets && OwnsV6(s.nets[n], b))
  }
}
