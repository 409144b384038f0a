/** Progress of the network protocol: every step makes a global measure smaller, and the only
    states that cannot go on hold a Create waiting for itself. */
module NetworkLiveness {
  import opened Prelude
  import opened NetworkLocks
  import opened NetworkProtocol
  import opened NetworkSafety

  function JobWeight(job: Job): nat {
    match job
    case Return => 0
    case AwaitCleanup(_, _) => 1
    case Unlabel(_, todo, _, protos) => 1 + 3 * |todo| + |protos|
    case Resolved(net) => 2 + 3 * |net.labels|
    case Resolve(_) => 9
    case Cleanup(_) => 15
    case AddRules(_, _, protos) => 16 + |protos|
    case GetBridge(_) => 19
    case SetBridge(_) => 20
    case CallCreate(_) => 21
    case Ready(_) => 21
    case Check(_) => 22
  }

  function ActWeight(a: Act): nat {
    match a
    case Finished => 0
    case Releasing(_, _) => 1
    case Holding(_, _) => 2
    case Waiting(_, _) => 3
    case Outside => 4
  }

  const JOB_WEIGHT: Job -> nat := (j: Job) => JobWeight(j)
  const ACT_WEIGHT: Act -> nat := (a: Act) => ActWeight(a)

  function Measure(s: State): nat {
    SumOf(s.jobs, JOB_WEIGHT) + SumOf(s.lk.acts, ACT_WEIGHT)
  }

  lemma TwoLabels(labels: set<Icc>)
    ensures |labels| <= 2
  {
    forall x | x in labels ensures x in {IccV4, IccV6} {
      assert x.IccV4? || x.IccV6?;
    }
    SubsetSize(labels, {IccV4, IccV6});
  }

  lemma SubsetSize<T>(a: set<T>, b: set<T>)
    requires a <= b
    ensures |a| <= |b|
  {
    assert b == a + (b - a);
  }

  /** The stepping activation, with a child it may have started, gets lighter. */
  predicate LighterAt(s: State, t: State, i: nat)
    requires WellShaped(s) && i < |s.jobs|
  {
    && i < |t.jobs| == |t.lk.acts|
    && JobWeight(t.jobs[i]) + ActWeight(t.lk.acts[i]) + (if |t.jobs| > |s.jobs| then 13 else 0)
         < JobWeight(s.jobs[i]) + ActWeight(s.lk.acts[i])
  }

  lemma OutsideLighter(s: State, i: nat, c: Choice)
    requires WellShaped(s) && Enabled(s, i, c) && s.lk.acts[i].Outside?
    ensures LighterAt(s, OutsideStep(s, i, c), i)
  {
    if s.jobs[i].Resolve? && GetNetwork(s.nets, s.jobs[i].query).Some? {
      TwoLabels(GetNetwork(s.nets, s.jobs[i].query).value.labels);
    }
  }

  lemma PostCreateWeight(req: CreateRequest, bridge: string)
    ensures JobWeight(PostCreate(req)) <= 20 && JobWeight(AfterBridge(req, bridge)) <= 18
  {
    assert |ProtosFor(req.ipv6)| <= 2;
  }

  lemma CreateLighter(s: State, i: nat, c: Choice)
    requires WellShaped(s) && Enabled(s, i, c) && s.lk.acts[i].Holding? && s.jobs[i].CallCreate?
    ensures LighterAt(s, CreateStep(s, i, c), i)
  {
    PostCreateWeight(s.jobs[i].req, "");
  }

  lemma SetBridgeLighter(s: State, i: nat, c: Choice)
    requires WellShaped(s) && Enabled(s, i, c) && s.lk.acts[i].Holding? && s.jobs[i].SetBridge?
    ensures LighterAt(s, SetBridgeStep(s, i, c), i)
  {
    PostCreateWeight(s.jobs[i].req, s.jobs[i].req.bridgeName);
  }

  lemma GetBridgeLighter(s: State, i: nat, c: Choice)
    requires WellShaped(s) && Enabled(s, i, c) && s.lk.acts[i].Holding? && s.jobs[i].GetBridge?
    ensures LighterAt(s, GetBridgeStep(s, i, c), i)
  {
    var name := s.jobs[i].req.name;
    if name in s.nets && s.nets[name].bridge.Some? {
      PostCreateWeight(s.jobs[i].req, s.nets[name].bridge.value);
    }
  }

  lemma AddRulesLighter(s: State, i: nat, c: Choice)
    requires WellShaped(s) && Enabled(s, i, c) && s.lk.acts[i].Holding? && s.jobs[i].AddRules?
    ensures LighterAt(s, AddRulesStep(s, i, c), i)
  {
    assert |s.jobs[i].protos - {c.proto}| == |s.jobs[i].protos| - 1;
  }

  /** A label picked costs less than three: its two protocols at most. */
  lemma LabelWeight(net: Net, todo: set<Icc>, b: string, b': string, key: Icc)
    requires key in todo
    ensures JobWeight(Unlabel(net, todo - {key}, b', ProtosFor(key == IccV6))) < JobWeight(Unlabel(net, todo, b, {}))
  {
    assert |todo - {key}| == |todo| - 1;
    assert |ProtosFor(key == IccV6)| <= 2;
  }

  lemma ProtoWeight(net: Net, todo: set<Icc>, b: string, protos: set<Proto>, p: Proto)
    requires p in protos
    ensures JobWeight(Unlabel(net, todo, b, protos - {p})) < JobWeight(Unlabel(net, todo, b, protos))
  {
    assert |protos - {p}| == |protos| - 1;
  }

  lemma UnlabelLighter(s: State, i: nat, c: Choice)
    requires WellShaped(s) && Enabled(s, i, c) && s.lk.acts[i].Holding? && s.jobs[i].Unlabel?
    ensures LighterAt(s, UnlabelStep(s, i, c), i)
  {
    var Unlabel(net, todo, b, protos) := s.jobs[i];
    if protos != {} {
      ProtoWeight(net, todo, b, protos, c.proto);
    } else if todo != {} && c.Pick? && net.name in s.nets && s.nets[net.name].bridge.Some? {
      LabelWeight(net, todo, b, s.nets[net.name].bridge.value, c.key);
    }
  }

  lemma LocallyLighter(s: State, i: nat, c: Choice)
    requires WellShaped(s) && Enabled(s, i, c) && Shape(s.jobs[i], s.lk.acts[i])
    ensures LighterAt(s, Next(s, i, c), i)
  {
    if s.lk.acts[i].Outside? {
      OutsideLighter(s, i, c);
    } else if s.lk.acts[i].Holding? {
      match s.jobs[i]
      case CallCreate(_) => CreateLighter(s, i, c);
      case SetBridge(_) => SetBridgeLighter(s, i, c);
      case GetBridge(_) => GetBridgeLighter(s, i, c);
      case AddRules(_, _, _) => AddRulesLighter(s, i, c);
      case Unlabel(_, _, _, _) => UnlabelLighter(s, i, c);
      case _ =>
    }
  }

  lemma Lighter(s: State, t: State, i: nat, v: LockMove)
    requires Effect(s, t, i, v)
    requires LighterAt(s, t, i)
    requires v.Spawn? ==> JobWeight(t.jobs[|s.jobs|]) == 9
    ensures Measure(t) < Measure(s)
  {
    var jobs, acts := s.jobs[i := t.jobs[i]], s.lk.acts[i := t.lk.acts[i]];
    SumUpdate(s.jobs, i, t.jobs[i], JOB_WEIGHT);
    SumUpdate(s.lk.acts, i, t.lk.acts[i], ACT_WEIGHT);
    if v.Spawn? {
      assert t.jobs == jobs + [t.jobs[|s.jobs|]];
      SumAppend(jobs, t.jobs[|s.jobs|], JOB_WEIGHT);
      SumAppend(acts, Outside, ACT_WEIGHT);
      assert t.lk.acts == acts + [Outside];
    } else {
      assert t.jobs == jobs && t.lk.acts == acts;
    }
  }

  /** Every step of every activation strictly decreases the measure. */
  lemma StepDecreases(s: State, i: nat, c: Choice)
    requires CoreInv(s) && Enabled(s, i, c)
    ensures Measure(Next(s, i, c)) < Measure(s)
  {
    assert ActivationOk(s, i);
    var v := StepEffect(s, i, c);
    LocallyLighter(s, i, c);
    Lighter(s, Next(s, i, c), i, v);
  }

  predicate Unfinished(s: State)
    requires WellShaped(s)
  {
    exists i :: 0 <= i < |s.jobs| && !s.lk.acts[i].Finished?
  }

  /** Some request is unfinished and no activation can take any step. */
  ghost predicate Stuck(s: State)
    requires WellShaped(s)
  {
    Unfinished(s) && forall i, c :: 0 <= i < |s.jobs| ==> !Enabled(s, i, c)
  }

  /** Create `p` holds its mutex and waits for a nested Remove that waits for that same mutex. */
  predicate SelfDeadlocked(s: State, p: nat)
    requires WellShaped(s)
  {
    && p < |s.jobs| && s.jobs[p].AwaitCleanup? && s.lk.acts[p].Holding?
    && s.jobs[p].child < |s.jobs|
    && s.lk.acts[s.jobs[p].child] == Waiting(s.lk.acts[p].name, s.lk.acts[p].mutex)
  }

  /** An activation that waits neither for a mutex nor for a nested Remove can step. */
  lemma CanStep(s: State, i: nat) returns (c: Choice)
    requires CoreInv(s) && i < |s.jobs| && !s.lk.acts[i].Finished? && !s.lk.acts[i].Waiting? && !s.jobs[i].AwaitCleanup?
    ensures Enabled(s, i, c)
  {
    assert ActivationOk(s, i);
    c := Go;
    if s.lk.acts[i].Holding? {
      match s.jobs[i]
      case CallCreate(_) => c := Fail;
      case AddRules(_, _, protos) => var p :| p in protos; c := Rule(p, true, false);
      case Unlabel(_, todo, _, protos) =>
        if protos != {} {
          var p :| p in protos; c := Rule(p, true, false);
        } else {
          c := Fail;
        }
      case _ =>
    }
  }

  /** Activation `j` waits for the mutex of the deadlocked Create `p`. */
  predicate WaitsBehind(s: State, p: nat, j: nat)
    requires WellShaped(s)
  {
    SelfDeadlocked(s, p) && j < |s.jobs| && s.lk.acts[j].Waiting? && s.lk.acts[j].mutex == s.lk.acts[p].mutex
  }

  /** In a stuck state every unfinished activation is a Create whose cleanup re-entered Remove, or
      waits for the mutex of one. */
  lemma StuckIsSelfDeadlock(s: State, i: nat) returns (p: nat)
    requires CoreInv(s) && Stuck(s) && i < |s.jobs| && !s.lk.acts[i].Finished?
    ensures SelfDeadlocked(s, p) && (i == p || WaitsBehind(s, p, i))
  {
    p := i;
    if s.lk.acts[i].Waiting? {
      assert ActivationOk(s, i) && !Enabled(s, i, Go);
      var o: nat :| o < |s.lk.acts| && Owns(s.lk.acts[o], s.lk.acts[i].mutex);
      p := o;
    }
    if !s.jobs[p].AwaitCleanup? {
      var c := CanStep(s, p);
      assert false;
    }
    assert ActivationOk(s, p) && !Enabled(s, p, Go);
    var k := s.jobs[p].child;
    if s.lk.acts[k].Outside? {
      var c := CanStep(s, k);
    }
  }

  lemma DeadlockFrame(s: State, t: State, i: nat, v: LockMove, p: nat)
    requires Effect(s, t, i, v) && SelfDeadlocked(s, p) && i != p && i != s.jobs[p].child
    ensures WellShaped(t) && SelfDeadlocked(t, p)
  {
  }

  /** Such a Create stays deadlocked whatever the other activations do. */
  lemma SelfDeadlockIsPermanent(s: State, i: nat, c: Choice, p: nat)
    requires CoreInv(s) && Enabled(s, i, c) && SelfDeadlocked(s, p)
    ensures WellShaped(Next(s, i, c)) && SelfDeadlocked(Next(s, i, c), p)
  {
    assert ActivationOk(s, p) && ActivationOk(s, i);
    assert Owns(s.lk.acts[p], s.lk.acts[p].mutex);
    var v := StepEffect(s, i, c);
    DeadlockFrame(s, Next(s, i, c), i, v, p);
  }

  /** The nested Remove of a cleanup never enters the backend section, so it never deletes anything. */
  lemma CleanupNeverRemoves(s: State, p: nat)
    requires CoreInv(s) && p < |s.jobs| && s.jobs[p].AwaitCleanup?
    ensures s.jobs[p].child < |s.jobs|
    ensures var a := s.lk.acts[s.jobs[p].child]; a.Outside? || a.Finished? || SelfDeadlocked(s, p)
    ensures s.jobs[p].req.name in s.nets
  {
    assert ActivationOk(s, p);
  }
}
