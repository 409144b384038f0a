/** Whole runs of network Create and Remove, with failures at any backend call. */
module NetworkRuns {
  import opened Prelude
  import opened NetworkLocks
  import opened NetworkProtocol
  import opened NetworkSafety
  import opened NetworkLiveness

  /** Activation `i` steps and its call turns out as `c`. */
  datatype Event = Event(i: nat, c: Choice)

  ghost predicate Executes(s: State, evs: seq<Event>, t: State)
    decreases |evs|
  {
    if evs == [] then s == t
    else WellShaped(s) && Enabled(s, evs[0].i, evs[0].c) && Executes(Next(s, evs[0].i, evs[0].c), evs[1..], t)
  }

  /** As Executes, but no Create makes its network under a pending Remove that would miss one of its labels. */
  ghost predicate ExecutesGuarded(s: State, evs: seq<Event>, t: State)
    decreases |evs|
  {
    if evs == [] then s == t
    else
      && WellShaped(s) && Enabled(s, evs[0].i, evs[0].c) && CreateGuard(s, evs[0].i, evs[0].c)
      && ExecutesGuarded(Next(s, evs[0].i, evs[0].c), evs[1..], t)
  }

  /** No post-create step fails along the run. */
  ghost predicate NoPostCreateFailure(s: State, evs: seq<Event>)
    decreases |evs|
  {
    evs != [] && WellShaped(s) && Enabled(s, evs[0].i, evs[0].c) ==>
      var t := Next(s, evs[0].i, evs[0].c);
      evs[0].i < |t.jobs| && !t.jobs[evs[0].i].Cleanup? && NoPostCreateFailure(t, evs[1..])
  }

  lemma InitHolds(s: State)
    requires Init(s)
    ensures RuleInv(s)
  {
    NetworkLocks.InitHolds(s.lk);
    forall i | 0 <= i < |s.jobs| ensures ActivationOk(s, i) {}
  }

  lemma {:induction false} RunKeepsCore(s: State, evs: seq<Event>, t: State)
    requires CoreInv(s) && Executes(s, evs, t)
    ensures CoreInv(t)
    decreases |evs|
  {
    if evs != [] {
      StepKeepsCore(s, evs[0].i, evs[0].c);
      RunKeepsCore(Next(s, evs[0].i, evs[0].c), evs[1..], t);
    }
  }

  lemma {:induction false} RunKeepsRules(s: State, evs: seq<Event>, t: State)
    requires RuleInv(s) && ExecutesGuarded(s, evs, t)
    ensures RuleInv(t)
    decreases |evs|
  {
    if evs != [] {
      StepKeepsRules(s, evs[0].i, evs[0].c);
      RunKeepsRules(Next(s, evs[0].i, evs[0].c), evs[1..], t);
    }
  }

  predicate SameSection(t: State, i: nat, j: nat)
    requires WellShaped(t) && i < |t.jobs| && j < |t.jobs|
  {
    t.lk.acts[i].Holding? && t.lk.acts[j].Holding? && t.lk.acts[i].name == t.lk.acts[j].name
  }

  /** In every reachable state: at most one activation is in the backend section of a name; each
      counter is the number of activations between ensureLock and releaseLock, all of which were
      given the mutex now in the table; bridges are pairwise distinct. */
  lemma ReachableIsSafe(s: State, evs: seq<Event>, t: State)
    requires Init(s) && Executes(s, evs, t)
    ensures WellShaped(t)
    ensures forall i, j :: 0 <= i < |t.jobs| && 0 <= j < |t.jobs| && SameSection(t, i, j) ==> i == j
    ensures forall n :: Users(t.lk.acts, n) == Counter(t.lk.locks, n)
    ensures forall i :: 0 <= i < |t.lk.acts| && (t.lk.acts[i].Waiting? || t.lk.acts[i].Holding?) ==>
              && t.lk.acts[i].name in t.lk.locks.table
              && t.lk.locks.table[t.lk.acts[i].name].mutex == t.lk.acts[i].mutex
    ensures NetsOk(t.nets)
  {
    InitHolds(s);
    RunKeepsCore(s, evs, t);
    forall i, j | 0 <= i < |t.jobs| && 0 <= j < |t.jobs| && SameSection(t, i, j)
      ensures i == j
    {
      MutualExclusion(t.lk, i, j);
    }
  }

  /** In every guarded run no DROP rule outlives its network. */
  lemma GuardedRunsOwnTheirRules(s: State, evs: seq<Event>, t: State)
    requires Init(s) && ExecutesGuarded(s, evs, t)
    ensures RulesOwned(t)
  {
    InitHolds(s);
    RunKeepsRules(s, evs, t);
  }

  /** Activation `i` is alone: every other one has not started, has finished, waits for the cleanup
      it started, or waits for the mutex of a deadlocked Create and so will never go on. */
  ghost predicate Alone(s: State, i: nat)
    requires WellShaped(s)
  {
    forall j :: 0 <= j < |s.jobs| && j != i ==>
      || s.jobs[j].Check? || s.jobs[j].Resolve? || s.lk.acts[j].Finished? || s.jobs[j].AwaitCleanup?
      || exists p :: WaitsBehind(s, p, j)
  }

  /** Requests run one after the other. */
  ghost predicate ExecutesAlone(s: State, evs: seq<Event>, t: State)
    decreases |evs|
  {
    if evs == [] then s == t
    else
      && WellShaped(s) && Enabled(s, evs[0].i, evs[0].c) && Alone(s, evs[0].i)
      && ExecutesAlone(Next(s, evs[0].i, evs[0].c), evs[1..], t)
  }

  /** No Create makes a network of a name that a deadlocked one holds. */
  lemma BehindIsElsewhere(s: State, i: nat, p: nat, j: nat)
    requires CoreInv(s) && WaitsBehind(s, p, j) && i < |s.jobs| && s.lk.acts[i].Holding? && s.jobs[i].CallCreate?
    ensures Pending(s.jobs[j]) ==> s.jobs[j].net.name != s.jobs[i].req.name
  {
    assert ActivationOk(s, i) && ActivationOk(s, j);
    assert s.lk.acts[j].name == s.lk.acts[p].name;
    if s.lk.acts[p].name == s.lk.acts[i].name {
      MutualExclusion(s.lk, i, p);
    }
  }

  lemma AloneMeetsGuard(s: State, i: nat, c: Choice)
    requires CoreInv(s) && Enabled(s, i, c) && Alone(s, i)
    ensures CreateGuard(s, i, c)
  {
    if c.Made? {
      forall j | 0 <= j < |s.jobs| && Pending(s.jobs[j]) ensures s.jobs[j].net.name != s.jobs[i].req.name {
        assert ActivationOk(s, j);
        var p :| WaitsBehind(s, p, j);
        BehindIsElsewhere(s, i, p, j);
      }
    }
  }

  lemma {:induction false} AloneIsGuarded(s: State, evs: seq<Event>, t: State)
    requires CoreInv(s) && ExecutesAlone(s, evs, t)
    ensures ExecutesGuarded(s, evs, t)
    decreases |evs|
  {
    if evs != [] {
      AloneMeetsGuard(s, evs[0].i, evs[0].c);
      StepKeepsCore(s, evs[0].i, evs[0].c);
      AloneIsGuarded(Next(s, evs[0].i, evs[0].c), evs[1..], t);
    }
  }

  /** A deadlocked cleanup does not end a sequential run: the next request may start. */
  lemma NextRequestIsAlone(s: State, p: nat, i: nat)
    requires CoreInv(s) && SelfDeadlocked(s, p) && i < |s.jobs| && (s.jobs[i].Check? || s.jobs[i].Resolve?)
    requires forall j :: 0 <= j < |s.jobs| && j != p && j != s.jobs[p].child && j != i ==>
      s.jobs[j].Check? || s.jobs[j].Resolve? || s.lk.acts[j].Finished?
    ensures Alone(s, i) && Enabled(s, i, Go)
  {
    assert ActivationOk(s, i);
    assert WaitsBehind(s, p, s.jobs[p].child);
  }

  /** When requests run one after the other, whatever calls fail and even past a deadlocked cleanup,
      no DROP rule outlives its network. */
  lemma SequentialRunsOwnTheirRules(s: State, evs: seq<Event>, t: State)
    requires Init(s) && ExecutesAlone(s, evs, t)
    ensures RulesOwned(t)
  {
    InitHolds(s);
    AloneIsGuarded(s, evs, t);
    GuardedRunsOwnTheirRules(s, evs, t);
  }

  /** A run cannot be longer than the measure of the state it starts in. */
  lemma {:induction false} RunsAreBounded(s: State, evs: seq<Event>, t: State)
    requires CoreInv(s) && Executes(s, evs, t)
    ensures |evs| + Measure(t) <= Measure(s)
    decreases |evs|
  {
    if evs != [] {
      StepKeepsCore(s, evs[0].i, evs[0].c);
      StepDecreases(s, evs[0].i, evs[0].c);
      RunsAreBounded(Next(s, evs[0].i, evs[0].c), evs[1..], t);
    }
  }

  ghost predicate NoCleanup(s: State) {
    forall j :: 0 <= j < |s.jobs| ==> !s.jobs[j].Cleanup? && !s.jobs[j].AwaitCleanup?
  }

  lemma {:induction false} NoFailureNoCleanup(s: State, evs: seq<Event>, t: State)
    requires CoreInv(s) && NoCleanup(s) && Executes(s, evs, t) && NoPostCreateFailure(s, evs)
    ensures NoCleanup(t)
    decreases |evs|
  {
    if evs != [] {
      var i, c := evs[0].i, evs[0].c;
      var u := Next(s, i, c);
      StepKeepsCore(s, i, c);
      assert ActivationOk(s, i);
      var v := StepEffect(s, i, c);
      StepStaysClean(s, i, c);
      NoFailureNoCleanup(u, evs[1..], t);
    }
  }

  lemma StepStaysClean(s: State, i: nat, c: Choice)
    requires LocalOk(s, i) && NoCleanup(s) && Enabled(s, i, c)
    requires i < |Next(s, i, c).jobs| && !Next(s, i, c).jobs[i].Cleanup?
    ensures NoCleanup(Next(s, i, c))
  {
  }

  /** If no post-create step fails, a run that cannot be continued has finished every request,
      and the mutex table is empty again. */
  lemma CleanRunsFinish(s: State, evs: seq<Event>, t: State)
    requires Init(s) && Executes(s, evs, t) && NoPostCreateFailure(s, evs)
    requires WellShaped(t) && forall i, c :: 0 <= i < |t.jobs| ==> !Enabled(t, i, c)
    ensures forall i :: 0 <= i < |t.jobs| ==> t.lk.acts[i].Finished?
    ensures t.lk.locks.table == map[] && t.lk.locks.held == {}
  {
    InitHolds(s);
    RunKeepsCore(s, evs, t);
    NoFailureNoCleanup(s, evs, t);
    forall i: nat | i < |t.jobs| ensures t.lk.acts[i].Finished? {
      if !t.lk.acts[i].Finished? {
        var p := StuckIsSelfDeadlock(t, i);
      }
    }
    QuiescentIsEmpty(t.lk);
  }

  ghost predicate Reaches(s: State, t: State) {
    exists evs :: Executes(s, evs, t)
  }

  lemma ReachesSelf(s: State)
    ensures Reaches(s, s)
  {
    assert Executes(s, [], s);
  }

  lemma {:induction false} ExecutesAppend(s: State, evs: seq<Event>, t: State, i: nat, c: Choice)
    requires Executes(s, evs, t) && WellShaped(t) && Enabled(t, i, c)
    ensures Executes(s, evs + [Event(i, c)], Next(t, i, c))
    decreases |evs|
  {
    var all := evs + [Event(i, c)];
    if evs == [] {
      assert Executes(Next(t, i, c), all[1..], Next(t, i, c));
    } else {
      ExecutesAppend(Next(s, evs[0].i, evs[0].c), evs[1..], t, i, c);
      assert all[1..] == evs[1..] + [Event(i, c)];
    }
  }

  lemma ReachesStep(s: State, t: State, i: nat, c: Choice)
    requires Reaches(s, t) && WellShaped(t) && Enabled(t, i, c)
    ensures Reaches(s, Next(t, i, c))
  {
    var evs :| Executes(s, evs, t);
    ExecutesAppend(s, evs, t, i, c);
  }

  lemma CleanupStarts(s: State, i: nat) returns (t: State)
    requires CoreInv(s) && i < |s.jobs| && s.jobs[i].Cleanup?
    ensures Reaches(s, t) && WellShaped(t) && t.nets == s.nets && t.lk.locks == s.lk.locks
    ensures |t.jobs| == |s.jobs| + 1 && t.jobs[|s.jobs|] == Resolve(s.jobs[i].req.name) && t.lk.acts[|s.jobs|].Outside?
    ensures t.jobs[i] == AwaitCleanup(s.jobs[i].req, |s.jobs|) && t.lk.acts[i] == s.lk.acts[i]
  {
    assert ActivationOk(s, i);
    ReachesSelf(s);
    t := CleanupStep(s, i);
    ReachesStep(s, s, i, Go);
  }

  /** A Remove that finds its network gets as far as waiting for the mutex on file. */
  lemma RemoveWaits(s0: State, s: State, k: nat, net: Net) returns (t: State)
    requires Reaches(s0, s) && WellShaped(s) && k < |s.jobs| && s.lk.acts[k].Outside? && s.jobs[k].Resolve?
    requires GetNetwork(s.nets, s.jobs[k].query) == Some(net) && !net.predefined && net.name in s.lk.locks.table
    ensures Reaches(s0, t) && WellShaped(t)
    ensures t.lk.acts == s.lk.acts[k := Waiting(net.name, s.lk.locks.table[net.name].mutex)]
    ensures t.jobs == s.jobs[k := Resolved(net)]
  {
    var s2 := OutsideStep(s, k, Go);
    ReachesStep(s0, s, k, Go);
    t := OutsideStep(s2, k, Go);
    ReachesStep(s0, s2, k, Go);
  }

  /** Whenever a failed post-create step reaches its cleanup and the network can be looked up by
      its name, three more steps deadlock the request. */
  lemma CleanupDeadlocks(s: State, i: nat) returns (t: State)
    requires CoreInv(s) && i < |s.jobs| && s.jobs[i].Cleanup?
    requires GetNetwork(s.nets, s.jobs[i].req.name).Some? && !GetNetwork(s.nets, s.jobs[i].req.name).value.predefined
    ensures Reaches(s, t) && WellShaped(t) && SelfDeadlocked(t, i)
    ensures |t.jobs| == |s.jobs| + 1 && s.jobs[i].req.name in s.nets && t.jobs[i].child == |s.jobs|
  {
    assert ActivationOk(s, i);
    LookupByName(s.nets, s.jobs[i].req.name);
    var s1 := CleanupStarts(s, i);
    t := RemoveWaits(s, s1, |s.jobs|, s.nets[s.jobs[i].req.name]);
  }
}
