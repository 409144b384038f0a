/** Concurrent setBridgeName calls: the lock of the config directory makes check and write one
    step, which is the step of the network protocol. */
module BridgeNames {
  import opened Prelude
  import opened BridgeConfig
  import NetworkProtocol
  import NetworkLocks

  type Bridges = map<string, string>

  predicate InUse(bridges: Bridges, bridge: string) {
    exists n :: n in bridges && bridges[n] == bridge
  }

  ghost predicate Distinct(bridges: Bridges) {
    forall n, k :: n in bridges && k in bridges && bridges[n] == bridges[k] ==> n == k
  }

  datatype Phase =
    | Asking               // before flock
    | Locked               // has the lock
    | Checked              // has found the name unused, and will write
    | Leaving(ok: bool)    // will release the lock
    | Done(ok: bool)

  datatype Call = Call(name: string, bridge: string, phase: Phase)

  datatype State = State(bridges: Bridges, holder: Option<nat>, calls: seq<Call>)

  /** A step of a call, or of nerdctl, which makes and removes networks without this lock. */
  datatype Event =
    | Acquire(i: nat)
    | Check(i: nat, fails: bool)
    | Write(i: nat, writing: Writing)
    | Release(i: nat)
    | Make(name: string, bridge: string)
    | Remove(name: string)

  predicate Inside(c: Call) {
    c.phase.Locked? || c.phase.Checked? || c.phase.Leaving?
  }

  /** `exclusive` says whether flock keeps others out.  Default bridge names are fresh, and the
      network of a call is not removed meanwhile, since the mutex of its name is held. */
  predicate Enabled(exclusive: bool, s: State, e: Event) {
    match e
    case Acquire(i) => i < |s.calls| && s.calls[i].phase.Asking? && (exclusive ==> s.holder.None?)
    case Check(i, _) => i < |s.calls| && s.calls[i].phase.Locked?
    case Write(i, _) => i < |s.calls| && s.calls[i].phase.Checked?
    case Release(i) => i < |s.calls| && s.calls[i].phase.Leaving?
    case Make(n, b) =>
      n !in s.bridges && !InUse(s.bridges, b) && forall j :: 0 <= j < |s.calls| ==> s.calls[j].bridge != b
    case Remove(n) => forall j :: 0 <= j < |s.calls| && s.calls[j].name == n ==> !Inside(s.calls[j])
  }

  function Become(s: State, i: nat, p: Phase): State
    requires i < |s.calls|
  {
    s.(calls := s.calls[i := s.calls[i].(phase := p)])
  }

  function Next(s: State, e: Event): State
    requires Enabled(false, s, e)
  {
    match e
    case Acquire(i) => Become(s, i, Locked).(holder := Some(i))
    case Check(i, fails) =>
      var c := s.calls[i];
      Become(s, i, if fails || InUse(s.bridges, c.bridge) || c.name !in s.bridges then Leaving(false) else Checked)
    case Write(i, writing) =>
      var c := s.calls[i];
      Become(s, i, Leaving(writing == Complete)).(
        bridges := match writing
          case Complete => s.bridges[c.name := c.bridge]
          case Untouched => s.bridges
          case Truncated => s.bridges - {c.name})
    case Release(i) => Become(s, i, Done(s.calls[i].phase.ok)).(holder := None)
    case Make(n, b) => s.(bridges := s.bridges[n := b])
    case Remove(n) => s.(bridges := s.bridges - {n})
  }

  /** Names are distinct, one call at most is inside, and what it has checked still holds. */
  ghost predicate Inv(s: State) {
    && Distinct(s.bridges)
    && (forall i :: 0 <= i < |s.calls| ==> (Inside(s.calls[i]) <==> s.holder == Some(i)))
    && (forall i :: 0 <= i < |s.calls| && s.calls[i].phase.Checked? ==>
          !InUse(s.bridges, s.calls[i].bridge) && s.calls[i].name in s.bridges)
  }

  /** One indivisible setBridgeName: what the protocol has, apart from failures. */
  predicate CanSet(bridges: Bridges, name: string, bridge: string) {
    !InUse(bridges, bridge) && name in bridges
  }

  lemma FreeStays(bridges: Bridges, n: string, b: string, x: string)
    requires !InUse(bridges, x) && b != x
    ensures !InUse(bridges[n := b], x) && !InUse(bridges - {n}, x)
  {
  }

  /** Under the lock every step keeps the invariant, and a write happens only where check and write
      in one step would succeed. */
  lemma StepKeeps(s: State, e: Event)
    requires Inv(s) && Enabled(true, s, e)
    ensures Inv(Next(s, e))
    ensures e.Write? ==> CanSet(s.bridges, s.calls[e.i].name, s.calls[e.i].bridge)
  {
    var t := Next(s, e);
    forall i | 0 <= i < |t.calls| && t.calls[i].phase.Checked?
      ensures !InUse(t.bridges, t.calls[i].bridge) && t.calls[i].name in t.bridges
    {
      if !e.Check? || e.i != i {
        assert s.calls[i] == t.calls[i];
        if e.Make? {
          FreeStays(s.bridges, e.name, e.bridge, t.calls[i].bridge);
        }
      }
    }
    assert Distinct(t.bridges);
  }

  ghost predicate Executes(exclusive: bool, s: State, evs: seq<Event>, t: State)
    decreases |evs|
  {
    if evs == [] then s == t
    else Enabled(exclusive, s, evs[0]) && Executes(exclusive, Next(s, evs[0]), evs[1..], t)
  }

  /** Over every interleaving of calls on any networks, bridge names stay pairwise distinct. */
  lemma {:induction false} LockedRunsStayDistinct(s: State, evs: seq<Event>, t: State)
    requires Inv(s) && Executes(true, s, evs, t)
    ensures Inv(t)
    decreases |evs|
  {
    if evs != [] {
      StepKeeps(s, evs[0]);
      LockedRunsStayDistinct(Next(s, evs[0]), evs[1..], t);
    }
  }

  lemma ExecutesFirst(exclusive: bool, s: State, e: Event, evs: seq<Event>, t: State)
    requires Enabled(exclusive, s, e) && Executes(exclusive, Next(s, e), evs, t)
    ensures Executes(exclusive, s, [e] + evs, t)
  {
    assert ([e] + evs)[1..] == evs;
  }

  /** Both calls have checked, and both write. */
  lemma BothWrite(s: State) returns (evs: seq<Event>, t: State)
    requires s.calls == [Call("a", "x", Checked), Call("b", "x", Checked)]
    ensures Executes(false, s, evs, t) && t.calls == [Call("a", "x", Done(true)), Call("b", "x", Done(true))]
    ensures t.bridges == s.bridges["a" := "x"]["b" := "x"]
  {
    var s1 := Next(s, Write(0, Complete));
    assert s1.calls == [Call("a", "x", Leaving(true)), Call("b", "x", Checked)];
    var s2 := Next(s1, Write(1, Complete));
    assert s2.calls == [Call("a", "x", Leaving(true)), Call("b", "x", Leaving(true))];
    var s3 := Next(s2, Release(0));
    assert s3.calls == [Call("a", "x", Done(true)), Call("b", "x", Leaving(true))];
    t := Next(s3, Release(1));
    assert t.calls == [Call("a", "x", Done(true)), Call("b", "x", Done(true))];
    ExecutesFirst(false, s3, Release(1), [], t);
    ExecutesFirst(false, s2, Release(0), [Release(1)] + [], t);
    evs := [Release(0)] + ([Release(1)] + []);
    ExecutesFirst(false, s1, Write(1, Complete), evs, t);
    ExecutesFirst(false, s, Write(0, Complete), [Write(1, Complete)] + evs, t);
    evs := [Write(0, Complete)] + ([Write(1, Complete)] + evs);
  }

  /** Each call enters and checks. */
  lemma EnterAndCheck(s: State, i: nat, evs: seq<Event>, t: State)
    requires i < |s.calls| && s.calls[i].phase == Asking && CanSet(s.bridges, s.calls[i].name, s.calls[i].bridge)
    requires Executes(false, Become(s, i, Checked).(holder := Some(i)), evs, t)
    ensures Executes(false, s, [Acquire(i)] + ([Check(i, false)] + evs), t)
  {
    var s1 := Next(s, Acquire(i));
    var s2 := Next(s1, Check(i, false));
    assert s2.calls == s.calls[i := s.calls[i].(phase := Checked)];
    ExecutesFirst(false, s1, Check(i, false), evs, t);
    ExecutesFirst(false, s, Acquire(i), [Check(i, false)] + evs, t);
  }

  /** Without exclusion two calls can take one name. */
  lemma UnlockedRunCollides() returns (s: State, evs: seq<Event>, t: State)
    ensures Inv(s) && Executes(false, s, evs, t) && !Distinct(t.bridges)
    ensures forall i :: 0 <= i < |t.calls| ==> t.calls[i].phase == Done(true)
  {
    s := State(map["a" := "br-a", "b" := "br-b"], None, [Call("a", "x", Asking), Call("b", "x", Asking)]);
    var s1 := Become(s, 0, Checked).(holder := Some(0));
    var s2 := Become(s1, 1, Checked).(holder := Some(1));
    assert s2.calls == [Call("a", "x", Checked), Call("b", "x", Checked)];
    evs, t := BothWrite(s2);
    EnterAndCheck(s1, 1, evs, t);
    evs := [Acquire(1)] + ([Check(1, false)] + evs);
    EnterAndCheck(s, 0, evs, t);
    evs := [Acquire(0)] + ([Check(0, false)] + evs);
    assert t.bridges["a"] == t.bridges["b"];
  }

  /** The bridge names of the networks in the protocol. */
  function BridgesOf(nets: map<string, NetworkProtocol.Net>): Bridges {
    map n | n in nets && nets[n].bridge.Some? :: nets[n].bridge.value
  }

  lemma SameUse(nets: map<string, NetworkProtocol.Net>, b: string)
    ensures InUse(BridgesOf(nets), b) <==> NetworkProtocol.BridgeInUse(nets, b)
  {
    if NetworkProtocol.BridgeInUse(nets, b) {
      var n :| n in nets && nets[n].bridge == Some(b);
      assert n in BridgesOf(nets) && BridgesOf(nets)[n] == b;
    }
    if InUse(BridgesOf(nets), b) {
      var n :| n in BridgesOf(nets) && BridgesOf(nets)[n] == b;
      assert nets[n].bridge == Some(b);
    }
  }

  /** The protocol's step is the indivisible call, and fails exactly when that does. */
  lemma ProtocolStepIs(s: NetworkProtocol.State, i: nat, c: NetworkProtocol.Choice)
    requires NetworkProtocol.WellShaped(s) && NetworkProtocol.Enabled(s, i, c)
    requires s.lk.acts[i].Holding? && s.jobs[i].SetBridge?
    ensures var t := NetworkProtocol.SetBridgeStep(s, i, c);
      var req, before := s.jobs[i].req, BridgesOf(s.nets);
      var ok := c.Go? && CanSet(before, req.name, req.bridgeName);
      && i < |t.jobs| && (t.jobs[i].Cleanup? <==> !ok)
      && BridgesOf(t.nets) == if ok then before[req.name := req.bridgeName] else before
  {
    SameUse(s.nets, s.jobs[i].req.bridgeName);
  }

  /** The network has this bridge name on file. */
  ghost predicate OnFile(files: Files, n: string, b: string) {
    PathOf(files, n).Some? && HasBridgeName(files[PathOf(files, n).value], b)
  }

  predicate OneBridgePlugin(plugins: seq<Json>) {
    forall i, j :: 0 <= i < j < |plugins| ==> !(IsBridgePlugin(plugins[i]) && IsBridgePlugin(plugins[j]))
  }

  /** A config with one bridge plugin, which has a name, as nerdctl writes it. */
  ghost predicate OneBridge(config: Json) {
    (exists b :: HasBridgeName(config, b)) && OneBridgePlugin(PluginsOrNone(config))
  }

  /** These are the bridge names in the config files, none of which hides another. */
  ghost predicate Abstracts(files: Files, bridges: Bridges) {
    && (forall n, b :: OnFile(files, n, b) <==> n in bridges && bridges[n] == b)
    && (forall p :: p in files && HasBridgePlugin(files[p]) ==> PathOf(files, p.name) == Some(p) && OneBridge(files[p]))
  }

  lemma UseIsName(config: Json, b: string)
    requires HasBridgePlugin(config) ==> OneBridge(config)
    ensures UsesBridge(PluginsOrNone(config), b) <==> HasBridgeName(config, b)
  {
    if UsesBridge(PluginsOrNone(config), b) {
      var plugins := Plugins(config).value;
      var i :| 0 <= i < |plugins| && IsBridgePlugin(plugins[i]) && BridgeField(plugins[i]) == Some(b);
      assert FirstBridgeAt(plugins, i);
    }
  }

  /** nerdctl lists exactly the config files. */
  ghost predicate ListsExactly(networks: seq<Listed>, files: Files) {
    && Lists(networks, files)
    && forall i :: 0 <= i < |networks| ==>
         networks[i].path in files && networks[i].plugins == PluginsOrNone(files[networks[i].path])
  }

  lemma ListedUse(files: Files, bridges: Bridges, networks: seq<Listed>, b: string)
    requires Abstracts(files, bridges) && ListsExactly(networks, files)
    ensures InUse(bridges, b) <==> exists i :: 0 <= i < |networks| && UsesBridge(networks[i].plugins, b)
  {
    if InUse(bridges, b) {
      var n :| n in bridges && bridges[n] == b;
      assert OnFile(files, n, b);
      var p := PathOf(files, n).value;
      assert HasBridgePlugin(files[p]);
      UseIsName(files[p], b);
      var i :| 0 <= i < |networks| && networks[i] == Listed(p, PluginsOrNone(files[p]));
    }
    if i: nat :| i < |networks| && UsesBridge(networks[i].plugins, b) {
      var p := networks[i].path;
      UseIsName(files[p], b);
      assert HasBridgePlugin(files[p]);
      assert OnFile(files, p.name, b);
    }
  }

  /** On the config files, setBridgeName succeeds exactly when the indivisible call does. */
  lemma SettableExactly(files: Files, bridges: Bridges, networks: seq<Listed>, name: string, bridge: string)
    requires Abstracts(files, bridges) && ListsExactly(networks, files)
    ensures Settable(files, networks, name, bridge) <==> CanSet(bridges, name, bridge)
  {
    ListedUse(files, bridges, networks, bridge);
    if name in bridges {
      assert OnFile(files, name, bridges[name]);
    }
    if PathOf(files, name).Some? && HasBridgePlugin(files[PathOf(files, name).value]) {
      var b :| HasBridgeName(files[PathOf(files, name).value], b);
      assert OnFile(files, name, b);
    }
  }

  lemma PathIsOwn(files: Files, n: string, p: Path)
    requires PathOf(files, n) == Some(p)
    ensures p in files && p.name == n
  {
  }

  lemma SetKeepsOne(before: Json, after: Json, k: nat, bridge: string)
    requires OneBridge(before) && SameButBridge(before, after, k) && HasBridgeName(after, bridge)
    ensures OneBridge(after)
  {
    SetKeepsOnePlugin(Plugins(before).value, Plugins(after).value, k);
  }

  lemma SetKeepsOnePlugin(a: seq<Json>, b: seq<Json>, k: nat)
    requires OneBridgePlugin(a) && |a| == |b| && FirstBridgeAt(a, k) && FirstBridgeAt(b, k)
    requires forall i :: 0 <= i < |a| && i != k ==> a[i] == b[i]
    ensures OneBridgePlugin(b)
  {
    forall i, j | 0 <= i < j < |b| ensures !(IsBridgePlugin(b[i]) && IsBridgePlugin(b[j])) {
      assert IsBridgePlugin(a[i]) == IsBridgePlugin(b[i]) && IsBridgePlugin(a[j]) == IsBridgePlugin(b[j]);
    }
  }

  /** The write of a successful call is the write of the indivisible one. */
  lemma SetRefines(before: Files, after: Files, bridges: Bridges, name: string, bridge: string)
    requires Abstracts(before, bridges) && BridgeSet(before, after, name, bridge)
    ensures Abstracts(after, bridges[name := bridge])
  {
    var p := PathOf(before, name).value;
    PathIsOwn(before, name, p);
    var k: nat :| SameButBridge(before[p], after[p], k);
    assert HasBridgePlugin(before[p]) && HasBridgePlugin(after[p]);
    SetKeepsOne(before[p], after[p], k, bridge);
    forall n, b ensures OnFile(after, n, b) <==> n in bridges[name := bridge] && bridges[name := bridge][n] == b {
      assert PathOf(after, n) == PathOf(before, n);
      if n == name {
        if HasBridgeName(after[p], b) {
          BridgeNameIsUnique(after[p], b, bridge);
        }
      } else {
        assert OnFile(after, n, b) <==> OnFile(before, n, b);
      }
    }
    forall q | q in after && HasBridgePlugin(after[q]) ensures PathOf(after, q.name) == Some(q) && OneBridge(after[q]) {
      assert PathOf(after, q.name) == PathOf(before, q.name);
    }
  }

  /** A write that fails after truncating the file takes the network's name away. */
  lemma TruncationRefines(before: Files, bridges: Bridges, name: string)
    requires Abstracts(before, bridges) && PathOf(before, name).Some?
    ensures Abstracts(before[PathOf(before, name).value := Null], bridges - {name})
  {
    var p := PathOf(before, name).value;
    var after := before[p := Null];
    PathIsOwn(before, name, p);
    forall n, b ensures OnFile(after, n, b) <==> n in bridges - {name} && bridges[n] == b {
      assert PathOf(after, n) == PathOf(before, n);
      assert n != name ==> (OnFile(after, n, b) <==> OnFile(before, n, b));
    }
    forall q | q in after && HasBridgePlugin(after[q]) ensures PathOf(after, q.name) == Some(q) && OneBridge(after[q]) {
      assert PathOf(after, q.name) == PathOf(before, q.name);
    }
  }
}
