/** Attaching networks to a container: the list of networks and the interface index live in the
    container's labels, and a failed attachment is rolled back. */
module Connect {
  import opened Prelude
  import opened Text

  /** What containerd stores about the container, and the interfaces CNI has attached.
      `networks` is None when the label is missing or is not a JSON list. */
  datatype View = View(
    networks: Option<seq<string>>, index: Option<string>, annotation: seq<string>, attached: map<string, string>)

  datatype Status = Unknown | Pausing | Paused | Running | Created | Stopped

  /** Which calls of one Connect fail. */
  datatype Faults = Faults(
    labels: bool, verify: bool, spec: bool, update: bool, netns: bool, readIndex: bool, setLabels: bool,
    rereadLabels: bool, ports: bool, cni: bool, rollback: bool)

  datatype Outcome = Refused | Recorded | Attached(ifName: string) | RolledBack | RollbackLost

  function IfName(index: int): string {
    "eth" + Itoa(index)
  }

  /** The index in force: the label if there is one, else the position of the last network. */
  function EffectiveIndex(v: View): Option<int> {
    if v.index.Some? then Atoi(v.index.value)
    else if v.networks.Some? then Some(|v.networks.value| - 1)
    else None
  }

  /** The container can take one more network of this name.  Go has no list of 2^63 elements. */
  predicate CanAdd(v: View, net: string) {
    && v.networks.Some? && net !in v.networks.value && |v.networks.value| + 1 < TWO63
    && EffectiveIndex(v).Some?
  }

  function NextIndex(v: View): int
    requires EffectiveIndex(v).Some?
  {
    Wrap64(EffectiveIndex(v).value + 1)
  }

  /** One more network on the list, in the label and in the annotation. */
  function WithNetwork(v: View, net: string): View
    requires CanAdd(v, net)
  {
    var networks := v.networks.value + [net];
    v.(networks := Some(networks), index := Some(Itoa(NextIndex(v))), annotation := networks)
  }

  /** What a Connect does to the container, by outcome. */
  ghost predicate Effect(v: View, w: View, net: string, outcome: Outcome) {
    match outcome
    case Refused => w == v
    case Recorded => CanAdd(v, net) && w == WithNetwork(v, net)
    case RollbackLost => CanAdd(v, net) && w == WithNetwork(v, net)
    case Attached(ifName) =>
      && CanAdd(v, net) && ifName == IfName(NextIndex(v))
      && w == WithNetwork(v, net).(attached := v.attached[ifName := net])
    case RolledBack =>
      CanAdd(v, net) && w == v.(index := Some(Itoa(EffectiveIndex(v).value)), annotation := v.networks.value)
  }

  class Container {
    var networks: Option<seq<string>>
    var index: Option<string>
    var annotation: seq<string>
    var attached: map<string, string>

    ghost function Now(): View
      reads this
    {
      View(networks, index, annotation, attached)
    }

    constructor (networks: Option<seq<string>>, index: Option<string>, annotation: seq<string>, attached: map<string, string>)
      ensures Now() == View(networks, index, annotation, attached)
    {
      this.networks, this.index, this.annotation, this.attached := networks, index, annotation, attached;
    }

    /** Returns the values captured by the deleteNet closure. */
    method AddNetworkConfig(net: string, f: Faults) returns (captured: Option<(seq<string>, int)>)
      modifies this
      ensures captured.None? ==> Now() == old(Now())
      ensures captured.Some? ==>
        && old(CanAdd(Now(), net)) && Now() == old(WithNetwork(Now(), net))
        && captured.value == (networks.value, old(NextIndex(Now())))
      ensures captured.Some? <==> old(CanAdd(Now(), net)) && !f.labels && !f.verify && !f.spec && !f.update
      ensures captured.Some? ==>
        && old(networks).Some? && networks == Some(old(networks).value + [net]) && annotation == networks.value
        && index == Some(Itoa(captured.value.1)) && attached == old(attached)
        && (old(index).None? ==> captured.value.1 == |old(networks).value|)
        && (old(index).Some? ==>
              Atoi(old(index).value).Some? && captured.value.1 == Wrap64(Atoi(old(index).value).value + 1))
    {
      if f.labels || networks.None? {
        return None;
      }
      var list := networks.value;
      if net in list || f.verify || |list| + 1 >= TWO63 {
        return None;
      }
      list := list + [net];
      if f.spec {
        return None;
      }
      var idx;
      if index.Some? {
        var parsed := Atoi(index.value);
        if parsed.None? {
          return None;
        }
        idx := Wrap64(parsed.value + 1);
      } else {
        idx := |list| - 1;
      }
      assert idx == old(NextIndex(Now()));
      if f.update {
        return None;
      }
      networks, index, annotation := Some(list), Some(Itoa(idx)), list;
      return Some((list, idx));
    }

    /** The deleteNet closure. */
    method DeleteNet(captured: (seq<string>, int), fails: bool)
      requires captured.0 != []
      modifies this
      ensures fails ==> Now() == old(Now())
      ensures !fails ==>
        var shorter := captured.0[..|captured.0| - 1];
        Now() == old(Now()).(networks := Some(shorter), index := Some(Itoa(Wrap64(captured.1 - 1))), annotation := shorter)
    {
      var shorter := captured.0[..|captured.0| - 1];
      if !fails {
        networks, index, annotation := Some(shorter), Some(Itoa(Wrap64(captured.1 - 1))), shorter;
      }
    }

    method GetNetworkIndex(f: Faults) returns (r: Option<int>)
      modifies this`index
      ensures r == if f.readIndex || (old(index).None? && f.setLabels) then None else old(EffectiveIndex(Now()))
      ensures index == if old(index).None? && r.Some? then Some(Itoa(r.value)) else old(index)
      ensures old(index).Some? && !f.readIndex ==> r == Atoi(old(index).value)
      ensures old(index).None? && r.Some? ==> networks.Some? && r.value == |networks.value| - 1
    {
      if f.readIndex {
        return None;
      }
      if index.Some? {
        return Atoi(index.value);
      }
      if networks.None? || f.setLabels {
        return None;
      }
      index := Some(Itoa(|networks.value| - 1));
      return Some(|networks.value| - 1);
    }

    method ConnectNetwork(net: string, f: Faults) returns (ifName: Option<string>)
      requires index.Some?
      modifies this
      ensures ifName.None? ==> Now() == old(Now())
      ensures ifName.Some? <==>
        EffectiveIndex(old(Now())).Some? && !f.netns && !f.readIndex && !f.rereadLabels && !f.ports && !f.cni
      ensures ifName.Some? ==> index.Some? && Atoi(index.value).Some? && ifName.value == "eth" + Itoa(Atoi(index.value).value)
      ensures ifName.Some? ==>
        && EffectiveIndex(old(Now())).Some? && ifName.value == IfName(EffectiveIndex(old(Now())).value)
        && Now() == old(Now()).(attached := old(attached)[ifName.value := net])
    {
      if f.netns {
        return None;
      }
      var idx := GetNetworkIndex(f);
      if idx.None? || f.rereadLabels || f.ports || f.cni {
        return None;
      }
      var name := IfName(idx.value);
      attached := attached[name := net];
      return Some(name);
    }

    method Connect(net: string, status: Status, f: Faults) returns (outcome: Outcome)
      modifies this
      ensures Effect(old(Now()), Now(), net, outcome)
      ensures outcome.Refused? <==>
        status.Unknown? || status.Pausing? || !CanAdd(old(Now()), net) || f.labels || f.verify || f.spec || f.update
      ensures outcome.Recorded? <==> !outcome.Refused? && (status.Created? || status.Stopped?)
      ensures outcome.Attached? || outcome.RolledBack? || outcome.RollbackLost? ==> status.Running? || status.Paused?
      ensures outcome.RolledBack? || outcome.RollbackLost? ==> f.netns || f.readIndex || f.rereadLabels || f.ports || f.cni
      ensures outcome.Attached? ==> !f.netns && !f.readIndex && !f.rereadLabels && !f.ports && !f.cni
      ensures (outcome.RolledBack? ==> !f.rollback) && (outcome.RollbackLost? ==> f.rollback)
    {
      if status.Unknown? || status.Pausing? {
        return Refused;
      }
      var captured := AddNetworkConfig(net, f);
      if captured.None? {
        return Refused;
      }
      if status.Created? || status.Stopped? {
        return Recorded;
      }
      AtoiItoa(captured.value.1);
      var name := ConnectNetwork(net, f);
      if name.Some? {
        return Attached(name.value);
      }
      DeleteNet(captured.value, f.rollback);
      if f.rollback {
        return RollbackLost;
      }
      assert networks.value == old(networks).value;
      WrapBack(old(EffectiveIndex(Now())).value);
      return RolledBack;
    }
  }

  ghost predicate NoDuplicates(s: seq<string>) {
    forall i, j :: 0 <= i < j < |s| ==> s[i] != s[j]
  }

  /** The list has no duplicates, label and annotation agree, the index is the position of the
      last network, and `eth<i>` is attached to the i-th network of the list. */
  ghost predicate Inv(v: View) {
    && v.networks.Some? && NoDuplicates(v.networks.value) && v.annotation == v.networks.value
    && EffectiveIndex(v) == Some(|v.networks.value| - 1)
    && forall name :: name in v.attached ==> AttachedInPlace(v, name)
  }

  ghost predicate AttachedInPlace(v: View, name: string)
    requires v.networks.Some? && name in v.attached
  {
    exists i: nat :: i < |v.networks.value| && name == IfName(i) && v.attached[name] == v.networks.value[i]
  }

  lemma IfNameInjective(i: nat, j: nat)
    requires IfName(i) == IfName(j)
    ensures i == j
  {
    ParseDecimal(i);
    ParseDecimal(j);
    assert IfName(i)[3..] == Decimal(i) && IfName(j)[3..] == Decimal(j);
  }

  /** The next interface name is not in use. */
  lemma NextIsFresh(v: View)
    requires Inv(v)
    ensures IfName(|v.networks.value|) !in v.attached
  {
    var n := |v.networks.value|;
    if IfName(n) in v.attached {
      assert AttachedInPlace(v, IfName(n));
      var i: nat :| i < n && IfName(n) == IfName(i);
      IfNameInjective(n, i);
    }
  }

  /** Interfaces stay in place when the list grows. */
  lemma StaysInPlace(v: View, w: View, name: string)
    requires v.networks.Some? && name in v.attached && AttachedInPlace(v, name)
    requires w.networks.Some? && v.networks.value <= w.networks.value
    requires name in w.attached && w.attached[name] == v.attached[name]
    ensures AttachedInPlace(w, name)
  {
    var i: nat :| i < |v.networks.value| && name == IfName(i) && v.attached[name] == v.networks.value[i];
    assert w.networks.value[i] == v.networks.value[i];
  }

  lemma AttachedKept(v: View, w: View, net: string, outcome: Outcome)
    requires Inv(v) && Effect(v, w, net, outcome)
    ensures w.networks.Some? && v.networks.value <= w.networks.value
    ensures forall name :: name in w.attached ==> AttachedInPlace(w, name)
  {
    var n := |v.networks.value|;
    forall name | name in w.attached ensures AttachedInPlace(w, name) {
      if name in v.attached && w.attached[name] == v.attached[name] {
        StaysInPlace(v, w, name);
      } else {
        assert name == IfName(n) && w.networks.value[n] == net;
      }
    }
  }

  /** One Connect: the invariant is kept, the interface name handed to CNI is unused, and a
      completed rollback restores the list and the index in force. */
  lemma ConnectKeeps(v: View, w: View, net: string, outcome: Outcome)
    requires Inv(v) && Effect(v, w, net, outcome)
    ensures Inv(w)
    ensures v.networks.value <= w.networks.value
    ensures outcome.Attached? ==>
      outcome.ifName !in v.attached && outcome.ifName == "eth" + Decimal(|v.networks.value|) && w.attached[outcome.ifName] == net
    ensures outcome.RolledBack? ==> w.networks == v.networks && w.annotation == v.annotation
                                    && EffectiveIndex(w) == EffectiveIndex(v) && w.attached == v.attached
  {
    var n := |v.networks.value|;
    if !outcome.Refused? {
      AtoiItoa(n - 1);
      AtoiItoa(n);
    }
    NextIsFresh(v);
    AttachedKept(v, w, net, outcome);
  }

  datatype Call = Call(net: string, outcome: Outcome)

  ghost predicate IsRun(vs: seq<View>, calls: seq<Call>) {
    |vs| == |calls| + 1 && forall k :: 0 <= k < |calls| ==> Effect(vs[k], vs[k + 1], calls[k].net, calls[k].outcome)
  }

  /** The same over any sequence of Connects, and no interface name is attached twice. */
  lemma {:induction false} RunKeeps(vs: seq<View>, calls: seq<Call>)
    requires IsRun(vs, calls) && Inv(vs[0])
    ensures forall k :: 0 <= k <= |calls| ==> Inv(vs[k]) && vs[0].networks.value <= vs[k].networks.value
    ensures forall k :: 0 <= k <= |calls| ==> vs[0].attached.Keys <= vs[k].attached.Keys
    ensures forall k :: 0 <= k < |calls| && calls[k].outcome.Attached? ==> calls[k].outcome.ifName !in vs[k].attached
    decreases |calls|
  {
    if calls != [] {
      var n := |calls| - 1;
      assert IsRun(vs[..n + 1], calls[..n]);
      RunKeeps(vs[..n + 1], calls[..n]);
      assert vs[..n + 1][n] == vs[n];
      assert Effect(vs[n], vs[n + 1], calls[n].net, calls[n].outcome);
      ConnectKeeps(vs[n], vs[n + 1], calls[n].net, calls[n].outcome);
      forall k | 0 <= k <= |calls|
        ensures Inv(vs[k]) && vs[0].networks.value <= vs[k].networks.value && vs[0].attached.Keys <= vs[k].attached.Keys
      {
        assert k <= n ==> vs[k] == vs[..n + 1][k];
      }
      forall k | 0 <= k < |calls| && calls[k].outcome.Attached? ensures calls[k].outcome.ifName !in vs[k].attached {
        assert k < n ==> calls[k] == calls[..n][k] && vs[k] == vs[..n + 1][k];
      }
    }
  }
}
