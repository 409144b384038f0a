/** Bridge names in the CNI config files.  Each method runs under the lock of the config
    directory, so calls on different networks never interleave. */
module BridgeConfig {
  import opened Prelude

  datatype Json =
    | Null
    | Bool(b: bool)
    | Num(n: int)
    | Str(s: string)
    | Arr(items: seq<Json>)
    | Obj(fields: map<string, Json>)

  /** A config file lives in the namespace's directory or, for old networks, in the default one. */
  datatype Path = Namespaced(name: string) | Legacy(name: string)

  type Files = map<Path, Json>

  predicate IsBridgePlugin(plugin: Json) {
    plugin.Obj? && "type" in plugin.fields && plugin.fields["type"] == Str("bridge")
  }

  /** The plugins of a config, if it has the right form. */
  function Plugins(config: Json): Option<seq<Json>> {
    if config.Obj? && "plugins" in config.fields && config.fields["plugins"].Arr?
    then Some(config.fields["plugins"].items) else None
  }

  /** `k` is the position of the first bridge plugin. */
  predicate FirstBridgeAt(plugins: seq<Json>, k: nat) {
    k < |plugins| && IsBridgePlugin(plugins[k]) && forall i :: 0 <= i < k ==> !IsBridgePlugin(plugins[i])
  }

  predicate HasBridgePlugin(config: Json) {
    Plugins(config).Some? && exists i :: 0 <= i < |Plugins(config).value| && IsBridgePlugin(Plugins(config).value[i])
  }

  /** The bridge name on file. */
  ghost predicate HasBridgeName(config: Json, bridge: string) {
    Plugins(config).Some? && exists k: nat ::
      FirstBridgeAt(Plugins(config).value, k) && BridgeField(Plugins(config).value[k]) == Some(bridge)
  }

  function BridgeField(plugin: Json): Option<string> {
    if plugin.Obj? && "bridge" in plugin.fields && plugin.fields["bridge"].Str?
    then Some(plugin.fields["bridge"].s) else None
  }

  method ParseBridgeConfig(config: Json) returns (at: Option<nat>)
    ensures at.Some? ==> Plugins(config).Some? && FirstBridgeAt(Plugins(config).value, at.value)
    ensures at.Some? <==> HasBridgePlugin(config)
  {
    if Plugins(config).None? {
      return None;
    }
    var plugins := Plugins(config).value;
    for i := 0 to |plugins|
      invariant forall j :: 0 <= j < i ==> !IsBridgePlugin(plugins[j])
    {
      if IsBridgePlugin(plugins[i]) {
        return Some(i);
      }
    }
    return None;
  }

  /** A network as listed by nerdctl. */
  datatype Listed = Listed(path: Path, plugins: seq<Json>)

  predicate UsesBridge(plugins: seq<Json>, bridge: string) {
    exists i :: 0 <= i < |plugins| && IsBridgePlugin(plugins[i]) && BridgeField(plugins[i]) == Some(bridge)
  }

  /** Decode a plugin into the struct kept from the previous one: an absent or null field leaves
      the old value, a value of another type is an error. */
  function Decode(plugin: Json, kept: string): (bool, string) {
    if !plugin.Obj? then (false, kept)
    else if "bridge" !in plugin.fields || plugin.fields["bridge"].Null? then (true, kept)
    else if plugin.fields["bridge"].Str? then (true, plugin.fields["bridge"].s)
    else (false, kept)
  }

  /** The struct is declared once, outside both loops.  For a non-empty name the value left over
      from an earlier plugin never makes a later one match. */
  method GetNetworkByBridgeName(networks: seq<Listed>, bridgeName: string) returns (found: Option<nat>)
    ensures bridgeName != "" ==>
      match found
      case Some(k) => k < |networks| && UsesBridge(networks[k].plugins, bridgeName)
                      && forall i :: 0 <= i < k ==> !UsesBridge(networks[i].plugins, bridgeName)
      case None => forall i :: 0 <= i < |networks| ==> !UsesBridge(networks[i].plugins, bridgeName)
  {
    var kept := "";
    for i := 0 to |networks|
      invariant bridgeName != "" ==> kept != bridgeName
      invariant bridgeName != "" ==> forall k :: 0 <= k < i ==> !UsesBridge(networks[k].plugins, bridgeName)
    {
      var plugins := networks[i].plugins;
      for j := 0 to |plugins|
        invariant bridgeName != "" ==> kept != bridgeName
        invariant bridgeName != "" ==> forall k :: 0 <= k < j && IsBridgePlugin(plugins[k]) ==> BridgeField(plugins[k]) != Some(bridgeName)
      {
        if !IsBridgePlugin(plugins[j]) {
          continue;
        }
        var (ok, bridge) := Decode(plugins[j], kept);
        kept := bridge;
        if !ok {
          continue;
        }
        if kept == bridgeName {
          return Some(i);
        }
      }
    }
    return None;
  }

  /** nerdctl lists every config file. */
  ghost predicate Lists(networks: seq<Listed>, files: Files) {
    forall p :: p in files ==> exists i :: 0 <= i < |networks| && networks[i] == Listed(p, PluginsOrNone(files[p]))
  }

  function PluginsOrNone(config: Json): seq<Json> {
    if Plugins(config).Some? then Plugins(config).value else []
  }

  /** No bridge name is used in two files. */
  ghost predicate DistinctBridges(files: Files) {
    forall p, q, b :: p in files && q in files && UsesBridge(PluginsOrNone(files[p]), b) && UsesBridge(PluginsOrNone(files[q]), b) ==> p == q
  }

  /** The two configs differ only in the "bridge" field of their first bridge plugin. */
  ghost predicate SameButBridge(a: Json, b: Json, k: nat) {
    && Plugins(a).Some? && Plugins(b).Some?
    && FirstBridgeAt(Plugins(a).value, k) && FirstBridgeAt(Plugins(b).value, k)
    && |Plugins(a).value| == |Plugins(b).value|
    && (forall i :: 0 <= i < |Plugins(a).value| && i != k ==> Plugins(a).value[i] == Plugins(b).value[i])
    && Plugins(a).value[k].fields - {"bridge"} == Plugins(b).value[k].fields - {"bridge"}
    && a.fields - {"plugins"} == b.fields - {"plugins"}
  }

  function PathOf(files: Files, name: string): Option<Path> {
    if Namespaced(name) in files then Some(Namespaced(name))
    else if Legacy(name) in files then Some(Legacy(name))
    else None
  }

  /** A network has at most two files; the one in the namespace's directory is used. */
  lemma NamespacedFirst(files: Files, name: string)
    ensures PathOf(files, name).Some? <==> Namespaced(name) in files || Legacy(name) in files
    ensures PathOf(files, name) == Some(Legacy(name)) ==> Namespaced(name) !in files
  {
  }

  /** The name is free and the network has a config in which to put it. */
  predicate Settable(files: Files, networks: seq<Listed>, name: string, bridge: string) {
    && (forall i :: 0 <= i < |networks| ==> !UsesBridge(networks[i].plugins, bridge))
    && PathOf(files, name).Some? && HasBridgePlugin(files[PathOf(files, name).value])
  }

  /** The name is on file, and nothing else has changed. */
  ghost predicate BridgeSet(before: Files, after: Files, name: string, bridge: string) {
    var p := PathOf(before, name);
    && p.Some? && after.Keys == before.Keys
    && HasBridgeName(after[p.value], bridge)
    && (exists k: nat :: SameButBridge(before[p.value], after[p.value], k))
    && (forall q :: q in after && q != p.value ==> after[q] == before[q])
  }

  /** How writing the file ends.  os.WriteFile truncates first, so a failure may leave a file that
      does not decode, here Null. */
  datatype Writing = Complete | Untouched | Truncated

  class NetconfDir {
    var files: Files

    constructor (files: Files)
      ensures this.files == files
    {
      this.files := files;
    }

    /** Overrides the bridge name of an existing network; `fails` stands for any error before the write. */
    method SetBridgeName(name: string, bridge: string, networks: seq<Listed>, fails: bool, writing: Writing) returns (ok: bool)
      requires bridge != "" && Lists(networks, files)
      modifies this
      ensures ok <==> !fails && old(Settable(files, networks, name, bridge)) && writing == Complete
      ensures ok ==> BridgeSet(old(files), files, name, bridge)
      ensures ok ==> forall q :: q in old(files) ==> !UsesBridge(PluginsOrNone(old(files)[q]), bridge)
      ensures !ok && (fails || !old(Settable(files, networks, name, bridge)) || writing == Untouched) ==> files == old(files)
      ensures !fails && old(Settable(files, networks, name, bridge)) && writing == Truncated ==>
        files == old(files)[PathOf(old(files), name).value := Null]
      ensures old(DistinctBridges(files)) ==> DistinctBridges(files)
    {
      var user := GetNetworkByBridgeName(networks, bridge);
      var p := PathOf(files, name);
      if fails || user.Some? || p.None? {
        return false;
      }
      var config := files[p.value];
      var at := ParseBridgeConfig(config);
      if at.None? || writing == Untouched {
        return false;
      }
      if writing == Truncated {
        files := files[p.value := Null];
        return false;
      }
      var k, plugins := at.value, Plugins(config).value;
      var plugin := Obj(plugins[k].fields["bridge" := Str(bridge)]);
      var config' := Obj(config.fields["plugins" := Arr(plugins[k := plugin])]);
      files := files[p.value := config'];
      WriteIsExact(config, k, bridge);
      forall q | q in old(files) ensures !UsesBridge(PluginsOrNone(old(files)[q]), bridge) {
        var i :| 0 <= i < |networks| && networks[i] == Listed(q, PluginsOrNone(old(files)[q]));
      }
      if old(DistinctBridges(files)) {
        WriteKeepsDistinct(old(files), files, p.value, bridge);
      }
      return true;
    }

    method GetBridgeName(name: string, fails: bool) returns (bridge: Option<string>)
      ensures bridge.Some? ==> PathOf(files, name).Some? && HasBridgeName(files[PathOf(files, name).value], bridge.value)
      ensures bridge.None? <==> fails || PathOf(files, name).None? || forall b :: !HasBridgeName(files[PathOf(files, name).value], b)
    {
      var p := PathOf(files, name);
      if fails || p.None? {
        return None;
      }
      var at := ParseBridgeConfig(files[p.value]);
      if at.None? {
        return None;
      }
      NameOnFile(files[p.value], at.value);
      return BridgeField(Plugins(files[p.value]).value[at.value]);
    }
  }

  /** The first bridge plugin decides. */
  lemma NameOnFile(config: Json, k: nat)
    requires Plugins(config).Some? && FirstBridgeAt(Plugins(config).value, k)
    ensures forall b :: HasBridgeName(config, b) <==> BridgeField(Plugins(config).value[k]) == Some(b)
  {
    var plugins := Plugins(config).value;
    forall b | HasBridgeName(config, b) ensures BridgeField(plugins[k]) == Some(b) {
      var i: nat :| FirstBridgeAt(plugins, i) && BridgeField(plugins[i]) == Some(b);
      assert i == k;
    }
  }

  /** The config setBridgeName writes. */
  function Written(config: Json, k: nat, bridge: string): Json
    requires Plugins(config).Some? && FirstBridgeAt(Plugins(config).value, k)
  {
    var plugins := Plugins(config).value;
    Obj(config.fields["plugins" := Arr(plugins[k := Obj(plugins[k].fields["bridge" := Str(bridge)])])])
  }

  lemma WriteIsExact(config: Json, k: nat, bridge: string)
    requires Plugins(config).Some? && FirstBridgeAt(Plugins(config).value, k)
    ensures SameButBridge(config, Written(config, k, bridge), k) && HasBridgeName(Written(config, k, bridge), bridge)
    ensures forall b :: UsesBridge(Plugins(Written(config, k, bridge)).value, b) ==> b == bridge || UsesBridge(Plugins(config).value, b)
  {
    var a, b := Plugins(config).value, Plugins(Written(config, k, bridge)).value;
    assert FirstBridgeAt(b, k) && BridgeField(b[k]) == Some(bridge);
    assert a[k].fields - {"bridge"} == b[k].fields - {"bridge"};
    assert config.fields - {"plugins"} == Written(config, k, bridge).fields - {"plugins"};
    forall x | UsesBridge(b, x) ensures x == bridge || UsesBridge(a, x) {
      var i :| 0 <= i < |b| && IsBridgePlugin(b[i]) && BridgeField(b[i]) == Some(x);
      if i != k {
        assert IsBridgePlugin(a[i]) && BridgeField(a[i]) == Some(x);
      }
    }
  }

  lemma WriteKeepsDistinct(before: Files, after: Files, p: Path, bridge: string)
    requires DistinctBridges(before) && p in before
    requires forall q :: q in before ==> !UsesBridge(PluginsOrNone(before[q]), bridge)
    requires after.Keys == before.Keys && forall q :: q in before && q != p ==> after[q] == before[q]
    requires forall b :: UsesBridge(PluginsOrNone(after[p]), b) ==> b == bridge || UsesBridge(PluginsOrNone(before[p]), b)
    ensures DistinctBridges(after)
  {
  }

  /** Reading back: the name on file is unique, so GetBridgeName after SetBridgeName returns the set name. */
  lemma BridgeNameIsUnique(config: Json, a: string, b: string)
    requires HasBridgeName(config, a) && HasBridgeName(config, b)
    ensures a == b
  {
    var i: nat :| FirstBridgeAt(Plugins(config).value, i) && BridgeField(Plugins(config).value[i]) == Some(a);
    NameOnFile(config, i);
  }

  const HOST_BINDING := "com.docker.network.bridge.host_binding_ipv4"
  const ENABLE_ICC := "com.docker.network.bridge.enable_icc"
  const BRIDGE_NAME := "com.docker.network.bridge.name"
  const LABEL_V4 := "finch.network.bridge.enable_icc.ipv4"
  const LABEL_V6 := "finch.network.bridge.enable_icc.ipv6"

  class BridgeDriver {
    var bridgeName: string
    var disableICC: bool
    const ipv6: bool

    constructor (ipv6: bool)
      ensures bridgeName == "" && !disableICC && this.ipv6 == ipv6
    {
      bridgeName, disableICC, this.ipv6 := "", false, ipv6;
    }

    /** Takes the daemon's own options out of the request, whatever order they come in, and labels
        the network if connectivity is switched off. */
    method HandleCreateOptions(original: map<string, string>, labels: seq<string>, parseBool: string -> Option<bool>)
      returns (opts: map<string, string>, labels': seq<string>)
      requires bridgeName == "" && !disableICC
      modifies this
      ensures opts == original - {HOST_BINDING, ENABLE_ICC, BRIDGE_NAME}
      ensures bridgeName == if BRIDGE_NAME in original then original[BRIDGE_NAME] else ""
      ensures disableICC <==> ENABLE_ICC in original && parseBool(original[ENABLE_ICC]) == Some(false)
      ensures labels' == labels + if disableICC then [(if ipv6 then LABEL_V6 else LABEL_V4) + "=false"] else []
    {
      opts := map[];
      var todo := original.Keys;
      while todo != {}
        invariant todo <= original.Keys
        invariant opts == original - {HOST_BINDING, ENABLE_ICC, BRIDGE_NAME} - todo
        invariant bridgeName == if BRIDGE_NAME in original && BRIDGE_NAME !in todo then original[BRIDGE_NAME] else ""
        invariant disableICC <==> ENABLE_ICC in original && ENABLE_ICC !in todo && parseBool(original[ENABLE_ICC]) == Some(false)
        decreases todo
      {
        var k :| k in todo;
        todo := todo - {k};
        if k == HOST_BINDING {
          // Only 0.0.0.0 is supported; any other value is reported and ignored.
        } else if k == ENABLE_ICC {
          var icc := parseBool(original[k]);
          if icc.None? {
            continue;
          }
          disableICC := !icc.value;
        } else if k == BRIDGE_NAME {
          bridgeName := original[k];
        } else {
          opts := opts[k := original[k]];
        }
      }
      labels' := labels;
      if disableICC {
        labels' := labels' + [(if ipv6 then LABEL_V6 else LABEL_V4) + "=false"];
      }
    }
  }
}
