/** Container inspect: nerdctl's `unknown-eth<i>` keys are renamed to network names. */
module Inspect {
  import opened Prelude
  import opened Text
  import Connect

  const PREFIX := "unknown-eth"

  /** The lookup either yields a name or indexes the list out of range. */
  datatype Lookup = Name(name: string) | Panics

  /** `names` is None when the label is missing or is not a JSON list.  The index is compared as
      a signed number, so one of 2^63 or more passes the bounds check. */
  function GetNetworkName(names: Option<seq<string>>, network: string): Lookup {
    if names.None? || !(PREFIX <= network) then Name(network)
    else
      match ParseUint(network[|PREFIX|..])
      case None => Name(network)
      case Some(index) =>
        var signed := if index < TWO63 then index else index - TWO64;
        if signed < |names.value| then
          if index < |names.value| then Name(names.value[index]) else Panics
        else Name(network)
  }

  /** Every key: it stays unless it is the prefix and a number, and then also if the number is past
      the list but below 2^63. */
  lemma LookupExactly(names: Option<seq<string>>, key: string)
    requires names.Some? ==> |names.value| <= TWO63
    ensures var r := GetNetworkName(names, key);
      if names.Some? && "unknown-eth" <= key && ParseUint(key[11..]).Some? then
        var n := ParseUint(key[11..]).value;
        r == if n < |names.value| then Name(names.value[n]) else if n < TWO63 then Name(key) else Panics
      else r == Name(key)
  {
  }

  function Key(i: nat): string {
    PREFIX + Decimal(i)
  }

  lemma KeyLookup(names: seq<string>, i: nat)
    requires i < |names| && |names| <= TWO63
    ensures GetNetworkName(Some(names), Key(i)) == Name(names[i])
  {
    ParseDecimal(i);
    assert Key(i)[|PREFIX|..] == Decimal(i);
  }

  /** Inspect undoes Connect's numbering. */
  lemma InspectUndoesConnect(v: Connect.View, i: nat)
    requires Connect.Inv(v) && |v.networks.value| <= TWO63
    requires Connect.IfName(i) in v.attached
    ensures GetNetworkName(v.networks, Key(i)) == Name(v.attached[Connect.IfName(i)])
  {
    assert Connect.AttachedInPlace(v, Connect.IfName(i));
    var j: nat :| j < |v.networks.value| && Connect.IfName(i) == Connect.IfName(j)
                  && v.attached[Connect.IfName(i)] == v.networks.value[j];
    Connect.IfNameInjective(i, j);
    KeyLookup(v.networks.value, i);
  }

  /** The lookup fails exactly on a well-formed key whose number is 2^63 or more. */
  lemma PanicsExactly(names: seq<string>, network: string)
    requires |names| <= TWO63
    ensures GetNetworkName(Some(names), network).Panics? <==>
      PREFIX <= network && ParseUint(network[|PREFIX|..]).Some? && ParseUint(network[|PREFIX|..]).value >= TWO63
  {
  }

  function Renaming(names: Option<seq<string>>): string -> Lookup {
    (key: string) => GetNetworkName(names, key)
  }

  ghost predicate InjectiveOn(rename: string -> Lookup, keys: set<string>) {
    forall a, b :: a in keys && b in keys && rename(a) == rename(b) ==> a == b
  }

  /** The renamed map over the keys visited so far: every entry is some key's, every key has one. */
  ghost predicate Renamed<T>(settings: map<string, T>, rename: string -> Lookup, done: set<string>, networks: map<string, T>) {
    && done <= settings.Keys
    && (forall k :: k in done ==> rename(k).Name? && rename(k).name in networks)
    && (forall n :: n in networks ==> SomeKeyGave(settings, rename, done, n, networks[n]))
  }

  ghost predicate SomeKeyGave<T>(settings: map<string, T>, rename: string -> Lookup, done: set<string>, n: string, x: T)
    requires done <= settings.Keys
  {
    exists k :: k in done && rename(k) == Name(n) && x == settings[k]
  }

  /** No endpoint is lost. */
  ghost predicate Faithful<T>(settings: map<string, T>, rename: string -> Lookup, done: set<string>, networks: map<string, T>) {
    forall k :: k in done && k in settings ==> rename(k).Name? && rename(k).name in networks && networks[rename(k).name] == settings[k]
  }

  lemma RenamedStep<T>(settings: map<string, T>, rename: string -> Lookup, done: set<string>, networks: map<string, T>, k: string)
    requires Renamed(settings, rename, done, networks) && k in settings && k !in done && rename(k).Name?
    ensures Renamed(settings, rename, done + {k}, networks[rename(k).name := settings[k]])
  {
    var after := networks[rename(k).name := settings[k]];
    forall n | n in after ensures SomeKeyGave(settings, rename, done + {k}, n, after[n]) {
      if n != rename(k).name {
        assert SomeKeyGave(settings, rename, done, n, networks[n]);
        var j :| j in done && rename(j) == Name(n) && networks[n] == settings[j];
        assert j in done + {k};
      } else {
        assert k in done + {k};
      }
    }
  }

  lemma FaithfulStep<T>(settings: map<string, T>, rename: string -> Lookup, done: set<string>, networks: map<string, T>, k: string)
    requires Renamed(settings, rename, done, networks) && Faithful(settings, rename, done, networks)
    requires k in settings && k !in done && rename(k).Name? && InjectiveOn(rename, settings.Keys)
    ensures Faithful(settings, rename, done + {k}, networks[rename(k).name := settings[k]])
  {
    var after := networks[rename(k).name := settings[k]];
    assert rename(k).name in networks ==> SomeKeyGave(settings, rename, done, rename(k).name, networks[rename(k).name]);
    assert rename(k).name !in networks;
    forall j | j in done + {k} && j in settings
      ensures rename(j).Name? && rename(j).name in after && after[rename(j).name] == settings[j]
    {
    }
  }

  /** The keys are canonical numerals of positions in the list. */
  ghost predicate Canonical(keys: set<string>, names: seq<string>) {
    forall k :: k in keys ==> exists i: nat :: i < |names| && k == Key(i)
  }

  /** Canonical in-range keys over distinct names are renamed one to one, so no endpoint is lost. */
  lemma CanonicalKeysAreInjective(names: seq<string>, keys: set<string>)
    requires Connect.NoDuplicates(names) && |names| <= TWO63
    requires Canonical(keys, names)
    ensures InjectiveOn(Renaming(Some(names)), keys)
    ensures forall k :: k in keys ==> Renaming(Some(names))(k).Name?
  {
    forall k | k in keys ensures Renaming(Some(names))(k).Name? {
      var i: nat :| i < |names| && k == Key(i);
      KeyLookup(names, i);
    }
    forall a, b | a in keys && b in keys && Renaming(Some(names))(a) == Renaming(Some(names))(b) ensures a == b {
      var i: nat :| i < |names| && a == Key(i);
      var j: nat :| j < |names| && b == Key(j);
      KeyLookup(names, i);
      KeyLookup(names, j);
    }
  }

  /** The loop of updateNetworkSettings after the keys `done`. */
  ghost predicate Progress<T>(settings: map<string, T>, rename: string -> Lookup, done: set<string>, networks: map<string, T>) {
    && Renamed(settings, rename, done, networks)
    && (InjectiveOn(rename, settings.Keys) ==> Faithful(settings, rename, done, networks))
  }

  lemma ProgressStep<T>(settings: map<string, T>, rename: string -> Lookup, done: set<string>, networks: map<string, T>, k: string)
    requires Progress(settings, rename, done, networks) && k in settings && k !in done && rename(k).Name?
    ensures Progress(settings, rename, done + {k}, networks[rename(k).name := settings[k]])
  {
    RenamedStep(settings, rename, done, networks, k);
    if InjectiveOn(rename, settings.Keys) {
      FaithfulStep(settings, rename, done, networks, k);
    }
  }

  /** The loop of updateNetworkSettings: renames the keys of a map, visiting them in any order;
      None if a lookup panics. */
  method RenameKeys<T>(settings: map<string, T>, rename: string -> Lookup) returns (r: Option<map<string, T>>)
    ensures r.None? <==> exists k :: k in settings && rename(k).Panics?
    ensures r.Some? ==> Progress(settings, rename, settings.Keys, r.value)
  {
    var networks: map<string, T> := map[];
    var todo := settings.Keys;
    assert settings.Keys - todo == {};
    while todo != {}
      invariant todo <= settings.Keys && Progress(settings, rename, settings.Keys - todo, networks)
      decreases todo
    {
      var k :| k in todo;
      var name := rename(k);
      if name.Panics? {
        return None;
      }
      ProgressStep(settings, rename, settings.Keys - todo, networks, k);
      assert settings.Keys - todo + {k} == settings.Keys - (todo - {k});
      networks, todo := networks[name.name := settings[k]], todo - {k};
    }
    AllNamed(settings, rename, settings.Keys - todo, networks);
    assert settings.Keys - todo == settings.Keys;
    return Some(networks);
  }

  method UpdateNetworkSettings<T>(settings: map<string, T>, names: Option<seq<string>>) returns (r: Option<map<string, T>>)
    ensures r.None? <==> exists k :: k in settings && GetNetworkName(names, k).Panics?
    ensures r.Some? ==> Renamed(settings, Renaming(names), settings.Keys, r.value)
    ensures r.Some? && InjectiveOn(Renaming(names), settings.Keys) ==>
      Faithful(settings, Renaming(names), settings.Keys, r.value) && |r.value| == |settings|
  {
    r := RenameKeys(settings, Renaming(names));
    if r.Some? && InjectiveOn(Renaming(names), settings.Keys) {
      NoneLost(settings, Renaming(names), r.value);
    }
    assert forall k :: Renaming(names)(k) == GetNetworkName(names, k);
  }

  /** A one-to-one image has as many elements. */
  lemma {:induction false} ImageSize(keys: set<string>, rename: string -> Lookup, image: set<string>)
    requires InjectiveOn(rename, keys) && forall k :: k in keys ==> rename(k).Name? && rename(k).name in image
    requires forall n :: n in image ==> exists k :: k in keys && rename(k) == Name(n)
    ensures |image| == |keys|
    decreases |keys|
  {
    if keys != {} {
      var k :| k in keys;
      forall n | n in image - {rename(k).name} ensures exists j :: j in keys - {k} && rename(j) == Name(n) {
        var j :| j in keys && rename(j) == Name(n);
        assert j in keys - {k};
      }
      ImageSize(keys - {k}, rename, image - {rename(k).name});
    }
  }

  lemma NoneLost<T>(settings: map<string, T>, rename: string -> Lookup, networks: map<string, T>)
    requires Renamed(settings, rename, settings.Keys, networks) && InjectiveOn(rename, settings.Keys)
    ensures |networks| == |settings|
  {
    forall n | n in networks.Keys ensures exists k :: k in settings.Keys && rename(k) == Name(n) {
      assert SomeKeyGave(settings, rename, settings.Keys, n, networks[n]);
    }
    ImageSize(settings.Keys, rename, networks.Keys);
    assert |networks| == |networks.Keys| && |settings| == |settings.Keys|;
  }

  lemma AllNamed<T>(settings: map<string, T>, rename: string -> Lookup, done: set<string>, networks: map<string, T>)
    requires Progress(settings, rename, done, networks)
    ensures forall k :: k in done ==> rename(k).Name?
  {
  }

  /** The name and the key of an attached interface. */
  ghost predicate Endpoint(v: Connect.View, i: nat, key: string, name: string) {
    key == Key(i) && Connect.IfName(i) in v.attached && name == v.attached[Connect.IfName(i)]
  }

  lemma EndpointsAreCanonical(v: Connect.View, keys: set<string>)
    requires Connect.Inv(v) && |v.networks.value| <= TWO63
    requires forall k :: k in keys ==> exists i: nat, name :: Endpoint(v, i, k, name)
    ensures Canonical(keys, v.networks.value)
  {
    forall k | k in keys ensures exists i: nat :: i < |v.networks.value| && k == Key(i) {
      var i: nat, name :| Endpoint(v, i, k, name);
      assert Connect.AttachedInPlace(v, Connect.IfName(i));
      var j: nat :| j < |v.networks.value| && Connect.IfName(i) == Connect.IfName(j);
      Connect.IfNameInjective(i, j);
    }
  }

  /** Inspect after Connect: of a container whose networks Connect attached, the settings of `eth<i>`
      are shown under the network attached as `eth<i>`, one to one. */
  method InspectAttached<T>(v: Connect.View, settings: map<string, T>) returns (r: map<string, T>)
    requires Connect.Inv(v) && |v.networks.value| <= TWO63
    requires forall k :: k in settings ==> exists i: nat, name :: Endpoint(v, i, k, name)
    ensures |r| == |settings|
    ensures forall i: nat, k, name :: Endpoint(v, i, k, name) && k in settings ==> name in r && r[name] == settings[k]
    ensures forall name :: name in r ==> exists i: nat, k :: Endpoint(v, i, k, name) && k in settings
  {
    var names := v.networks.value;
    EndpointsAreCanonical(v, settings.Keys);
    CanonicalKeysAreInjective(names, settings.Keys);
    forall i: nat, k, name | Endpoint(v, i, k, name) ensures GetNetworkName(Some(names), k) == Name(name) {
      InspectUndoesConnect(v, i);
    }
    forall k | k in settings ensures GetNetworkName(Some(names), k).Name? {
      assert Renaming(Some(names))(k).Name?;
    }
    var renamed := UpdateNetworkSettings(settings, Some(names));
    r := renamed.value;
    forall name | name in r ensures exists i: nat, k :: Endpoint(v, i, k, name) && k in settings {
      assert SomeKeyGave(settings, Renaming(Some(names)), settings.Keys, name, r[name]);
      var k :| k in settings && Renaming(Some(names))(k) == Name(name);
      var i: nat, other :| Endpoint(v, i, k, other);
    }
  }

  /** Without canonical numerals an endpoint can be lost. */
  lemma LeadingZeroCollides(name: string)
    ensures GetNetworkName(Some([name]), PREFIX + "0") == GetNetworkName(Some([name]), PREFIX + "00")
  {
    assert (PREFIX + "00")[|PREFIX|..] == "00" && (PREFIX + "0")[|PREFIX|..] == "0";
    assert "00"[..1] == "0";
  }
}
