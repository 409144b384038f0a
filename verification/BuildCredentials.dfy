/** The credential cache over the life of image builds.

    A build handler stores the request's credentials under a fresh random build ID and removes
    them in a deferred call; lookups for any ID may come in between at any time. */
module BuildCredentials {
  import opened Prelude
  import opened Credentials

  type BuildId = string
  type Entries = map<BuildId, Creds>

  function Filed(entries: Entries, id: BuildId, auth: Creds): Entries {
    entries[id := auth]
  }

  function Dropped(entries: Entries, id: BuildId): Entries {
    entries - {id}
  }

  /** The shared cache; every method runs under its mutex. */
  class CredentialCache {
    var entries: Entries

    constructor ()
      ensures entries == map[]
    {
      entries := map[];
    }

    /** Lookups under the build are answered from its credentials; other builds do not notice. */
    method StoreAuthConfigs(id: BuildId, auth: Creds)
      modifies this
      ensures entries == Filed(old(entries), id, auth)
      ensures forall parse, addr, r :: Answer(entries, parse, id, addr, r) <==> LookupSpec(parse, auth, addr, r)
      ensures forall parse, other, addr, r :: other != id ==>
        (Answer(entries, parse, other, addr, r) <==> Answer(old(entries), parse, other, addr, r))
    {
      entries := entries[id := auth];
    }

    /** Lookups under the build find nothing any more; other builds do not notice. */
    method RemoveCredentials(id: BuildId) returns (ok: bool)
      modifies this
      ensures ok == (id in old(entries)) && entries == Dropped(old(entries), id)
      ensures forall parse, addr, r :: Answer(entries, parse, id, addr, r) <==> r == None
      ensures forall parse, other, addr, r :: other != id ==>
        (Answer(entries, parse, other, addr, r) <==> Answer(old(entries), parse, other, addr, r))
    {
      if id !in entries {
        return false;
      }
      entries := entries - {id};
      return true;
    }

    /** `targets` is the order in which the map of the build's credentials is ranged over. */
    method GetCredentials(parse: Parser, id: BuildId, targets: seq<string>, serverAddr: string) returns (r: Option<AuthConfig>)
      requires RejectsEmpty(parse) && (id in entries ==> Enumerates(targets, entries[id]))
      ensures Answer(entries, parse, id, serverAddr, r)
    {
      if id !in entries {
        return None;
      }
      var found := GetFromEntry(parse, entries[id], targets, serverAddr);
      return found.auth;
    }
  }

  ghost predicate Answer(entries: Entries, parse: Parser, id: BuildId, serverAddr: string, r: Option<AuthConfig>) {
    if id in entries then LookupSpec(parse, entries[id], serverAddr, r) else r == None
  }

  datatype Phase =
    | Started                    // nothing decoded yet
    | Plain                      // no credentials to store
    | Registered(id: BuildId)    // the deferred removal is registered, nothing is stored
    | Stored(id: BuildId)        // the build runs
    | Leaving(id: BuildId)       // returning, on whatever path; the deferred removal is next
    | Done(used: Option<BuildId>)

  datatype Handler = Handler(auth: Creds, phase: Phase)

  datatype State = State(entries: Entries, handlers: seq<Handler>)

  datatype Event =
    | DecodeFails(i: nat)
    | NoCredentials(i: nat)
    | GenerateFails(i: nat)
    | Generate(i: nat, id: BuildId)
    | Store(i: nat, ok: bool)
    | Return(i: nat)
    | Remove(i: nat)

  function IdOf(p: Phase): Option<BuildId> {
    match p
    case Started => None
    case Plain => None
    case Registered(id) => Some(id)
    case Stored(id) => Some(id)
    case Leaving(id) => Some(id)
    case Done(used) => used
  }

  predicate Uses(s: State, id: BuildId) {
    exists j :: 0 <= j < |s.handlers| && IdOf(s.handlers[j].phase) == Some(id)
  }

  predicate Enabled(s: State, e: Event) {
    e.i < |s.handlers| &&
    var h := s.handlers[e.i];
    match e
    case DecodeFails(_) => h.phase.Started?
    case NoCredentials(_) => h.phase.Started? && h.auth == map[]
    case GenerateFails(_) => h.phase.Started? && h.auth != map[]
    case Generate(_, id) => h.phase.Started? && h.auth != map[] && id !in s.entries && !Uses(s, id)
    case Store(_, _) => h.phase.Registered?
    case Return(_) => h.phase.Stored? || h.phase.Plain?
    case Remove(_) => h.phase.Leaving?
  }

  function Next(s: State, e: Event): State
    requires Enabled(s, e)
  {
    var i := e.i;
    var h := s.handlers[i];
    match e
    case DecodeFails(_) => Become(s, i, Done(None))
    case NoCredentials(_) => Become(s, i, Plain)
    case GenerateFails(_) => Become(s, i, Done(None))
    case Generate(_, id) => Become(s, i, Registered(id))
    case Store(_, ok) =>
      if ok then Become(s, i, Stored(h.phase.id)).(entries := Filed(s.entries, h.phase.id, h.auth))
      else Become(s, i, Leaving(h.phase.id))
    case Return(_) => Become(s, i, if h.phase.Plain? then Done(None) else Leaving(h.phase.id))
    case Remove(_) => Become(s, i, Done(Some(h.phase.id))).(entries := Dropped(s.entries, h.phase.id))
  }

  function Become(s: State, i: nat, p: Phase): State
    requires i < |s.handlers|
  {
    s.(handlers := s.handlers[i := s.handlers[i].(phase := p)])
  }

  ghost predicate IdsApart(s: State, initial: Entries) {
    && (forall i, j :: 0 <= i < j < |s.handlers| && IdOf(s.handlers[i].phase).Some? ==>
          IdOf(s.handlers[i].phase) != IdOf(s.handlers[j].phase))
    && (forall i :: 0 <= i < |s.handlers| && IdOf(s.handlers[i].phase).Some? ==> IdOf(s.handlers[i].phase).value !in initial)
  }

  /** Relative to the entries the cache began with. */
  ghost predicate Inv(s: State, initial: Entries) {
    && IdsApart(s, initial)
    && (forall id :: id in initial ==> id in s.entries && s.entries[id] == initial[id])
    && (forall id :: id in s.entries && id !in initial ==> Holder(s, id))
    && (forall i :: 0 <= i < |s.handlers| ==> Available(s, s.handlers[i]))
  }

  /** While its build runs, a handler's credentials are in the cache. */
  predicate Available(s: State, h: Handler) {
    h.phase.Stored? ==> h.phase.id in s.entries && s.entries[h.phase.id] == h.auth
  }

  /** An entry that was not there initially belongs to a handler that stored it and has not returned. */
  ghost predicate Holder(s: State, id: BuildId)
    requires id in s.entries
  {
    exists i :: 0 <= i < |s.handlers| && Holds(s.handlers[i], id) && s.entries[id] == s.handlers[i].auth
  }

  predicate Holds(h: Handler, id: BuildId) {
    h.phase == Stored(id) || h.phase == Leaving(id)
  }

  lemma StepKeepsIds(s: State, e: Event, initial: Entries)
    requires Inv(s, initial) && Enabled(s, e)
    ensures IdsApart(Next(s, e), initial)
  {
    var t := Next(s, e);
    forall i, j | 0 <= i < j < |t.handlers| && IdOf(t.handlers[i].phase).Some?
      ensures IdOf(t.handlers[i].phase) != IdOf(t.handlers[j].phase)
    {
      assert i != e.i ==> t.handlers[i] == s.handlers[i];
      assert j != e.i ==> t.handlers[j] == s.handlers[j];
    }
  }

  lemma StepKeepsHolders(s: State, e: Event, initial: Entries, id: BuildId)
    requires Inv(s, initial) && Enabled(s, e) && id in Next(s, e).entries && id !in initial
    ensures Holder(Next(s, e), id)
  {
    var t := Next(s, e);
    if e.Store? && e.ok && id == s.handlers[e.i].phase.id {
      assert Holds(t.handlers[e.i], id);
    } else {
      assert Holder(s, id);
      var i :| 0 <= i < |s.handlers| && Holds(s.handlers[i], id) && s.entries[id] == s.handlers[i].auth;
      assert Holds(t.handlers[i], id);
    }
  }

  lemma StepKeepsAvailable(s: State, e: Event, initial: Entries, j: nat)
    requires Inv(s, initial) && Enabled(s, e) && j < |s.handlers|
    ensures Available(Next(s, e), Next(s, e).handlers[j])
  {
    assert Available(s, s.handlers[j]);
    if j != e.i && IdOf(s.handlers[j].phase).Some? {
      assert IdOf(s.handlers[e.i].phase) != IdOf(s.handlers[j].phase);
    }
  }

  lemma StepKeeps(s: State, e: Event, initial: Entries)
    requires Inv(s, initial) && Enabled(s, e)
    ensures Inv(Next(s, e), initial)
  {
    StepKeepsIds(s, e, initial);
    forall id | id in Next(s, e).entries && id !in initial ensures Holder(Next(s, e), id) {
      StepKeepsHolders(s, e, initial, id);
    }
    forall j | 0 <= j < |s.handlers| ensures Available(Next(s, e), Next(s, e).handlers[j]) {
      StepKeepsAvailable(s, e, initial, j);
    }
  }

  ghost predicate IsRun(ss: seq<State>, evs: seq<Event>) {
    && |ss| == |evs| + 1 && (forall i :: 0 <= i < |ss[0].handlers| ==> ss[0].handlers[i].phase.Started?)
    && forall k :: 0 <= k < |evs| ==> Enabled(ss[k], evs[k]) && ss[k + 1] == Next(ss[k], evs[k])
  }

  lemma {:induction false} RunKeeps(ss: seq<State>, evs: seq<Event>)
    requires IsRun(ss, evs)
    ensures Inv(ss[|evs|], ss[0].entries)
    decreases |evs|
  {
    if evs != [] {
      var n := |evs| - 1;
      assert IsRun(ss[..n + 1], evs[..n]);
      RunKeeps(ss[..n + 1], evs[..n]);
      StepKeeps(ss[n], evs[n], ss[0].entries);
    }
  }

  /** A lookup under a build's ID finds only what that build stored, and nothing once its handler
      has returned. */
  lemma LookupsAreScoped(ss: seq<State>, evs: seq<Event>, i: nat, parse: Parser, serverAddr: string, r: Option<AuthConfig>)
    requires IsRun(ss, evs)
    requires var s := ss[|evs|];
      && i < |s.handlers| && IdOf(s.handlers[i].phase).Some?
      && Answer(s.entries, parse, IdOf(s.handlers[i].phase).value, serverAddr, r) && r.Some?
    ensures var h := ss[|evs|].handlers[i];
      Holds(h, IdOf(h.phase).value) && exists k :: k in h.auth && h.auth[k] == r.value
  {
    RunKeeps(ss, evs);
    var s := ss[|evs|];
    var id := IdOf(s.handlers[i].phase).value;
    assert Holder(s, id);
    var j :| 0 <= j < |s.handlers| && Holds(s.handlers[j], id) && s.entries[id] == s.handlers[j].auth;
    assert i == j;
  }

  /** When every handler has returned, on whatever paths, the cache is as it began. */
  lemma CacheIsRestored(ss: seq<State>, evs: seq<Event>)
    requires IsRun(ss, evs)
    requires forall i :: 0 <= i < |ss[|evs|].handlers| ==> ss[|evs|].handlers[i].phase.Done?
    ensures ss[|evs|].entries == ss[0].entries
  {
    RunKeeps(ss, evs);
    var s := ss[|evs|];
    forall id | id in s.entries ensures id in ss[0].entries {
      assert id !in ss[0].entries ==> Holder(s, id);
    }
  }
}
