/** Looking up the credentials of a build for a registry address.

    `registryurl.Parse` is a parameter: a partial function from addresses to URL components as
    in section 3 of RFC 3986 (scheme, host and port of the authority, path).  The only thing
    asked of it is that the empty address, which has no host, does not parse. */
module Credentials {
  import opened Prelude
  import opened Text

  datatype Url = Url(scheme: string, host: string, port: string, path: string)

  type Parser = string -> Option<Url>

  datatype AuthConfig = AuthConfig(username: string, password: string)

  type Creds = map<string, AuthConfig>

  predicate RejectsEmpty(parse: Parser) {
    parse("").None?
  }

  function Authority(u: Url): string {
    if u.port == "" then u.host else u.host + ":" + u.port
  }

  /** url.URL.String. */
  function Render(u: Url): string {
    u.scheme + "://" + Authority(u) + u.path
  }

  /** Components as the grammar of RFC 3986 allows them: no ':' in a scheme, no '/' in an
      authority, ':' in a host only inside the brackets of an IP literal, digits in a port, and
      a path that is empty or starts with '/'. */
  predicate WellFormed(u: Url) {
    && (forall i :: 0 <= i < |u.scheme| ==> u.scheme[i] != ':')
    && (forall i :: 0 <= i < |u.host| ==> u.host[i] != '/')
    && (forall i :: 0 <= i < |u.port| ==> '0' <= u.port[i] <= '9')
    && ((forall i :: 0 <= i < |u.host| ==> u.host[i] != ':') || (u.host != "" && u.host[|u.host| - 1] == ']'))
    && (u.path == "" || u.path[0] == '/')
  }

  predicate ExactMatch(server: Url, target: Url) {
    Render(server) == Render(target)
  }

  /** The scheme is ignored, a missing port or path of the server is taken from the target. */
  predicate ApproximateMatch(server: Url, target: Url) {
    ExactMatch(
      Url(target.scheme, server.host,
          if server.port == "" && target.port != "" then target.port else server.port,
          if server.path == "" then target.path else server.path),
      target)
  }

  /** What approximate matching means for well-formed URLs. */
  predicate Compatible(server: Url, target: Url) {
    && server.host == target.host
    && (server.port == "" || server.port == target.port)
    && (server.path == "" || server.path == target.path)
  }

  /** An authority with a port has a ':' and does not end in the ']' of an IP literal. */
  predicate EndsInPort(authority: string) {
    ':' in authority && authority[|authority| - 1] != ']'
  }

  lemma PortIsVisible(u: Url)
    requires WellFormed(u)
    ensures EndsInPort(Authority(u)) <==> u.port != ""
  {
    if u.port != "" {
      assert Authority(u)[|u.host|] == ':';
      assert Authority(u)[|Authority(u)| - 1] == u.port[|u.port| - 1];
    }
  }

  lemma AuthorityUnique(u: Url, v: Url)
    requires WellFormed(u) && WellFormed(v) && Authority(u) == Authority(v)
    ensures u.host == v.host && u.port == v.port
  {
    PortIsVisible(u);
    PortIsVisible(v);
    if u.port != "" {
      LastSplitUnique(u.host, u.port, v.host, v.port, ':');
    }
  }

  /** What follows the scheme of a printed URL. */
  function AfterScheme(u: Url): string {
    "://" + (Authority(u) + u.path)
  }

  lemma RenderIs(u: Url)
    ensures Render(u) == u.scheme + AfterScheme(u)
  {
    assert u.scheme + "://" + Authority(u) + u.path == u.scheme + ("://" + (Authority(u) + u.path));
  }

  lemma SameAfter(c: string, x: string, y: string)
    requires c + x == c + y
    ensures x == y
  {
    assert x == (c + x)[|c|..] && y == (c + y)[|c|..];
  }

  /** A printed URL is cut at its first ':' and, after the authority, at its first '/'. */
  lemma SchemeUnique(u: Url, v: Url)
    requires WellFormed(u) && WellFormed(v) && Render(u) == Render(v)
    ensures u.scheme == v.scheme && Authority(u) + u.path == Authority(v) + v.path
  {
    RenderIs(u);
    RenderIs(v);
    SplitUnique(u.scheme, v.scheme, AfterScheme(u), AfterScheme(v), ':');
    SameAfter("://", Authority(u) + u.path, Authority(v) + v.path);
  }

  lemma PathUnique(u: Url, v: Url)
    requires WellFormed(u) && WellFormed(v) && Authority(u) + u.path == Authority(v) + v.path
    ensures Authority(u) == Authority(v) && u.path == v.path
  {
    NoSlashInAuthority(u);
    NoSlashInAuthority(v);
    SplitUnique(Authority(u), Authority(v), u.path, v.path, '/');
  }

  lemma NoSlashInAuthority(u: Url)
    requires WellFormed(u)
    ensures Without(Authority(u), '/')
  {
  }

  /** Comparing printed URLs compares their components. */
  lemma ExactMatchIsEquality(u: Url, v: Url)
    requires WellFormed(u) && WellFormed(v)
    ensures ExactMatch(u, v) <==> u == v
  {
    if ExactMatch(u, v) {
      SchemeUnique(u, v);
      PathUnique(u, v);
      AuthorityUnique(u, v);
    }
  }

  lemma ApproximateMatchIsCompatible(server: Url, target: Url)
    requires WellFormed(server) && WellFormed(target)
    ensures ApproximateMatch(server, target) <==> Compatible(server, target)
  {
    var filled := Url(target.scheme, server.host,
                      if server.port == "" && target.port != "" then target.port else server.port,
                      if server.path == "" then target.path else server.path);
    ExactMatchIsEquality(filled, target);
  }

  datatype Class = Exact | Approximate

  predicate Matching(kind: Class, server: Url, target: Url) {
    match kind
    case Exact => ExactMatch(server, target)
    case Approximate => ApproximateMatch(server, target)
  }

  predicate KeyMatches(parse: Parser, kind: Class, server: Url, key: string) {
    parse(key).Some? && Matching(kind, server, parse(key).value)
  }

  method FindMatch(parse: Parser, server: Url, targets: seq<string>, kind: Class) returns (r: Option<string>)
    ensures r.Some? ==> r.value in targets && KeyMatches(parse, kind, server, r.value)
    ensures r.None? ==> forall t :: t in targets ==> !KeyMatches(parse, kind, server, t)
  {
    for i := 0 to |targets|
      invariant forall j :: 0 <= j < i ==> !KeyMatches(parse, kind, server, targets[j])
    {
      var url := parse(targets[i]);
      if url.None? {
        continue;
      }
      if Matching(kind, server, url.value) {
        return Some(targets[i]);
      }
    }
    return None;
  }

  /** The keys of a map in some order. */
  ghost predicate Enumerates(targets: seq<string>, creds: Creds) {
    forall k :: k in targets <==> k in creds
  }

  method GetTarget(parse: Parser, serverAddr: string, creds: Creds, targets: seq<string>) returns (target: string)
    requires Enumerates(targets, creds)
    ensures match parse(serverAddr)
      case None => target == serverAddr
      case Some(server) =>
        || (target in creds && KeyMatches(parse, Exact, server, target))
        || (&& (forall k :: k in creds ==> !KeyMatches(parse, Exact, server, k))
            && (|| (target in creds && KeyMatches(parse, Approximate, server, target))
                || (target == "" && forall k :: k in creds ==> !KeyMatches(parse, Approximate, server, k))))
  {
    var server := parse(serverAddr);
    if server.None? {
      return serverAddr;
    }
    var exact := FindMatch(parse, server.value, targets, Exact);
    if exact.Some? {
      return exact.value;
    }
    var approximate := FindMatch(parse, server.value, targets, Approximate);
    if approximate.Some? {
      return approximate.value;
    }
    return "";
  }

  /** The lookup in simple terms.  When several keys match, map order decides which one is used. */
  ghost predicate LookupSpec(parse: Parser, creds: Creds, serverAddr: string, r: Option<AuthConfig>) {
    match parse(serverAddr)
    case None => r == if serverAddr in creds then Some(creds[serverAddr]) else None
    case Some(server) =>
      if exists k :: k in creds && KeyMatches(parse, Exact, server, k)
      then exists k :: k in creds && KeyMatches(parse, Exact, server, k) && r == Some(creds[k])
      else if exists k :: k in creds && KeyMatches(parse, Approximate, server, k)
      then exists k :: k in creds && KeyMatches(parse, Approximate, server, k) && r == Some(creds[k])
      else r == None
  }

  datatype Found = Found(auth: Option<AuthConfig>, usedFallback: bool)

  /** GetCredentials on the entry of a build, for keys enumerated in any order. */
  method GetFromEntry(parse: Parser, creds: Creds, targets: seq<string>, serverAddr: string) returns (r: Found)
    requires RejectsEmpty(parse) && Enumerates(targets, creds)
    ensures LookupSpec(parse, creds, serverAddr, r.auth)
    ensures r.usedFallback <==> serverAddr == "" && "" in creds
  {
    var target := GetTarget(parse, serverAddr, creds, targets);
    var fallback := false;
    if target == "" {
      if serverAddr !in creds {
        return Found(None, false);
      }
      // A parsable address that is itself a key would have matched exactly.
      assert parse(serverAddr).Some? ==> KeyMatches(parse, Exact, parse(serverAddr).value, serverAddr);
      target, fallback := serverAddr, true;
    }
    if target !in creds {
      return Found(None, fallback);
    }
    return Found(Some(creds[target]), fallback);
  }

  /** The fallback does succeed: for the empty address, when there are credentials under it. */
  method EmptyAddressFallsBack(parse: Parser, auth: AuthConfig) returns (r: Found)
    requires RejectsEmpty(parse)
    ensures r == Found(Some(auth), true)
  {
    r := GetFromEntry(parse, map["" := auth], [""], "");
  }
}
