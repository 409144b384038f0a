/** API filters: normalisation through the legacy format, and the containerd event filters. */
module Filters {
  import opened Prelude
  import opened Text
  import opened Topics

  type Legacy = map<string, seq<string>>
  type FilterSet = map<string, map<string, bool>>

  /** Go's string order. */
  predicate Less(a: string, b: string) {
    b != [] && (a == [] || a[0] < b[0] || (a[0] == b[0] && Less(a[1..], b[1..])))
  }

  lemma {:induction false} LessIrreflexive(a: string)
    ensures !Less(a, a)
  {
    if a != [] {
      LessIrreflexive(a[1..]);
    }
  }

  lemma {:induction false} LessTotal(a: string, b: string)
    ensures Less(a, b) || Less(b, a) || a == b
    ensures !(Less(a, b) && Less(b, a))
  {
    if a != [] && b != [] && a[0] == b[0] {
      LessTotal(a[1..], b[1..]);
      assert a[1..] == b[1..] ==> a == [a[0]] + a[1..] == b;
    }
  }

  lemma {:induction false} LessTransitive(a: string, b: string, c: string)
    requires Less(a, b) && Less(b, c)
    ensures Less(a, c)
  {
    if a != [] && a[0] == b[0] && b[0] == c[0] {
      LessTransitive(a[1..], b[1..], c[1..]);
    }
  }

  /** One is a proper prefix of the other, or smaller where they first differ. */
  lemma {:induction false} LessExactly(a: string, b: string)
    ensures Less(a, b) <==> exists k: nat :: k <= |a| && k < |b| && a[..k] == b[..k] && (k == |a| || a[k] < b[k])
  {
    if Less(a, b) {
      var k := Difference(a, b);
    }
    if k: nat :| k <= |a| && k < |b| && a[..k] == b[..k] && (k == |a| || a[k] < b[k]) {
      DifferentIsLess(a, b, k);
    }
  }

  lemma {:induction false} Difference(a: string, b: string) returns (k: nat)
    requires Less(a, b)
    ensures k <= |a| && k < |b| && a[..k] == b[..k] && (k == |a| || a[k] < b[k])
  {
    k := 0;
    if a != [] && a[0] == b[0] {
      k := Difference(a[1..], b[1..]);
      k := k + 1;
      assert a[..k] == [a[0]] + a[1..][..k - 1] && b[..k] == [b[0]] + b[1..][..k - 1];
    }
  }

  lemma {:induction false} DifferentIsLess(a: string, b: string, k: nat)
    requires k <= |a| && k < |b| && a[..k] == b[..k] && (k == |a| || a[k] < b[k])
    ensures Less(a, b)
  {
    if k > 0 {
      assert a[0] == a[..k][0] == b[..k][0] == b[0];
      assert a[1..][..k - 1] == a[..k][1..] && b[1..][..k - 1] == b[..k][1..];
      DifferentIsLess(a[1..], b[1..], k - 1);
    }
  }

  /** Sorted and without duplicates. */
  predicate Ascending(s: seq<string>) {
    forall i, j :: 0 <= i < j < |s| ==> Less(s[i], s[j])
  }

  /** Insert into an ascending sequence, at the position sort.Strings would give it. */
  function Insert(s: seq<string>, x: string): seq<string> {
    if s == [] || Less(x, s[0]) then [x] + s else [s[0]] + Insert(s[1..], x)
  }

  lemma {:induction false} InsertKeeps(s: seq<string>, x: string)
    requires Ascending(s) && x !in s
    ensures Ascending(Insert(s, x)) && |Insert(s, x)| == |s| + 1
    ensures forall y :: y in Insert(s, x) <==> y in s || y == x
  {
    if s != [] {
      assert s == [s[0]] + s[1..];
      LessTotal(x, s[0]);
      if Less(x, s[0]) {
        forall j | 0 <= j < |s| ensures Less(x, s[j]) {
          if j > 0 {
            LessTransitive(x, s[0], s[j]);
          }
        }
      } else {
        InsertKeeps(s[1..], x);
        var t := Insert(s[1..], x);
        forall j | 0 <= j < |t| ensures Less(s[0], t[j]) {
          assert t[j] in t;
        }
      }
    }
  }

  lemma TailMembers(s: seq<string>, x: string)
    requires Ascending(s) && s != []
    ensures x in s[1..] <==> x in s && x != s[0]
  {
    LessIrreflexive(s[0]);
    assert s == [s[0]] + s[1..];
  }

  /** Two ascending sequences with the same elements are equal, so the order in which a map is
      ranged over does not matter. */
  lemma {:induction false} AscendingUnique(s: seq<string>, t: seq<string>)
    requires Ascending(s) && Ascending(t) && forall x :: x in s <==> x in t
    ensures s == t
  {
    assert t != [] ==> t[0] in t;
    if s != [] {
      assert s[0] in t;
      assert t[0] in s;
      var i :| 0 <= i < |s| && s[i] == t[0];
      var j :| 0 <= j < |t| && t[j] == s[0];
      LessTotal(s[0], t[0]);
      assert s[0] == t[0];
      forall x ensures x in s[1..] <==> x in t[1..] {
        TailMembers(s, x);
        TailMembers(t, x);
      }
      AscendingUnique(s[1..], t[1..]);
      assert s == [s[0]] + s[1..] && t == [t[0]] + t[1..];
    }
  }

  /** The filter set of a legacy map: the values of each key, as a set. */
  ghost predicate IsFilterOf(f: FilterSet, d: Legacy) {
    f.Keys == d.Keys && forall k :: k in d ==> forall v :: v in f[k] <==> v in d[k]
  }

  /** The legacy map of a filter set: keys without values are dropped, values are ascending. */
  ghost predicate IsLegacyOf(d: Legacy, f: FilterSet) {
    && (forall k :: k in d <==> k in f && f[k] != map[])
    && (forall k :: k in d ==> Ascending(d[k]) && forall v :: v in d[k] <==> v in f[k])
  }

  method GetFilterFromLegacy(d: Legacy) returns (m: FilterSet)
    ensures IsFilterOf(m, d)
  {
    m := map[];
    var todo := d.Keys;
    while todo != {}
      invariant todo <= d.Keys && m.Keys == d.Keys - todo
      invariant forall k :: k in m ==> forall v :: v in m[k] <==> v in d[k]
      decreases todo
    {
      var k :| k in todo;
      var values: map<string, bool> := map[];
      for i := 0 to |d[k]|
        invariant forall v :: v in values <==> v in d[k][..i]
      {
        values := values[d[k][i] := true];
        assert d[k][..i + 1] == d[k][..i] + [d[k][i]];
      }
      assert d[k][..|d[k]|] == d[k];
      m := m[k := values];
      todo := todo - {k};
    }
  }

  /** getFiltersKeys followed by sort.Strings. */
  method SortedKeys(values: map<string, bool>) returns (s: seq<string>)
    ensures Ascending(s) && (forall v :: v in s <==> v in values) && |s| == |values|
  {
    s := [];
    var todo := values.Keys;
    ghost var done: set<string> := {};
    while todo != {}
      invariant done !! todo && done + todo == values.Keys && |s| == |done|
      invariant Ascending(s) && forall v :: v in s <==> v in done
      decreases todo
    {
      var v :| v in todo;
      InsertKeeps(s, v);
      s := Insert(s, v);
      done, todo := done + {v}, todo - {v};
    }
    assert done == values.Keys;
  }

  method ToLegacyFormat(f: FilterSet) returns (d: Legacy)
    ensures IsLegacyOf(d, f)
  {
    d := map[];
    var todo := f.Keys;
    while todo != {}
      invariant todo <= f.Keys
      invariant forall k :: k in d <==> k in f && k !in todo && f[k] != map[]
      invariant forall k :: k in d ==> Ascending(d[k]) && forall v :: v in d[k] <==> v in f[k]
      decreases todo
    {
      var k :| k in todo;
      var values := SortedKeys(f[k]);
      if |values| > 0 {
        d := d[k := values];
      }
      todo := todo - {k};
    }
  }

  /** Every value list is non-empty and ascending. */
  ghost predicate Normal(d: Legacy) {
    forall k :: k in d ==> d[k] != [] && Ascending(d[k])
  }

  /** Converting in and out normalises. */
  lemma LegacyIsNormal(d: Legacy, f: FilterSet)
    requires IsLegacyOf(d, f)
    ensures Normal(d)
  {
    forall k | k in d ensures d[k] != [] {
      var v :| v in f[k];
      assert v in d[k];
    }
  }

  /** Converting a normal map in and out changes nothing, so doing it twice is doing it once. */
  lemma NormalIsFixed(d: Legacy, f: FilterSet, e: Legacy)
    requires Normal(d) && IsFilterOf(f, d) && IsLegacyOf(e, f)
    ensures e == d
  {
    forall k | k in d ensures k in e && e[k] == d[k] {
      assert d[k][0] in f[k];
      AscendingUnique(d[k], e[k]);
    }
  }

  lemma NormalisationIsIdempotent(d: Legacy, f: FilterSet, e: Legacy, g: FilterSet, h: Legacy)
    requires IsFilterOf(f, d) && IsLegacyOf(e, f) && IsFilterOf(g, e) && IsLegacyOf(h, g)
    ensures Normal(e) && h == e
  {
    LegacyIsNormal(e, f);
    NormalIsFixed(e, g, h);
  }

  /** A containerd filter on the event topic. */
  function TopicFilter(pattern: string): string {
    "topic~=\"" + pattern + "\""
  }

  function TopicFilters(patterns: seq<string>): seq<string> {
    seq(|patterns|, i requires 0 <= i < |patterns| => TopicFilter(patterns[i]))
  }

  function TypePatterns(types: seq<string>): seq<string> {
    seq(|types|, i requires 0 <= i < |types| => TypePattern(types[i]))
  }

  function Patterns(filters: Legacy): seq<string> {
    if "type" in filters then TypePatterns(filters["type"]) else [GENERAL_PATTERN]
  }

  /** Are events of this topic delivered under these filters?  A filter that cannot be read is no match. */
  ghost predicate Delivers(filters: seq<string>, topic: string) {
    filters == [] || exists f :: f in filters && Operand(f).Some? && Matches(Operand(f).value, topic)
  }

  lemma DeliversExactly(patterns: seq<string>, topic: string)
    requires forall p | p in patterns :: InGrammar(p)
    ensures Delivers(TopicFilters(patterns), topic) <==> Subscribed(patterns, topic)
  {
    var fs := TopicFilters(patterns);
    forall i | 0 <= i < |patterns| ensures Operand(fs[i]) == Some(patterns[i]) {
      OperandOf(patterns[i]);
    }
    if Subscribed(patterns, topic) && patterns != [] {
      var p :| p in patterns && Matches(p, topic);
      var i :| 0 <= i < |patterns| && patterns[i] == p;
      assert fs[i] in fs;
    }
  }

  lemma OperandOf(p: string)
    requires InGrammar(p)
    ensures Operand(TopicFilter(p)) == Some(p)
  {
    var f := TopicFilter(p);
    assert f[8..|f| - 1] == p;
  }

  method ContainerdFilters(filters: Legacy) returns (r: seq<string>)
    ensures r == TopicFilters(Patterns(filters))
    ensures (forall p | p in Patterns(filters) :: InGrammar(p)) ==>
      forall topic :: Delivers(r, topic) <==> Subscribed(Patterns(filters), topic)
  {
    if forall p | p in Patterns(filters) :: InGrammar(p) {
      forall topic ensures Delivers(TopicFilters(Patterns(filters)), topic) <==> Subscribed(Patterns(filters), topic) {
        DeliversExactly(Patterns(filters), topic);
      }
    }
    r := [TopicFilter(GENERAL_PATTERN)];
    var todo := filters.Keys;
    while todo != {}
      invariant todo <= filters.Keys
      invariant r == TopicFilters(if "type" in filters.Keys - todo then TypePatterns(filters["type"]) else [GENERAL_PATTERN])
      decreases todo
    {
      var filterType :| filterType in todo;
      if filterType == "type" {
        r := r[1..];
        var list := filters[filterType];
        for i := 0 to |list|
          invariant r == TopicFilters(TypePatterns(list[..i]))
        {
          r := r + [TopicFilter(TypePattern(list[i]))];
        }
        assert list[..|list|] == list;
      }
      todo := todo - {filterType};
    }
  }

  /** Are events of this topic delivered?  An invalid pattern matches nothing, and no pattern at all
      lets everything through. */
  ghost predicate Subscribed(patterns: seq<string>, topic: string)
    requires forall p | p in patterns :: InGrammar(p)
  {
    patterns == [] || exists p :: p in patterns && Matches(p, topic)
  }

  lemma TypesInGrammar(filters: Legacy)
    requires "type" in filters ==> forall t | t in filters["type"] :: InGrammar(t)
    ensures forall p | p in Patterns(filters) :: InGrammar(p)
  {
    forall p | p in Patterns(filters) ensures InGrammar(p) {
      if "type" in filters {
        var t :| t in filters["type"] && p == TypePattern(t);
        PatternInGrammar(t);
      }
    }
  }

  /** Of the topics in which the daemon's prefix occurs at the start if at all, only those with the
      prefix are delivered. */
  ghost predicate DeliversOwnTopics(patterns: seq<string>)
    requires forall p | p in patterns :: InGrammar(p)
  {
    forall topic | OnlyAtStart(topic) && Subscribed(patterns, topic) :: PREFIX <= topic
  }

  /** The types that are valid patterns do not escape. */
  predicate ValidStayInside(types: seq<string>) {
    forall t | t in types :: Valid(TypePattern(t)) ==> StaysInside(t)
  }

  lemma TypeOfPattern(types: seq<string>, p: string) returns (t: string)
    requires p in TypePatterns(types)
    ensures t in types && p == TypePattern(t)
  {
    var i :| 0 <= i < |types| && TypePatterns(types)[i] == p;
    t := types[i];
  }

  lemma PatternOfType(types: seq<string>, t: string)
    requires t in types
    ensures TypePattern(t) in TypePatterns(types)
  {
    var i :| 0 <= i < |types| && types[i] == t;
    assert TypePatterns(types)[i] == TypePattern(t);
  }

  lemma InsideIsDelivered(types: seq<string>, topic: string)
    requires forall t | t in types :: InGrammar(t)
    requires forall p | p in TypePatterns(types) :: InGrammar(p)
    requires types != [] && ValidStayInside(types) && OnlyAtStart(topic) && Subscribed(TypePatterns(types), topic)
    ensures PREFIX <= topic
  {
    var p :| p in TypePatterns(types) && Matches(p, topic);
    var t := TypeOfPattern(types, p);
    TypeConfinedExactly(t);
  }

  lemma EscapeIsDelivered(types: seq<string>, t: string) returns (topic: string)
    requires t in types && InGrammar(t) && Valid(TypePattern(t)) && !StaysInside(t)
    requires forall p | p in TypePatterns(types) :: InGrammar(p)
    ensures OnlyAtStart(topic) && Subscribed(TypePatterns(types), topic) && !(PREFIX <= topic)
  {
    PatternOfType(types, t);
    TypeConfinedExactly(t);
    topic :| OnlyAtStart(topic) && Matches(TypePattern(t), topic) && !(PREFIX <= topic);
  }

  lemma TypesConfinedExactly(types: seq<string>)
    requires forall t | t in types :: InGrammar(t)
    requires forall p | p in TypePatterns(types) :: InGrammar(p)
    ensures DeliversOwnTopics(TypePatterns(types)) <==> types != [] && ValidStayInside(types)
  {
    if types == [] {
      assert OnlyAtStart("") && Subscribed(TypePatterns(types), "");
    } else if ValidStayInside(types) {
      forall topic | OnlyAtStart(topic) && Subscribed(TypePatterns(types), topic) ensures PREFIX <= topic {
        InsideIsDelivered(types, topic);
      }
    } else {
      var t :| t in types && Valid(TypePattern(t)) && !StaysInside(t);
      var topic := EscapeIsDelivered(types, t);
    }
  }

  /** The general filter delivers the topics that contain the prefix, wherever it is. */
  lemma GeneralDelivers(topic: string)
    ensures InGrammar(GENERAL_PATTERN) && (Subscribed([GENERAL_PATTERN], topic) <==> Contains(topic, PREFIX))
  {
    PrefixShape();
    LiteralSelects(PREFIX, topic);
    assert forall p :: p in [GENERAL_PATTERN] <==> p == GENERAL_PATTERN;
  }

  /** So also topics of others: one with the prefix further on, and one whose first part only starts with it. */
  lemma GeneralDeliversOthers()
    ensures InGrammar(GENERAL_PATTERN)
    ensures Subscribed([GENERAL_PATTERN], "/x" + PREFIX) && !(PREFIX <= "/x" + PREFIX)
    ensures Subscribed([GENERAL_PATTERN], PREFIX + "ible")
  {
    PrefixShape();
    assert ("/x" + PREFIX)[1] != PREFIX[1];
    GeneralDelivers("/x" + PREFIX);
    GeneralDelivers(PREFIX + "ible");
    assert ("/x" + PREFIX)[2..] == PREFIX;
    assert PREFIX <= (PREFIX + "ible")[0..];
  }

  /** Which filters keep a subscription to the daemon's own topics: any without types, and those
      whose list of types is not empty and has no valid type that escapes. */
  lemma SubscriptionConfinedExactly(filters: Legacy)
    requires "type" in filters ==> forall t | t in filters["type"] :: InGrammar(t)
    ensures forall p | p in Patterns(filters) :: InGrammar(p)
    ensures DeliversOwnTopics(Patterns(filters)) <==>
      ("type" in filters ==> filters["type"] != [] && ValidStayInside(filters["type"]))
  {
    TypesInGrammar(filters);
    if "type" in filters {
      TypesConfinedExactly(filters["type"]);
    } else {
      forall topic | OnlyAtStart(topic) && Subscribed([GENERAL_PATTERN], topic) ensures PREFIX <= topic {
        GeneralDelivers(topic);
        StartIsMention(topic);
      }
    }
  }

  lemma ValidDeliversOthers(patterns: seq<string>, p: string) returns (topic: string)
    requires (forall q | q in patterns :: InGrammar(q)) && p in patterns && Valid(p)
    ensures Subscribed(patterns, topic) && !(PREFIX <= topic)
  {
    topic := NeverAnchored(p);
  }

  /** Over all topics, a subscription delivers only those that start with the prefix if and only if
      it delivers nothing: there are types, and none is a valid pattern. */
  lemma NoSubscriptionIsAnchored(filters: Legacy)
    requires "type" in filters ==> forall t | t in filters["type"] :: InGrammar(t)
    ensures forall p | p in Patterns(filters) :: InGrammar(p)
    ensures (forall topic | Subscribed(Patterns(filters), topic) :: PREFIX <= topic) <==>
      "type" in filters && filters["type"] != [] && forall t | t in filters["type"] :: !Valid(TypePattern(t))
  {
    TypesInGrammar(filters);
    if "type" !in filters {
      GeneralDeliversOthers();
      assert Subscribed(Patterns(filters), "/x" + PREFIX) && !(PREFIX <= "/x" + PREFIX);
    } else if filters["type"] == [] {
      assert Subscribed(Patterns(filters), "");
    } else if exists t :: t in filters["type"] && Valid(TypePattern(t)) {
      var t :| t in filters["type"] && Valid(TypePattern(t));
      PatternOfType(filters["type"], t);
      var topic := ValidDeliversOthers(Patterns(filters), TypePattern(t));
    } else {
      forall topic ensures !Subscribed(Patterns(filters), topic) {
        NothingDelivered(filters["type"], topic);
      }
    }
  }

  lemma NothingDelivered(types: seq<string>, topic: string)
    requires types != [] && forall t | t in types :: !Valid(TypePattern(t))
    requires forall p | p in TypePatterns(types) :: InGrammar(p)
    ensures !Subscribed(TypePatterns(types), topic)
  {
    forall p | p in TypePatterns(types) ensures !Matches(p, topic) {
      var t := TypeOfPattern(types, p);
    }
  }

  /** Normalised filters never give an empty list, and confine the subscription if no type has alternatives. */
  lemma NormalFiltersAreConfined(filters: Legacy)
    requires Normal(filters)
    requires "type" in filters ==> forall t | t in filters["type"] :: InGrammar(t) && Without(t, '|')
    ensures Patterns(filters) != [] && forall p | p in Patterns(filters) :: InGrammar(p)
    ensures DeliversOwnTopics(Patterns(filters))
  {
    SubscriptionConfinedExactly(filters);
    if "type" in filters {
      forall t | t in filters["type"] ensures StaysInside(t) {
        SplitPieces(t, '|');
      }
    }
  }
}
