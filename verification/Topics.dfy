/** What a containerd event filter matches.  The operand of `~=` is a regular expression, searched
    for anywhere in the topic.  Patterns here are made of literal characters, `.`, `*` and `|`;
    the other operators are outside the grammar. */
module Topics {
  import opened Prelude
  import opened Text

  datatype Symbol = Exactly(c: char) | Any

  /** A symbol once, or any number of times. */
  datatype Atom = Atom(symbol: Symbol, many: bool)

  const OPERATORS := {'+', '?', '(', ')', '[', ']', '{', '}', '^', '$', '\\', '"', '\n'}

  predicate InGrammar(p: string) {
    forall i :: 0 <= i < |p| ==> p[i] !in OPERATORS
  }

  /** The pattern of a containerd filter on the event topic. */
  function Operand(filter: string): (r: Option<string>)
    ensures r.Some? ==> InGrammar(r.value)
  {
    if "topic~=\"" <= filter && |filter| > 8 && filter[|filter| - 1] == '"' && InGrammar(filter[8..|filter| - 1])
    then Some(filter[8..|filter| - 1]) else None
  }

  predicate IsMeta(c: char) {
    c == '.' || c == '*' || c == '|'
  }

  predicate NoMeta(s: string) {
    forall i :: 0 <= i < |s| ==> !IsMeta(s[i])
  }

  /** The atoms of a pattern without `|`; a star with nothing to repeat is an error. */
  function ParseBranch(s: string): Option<seq<Atom>> {
    if s == "" then Some([])
    else if s[0] == '*' then None
    else
      var symbol := if s[0] == '.' then Any else Exactly(s[0]);
      var many := |s| > 1 && s[1] == '*';
      match ParseBranch(if many then s[2..] else s[1..])
      case None => None
      case Some(rest) => Some([Atom(symbol, many)] + rest)
  }

  predicate Valid(p: string) {
    forall b | b in Split(p, '|') :: ParseBranch(b).Some?
  }

  predicate Accepts(symbol: Symbol, c: char) {
    match symbol
    case Exactly(x) => c == x
    case Any => c != '\n'
  }

  /** The word is one of those the atoms describe. */
  predicate Spells(atoms: seq<Atom>, w: string)
    decreases |atoms| + |w|
  {
    if atoms == [] then w == ""
    else
      || (atoms[0].many && Spells(atoms[1..], w))
      || (w != "" && Accepts(atoms[0].symbol, w[0]) && Spells(if atoms[0].many then atoms else atoms[1..], w[1..]))
  }

  ghost predicate Finds(atoms: seq<Atom>, topic: string) {
    exists i, j :: 0 <= i <= j <= |topic| && Spells(atoms, topic[i..j])
  }

  ghost predicate Matches(p: string, topic: string)
    requires InGrammar(p)
  {
    Valid(p) && exists b :: b in Split(p, '|') && Finds(ParseBranch(b).value, topic)
  }

  /** The common start of the daemon's own topics. */
  const PREFIX := "/dockercompat"

  lemma PrefixShape()
    ensures PREFIX == "/dockercompat" && |PREFIX| == 13 && PREFIX[0] == '/' && NoMeta(PREFIX)
    ensures forall i :: 0 < i < |PREFIX| ==> PREFIX[i] != '/'
    ensures forall i :: 0 <= i < |PREFIX| ==> PREFIX[i] != 'x'
    ensures forall i :: 0 < i < |PREFIX| ==> PREFIX[i - 1] != PREFIX[i]
  {
  }

  /** How much of the prefix has been seen, after one more character. */
  function Step(k: nat, c: char): nat
    requires k < |PREFIX|
  {
    if c == PREFIX[k] then k + 1 else if c == '/' then 1 else 0
  }

  function Track(k: nat, w: string): (r: nat)
    requires k <= |PREFIX|
    ensures r <= |PREFIX|
    decreases |w|
  {
    if k == |PREFIX| || w == "" then k else Track(Step(k, w[0]), w[1..])
  }

  lemma ContainsInPart(a: string, s: string, b: string, part: string)
    requires Contains(s, part)
    ensures Contains(a + s + b, part)
  {
    var i :| 0 <= i <= |s| && part <= s[i..];
    assert (a + s + b)[|a| + i..] == s[i..] + b;
  }

  /** Nothing is lost by dropping a part in which the prefix does not start. */
  lemma FoundAfter(a: string, s: string)
    requires forall i :: 0 <= i < |a| ==> !(PREFIX <= (a + s)[i..])
    ensures Contains(a + s, PREFIX) <==> Contains(s, PREFIX)
  {
    if Contains(s, PREFIX) {
      ContainsInPart(a, s, "", PREFIX);
      assert a + s + "" == a + s;
    }
    if Contains(a + s, PREFIX) {
      var i :| 0 <= i <= |a + s| && PREFIX <= (a + s)[i..];
      assert s[i - |a|..] == (a + s)[i..];
    }
  }

  /** An occurrence that starts with what has been seen of the prefix does not survive a mismatch. */
  lemma NotAcross(k: nat, w: string, i: nat)
    requires k < |PREFIX| && w != "" && w[0] != PREFIX[k] && i <= k && (i == k ==> w[0] != '/')
    ensures !(PREFIX <= (PREFIX[..k] + w)[i..])
  {
    PrefixShape();
    var s := PREFIX[..k] + w;
    assert s[i..][0] == s[i];
    if i == 0 {
      assert s[0..][k] == w[0];
    }
  }

  /** A mismatch throws away all that was seen, except for the slash just read. */
  lemma MismatchDrops(k: nat, w: string)
    requires k < |PREFIX| && w != "" && w[0] != PREFIX[k]
    ensures Contains(PREFIX[..k] + w, PREFIX) <==> Contains(PREFIX[..Step(k, w[0])] + w[1..], PREFIX)
  {
    var cut := PREFIX[..k] + (if w[0] == '/' then "" else [w[0]]);
    var kept := PREFIX[..Step(k, w[0])] + w[1..];
    PrefixShape();
    assert PREFIX[..k] + w == cut + kept;
    forall i | 0 <= i < |cut| ensures !(PREFIX <= (cut + kept)[i..]) {
      NotAcross(k, w, i);
    }
    FoundAfter(cut, kept);
  }

  lemma {:induction false} TrackFinds(k: nat, w: string)
    requires k <= |PREFIX|
    ensures Track(k, w) == |PREFIX| <==> Contains(PREFIX[..k] + w, PREFIX)
    decreases |w|
  {
    var s := PREFIX[..k] + w;
    if k == |PREFIX| {
      assert PREFIX <= s[0..];
    } else if w != "" {
      TrackFinds(Step(k, w[0]), w[1..]);
      if w[0] == PREFIX[k] {
        assert s == PREFIX[..k + 1] + w[1..];
      } else {
        MismatchDrops(k, w);
      }
    }
  }

  lemma TrackFromStart(w: string)
    ensures Track(0, w) == |PREFIX| <==> Contains(w, PREFIX)
  {
    TrackFinds(0, w);
    assert PREFIX[..0] + w == w;
  }

  /** Having seen less never helps to find the prefix. */
  lemma TrackLess(k: nat, w: string)
    requires k <= |PREFIX| && Track(k, w) < |PREFIX|
    ensures Track(0, w) < |PREFIX|
  {
    TrackFinds(k, w);
    TrackFromStart(w);
    assert PREFIX[..k] + w + "" == PREFIX[..k] + w;
    if Contains(w, PREFIX) {
      ContainsInPart(PREFIX[..k], w, "", PREFIX);
    }
  }

  /** Can the atoms be spelled without completing the prefix, of which `k` characters have been seen? */
  predicate Escapes(atoms: seq<Atom>, k: nat)
    requires k < |PREFIX|
  {
    if atoms == [] then true
    else
      match atoms[0]
      case Atom(Any, _) => Escapes(atoms[1..], 0)
      case Atom(Exactly(c), false) => Step(k, c) < |PREFIX| && Escapes(atoms[1..], Step(k, c))
      case Atom(Exactly(c), true) =>
        Escapes(atoms[1..], k) || (Step(k, c) < |PREFIX| && Escapes(atoms[1..], if c == '/' then 1 else 0))
  }

  lemma SpellsMore(atoms: seq<Atom>, c: char, w: string)
    requires atoms != [] && Accepts(atoms[0].symbol, c)
    requires Spells(if atoms[0].many then atoms else atoms[1..], w)
    ensures Spells(atoms, [c] + w)
  {
    assert ([c] + w)[1..] == w;
  }

  lemma TrackMore(k: nat, c: char, w: string)
    requires k < |PREFIX|
    ensures Track(k, [c] + w) == Track(Step(k, c), w)
  {
    assert ([c] + w)[1..] == w;
  }

  /** A word that does without the prefix. */
  lemma {:induction false} EscapingWord(atoms: seq<Atom>, k: nat) returns (w: string)
    requires k < |PREFIX| && Escapes(atoms, k)
    ensures Spells(atoms, w) && Track(k, w) < |PREFIX|
    decreases |atoms|
  {
    PrefixShape();
    if atoms == [] {
      return "";
    }
    match atoms[0]
    case Atom(Any, _) =>
      var v := EscapingWord(atoms[1..], 0);
      SpellsMore(atoms, 'x', v);
      TrackMore(k, 'x', v);
      return ['x'] + v;
    case Atom(Exactly(c), false) =>
      var v := EscapingWord(atoms[1..], Step(k, c));
      SpellsMore(atoms, c, v);
      TrackMore(k, c, v);
      return [c] + v;
    case Atom(Exactly(c), true) =>
      if Escapes(atoms[1..], k) {
        w := EscapingWord(atoms[1..], k);
      } else {
        // Once for a slash; twice for anything else, which no two neighbours in the prefix are.
        var v := EscapingWord(atoms[1..], if c == '/' then 1 else 0);
        SpellsMore(atoms, c, v);
        TrackMore(k, c, v);
        w := [c] + v;
        if c != '/' {
          SpellsMore(atoms, c, w);
          TrackMore(Step(k, c), c, v);
          TrackMore(k, c, w);
          w := [c] + w;
        }
      }
  }

  lemma {:induction false} WordEscapes(atoms: seq<Atom>, k: nat, w: string)
    requires k < |PREFIX| && Spells(atoms, w) && Track(k, w) < |PREFIX|
    ensures Escapes(atoms, k)
    decreases |atoms|, |w|
  {
    PrefixShape();
    if atoms != [] {
      var rest := atoms[1..];
      if atoms[0].symbol.Any? {
        WordEscapesAny(atoms, k, w);
      } else if atoms[0].many && Spells(rest, w) {
        WordEscapes(rest, k, w);
      } else {
        var c, j := w[0], Step(k, w[0]);
        WordEscapes(if atoms[0].many then atoms else rest, j, w[1..]);
        if atoms[0].many && c != '/' && Escapes(rest, j) {
          var v := EscapingWord(rest, j);
          TrackLess(j, v);
          WordEscapes(rest, 0, v);
        }
      }
    }
  }

  lemma {:induction false} WordEscapesAny(atoms: seq<Atom>, k: nat, w: string)
    requires k < |PREFIX| && Spells(atoms, w) && Track(k, w) < |PREFIX| && atoms != [] && atoms[0].symbol.Any?
    ensures Escapes(atoms, k)
    decreases |atoms|, |w|, 0
  {
    var rest := atoms[1..];
    if atoms[0].many && Spells(rest, w) {
      TrackLess(k, w);
      WordEscapes(rest, 0, w);
    } else if atoms[0].many {
      WordEscapesAny(atoms, Step(k, w[0]), w[1..]);
    } else {
      TrackLess(Step(k, w[0]), w[1..]);
      WordEscapes(rest, 0, w[1..]);
    }
  }

  /** The prefix does not occur after the start of the topic, as in every topic that containerd
      or the daemon publishes. */
  predicate OnlyAtStart(topic: string) {
    forall i | 0 < i <= |topic| :: !(PREFIX <= topic[i..])
  }

  /** Of these topics, the pattern matches only those that start with the daemon's prefix. */
  ghost predicate Confined(p: string)
    requires InGrammar(p)
  {
    forall topic | OnlyAtStart(topic) && Matches(p, topic) :: PREFIX <= topic
  }

  lemma StartIsMention(topic: string)
    ensures OnlyAtStart(topic) ==> (PREFIX <= topic <==> Contains(topic, PREFIX))
    ensures !Contains(topic, PREFIX) ==> OnlyAtStart(topic)
  {
    assert topic[0..] == topic;
  }

  lemma ContainsInSlice(topic: string, i: nat, j: nat)
    requires i <= j <= |topic| && Contains(topic[i..j], PREFIX)
    ensures Contains(topic, PREFIX)
  {
    ContainsInPart(topic[..i], topic[i..j], topic[j..], PREFIX);
    assert topic == topic[..i] + topic[i..j] + topic[j..];
  }

  lemma FoundIsInside(atoms: seq<Atom>, topic: string)
    requires Finds(atoms, topic) && !Escapes(atoms, 0)
    ensures Contains(topic, PREFIX)
  {
    var i, j :| 0 <= i <= j <= |topic| && Spells(atoms, topic[i..j]);
    if Track(0, topic[i..j]) < |PREFIX| {
      WordEscapes(atoms, 0, topic[i..j]);
    }
    TrackFromStart(topic[i..j]);
    ContainsInSlice(topic, i, j);
  }

  lemma EscapeIsOutside(atoms: seq<Atom>) returns (topic: string)
    requires Escapes(atoms, 0)
    ensures Finds(atoms, topic) && !Contains(topic, PREFIX)
  {
    topic := EscapingWord(atoms, 0);
    TrackFromStart(topic);
    assert topic[0..|topic|] == topic;
  }

  /** A pattern is confined if and only if no branch of it escapes. */
  lemma ConfinedExactly(p: string)
    requires InGrammar(p) && Valid(p)
    ensures Confined(p) <==> forall b | b in Split(p, '|') :: !Escapes(ParseBranch(b).value, 0)
  {
    if forall b | b in Split(p, '|') :: !Escapes(ParseBranch(b).value, 0) {
      forall topic | OnlyAtStart(topic) && Matches(p, topic) ensures PREFIX <= topic {
        var b :| b in Split(p, '|') && Finds(ParseBranch(b).value, topic);
        FoundIsInside(ParseBranch(b).value, topic);
        StartIsMention(topic);
      }
    } else {
      var b :| b in Split(p, '|') && Escapes(ParseBranch(b).value, 0);
      var topic := EscapeIsOutside(ParseBranch(b).value);
      StartIsMention(topic);
      assert Matches(p, topic);
    }
  }

  /** The atoms of literal text. */
  function Literal(l: string): seq<Atom> {
    if l == "" then [] else [Atom(Exactly(l[0]), false)] + Literal(l[1..])
  }

  lemma {:induction false} ParseLiteral(l: string, s: string)
    requires NoMeta(l) && (s == "" || s[0] != '*')
    ensures ParseBranch(l + s) == match ParseBranch(s) case None => None case Some(rest) => Some(Literal(l) + rest)
  {
    if l == "" {
      assert l + s == s;
      assert forall rest: seq<Atom> :: Literal(l) + rest == rest;
    } else {
      ParseLiteral(l[1..], s);
      assert (l + s)[1..] == l[1..] + s;
      assert forall rest: seq<Atom> :: Literal(l) + rest == [Atom(Exactly(l[0]), false)] + (Literal(l[1..]) + rest);
    }
  }

  lemma {:induction false} LiteralAt(l: string, i: nat)
    requires i < |l|
    ensures |Literal(l)| == |l| && Literal(l)[i] == Atom(Exactly(l[i]), false)
  {
    if |l| > 1 {
      LiteralAt(l[1..], if i == 0 then 0 else i - 1);
    }
  }

  lemma {:induction false} PrefixNeverEscapes(atoms: seq<Atom>, k: nat)
    requires k < |PREFIX| <= k + |atoms|
    requires forall i :: k <= i < |PREFIX| ==> atoms[i - k] == Atom(Exactly(PREFIX[i]), false)
    ensures !Escapes(atoms, k)
    decreases |PREFIX| - k
  {
    assert atoms[k - k] == Atom(Exactly(PREFIX[k]), false);
    if k + 1 < |PREFIX| {
      PrefixNeverEscapes(atoms[1..], k + 1);
    }
  }

  /** The pattern of the filter for an event type, which goes in as it is. */
  function TypePattern(eventType: string): string {
    PREFIX + "/" + eventType + "/*"
  }

  const GENERAL_PATTERN := PREFIX + "/*"

  /** The branches of that pattern: only the first starts with the prefix. */
  function TypeBranches(eventType: string): seq<string> {
    var alternatives := Split(eventType, '|');
    seq(|alternatives|, k requires 0 <= k < |alternatives| =>
      (if k == 0 then PREFIX + "/" else "") + alternatives[k] + (if k == |alternatives| - 1 then "/*" else ""))
  }

  lemma TypeBranch(parts: seq<string>, k: nat)
    requires k < |parts|
    ensures var start, end, n := PREFIX + "/", "/*", |parts| - 1;
      var all := parts[..n] + [parts[n] + end];
      ([start + all[0]] + all[1..])[k] == (if k == 0 then start else "") + parts[k] + (if k == n then end else "")
  {
    var start, end := PREFIX + "/", "/*";
    assert "" + parts[k] == parts[k] && parts[k] + "" == parts[k];
    assert start + (parts[k] + end) == start + parts[k] + end;
    assert start + parts[k] + "" == start + parts[k];
  }

  lemma BranchesOfType(t: string)
    ensures Split(TypePattern(t), '|') == TypeBranches(t)
  {
    PrefixShape();
    var start, end, parts := PREFIX + "/", "/*", Split(t, '|');
    SplitAppend(t, end, '|');
    SplitPrepend(start, t + end, '|');
    assert TypePattern(t) == start + (t + end);
    forall k | 0 <= k < |parts| ensures Split(TypePattern(t), '|')[k] == TypeBranches(t)[k] {
      TypeBranch(parts, k);
    }
  }

  /** No alternative of the type, after the first, can be spelled without the daemon's prefix. */
  predicate StaysInside(eventType: string) {
    forall b | b in TypeBranches(eventType)[1..] :: ParseBranch(b).Some? ==> !Escapes(ParseBranch(b).value, 0)
  }

  lemma FirstBranchIsInside(t: string)
    requires ParseBranch(TypeBranches(t)[0]).Some?
    ensures !Escapes(ParseBranch(TypeBranches(t)[0]).value, 0)
  {
    var b := TypeBranches(t)[0];
    var rest := b[|PREFIX|..];
    PrefixShape();
    assert b[|PREFIX|] == '/';
    assert b == PREFIX + rest;
    LiteralAt(PREFIX, 0);
    ParseLiteral(PREFIX, rest);
    forall i | 0 <= i < |PREFIX| ensures ParseBranch(b).value[i] == Atom(Exactly(PREFIX[i]), false) {
      LiteralAt(PREFIX, i);
    }
    PrefixNeverEscapes(ParseBranch(b).value, 0);
  }

  lemma PatternInGrammar(t: string)
    requires InGrammar(t)
    ensures InGrammar(TypePattern(t))
  {
    var p := TypePattern(t);
    assert InGrammar(PREFIX + "/");
    forall i | 0 <= i < |p| ensures p[i] !in OPERATORS {
      assert p[i] == if i <= |PREFIX| then (PREFIX + "/")[i]
                     else if i <= |PREFIX| + |t| then t[i - |PREFIX| - 1] else "/*"[i - |PREFIX| - 1 - |t|];
    }
  }

  /** The filter of an event type is confined if and only if no later alternative of the type escapes. */
  lemma TypeConfinedExactly(t: string)
    requires InGrammar(t) && Valid(TypePattern(t))
    ensures InGrammar(TypePattern(t)) && (Confined(TypePattern(t)) <==> StaysInside(t))
  {
    PatternInGrammar(t);
    BranchesOfType(t);
    ConfinedExactly(TypePattern(t));
    FirstBranchIsInside(t);
    var bs := TypeBranches(t);
    assert bs == [bs[0]] + bs[1..];
    assert forall b :: b in bs <==> b == bs[0] || b in bs[1..];
  }

  /** Every slash is repeated by a star. */
  predicate SlashesStarred(s: string) {
    forall i :: 0 <= i < |s| && s[i] == '/' ==> i + 1 < |s| && s[i + 1] == '*'
  }

  lemma {:induction false} SlashFreeEscapes(s: string)
    requires SlashesStarred(s) && ParseBranch(s).Some?
    ensures Escapes(ParseBranch(s).value, 0)
  {
    PrefixShape();
    if s != "" {
      var rest := if |s| > 1 && s[1] == '*' then s[2..] else s[1..];
      SlashFreeEscapes(rest);
      assert ParseBranch(s).value[1..] == ParseBranch(rest).value;
    }
  }

  /** For a type without slashes: if and only if it has no alternatives. */
  lemma SlashFreeConfinedExactly(t: string)
    requires InGrammar(t) && Valid(TypePattern(t)) && Without(t, '/')
    ensures InGrammar(TypePattern(t)) && (Confined(TypePattern(t)) <==> Without(t, '|'))
  {
    TypeConfinedExactly(t);
    BranchesOfType(t);
    SplitPieces(t, '|');
    PiecesKeep(t, '|', '/');
    var bs := TypeBranches(t);
    if |bs| > 1 {
      var last := bs[|bs| - 1];
      assert last == bs[1..][|bs| - 2];
      SlashFreeEscapes(last);
    }
  }

  lemma ParseEnd()
    ensures ParseBranch("/*") == Some([Atom(Exactly('/'), true)])
    ensures ParseBranch("./*") == Some([Atom(Any, false), Atom(Exactly('/'), true)])
  {
    assert "/*"[2..] == "" && "./*"[1..] == "/*";
    assert [Atom(Exactly('/'), true)] + [] == [Atom(Exactly('/'), true)];
    assert ParseBranch("/*"[2..]) == Some([]);
    assert [Atom(Any, false)] + [Atom(Exactly('/'), true)] == [Atom(Any, false), Atom(Exactly('/'), true)];
    assert ParseBranch("./*"[1..]) == Some([Atom(Exactly('/'), true)]);
  }

  lemma BranchesOfAlternative()
    ensures TypeBranches("a|.") == [PREFIX + "/" + "a" + "", "./*"]
  {
    SplitAfter("a", ".", '|');
    assert "a" + ['|'] + "." == "a|." && First(".", '|') == 1;
    assert "" + "." + "/*" == "./*";
  }

  lemma AnyFinds(atoms: seq<Atom>, topic: string)
    requires atoms == [Atom(Any, false), Atom(Exactly('/'), true)] && topic != "" && topic[0] != '\n'
    ensures Finds(atoms, topic)
  {
    assert atoms[1..] == [Atom(Exactly('/'), true)] && atoms[1..][1..] == [];
    SpellsMore(atoms, topic[0], "");
    assert topic[0..1] == [topic[0]] + "";
  }

  lemma AlternativeIsValid()
    ensures Valid(TypePattern("a|.")) && "./*" in Split(TypePattern("a|."), '|')
  {
    BranchesOfAlternative();
    BranchesOfType("a|.");
    FirstParses();
    ParseEnd();
    assert TypeBranches("a|.")[1] == "./*";
  }

  lemma AlternativeInGrammar()
    ensures InGrammar(TypePattern("a|."))
  {
  }

  /** The type "a|." selects every topic there is. */
  lemma AlternativeSelectsAll(topic: string)
    requires topic != "" && topic[0] != '\n'
    ensures InGrammar(TypePattern("a|.")) && Matches(TypePattern("a|."), topic)
  {
    AlternativeInGrammar();
    AlternativeIsValid();
    ParseEnd();
    AnyFinds(ParseBranch("./*").value, topic);
  }

  lemma FirstParses()
    ensures ParseBranch(PREFIX + "/" + "a" + "").Some?
  {
    PrefixShape();
    var b := PREFIX + "/" + "a" + "";
    ParseLiteral(b, "");
    assert b + "" == b;
  }

  /** Literal text followed by any number of slashes. */
  function ThenSlashes(l: string): seq<Atom> {
    Literal(l) + [Atom(Exactly('/'), true)]
  }

  lemma {:induction false} SpellsLiteral(l: string, w: string)
    ensures Spells(ThenSlashes(l), w) ==> l <= w
    ensures w == l ==> Spells(ThenSlashes(l), w)
  {
    var atoms := ThenSlashes(l);
    if l == "" {
      assert atoms[1..] == [];
    } else {
      assert atoms[1..] == ThenSlashes(l[1..]);
      if w != "" {
        SpellsLiteral(l[1..], w[1..]);
        assert l == [l[0]] + l[1..] && w == [w[0]] + w[1..];
      }
    }
  }

  lemma ParseThenSlashes(l: string)
    requires NoMeta(l)
    ensures Split(l + "/*", '|') == [l + "/*"] && ParseBranch(l + "/*") == Some(ThenSlashes(l))
  {
    FirstOfSplit(l + "/*", "", '|');
    assert l + "/*" + "" == l + "/*";
    ParseEnd();
    ParseLiteral(l, "/*");
  }

  /** A pattern of literal text followed by slashes selects exactly the topics that contain the text. */
  lemma LiteralSelects(l: string, topic: string)
    requires NoMeta(l) && InGrammar(l + "/*")
    ensures Matches(l + "/*", topic) <==> Contains(topic, l)
  {
    ParseThenSlashes(l);
    var p := l + "/*";
    assert forall b :: b in Split(p, '|') <==> b == p;
    if Matches(p, topic) {
      var i, j :| 0 <= i <= j <= |topic| && Spells(ThenSlashes(l), topic[i..j]);
      SpellsLiteral(l, topic[i..j]);
      assert l <= topic[i..];
    }
    if Contains(topic, l) {
      var i :| 0 <= i <= |topic| && l <= topic[i..];
      SpellsLiteral(l, topic[i..i + |l|]);
      assert p in Split(p, '|') && Finds(ThenSlashes(l), topic);
    }
  }

  /** Every branch has a word without special characters. */
  lemma {:induction false} PlainWord(s: string) returns (w: string)
    requires ParseBranch(s).Some? && Without(s, '|')
    ensures NoMeta(w) && Spells(ParseBranch(s).value, w)
  {
    w := "";
    if s != "" {
      var atoms := ParseBranch(s).value;
      var rest := if atoms[0].many then s[2..] else s[1..];
      assert atoms[1..] == ParseBranch(rest).value;
      w := PlainWord(rest);
      if !atoms[0].many {
        var c := if s[0] == '.' then 'x' else s[0];
        SpellsMore(atoms, c, w);
        w := [c] + w;
      }
    }
  }

  /** The search is not anchored: every valid pattern matches a topic that does not start with the prefix. */
  lemma NeverAnchored(p: string) returns (topic: string)
    requires InGrammar(p) && Valid(p)
    ensures Matches(p, topic) && !(PREFIX <= topic)
  {
    var b := Split(p, '|')[0];
    SplitPieces(p, '|');
    var w := PlainWord(b);
    topic := ['x'] + w;
    assert topic[1..|topic|] == w;
    assert b in Split(p, '|') && Finds(ParseBranch(b).value, topic);
    PrefixShape();
    assert topic[0] != PREFIX[0];
  }

  /** The type is read as it is written. */
  ghost predicate TakenLiterally(t: string)
    requires InGrammar(TypePattern(t))
  {
    forall topic :: Matches(TypePattern(t), topic) <==> Contains(topic, PREFIX + "/" + t)
  }

  lemma MetaIsNotLiteral(t: string) returns (topic: string)
    requires InGrammar(TypePattern(t)) && !NoMeta(t)
    ensures Matches(TypePattern(t), topic) != Contains(topic, PREFIX + "/" + t)
  {
    var p, l := TypePattern(t), PREFIX + "/" + t;
    topic := l;
    if Valid(p) {
      var b := Split(p, '|')[0];
      SplitPieces(p, '|');
      topic := PlainWord(b);
      assert topic[0..|topic|] == topic;
      assert b in Split(p, '|') && Finds(ParseBranch(b).value, topic);
      if Contains(topic, l) {
        PartHasNoMeta(topic, l, t);
      }
    } else {
      assert l <= l[0..];
    }
  }

  lemma PartHasNoMeta(topic: string, l: string, t: string)
    requires NoMeta(topic) && l == PREFIX + "/" + t && Contains(topic, l)
    ensures NoMeta(t)
  {
    var i :| 0 <= i <= |topic| && l <= topic[i..];
    forall k | 0 <= k < |t| ensures !IsMeta(t[k]) {
      assert t[k] == l[|PREFIX| + 1 + k] == topic[i + |PREFIX| + 1 + k];
    }
  }

  /** The filter of a type selects exactly the topics that contain the prefix and the type, if and
      only if the type has no special character. */
  lemma LiteralExactly(t: string)
    requires InGrammar(t)
    ensures InGrammar(TypePattern(t)) && (TakenLiterally(t) <==> NoMeta(t))
  {
    PatternInGrammar(t);
    if NoMeta(t) {
      PrefixShape();
      forall topic ensures Matches(TypePattern(t), topic) <==> Contains(topic, PREFIX + "/" + t) {
        LiteralSelects(PREFIX + "/" + t, topic);
      }
    } else {
      var topic := MetaIsNotLiteral(t);
    }
  }
}
