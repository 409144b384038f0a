/** The isolation chain: FORWARD jumps to FINCH-ISOLATE-CHAIN, which drops the packets that
    enter and leave by the same isolated bridge. */
module Iptables {
  import opened Prelude

  datatype Target = Accept | Drop | Return | Isolate  // Isolate: -j FINCH-ISOLATE-CHAIN

  /** A rule matches on interfaces and on anything else (`rest`); None matches every packet. */
  datatype Rule = Rule(inIface: Option<string>, outIface: Option<string>, rest: Option<nat>, target: Target)

  datatype Packet = Packet(inIface: string, outIface: string, rest: nat)

  /** The two chains of one protocol's filter table. */
  datatype Chains = Chains(forward: seq<Rule>, isolate: Option<seq<Rule>>)

  datatype Verdict = Accepted | Dropped | Through

  const JUMP_RULE := Rule(None, None, None, Isolate)
  const RETURN_RULE := Rule(None, None, None, Return)

  function DropRule(bridge: string): Rule {
    Rule(Some(bridge), Some(bridge), None, Drop)
  }

  predicate Hits(r: Rule, p: Packet) {
    && (r.inIface.None? || r.inIface.value == p.inIface)
    && (r.outIface.None? || r.outIface.value == p.outIface)
    && (r.rest.None? || r.rest.value == p.rest)
  }

  /** Walk the isolation chain; Through means the packet returns to its caller. */
  function WalkIsolate(rules: seq<Rule>, p: Packet): Verdict {
    if rules == [] then Through
    else if !Hits(rules[0], p) then WalkIsolate(rules[1..], p)
    else match rules[0].target
      case Accept => Accepted
      case Drop => Dropped
      case Return => Through
      case Isolate => WalkIsolate(rules[1..], p)
  }

  /** Walk FORWARD; Through means the chain's policy decides. */
  function Walk(rules: seq<Rule>, isolate: seq<Rule>, p: Packet): Verdict {
    if rules == [] then Through
    else if !Hits(rules[0], p) then Walk(rules[1..], isolate, p)
    else match rules[0].target
      case Accept => Accepted
      case Drop => Dropped
      case Return => Through
      case Isolate =>
        var v := WalkIsolate(isolate, p);
        if v.Through? then Walk(rules[1..], isolate, p) else v
  }

  function Forwarded(c: Chains, p: Packet): Verdict {
    Walk(c.forward, if c.isolate.Some? then c.isolate.value else [], p)
  }

  /** The FORWARD rules other than the daemon's own jump. */
  function Base(c: Chains): seq<Rule> {
    if c.forward != [] && c.forward[0] == JUMP_RULE then c.forward[1..] else c.forward
  }

  predicate Blocks(c: Chains, bridge: string) {
    c.isolate.Some? && DropRule(bridge) in c.isolate.value
  }

  predicate IsDropRule(r: Rule) {
    r.inIface.Some? && r == DropRule(r.inIface.value)
  }

  /** A duplicate-free list of DROP rules followed by at most one RETURN. */
  predicate ChainOk(rules: seq<Rule>) {
    && (forall i :: 0 <= i < |rules| ==> IsDropRule(rules[i]) || (rules[i] == RETURN_RULE && i == |rules| - 1))
    && (forall i, j :: 0 <= i < j < |rules| ==> rules[i] != rules[j])
  }

  ghost predicate Sound(c: Chains) {
    && (c.isolate.Some? ==> ChainOk(c.isolate.value))
    && (forall i :: 0 <= i < |c.forward| && c.forward[i].target == Isolate ==> i == 0 && c.forward[i] == JUMP_RULE)
    && (c.forward != [] && c.forward[0] == JUMP_RULE ==> c.isolate.Some?)
    && (c.isolate.Some? && c.isolate.value != [] ==> c.forward != [] && c.forward[0] == JUMP_RULE)
  }

  /** No FORWARD rule jumps to an isolation chain that is not there. */
  predicate NoDanglingJump(c: Chains) {
    c.isolate.None? ==> forall r | r in c.forward :: r.target != Isolate
  }

  function InsertUnique(rules: seq<Rule>, r: Rule): seq<Rule> {
    if r in rules then rules else [r] + rules
  }

  function AppendUnique(rules: seq<Rule>, r: Rule): seq<Rule> {
    if r in rules then rules else rules + [r]
  }

  function DeleteOne(rules: seq<Rule>, r: Rule): seq<Rule> {
    if rules == [] then []
    else if rules[0] == r then rules[1..]
    else [rules[0]] + DeleteOne(rules[1..], r)
  }

  /** What the `iptables -N` call did: a failure with exit status 1 is ignored, whether or not
      another process created the chain in the meantime. */
  datatype NewChain = Created | Refused | Status1(appeared: bool)

  /** Which calls of one addRule fail. */
  datatype Faults = Faults(listing: bool, newChain: NewChain, deleteChain: bool, jump: bool, ret: bool, insert: bool, cleanup: bool)

  datatype Outcome = Added | SetupFailed | InsertFailed(cleaned: bool)

  /** There is a chain to jump to once ensureChain has run. */
  predicate ChainThere(c: Chains, f: Faults) {
    c.isolate.Some? || f.newChain == Created || f.newChain == Status1(true)
  }

  predicate SetupSucceeds(c: Chains, f: Faults) {
    !f.listing && ChainThere(c, f) && !f.jump && !f.ret
  }

  /** How addRule ends, from the calls that fail. */
  function OutcomeOf(c: Chains, f: Faults): Outcome {
    if !SetupSucceeds(c, f) then SetupFailed else if f.insert then InsertFailed(!f.cleanup) else Added
  }

  function Ensured(c: Chains, f: Faults): Chains {
    if c.isolate.None? && !f.listing && ChainThere(c, f) then c.(isolate := Some([])) else c
  }

  /** The kernel deletes only an empty chain that no rule jumps to. */
  function Cleaned(c: Chains, f: Faults): Chains {
    if !f.deleteChain && c.isolate == Some([]) && (forall r | r in c.forward :: r.target != Isolate)
    then c.(isolate := None) else c
  }

  /** The chains after setupChains.  A jump to a chain that does not exist is refused. */
  function SetUp(c: Chains, f: Faults): (d: Chains)
    ensures SetupSucceeds(c, f) ==> d.isolate.Some?
  {
    var e := Ensured(c, f);
    if f.listing || (c.isolate.None? && f.newChain == Refused) then Cleaned(e, f)
    else if f.jump || e.isolate.None? then e
    else
      var jumping := e.(forward := InsertUnique(e.forward, JUMP_RULE));
      if f.ret then jumping else jumping.(isolate := Some(AppendUnique(e.isolate.value, RETURN_RULE)))
  }

  /** The chains after addRule.  A failed insertion is followed by an attempt to delete the rule,
      even one that was there before. */
  function WithRule(c: Chains, b: string, f: Faults): Chains {
    var d := SetUp(c, f);
    match OutcomeOf(c, f)
    case Added => d.(isolate := Some(InsertUnique(d.isolate.value, DropRule(b))))
    case SetupFailed => d
    case InsertFailed(cleaned) =>
      if cleaned then d.(isolate := Some(DeleteOne(d.isolate.value, DropRule(b)))) else d
  }

  /** The chains after delRule. */
  function WithoutRule(c: Chains, b: string, fails: bool): Chains {
    if fails || c.isolate.None? then c else c.(isolate := Some(DeleteOne(c.isolate.value, DropRule(b))))
  }

  /** Is bridge `x` blocked after an addRule for bridge `b`? */
  predicate AfterAdd(outcome: Outcome, b: string, x: string, before: bool) {
    if x != b then before
    else match outcome
      case Added => true
      case SetupFailed => before
      case InsertFailed(cleaned) => before && !cleaned
  }

  /** One completed rule operation on a table. */
  datatype Event = Add(bridge: string, outcome: Outcome) | Del(bridge: string, done: bool)

  predicate After(e: Event, x: string, before: bool) {
    match e
    case Add(b, outcome) => AfterAdd(outcome, b, x, before)
    case Del(b, done) => before && !(done && x == b)
  }

  /** What a rule operation may do: the chain stays well formed, the original FORWARD rules stay,
      and the bridges blocked afterwards are determined. */
  ghost predicate Transition(c: Chains, d: Chains, e: Event) {
    && Sound(d) && Base(d) == Base(c)
    && forall x :: Blocks(d, x) <==> After(e, x, Blocks(c, x))
  }

  /** One protocol's kernel tables behind the wrapper. */
  class Table {
    var forward: seq<Rule>
    var isolate: Option<seq<Rule>>

    ghost function View(): Chains
      reads this
    {
      Chains(forward, isolate)
    }

    constructor (forward: seq<Rule>)
      ensures View() == Chains(forward, None)
    {
      this.forward, isolate := forward, None;
    }

    method EnsureChain(f: Faults) returns (ok: bool)
      modifies this`isolate
      ensures View() == Ensured(old(View()), f)
      ensures ok <==> !f.listing && (old(isolate).Some? || f.newChain != Refused)
      ensures ok && isolate.None? ==> f.newChain == Status1(false)
    {
      if f.listing {
        return false;
      }
      if isolate.None? {
        match f.newChain
        case Created => isolate := Some([]);
        case Refused => return false;
        case Status1(appeared) =>
          if appeared {
            isolate := Some([]);
          }
      }
      return true;
    }

    /** Any error is ignored. */
    method CleanupChain(f: Faults)
      modifies this`isolate
      ensures View() == Cleaned(old(View()), f)
      ensures old(NoDanglingJump(View())) ==> NoDanglingJump(View())
    {
      if !f.deleteChain && isolate == Some([]) && (forall r | r in forward :: r.target != Isolate) {
        isolate := None;
      }
    }

    method SetupChains(f: Faults) returns (ok: bool)
      modifies this
      ensures View() == SetUp(old(View()), f)
      ensures ok <==> SetupSucceeds(old(View()), f)
      ensures old(Sound(View())) ==> SameRules(old(View()), View())
      ensures ok ==> JUMP_RULE in forward && isolate.Some? && RETURN_RULE in isolate.value
    {
      if Sound(View()) {
        SetUpIs(View(), f);
      }
      ok := EnsureChain(f);
      if !ok {
        CleanupChain(f);
        return false;
      }
      if f.jump || isolate.None? {
        return false;
      }
      forward := InsertUnique(forward, JUMP_RULE);
      if f.ret {
        return false;
      }
      isolate := Some(AppendUnique(isolate.value, RETURN_RULE));
      return true;
    }

    method AddRule(b: string, f: Faults) returns (ok: bool)
      modifies this
      ensures View() == WithRule(old(View()), b, f)
      ensures ok <==> !f.listing && old(ChainThere(View(), f)) && !f.jump && !f.ret && !f.insert
      ensures old(Sound(View())) ==> Transition(old(View()), View(), Add(b, OutcomeOf(old(View()), f)))
    {
      if Sound(View()) {
        WithRuleIs(View(), b, f);
      }
      ok := SetupChains(f);
      if !ok {
        return;
      }
      if f.insert {
        if !f.cleanup {
          isolate := Some(DeleteOne(isolate.value, DropRule(b)));
        }
        return false;
      }
      isolate := Some(InsertUnique(isolate.value, DropRule(b)));
    }

    method DelRule(b: string, fails: bool) returns (ok: bool)
      modifies this
      ensures View() == WithoutRule(old(View()), b, fails)
      ensures ok == !fails
      ensures old(Sound(View())) ==> Transition(old(View()), View(), Del(b, ok))
    {
      if Sound(View()) {
        WithoutRuleIs(View(), b, fails);
      }
      if fails {
        return false;
      }
      if isolate.Some? {
        isolate := Some(DeleteOne(isolate.value, DropRule(b)));
      }
      return true;
    }
  }

  /** Well formed, with the original FORWARD rules and the blocked bridges of before. */
  ghost predicate SameRules(c: Chains, d: Chains) {
    Sound(d) && Base(d) == Base(c) && forall x :: Blocks(d, x) <==> Blocks(c, x)
  }

  /** If the chains cannot be listed, an empty chain that nothing jumps to is deleted, and nothing else. */
  lemma FailedListingCleansUp(c: Chains, f: Faults)
    requires f.listing && !f.deleteChain
    ensures SetUp(c, f) ==
      if c.isolate == Some([]) && (forall i :: 0 <= i < |c.forward| ==> c.forward[i].target != Isolate)
      then Chains(c.forward, None) else c
  {
  }

  /** setupChains leaves every bridge as it was, wherever it fails. */
  lemma SetUpIs(c: Chains, f: Faults)
    requires Sound(c)
    ensures SameRules(c, SetUp(c, f))
  {
  }

  /** addRule blocks the bridge, leaves it, or unblocks it, as its outcome says. */
  lemma WithRuleIs(c: Chains, b: string, f: Faults)
    requires Sound(c)
    ensures Transition(c, WithRule(c, b, f), Add(b, OutcomeOf(c, f)))
  {
    SetUpIs(c, f);
    var d, e := SetUp(c, f), WithRule(c, b, f);
    match OutcomeOf(c, f)
    case Added =>
      assert forall r :: r in e.isolate.value <==> r in d.isolate.value || r == DropRule(b);
    case SetupFailed =>
    case InsertFailed(cleaned) =>
      if cleaned {
        DeleteOneIs(d.isolate.value, DropRule(b));
      }
  }

  lemma WithoutRuleIs(c: Chains, b: string, fails: bool)
    requires Sound(c)
    ensures Transition(c, WithoutRule(c, b, fails), Del(b, !fails))
  {
    if !fails && c.isolate.Some? {
      DeleteOneIs(c.isolate.value, DropRule(b));
    }
  }

  lemma {:induction false} DeleteOneIs(rules: seq<Rule>, r: Rule)
    requires ChainOk(rules)
    ensures ChainOk(DeleteOne(rules, r))
    ensures forall x :: x in DeleteOne(rules, r) <==> x in rules && x != r
  {
    if rules != [] {
      assert rules == [rules[0]] + rules[1..];
      if rules[0] == r {
        assert ChainOk(rules[1..]);
      } else {
        DeleteOneIs(rules[1..], r);
        var d := DeleteOne(rules[1..], r);
        assert rules[0] !in d;
        assert d != [] ==> rules[0] != RETURN_RULE;
      }
    }
  }

  ghost function Views(tables: seq<Table>): seq<Chains>
    reads tables
  {
    seq(|tables|, i requires 0 <= i < |tables| reads tables => tables[i].View())
  }

  ghost predicate Distinct(tables: seq<Table>) {
    forall i, j :: 0 <= i < j < |tables| ==> tables[i] != tables[j]
  }

  /** AddRule over the protocols in map order, stopping at the first error: `done` tables have
      the rule, the next one is left as its failure leaves it, the others are untouched. */
  method AddRuleAll(tables: seq<Table>, b: string, faults: seq<Faults>) returns (ok: bool, ghost done: nat)
    requires |faults| == |tables| && Distinct(tables)
    modifies tables
    ensures done <= |tables| && (ok <==> done == |tables|)
    ensures forall i :: 0 <= i < done ==> OutcomeOf(old(Views(tables))[i], faults[i]) == Added
    ensures !ok ==> OutcomeOf(old(Views(tables))[done], faults[done]) != Added
    ensures forall i :: 0 <= i < |tables| ==>
      tables[i].View() == (if i <= done then WithRule(old(Views(tables))[i], b, faults[i]) else old(Views(tables))[i])
    ensures forall i :: 0 <= i < |tables| && i <= done && Sound(old(Views(tables))[i]) ==>
      Transition(old(Views(tables))[i], tables[i].View(), Add(b, OutcomeOf(old(Views(tables))[i], faults[i])))
  {
    ghost var before := Views(tables);
    forall i | 0 <= i < |tables| && Sound(before[i])
      ensures Transition(before[i], WithRule(before[i], b, faults[i]), Add(b, OutcomeOf(before[i], faults[i])))
    {
      WithRuleIs(before[i], b, faults[i]);
    }
    for k := 0 to |tables|
      invariant forall i :: 0 <= i < k ==>
        OutcomeOf(before[i], faults[i]) == Added && tables[i].View() == WithRule(before[i], b, faults[i])
      invariant forall i :: k <= i < |tables| ==> tables[i].View() == before[i]
    {
      ok := tables[k].AddRule(b, faults[k]);
      if !ok {
        return false, k;
      }
    }
    return true, |tables|;
  }

  /** DelRule over the protocols in map order, stopping at the first error. */
  method DelRuleAll(tables: seq<Table>, b: string, fails: seq<bool>) returns (ok: bool, ghost done: nat)
    requires |fails| == |tables| && Distinct(tables)
    modifies tables
    ensures done <= |tables| && (ok <==> done == |tables|)
    ensures (forall i :: 0 <= i < done ==> !fails[i]) && (!ok ==> fails[done])
    ensures forall i :: 0 <= i < |tables| ==>
      tables[i].View() == (if i < done then WithoutRule(old(Views(tables))[i], b, false) else old(Views(tables))[i])
    ensures forall i :: 0 <= i < done && Sound(old(Views(tables))[i]) ==>
      Transition(old(Views(tables))[i], tables[i].View(), Del(b, true))
  {
    ghost var before := Views(tables);
    forall i | 0 <= i < |tables| && Sound(before[i])
      ensures Transition(before[i], WithoutRule(before[i], b, false), Del(b, true))
    {
      WithoutRuleIs(before[i], b, false);
    }
    for k := 0 to |tables|
      invariant forall i :: 0 <= i < k ==> !fails[i] && tables[i].View() == WithoutRule(before[i], b, false)
      invariant forall i :: k <= i < |tables| ==> tables[i].View() == before[i]
    {
      ok := tables[k].DelRule(b, fails[k]);
      if !ok {
        return false, k;
      }
    }
    return true, |tables|;
  }

  lemma {:induction false} WalkIsolateIs(rules: seq<Rule>, p: Packet)
    requires ChainOk(rules)
    ensures WalkIsolate(rules, p) == if p.inIface == p.outIface && DropRule(p.inIface) in rules then Dropped else Through
  {
    if rules != [] {
      assert rules == [rules[0]] + rules[1..];
      WalkIsolateIs(rules[1..], p);
    }
  }

  lemma {:induction false} WalkIgnoresChain(rules: seq<Rule>, isolate: seq<Rule>, p: Packet)
    requires forall i :: 0 <= i < |rules| ==> rules[i].target != Isolate
    ensures Walk(rules, isolate, p) == Walk(rules, [], p)
  {
    if rules != [] {
      WalkIgnoresChain(rules[1..], isolate, p);
    }
  }

  /** A packet is dropped by the daemon's rules exactly when it enters and leaves by the same
      blocked bridge; every other packet gets the verdict of the original FORWARD rules. */
  lemma VerdictIs(c: Chains, p: Packet)
    requires Sound(c)
    ensures Forwarded(c, p) ==
      if p.inIface == p.outIface && Blocks(c, p.inIface) then Dropped else Walk(Base(c), [], p)
  {
    var chain := if c.isolate.Some? then c.isolate.value else [];
    WalkIsolateIs(chain, p);
    WalkIgnoresChain(Base(c), chain, p);
  }

  /** A call of one of the two rule operations, with the failures it meets. */
  datatype Op = AddOp(bridge: string, faults: Faults) | DelOp(bridge: string, fails: bool)

  function Apply(c: Chains, op: Op): Chains {
    match op
    case AddOp(b, f) => WithRule(c, b, f)
    case DelOp(b, fails) => WithoutRule(c, b, fails)
  }

  function EventOf(c: Chains, op: Op): Event {
    match op
    case AddOp(b, f) => Add(b, OutcomeOf(c, f))
    case DelOp(b, fails) => Del(b, !fails)
  }

  /** The tables after a sequence of calls. */
  function Run(c: Chains, ops: seq<Op>): Chains
    decreases |ops|
  {
    if ops == [] then c else Run(Apply(c, ops[0]), ops[1..])
  }

  /** What each of the calls did. */
  function History(c: Chains, ops: seq<Op>): seq<Event>
    decreases |ops|
  {
    if ops == [] then [] else [EventOf(c, ops[0])] + History(Apply(c, ops[0]), ops[1..])
  }

  lemma ApplyIs(c: Chains, op: Op)
    requires Sound(c)
    ensures Transition(c, Apply(c, op), EventOf(c, op))
  {
    match op
    case AddOp(b, f) => WithRuleIs(c, b, f);
    case DelOp(b, fails) => WithoutRuleIs(c, b, fails);
  }

  /** Is `x` blocked after these operations? */
  predicate Status(evs: seq<Event>, x: string, initially: bool) {
    if evs == [] then initially else Status(evs[1..], x, After(evs[0], x, initially))
  }

  lemma {:induction false} RunStatus(c: Chains, ops: seq<Op>, x: string)
    requires Sound(c)
    ensures Sound(Run(c, ops)) && Base(Run(c, ops)) == Base(c)
    ensures Blocks(Run(c, ops), x) <==> Status(History(c, ops), x, Blocks(c, x))
    decreases |ops|
  {
    if ops != [] {
      ApplyIs(c, ops[0]);
      RunStatus(Apply(c, ops[0]), ops[1..], x);
    }
  }

  /** Whatever the FORWARD rules are and whichever calls fail, no jump is left without its chain. */
  lemma {:induction false} JumpsNeverDangle(c: Chains, ops: seq<Op>)
    requires NoDanglingJump(c)
    ensures NoDanglingJump(Run(c, ops))
    decreases |ops|
  {
    if ops != [] {
      JumpsNeverDangle(Apply(c, ops[0]), ops[1..]);
    }
  }

  /** The verdict on every packet after every sequence of calls with arbitrary failures. */
  lemma RunVerdict(c: Chains, ops: seq<Op>, p: Packet)
    requires Sound(c)
    ensures Forwarded(Run(c, ops), p) ==
      if p.inIface == p.outIface && Status(History(c, ops), p.inIface, Blocks(c, p.inIface)) then Dropped
      else Walk(Base(c), [], p)
  {
    RunStatus(c, ops, p.inIface);
    VerdictIs(Run(c, ops), p);
  }

  /** The blocked bridges as a set, the form in which the network protocol keeps them. */
  function Blocked(c: Chains): set<string> {
    if c.isolate.None? then {}
    else set r | r in c.isolate.value && IsDropRule(r) :: r.inIface.value
  }

  lemma BlockedIs(c: Chains, x: string)
    ensures x in Blocked(c) <==> Blocks(c, x)
  {
    if Blocks(c, x) {
      assert IsDropRule(DropRule(x)) && DropRule(x).inIface.value == x;
    }
  }

  lemma BlockedAfter(c: Chains, op: Op, x: string)
    requires Sound(c)
    ensures x in Blocked(Apply(c, op)) <==> After(EventOf(c, op), x, x in Blocked(c))
  {
    ApplyIs(c, op);
    BlockedIs(c, x);
    BlockedIs(Apply(c, op), x);
  }

  /** The effects an addRule can have on the set of blocked bridges, each of which some failures bring about. */
  lemma BlockedAfterAdd(c: Chains, b: string, f: Faults)
    requires Sound(c)
    ensures Blocked(WithRule(c, b, f)) == match OutcomeOf(c, f)
      case Added => Blocked(c) + {b}
      case SetupFailed => Blocked(c)
      case InsertFailed(cleaned) => if cleaned then Blocked(c) - {b} else Blocked(c)
    ensures forall outcome :: OutcomeOf(c, FaultsFor(outcome)) == outcome
  {
    forall x ensures x in Blocked(WithRule(c, b, f)) <==> AfterAdd(OutcomeOf(c, f), b, x, x in Blocked(c)) {
      BlockedAfter(c, AddOp(b, f), x);
    }
  }

  lemma BlockedAfterDel(c: Chains, b: string, fails: bool)
    requires Sound(c)
    ensures Blocked(WithoutRule(c, b, fails)) == if fails then Blocked(c) else Blocked(c) - {b}
  {
    forall x ensures x in Blocked(WithoutRule(c, b, fails)) <==> x in Blocked(c) && !(!fails && x == b) {
      BlockedAfter(c, DelOp(b, fails), x);
    }
  }

  const NO_FAULTS := Faults(false, Created, false, false, false, false, false)

  /** Failures that bring an outcome about, whatever the chains are. */
  function FaultsFor(outcome: Outcome): Faults {
    match outcome
    case Added => NO_FAULTS
    case SetupFailed => NO_FAULTS.(listing := true)
    case InsertFailed(cleaned) => NO_FAULTS.(insert := true, cleanup := !cleaned)
  }

  /** Was the last successful operation on `x` an add? */
  predicate LastSuccess(evs: seq<Event>, x: string, initially: bool) {
    if evs == [] then initially
    else
      LastSuccess(evs[1..], x,
        match evs[0]
        case Add(b, outcome) => if b == x && outcome == Added then true else initially
        case Del(b, done) => if b == x && done then false else initially)
  }

  predicate AddsTo(op: Op, x: string) {
    op.AddOp? && op.bridge == x
  }

  function Adds(calls: seq<Op>, x: string): nat {
    if calls == [] then 0 else (if AddsTo(calls[0], x) then 1 else 0) + Adds(calls[1..], x)
  }

  /** The same calls, meeting possibly different failures. */
  ghost predicate SameCalls(a: seq<Op>, b: seq<Op>) {
    |a| == |b| && forall k :: 0 <= k < |a| ==> a[k].AddOp? == b[k].AddOp? && a[k].bridge == b[k].bridge
  }

  lemma {:induction false} SameAdds(a: seq<Op>, b: seq<Op>, x: string)
    requires SameCalls(a, b)
    ensures Adds(a, x) == Adds(b, x)
  {
    if a != [] {
      SameAdds(a[1..], b[1..], x);
    }
  }

  lemma {:induction false} AddedOnceAgrees(c: Chains, ops: seq<Op>, x: string, initially: bool)
    requires Adds(ops, x) <= if initially then 0 else 1
    ensures Status(History(c, ops), x, initially) == LastSuccess(History(c, ops), x, initially)
    decreases |ops|
  {
    if ops != [] {
      AddedOnceAgrees(Apply(c, ops[0]), ops[1..], x, After(EventOf(c, ops[0]), x, initially));
    }
  }

  /** The calls with failures under which the second add of `x` wipes the rule of the first. */
  function Wiping(calls: seq<Op>, x: string, seen: nat): seq<Op> {
    if calls == [] then []
    else if AddsTo(calls[0], x) then
      [AddOp(x, FaultsFor(if seen == 0 then Added else if seen == 1 then InsertFailed(true) else SetupFailed))]
        + Wiping(calls[1..], x, seen + 1)
    else if calls[0].AddOp? then [AddOp(calls[0].bridge, FaultsFor(SetupFailed))] + Wiping(calls[1..], x, seen)
    else [DelOp(calls[0].bridge, true)] + Wiping(calls[1..], x, seen)
  }

  /** One call with its wiping failures, and what becomes of the two notions. */
  lemma WipingStep(c: Chains, calls: seq<Op>, x: string, seen: nat)
    requires calls != []
    ensures var added := if AddsTo(calls[0], x) then 1 else 0; var w := Wiping(calls, x, seen);
      && w != [] && w[0].AddOp? == calls[0].AddOp? && w[0].bridge == calls[0].bridge
      && w[1..] == Wiping(calls[1..], x, seen + added)
      && After(EventOf(c, w[0]), x, seen == 1) == (seen + added == 1)
      && LastSuccess([EventOf(c, w[0])], x, seen >= 1) == (seen + added >= 1)
  {
  }

  lemma {:induction false} WipingDisagrees(c: Chains, calls: seq<Op>, x: string, seen: nat)
    ensures SameCalls(calls, Wiping(calls, x, seen))
    ensures Status(History(c, Wiping(calls, x, seen)), x, seen == 1) == (seen + Adds(calls, x) == 1)
    ensures LastSuccess(History(c, Wiping(calls, x, seen)), x, seen >= 1) == (seen + Adds(calls, x) >= 1)
    decreases |calls|
  {
    if calls != [] {
      var w := Wiping(calls, x, seen);
      var added := if AddsTo(calls[0], x) then 1 else 0;
      WipingStep(c, calls, x, seen);
      WipingDisagrees(Apply(c, w[0]), calls[1..], x, seen + added);
      assert [EventOf(c, w[0])][1..] == [];
    }
  }

  /** After these calls the bridge is blocked exactly when its last successful operation was an add. */
  ghost predicate LastSuccessDecides(c: Chains, ops: seq<Op>, x: string) {
    Blocks(Run(c, ops), x) <==> LastSuccess(History(c, ops), x, false)
  }

  /** On every table that does not block the bridge yet, and under every pattern of failures, the
      last successful operation decides if and only if the calls add that bridge at most once: a
      second add that fails deletes the rule of the first. */
  lemma LastSuccessIsExact(calls: seq<Op>, x: string)
    ensures (forall c, ops | Sound(c) && !Blocks(c, x) && SameCalls(calls, ops) :: LastSuccessDecides(c, ops, x))
      <==> Adds(calls, x) <= 1
  {
    if Adds(calls, x) <= 1 {
      forall c, ops | Sound(c) && !Blocks(c, x) && SameCalls(calls, ops) ensures LastSuccessDecides(c, ops, x) {
        SameAdds(calls, ops, x);
        AddedOnceAgrees(c, ops, x, false);
        RunStatus(c, ops, x);
      }
    } else {
      var c := Chains([], None);
      assert Sound(c) && !Blocks(c, x);
      WipingDisagrees(c, calls, x, 0);
      RunStatus(c, Wiping(calls, x, 0), x);
      assert !LastSuccessDecides(c, Wiping(calls, x, 0), x);
    }
  }
}
