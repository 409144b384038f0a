/** Container statistics: the chain of previous readings, and the host's CPU time in 64 bits. */
module Stats {
  import opened Prelude
  import opened Text
  import opened Words

  datatype Cpu = Cpu(total: nat, system: nat, online: nat)

  /** Time zero is Go's zero time. */
  datatype Record = Record(id: string, name: string, read: nat, preRead: nat, cpu: Cpu, preCpu: Cpu)

  const ZERO_CPU := Cpu(0, 0, 0)

  /** What one collection came to. */
  datatype Tick = Failed | NotRunning | Collected(cpu: Cpu, now: nat)

  function Empty(id: string, name: string): Record {
    Record(id, name, 0, 0, ZERO_CPU, ZERO_CPU)
  }

  /** The record sent for each tick: full or empty, and a full one linked to its predecessor. */
  ghost predicate Follows(sent: seq<Record>, ticks: seq<Tick>, id: string, name: string, k: nat)
    requires k < |sent| && k < |ticks|
  {
    var r := sent[k];
    match ticks[k]
    case Collected(cpu, now) =>
      && r.id == id && r.name == name && r.cpu == cpu && r.read == now
      && r.preRead == (if k == 0 then 0 else sent[k - 1].read)
      && r.preCpu == (if k == 0 then ZERO_CPU else sent[k - 1].cpu)
    case _ => r == Empty(id, name)
  }

  /** The collection loop, up to the event that ends it. */
  method Run(id: string, name: string, ticks: seq<Tick>) returns (sent: seq<Record>)
    ensures |sent| == |ticks| && forall k :: 0 <= k < |ticks| ==> Follows(sent, ticks, id, name, k)
  {
    sent := [];
    var preStats := Record("", "", 0, 0, ZERO_CPU, ZERO_CPU);
    for i := 0 to |ticks|
      invariant |sent| == i && forall k :: 0 <= k < i ==> Follows(sent, ticks, id, name, k)
      invariant preStats.read == (if i == 0 then 0 else sent[i - 1].read)
      invariant preStats.cpu == (if i == 0 then ZERO_CPU else sent[i - 1].cpu)
    {
      ghost var before := sent;
      if ticks[i].Failed? || ticks[i].NotRunning? {
        preStats := Empty(id, name);
        sent := sent + [preStats];
      } else {
        var stats := Record(id, name, ticks[i].now, preStats.read, ticks[i].cpu, preStats.cpu);
        sent := sent + [stats];
        preStats := stats;
      }
      forall k | 0 <= k < i ensures Follows(sent, ticks, id, name, k) {
        assert Follows(before, ticks, id, name, k);
      }
    }
  }

  /** The first full record, and a full record after an empty one, have zero previous readings. */
  lemma FreshStart(sent: seq<Record>, ticks: seq<Tick>, id: string, name: string, k: nat)
    requires |sent| == |ticks| && k < |ticks| && ticks[k].Collected?
    requires forall j :: 0 <= j < |ticks| ==> Follows(sent, ticks, id, name, j)
    requires k == 0 || !ticks[k - 1].Collected?
    ensures sent[k].preRead == 0 && sent[k].preCpu == ZERO_CPU
  {
    assert Follows(sent, ticks, id, name, k);
    if k > 0 {
      assert Follows(sent, ticks, id, name, k - 1);
    }
  }

  /** Every record is the container's, and repeats the readings of the one sent before it. */
  lemma EveryRecordLinked(sent: seq<Record>, ticks: seq<Tick>, id: string, name: string, k: nat)
    requires |sent| == |ticks| && k < |ticks|
    requires forall j :: 0 <= j < |ticks| ==> Follows(sent, ticks, id, name, j)
    ensures sent[k].id == id && sent[k].name == name
    ensures ticks[k].Collected? ==> sent[k].cpu == ticks[k].cpu && sent[k].read == ticks[k].now
    ensures ticks[k].Collected? && k > 0 ==> sent[k].preRead == sent[k - 1].read && sent[k].preCpu == sent[k - 1].cpu
    ensures !ticks[k].Collected? ==>
      sent[k].read == 0 && sent[k].preRead == 0 && sent[k].cpu == Cpu(0, 0, 0) && sent[k].preCpu == Cpu(0, 0, 0)
  {
    assert Follows(sent, ticks, id, name, k);
  }

  datatype Reading = Usage(nanoseconds: nat) | Malformed | Panics

  /** The exact sum of a sequence of numerals, if all of them are 64-bit numerals. */
  function SumOfNumerals(parts: seq<string>): Option<nat> {
    if parts == [] then Some(0)
    else
      var front, last := SumOfNumerals(parts[..|parts| - 1]), ParseUint(parts[|parts| - 1]);
      if front.Some? && last.Some? then Some(front.value + last.value) else None
  }

  /** Ticks to nanoseconds as the daemon computes it, in 64 bits. */
  function Scale(ticks: nat): nat {
    ticks * 1_000_000_000 % TWO64 / 100
  }

  /** The first line whose first word is "cpu" decides; a blank line before it has no first word. */
  ghost predicate Decides(lines: seq<string>, k: nat) {
    && k < |lines| && (Fields(lines[k]) == [] || Fields(lines[k])[0] == "cpu")
    && forall i :: 0 <= i < k ==> Fields(lines[i]) != [] && Fields(lines[i])[0] != "cpu"
  }

  predicate IsNumeral(part: string) {
    ParseUint(part).Some?
  }

  /** What a deciding line reads as: the sum of the seven fields after "cpu", in 64 bits. */
  ghost predicate ReadsLine(parts: seq<string>, r: Reading) {
    if parts == [] then r == Panics
    else if |parts| < 8 || (exists j :: 1 <= j < 8 && !IsNumeral(parts[j])) then r == Malformed
    else r == Usage(Scale(
      ParseUint(parts[1]).value + ParseUint(parts[2]).value + ParseUint(parts[3]).value + ParseUint(parts[4]).value
      + ParseUint(parts[5]).value + ParseUint(parts[6]).value + ParseUint(parts[7]).value))
  }

  ghost predicate Reads(lines: seq<string>, r: Reading) {
    && (forall k: nat :: Decides(lines, k) ==> ReadsLine(Fields(lines[k]), r))
    && ((forall k: nat :: !Decides(lines, k)) ==> r == Malformed)
  }

  method GetSystemCPUUsage(lines: seq<string>) returns (r: Reading)
    ensures Reads(lines, r)
  {
    for i := 0 to |lines|
      invariant forall k :: 0 <= k < i ==> Fields(lines[k]) != [] && Fields(lines[k])[0] != "cpu"
    {
      var parts := Fields(lines[i]);
      if parts == [] {
        assert Decides(lines, i) && forall k: nat :: Decides(lines, k) ==> k == i;
        return Panics;
      }
      if parts[0] == "cpu" {
        assert Decides(lines, i) && forall k: nat :: Decides(lines, k) ==> k == i;
        if |parts| < 8 {
          return Malformed;
        }
        r := SumTicks(parts[1..8]);
        SumOfSeven(parts[1..8]);
        assert forall j :: 1 <= j < 8 ==> parts[1..8][j - 1] == parts[j];
        return;
      }
    }
    return Malformed;
  }

  /** The accumulation wraps at 64 bits; the scaled result is that of the exact sum. */
  method SumTicks(parts: seq<string>) returns (r: Reading)
    ensures r == match SumOfNumerals(parts) case None => Malformed case Some(ticks) => Usage(Scale(ticks))
  {
    var total := 0;
    for i := 0 to |parts|
      invariant SumOfNumerals(parts[..i]).Some? && total == SumOfNumerals(parts[..i]).value % TWO64
    {
      assert parts[..i + 1][..i] == parts[..i];
      var v := ParseUint(parts[i]);
      if v.None? {
        NoSum(parts, i);
        return Malformed;
      }
      total := (total + v.value) % TWO64;
    }
    assert parts[..|parts|] == parts;
    ScaleWraps(SumOfNumerals(parts).value);
    return Usage(total * 1_000_000_000 % TWO64 / 100);
  }

  lemma {:induction false} SumExists(parts: seq<string>)
    ensures SumOfNumerals(parts).Some? <==> forall i :: 0 <= i < |parts| ==> IsNumeral(parts[i])
    decreases |parts|
  {
    if parts != [] {
      SumExists(parts[..|parts| - 1]);
    }
  }

  lemma SumOneMore(parts: seq<string>, k: nat)
    requires k < |parts| && SumOfNumerals(parts[..k]).Some? && IsNumeral(parts[k])
    ensures SumOfNumerals(parts[..k + 1]) == Some(SumOfNumerals(parts[..k]).value + ParseUint(parts[k]).value)
  {
    assert parts[..k + 1][..k] == parts[..k];
  }

  lemma SumOfSeven(parts: seq<string>)
    requires |parts| == 7
    ensures SumOfNumerals(parts).Some? <==> forall i :: 0 <= i < 7 ==> IsNumeral(parts[i])
    ensures SumOfNumerals(parts).Some? ==>
      SumOfNumerals(parts).value ==
        (ParseUint(parts[0]).value + ParseUint(parts[1]).value + ParseUint(parts[2]).value + ParseUint(parts[3]).value
         + ParseUint(parts[4]).value + ParseUint(parts[5]).value + ParseUint(parts[6]).value)
  {
    SumExists(parts);
    if SumOfNumerals(parts).Some? {
      assert parts[..0] == [] && parts[..7] == parts;
      SumOneMore(parts, 0);
      SumOneMore(parts, 1);
      SumOneMore(parts, 2);
      SumOneMore(parts, 3);
      SumOneMore(parts, 4);
      SumOneMore(parts, 5);
      SumOneMore(parts, 6);
    }
  }

  lemma {:induction false} NoSum(parts: seq<string>, i: nat)
    requires i < |parts| && ParseUint(parts[i]).None?
    ensures SumOfNumerals(parts).None?
    decreases |parts|
  {
    if i < |parts| - 1 {
      NoSum(parts[..|parts| - 1], i);
    }
  }

  lemma ScaleWraps(ticks: nat)
    ensures ticks % TWO64 * 1_000_000_000 % TWO64 == ticks * 1_000_000_000 % TWO64
  {
    var q, m := ticks / TWO64, ticks % TWO64;
    assert ticks * 1_000_000_000 == m * 1_000_000_000 + (q * 1_000_000_000) * TWO64;
    ModAddMultiple(m * 1_000_000_000, q * 1_000_000_000);
  }

  lemma {:induction false} ModAddMultiple(a: nat, k: nat)
    ensures (a + k * TWO64) % TWO64 == a % TWO64
  {
    if k > 0 {
      ModAddMultiple(a, k - 1);
      assert (a + k * TWO64) % TWO64 == (a + (k - 1) * TWO64 + TWO64) % TWO64;
    }
  }

  /** The reading is exact (10^7 nanoseconds a tick) if and only if the product fits in 64 bits. */
  lemma ScaleIsExact(ticks: nat)
    ensures Scale(ticks) == ticks * 10_000_000 <==> ticks * 1_000_000_000 < TWO64
  {
  }

  /** While the ticks fit, consecutive full records give a system CPU delta of exactly 10^7
      times the tick difference. */
  lemma SystemDelta(sent: seq<Record>, ticks: seq<Tick>, id: string, name: string, k: nat, a: nat, b: nat)
    requires |sent| == |ticks| && 0 < k < |ticks| && ticks[k - 1].Collected? && ticks[k].Collected?
    requires forall j :: 0 <= j < |ticks| ==> Follows(sent, ticks, id, name, j)
    requires ticks[k - 1].cpu.system == Scale(a) && ticks[k].cpu.system == Scale(b)
    requires a * 1_000_000_000 < TWO64 && b * 1_000_000_000 < TWO64
    ensures sent[k].cpu.system - sent[k].preCpu.system == 10_000_000 * (b - a)
  {
    assert Follows(sent, ticks, id, name, k) && Follows(sent, ticks, id, name, k - 1);
    ScaleIsExact(a);
    ScaleIsExact(b);
  }

  function Numerals(ts: seq<nat>): seq<string> {
    seq(|ts|, i requires 0 <= i < |ts| => Decimal(ts[i]))
  }

  lemma {:induction false} DecimalIsWord(n: nat)
    ensures IsWord(Decimal(n))
  {
    if n >= 10 {
      DecimalIsWord(n / 10);
    }
  }

  /** The line of the kernel: "cpu", its seven times in ticks, and whatever follows. */
  predicate CpuLineAt(lines: seq<string>, k: nat, ts: seq<nat>, more: seq<string>) {
    && k < |lines| && lines[k] == Join(["cpu"] + Numerals(ts) + more)
    && |ts| == 7 && (forall i :: 0 <= i < 7 ==> ts[i] < TWO64)
    && (forall i :: 0 <= i < |more| ==> IsWord(more[i]))
    && forall i :: 0 <= i < k ==> Fields(lines[i]) != [] && Fields(lines[i])[0] != "cpu"
  }

  lemma CpuFields(lines: seq<string>, k: nat, ts: seq<nat>, more: seq<string>)
    requires CpuLineAt(lines, k, ts, more)
    ensures Fields(lines[k]) == ["cpu"] + Numerals(ts) + more && Decides(lines, k)
  {
    var words := ["cpu"] + Numerals(ts) + more;
    forall i | 0 <= i < |words| ensures IsWord(words[i]) {
      if 1 <= i < 8 {
        DecimalIsWord(ts[i - 1]);
      }
    }
    JoinedWords(words);
  }

  function Seven(ts: seq<nat>): nat
    requires |ts| == 7
  {
    ts[0] + ts[1] + ts[2] + ts[3] + ts[4] + ts[5] + ts[6]
  }

  lemma NumeralsRead(parts: seq<string>, ts: seq<nat>, more: seq<string>, j: nat)
    requires parts == ["cpu"] + Numerals(ts) + more && |ts| == 7 && 1 <= j < 8 && ts[j - 1] < TWO64
    ensures ParseUint(parts[j]) == Some(ts[j - 1]) && IsNumeral(parts[j])
  {
    assert parts[j] == Decimal(ts[j - 1]);
    ParseUintDecimal(ts[j - 1]);
  }

  lemma SevenAre(parts: seq<string>, ts: seq<nat>, r: Reading)
    requires |parts| >= 8 && |ts| == 7 && ReadsLine(parts, r)
    requires forall j :: 1 <= j < 8 ==> IsNumeral(parts[j]) && ParseUint(parts[j]) == Some(ts[j - 1])
    ensures r == Usage(Scale(Seven(ts)))
  {
  }

  lemma SevenRead(parts: seq<string>, ts: seq<nat>, more: seq<string>, r: Reading)
    requires parts == ["cpu"] + Numerals(ts) + more && |ts| == 7 && ReadsLine(parts, r)
    requires forall i :: 0 <= i < 7 ==> ts[i] < TWO64
    ensures r == Usage(Scale(Seven(ts)))
  {
    forall j | 1 <= j < 8 ensures IsNumeral(parts[j]) && ParseUint(parts[j]) == Some(ts[j - 1]) {
      NumeralsRead(parts, ts, more, j);
    }
    SevenAre(parts, ts, r);
  }

  /** The usage read from a well-formed line is its seven times, added and scaled in 64 bits; where
      that fits, 10^7 nanoseconds for each tick. */
  lemma CpuLineReads(lines: seq<string>, k: nat, ts: seq<nat>, more: seq<string>, r: Reading)
    requires CpuLineAt(lines, k, ts, more) && Reads(lines, r)
    ensures r == Usage((ts[0] + ts[1] + ts[2] + ts[3] + ts[4] + ts[5] + ts[6]) * 1_000_000_000 % TWO64 / 100)
    ensures Seven(ts) * 1_000_000_000 < TWO64 ==> r == Usage(10_000_000 * Seven(ts))
  {
    CpuFields(lines, k, ts, more);
    SevenRead(Fields(lines[k]), ts, more, r);
    ScaleIsExact(Seven(ts));
  }

  /** From two files of the kernel to the delta of two consecutive records. */
  lemma DeltaOfLines(
      sent: seq<Record>, ticks: seq<Tick>, id: string, name: string, k: nat,
      first: seq<string>, i: nat, ts: seq<nat>, second: seq<string>, j: nat, us: seq<nat>, more: seq<string>)
    requires |sent| == |ticks| && 0 < k < |ticks| && ticks[k - 1].Collected? && ticks[k].Collected?
    requires forall n :: 0 <= n < |ticks| ==> Follows(sent, ticks, id, name, n)
    requires CpuLineAt(first, i, ts, more) && Reads(first, Usage(ticks[k - 1].cpu.system))
    requires CpuLineAt(second, j, us, more) && Reads(second, Usage(ticks[k].cpu.system))
    requires Seven(ts) * 1_000_000_000 < TWO64 && Seven(us) * 1_000_000_000 < TWO64
    ensures sent[k].cpu.system - sent[k].preCpu.system == 10_000_000 * (Seven(us) - Seven(ts))
  {
    CpuFields(first, i, ts, more);
    SevenRead(Fields(first[i]), ts, more, Usage(ticks[k - 1].cpu.system));
    CpuFields(second, j, us, more);
    SevenRead(Fields(second[j]), us, more, Usage(ticks[k].cpu.system));
    SystemDelta(sent, ticks, id, name, k, Seven(ts), Seven(us));
  }

  /** A "cpu" line with fewer fields, or with one of its seven not a 64-bit numeral, is an error. */
  lemma BadLineIsMalformed(lines: seq<string>, k: nat, words: seq<string>, r: Reading)
    requires k < |lines| && lines[k] == Join(["cpu"] + words) && Reads(lines, r)
    requires forall i :: 0 <= i < |words| ==> IsWord(words[i])
    requires forall i :: 0 <= i < k ==> Fields(lines[i]) != [] && Fields(lines[i])[0] != "cpu"
    requires |words| < 7 || exists j :: 0 <= j < 7 && ParseUint(words[j]).None?
    ensures r == Malformed
  {
    CpuWords(words);
    assert Decides(lines, k);
    BadWords(Fields(lines[k]), words, r);
  }

  lemma CpuWords(words: seq<string>)
    requires forall i :: 0 <= i < |words| ==> IsWord(words[i])
    ensures Fields(Join(["cpu"] + words)) == ["cpu"] + words
  {
    var all := ["cpu"] + words;
    forall i | 0 <= i < |all| ensures IsWord(all[i]) {
      assert i > 0 ==> all[i] == words[i - 1];
    }
    JoinedWords(all);
  }

  /** A blank line before the "cpu" line has no first field, which indexes out of range; without
      either the file is malformed. */
  lemma BlankLinePanics(lines: seq<string>, k: nat, r: Reading)
    requires k <= |lines| && Reads(lines, r)
    requires forall i :: 0 <= i < k ==> Fields(lines[i]) != [] && Fields(lines[i])[0] != "cpu"
    ensures k < |lines| && Fields(lines[k]) == [] ==> r == Panics
    ensures k == |lines| ==> r == Malformed
  {
    if k < |lines| && Fields(lines[k]) == [] {
      assert Decides(lines, k) && ReadsLine(Fields(lines[k]), r);
    }
  }

  lemma BadWords(parts: seq<string>, words: seq<string>, r: Reading)
    requires parts == ["cpu"] + words && ReadsLine(parts, r)
    requires |words| < 7 || exists j :: 0 <= j < 7 && ParseUint(words[j]).None?
    ensures r == Malformed
  {
    if |words| >= 7 {
      var j :| 0 <= j < 7 && ParseUint(words[j]).None?;
      assert parts[j + 1] == words[j] && !IsNumeral(parts[j + 1]);
    }
  }
}
