/** Decimal numerals as strings. */
module Text {
  import opened Prelude

  function Digit(d: nat): char
    requires d < 10
  {
    ('0' as int + d) as char
  }

  function DigitValue(c: char): Option<nat> {
    if '0' <= c <= '9' then Some(c as int - '0' as int) else None
  }

  /** The canonical decimal numeral. */
  function Decimal(n: nat): string {
    if n < 10 then [Digit(n)] else Decimal(n / 10) + [Digit(n % 10)]
  }

  /** The value of a non-empty string of digits. */
  function ParseDigits(s: string): Option<nat> {
    if s == [] then None
    else
      var last := DigitValue(s[|s| - 1]);
      if last.None? then None
      else if |s| == 1 then last
      else
        var front := ParseDigits(s[..|s| - 1]);
        if front.None? then None else Some(10 * front.value + last.value)
  }

  function Itoa(i: int): string {
    if i < 0 then "-" + Decimal(-i) else Decimal(i)
  }

  const TWO63: nat := 0x8000_0000_0000_0000
  const TWO64: nat := 0x1_0000_0000_0000_0000

  predicate IsInt64(i: int) {
    0 <= i + TWO63 && i < TWO63
  }

  /** Arithmetic on 64-bit signed integers wraps around. */
  function Wrap64(i: int): (r: int)
    ensures IsInt64(r) && (IsInt64(i) ==> r == i)
  {
    (i + TWO63) % TWO64 - TWO63
  }

  lemma WrapBack(i: int)
    requires IsInt64(i)
    ensures Wrap64(Wrap64(i + 1) - 1) == i
  {
  }

  /** strconv.Atoi: a number out of range is an error. */
  function Atoi(s: string): (r: Option<int>)
    ensures r.Some? ==> IsInt64(r.value)
  {
    var signed := s != [] && (s[0] == '-' || s[0] == '+');
    match ParseDigits(if signed then s[1..] else s)
    case None => None
    case Some(n) =>
      var magnitude: int := n;
      var i := if signed && s[0] == '-' then -magnitude else magnitude;
      if IsInt64(i) then Some(i) else None
  }

  function ParseUint(s: string): Option<nat> {
    match ParseDigits(s)
    case None => None
    case Some(n) => if n < TWO64 then Some(n) else None
  }

  lemma {:induction false} ParseDecimal(n: nat)
    ensures Decimal(n) != [] && '0' <= Decimal(n)[0] <= '9'
    ensures ParseDigits(Decimal(n)) == Some(n)
  {
    if n >= 10 {
      ParseDecimal(n / 10);
      var s := Decimal(n);
      assert s[..|s| - 1] == Decimal(n / 10);
    }
  }

  lemma ParseUintDecimal(n: nat)
    ensures ParseUint(Decimal(n)) == if n < TWO64 then Some(n) else None
  {
    ParseDecimal(n);
  }

  lemma AtoiItoa(i: int)
    requires IsInt64(i)
    ensures Atoi(Itoa(i)) == Some(i)
  {
    ParseDecimal(if i < 0 then -i else i);
    if i < 0 {
      assert Itoa(i)[1..] == Decimal(-i);
    }
  }

  /** The position of the first `c`, or the length if there is none. */
  function First(s: string, c: char): nat {
    if s == [] || s[0] == c then 0 else 1 + First(s[1..], c)
  }

  /** The position of the last `c`, or -1 if there is none. */
  function Last(s: string, c: char): int {
    if s == [] then -1
    else if s[|s| - 1] == c then |s| - 1
    else Last(s[..|s| - 1], c)
  }

  lemma {:induction false} FirstOfSplit(a: string, x: string, c: char)
    requires (forall i :: 0 <= i < |a| ==> a[i] != c) && (x == "" || x[0] == c)
    ensures First(a + x, c) == |a|
  {
    if a != "" {
      FirstOfSplit(a[1..], x, c);
      assert (a + x)[1..] == a[1..] + x;
    }
  }

  lemma {:induction false} LastOfSplit(a: string, x: string, c: char)
    requires forall i :: 0 <= i < |x| ==> x[i] != c
    ensures Last(a + [c] + x, c) == |a|
  {
    var s := a + [c] + x;
    if x != "" {
      LastOfSplit(a, x[..|x| - 1], c);
      assert s[..|s| - 1] == a + [c] + x[..|x| - 1];
    }
  }

  /** Where a string is cut at its first `c`, the two parts are determined. */
  lemma SplitUnique(a: string, b: string, x: string, y: string, c: char)
    requires (forall i :: 0 <= i < |a| ==> a[i] != c) && (x == "" || x[0] == c)
    requires (forall i :: 0 <= i < |b| ==> b[i] != c) && (y == "" || y[0] == c)
    requires a + x == b + y
    ensures a == b && x == y
  {
    FirstOfSplit(a, x, c);
    FirstOfSplit(b, y, c);
    assert a == (a + x)[..|a|] && b == (b + y)[..|b|];
    assert x == (a + x)[|a|..] && y == (b + y)[|b|..];
  }

  /** Where a string is cut at its last `c`, the two parts are determined. */
  lemma LastSplitUnique(a: string, x: string, b: string, y: string, c: char)
    requires (forall i :: 0 <= i < |x| ==> x[i] != c) && (forall i :: 0 <= i < |y| ==> y[i] != c)
    requires a + [c] + x == b + [c] + y
    ensures a == b && x == y
  {
    LastOfSplit(a, x, c);
    LastOfSplit(b, y, c);
    var s := a + [c] + x;
    assert s[..|a|] == a && (b + [c] + y)[..|b|] == b;
    assert s[|a| + 1..] == x && (b + [c] + y)[|b| + 1..] == y;
  }

  predicate Without(s: string, c: char) {
    forall i :: 0 <= i < |s| ==> s[i] != c
  }

  lemma {:induction false} FirstBound(s: string, c: char)
    ensures First(s, c) <= |s| && Without(s[..First(s, c)], c)
    ensures First(s, c) == |s| || s[First(s, c)] == c
  {
    if s != [] && s[0] != c {
      FirstBound(s[1..], c);
      assert s[..First(s, c)] == [s[0]] + s[1..][..First(s[1..], c)];
    }
  }

  /** The pieces between the occurrences of `c`. */
  function Split(s: string, c: char): (parts: seq<string>)
    ensures parts != []
    decreases |s|
  {
    if First(s, c) < |s| then [s[..First(s, c)]] + Split(s[First(s, c) + 1..], c) else [s]
  }

  lemma {:induction false} SplitPieces(s: string, c: char)
    ensures forall k :: 0 <= k < |Split(s, c)| ==> Without(Split(s, c)[k], c)
    ensures |Split(s, c)| == 1 <==> Without(s, c)
    decreases |s|
  {
    FirstBound(s, c);
    if First(s, c) < |s| {
      SplitPieces(s[First(s, c) + 1..], c);
    } else {
      assert s[..First(s, c)] == s;
    }
  }

  lemma {:induction false} PiecesKeep(s: string, c: char, d: char)
    requires Without(s, d)
    ensures forall k :: 0 <= k < |Split(s, c)| ==> Without(Split(s, c)[k], d)
    decreases |s|
  {
    FirstBound(s, c);
    if First(s, c) < |s| {
      PiecesKeep(s[First(s, c) + 1..], c, d);
    }
  }

  /** Text put in front goes to the first piece, text put behind to the last. */
  lemma SplitPrepend(a: string, s: string, c: char)
    requires Without(a, c)
    ensures Split(a + s, c) == [a + Split(s, c)[0]] + Split(s, c)[1..]
  {
    var k := First(s, c);
    FirstBound(s, c);
    if k < |s| {
      var x, rest := s[..k], s[k + 1..];
      assert s == x + [c] + rest && a + s == a + x + [c] + rest;
      SplitAfter(x, rest, c);
      SplitAfter(a + x, rest, c);
    } else {
      assert s[..k] == s && a + s + "" == a + s;
      FirstOfSplit(a + s, "", c);
    }
  }

  lemma {:induction false} SplitAppend(s: string, z: string, c: char)
    requires Without(z, c)
    ensures var parts := Split(s, c); var n := |parts| - 1; Split(s + z, c) == parts[..n] + [parts[n] + z]
    decreases |s|
  {
    var k := First(s, c);
    FirstBound(s, c);
    if k < |s| {
      assert s + z == s[..k] + [c] + (s[k + 1..] + z);
      SplitAfter(s[..k], s[k + 1..] + z, c);
      SplitAppend(s[k + 1..], z, c);
    } else {
      assert s[..k] == s && s + z + "" == s + z;
      FirstOfSplit(s + z, "", c);
    }
  }

  lemma SplitAfter(a: string, rest: string, c: char)
    requires Without(a, c)
    ensures Split(a + [c] + rest, c) == [a] + Split(rest, c)
  {
    var s := a + [c] + rest;
    assert s == a + ([c] + rest);
    FirstOfSplit(a, [c] + rest, c);
    assert s[..|a|] == a && s[|a| + 1..] == rest;
  }

  lemma {:induction false} SplitLast(s: string, x: string, c: char)
    requires Without(x, c)
    ensures Split(s + [c] + x, c) == Split(s, c) + [x]
    decreases |s|
  {
    var k := First(s, c);
    FirstBound(s, c);
    FirstOfSplit(x, "", c);
    assert x + "" == x;
    if k < |s| {
      assert s == s[..k] + [c] + s[k + 1..];
      assert s + [c] + x == s[..k] + [c] + (s[k + 1..] + [c] + x);
      SplitAfter(s[..k], s[k + 1..] + [c] + x, c);
      SplitLast(s[k + 1..], x, c);
    } else {
      assert s[..k] == s;
      SplitAfter(s, x, c);
    }
  }

  /** The pieces with a `c` between each two. */
  function Joined(parts: seq<string>, c: char): string {
    if parts == [] then "" else if |parts| == 1 then parts[0] else parts[0] + [c] + Joined(parts[1..], c)
  }

  lemma {:induction false} SplitJoined(parts: seq<string>, c: char)
    requires parts != [] && forall k :: 0 <= k < |parts| ==> Without(parts[k], c)
    ensures Split(Joined(parts, c), c) == parts
  {
    if |parts| == 1 {
      FirstOfSplit(parts[0], "", c);
      assert parts[0] + "" == parts[0];
    } else {
      SplitAfter(parts[0], Joined(parts[1..], c), c);
      SplitJoined(parts[1..], c);
    }
  }

  lemma {:induction false} JoinedLast(parts: seq<string>, last: string, c: char)
    requires parts != []
    ensures Joined(parts + [last], c) == Joined(parts, c) + [c] + last
  {
    var all := parts + [last];
    if |parts| > 1 {
      JoinedLast(parts[1..], last, c);
      assert all[1..] == parts[1..] + [last];
    } else {
      assert all[1..] == [last];
    }
  }

  predicate Contains(text: string, part: string) {
    exists i :: 0 <= i <= |text| && part <= text[i..]
  }
}
