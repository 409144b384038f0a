/** Splitting text into words at white space and joining words with single spaces. */
module Words {
  import opened Text

  /** unicode.IsSpace. */
  predicate IsSpace(c: char) {
    var n := c as int;
    || 9 <= n <= 13 || n == 0x20 || n == 0x85 || n == 0xA0 || n == 0x1680 || 0x2000 <= n <= 0x200A
    || n == 0x2028 || n == 0x2029 || n == 0x202F || n == 0x205F || n == 0x3000
  }

  /** The number of leading characters that are not space. */
  function WordLength(s: string): (n: nat)
    ensures n <= |s| && (forall i :: 0 <= i < n ==> !IsSpace(s[i])) && (n < |s| ==> IsSpace(s[n]))
  {
    if s == [] || IsSpace(s[0]) then 0 else 1 + WordLength(s[1..])
  }

  function Fields(s: string): seq<string>
    decreases |s|
  {
    if s == [] then []
    else if IsSpace(s[0]) then Fields(s[1..])
    else [s[..WordLength(s)]] + Fields(s[WordLength(s)..])
  }

  function TrimLeft(s: string): string {
    if s != [] && IsSpace(s[0]) then TrimLeft(s[1..]) else s
  }

  function TrimRight(s: string): string {
    if s != [] && IsSpace(s[|s| - 1]) then TrimRight(s[..|s| - 1]) else s
  }

  function Trim(s: string): string {
    TrimRight(TrimLeft(s))
  }

  /** The words with a single space between each two. */
  function Join(parts: seq<string>): string {
    Joined(parts, ' ')
  }

  /** The words of several strings, one after the other. */
  function AllFields(parts: seq<string>): seq<string> {
    if parts == [] then [] else Fields(parts[0]) + AllFields(parts[1..])
  }

  predicate IsWord(w: string) {
    w != "" && forall i :: 0 <= i < |w| ==> !IsSpace(w[i])
  }

  lemma {:induction false} WordLengthOf(a: string, rest: string)
    requires rest != "" && IsSpace(rest[0])
    ensures WordLength(a + rest) == WordLength(a)
  {
    if a != [] && !IsSpace(a[0]) {
      WordLengthOf(a[1..], rest);
      assert (a + rest)[1..] == a[1..] + rest;
    }
  }

  lemma CutLeft<T>(a: seq<T>, b: seq<T>, n: nat)
    requires n <= |a|
    ensures (a + b)[..n] == a[..n] && (a + b)[n..] == a[n..] + b
  {
  }

  lemma FirstWord(a: string, rest: string)
    requires a != [] && !IsSpace(a[0]) && rest != "" && IsSpace(rest[0])
    ensures 0 < WordLength(a) && Fields(a + rest) == [a[..WordLength(a)]] + Fields(a[WordLength(a)..] + rest)
  {
    WordLengthOf(a, rest);
    CutLeft(a, rest, WordLength(a));
    assert (a + rest)[0] == a[0];
  }

  lemma Associative<T>(a: seq<T>, b: seq<T>, c: seq<T>)
    ensures a + (b + c) == a + b + c
  {
  }

  lemma {:induction false} FieldsSplit(a: string, c: char, b: string)
    requires IsSpace(c)
    ensures Fields(a + ([c] + b)) == Fields(a) + Fields(b)
    decreases |a|
  {
    var rest := [c] + b;
    if a == [] {
      assert a + rest == rest && rest[1..] == b;
    } else if IsSpace(a[0]) {
      FieldsSplit(a[1..], c, b);
      assert (a + rest)[1..] == a[1..] + rest;
    } else {
      var n := WordLength(a);
      FirstWord(a, rest);
      FieldsSplit(a[n..], c, b);
      Associative([a[..n]], Fields(a[n..]), Fields(b));
    }
  }

  lemma {:induction false} FieldsTrim(s: string)
    ensures Fields(Trim(s)) == Fields(s)
  {
    FieldsTrimLeft(s);
    FieldsTrimRight(TrimLeft(s));
  }

  lemma {:induction false} FieldsTrimLeft(s: string)
    ensures Fields(TrimLeft(s)) == Fields(s)
  {
    if s != [] && IsSpace(s[0]) {
      FieldsTrimLeft(s[1..]);
    }
  }

  lemma {:induction false} FieldsTrimRight(s: string)
    ensures Fields(TrimRight(s)) == Fields(s)
  {
    if s != [] && IsSpace(s[|s| - 1]) {
      var front := s[..|s| - 1];
      FieldsTrimRight(front);
      assert s == front + ([s[|s| - 1]] + "");
      FieldsSplit(front, s[|s| - 1], "");
    }
  }

  lemma {:induction false} FieldsAreWords(s: string)
    ensures forall i :: 0 <= i < |Fields(s)| ==> IsWord(Fields(s)[i])
    decreases |s|
  {
    if s != [] {
      if IsSpace(s[0]) {
        FieldsAreWords(s[1..]);
      } else {
        FieldsAreWords(s[WordLength(s)..]);
      }
    }
  }

  lemma WordIsOneField(w: string)
    requires IsWord(w)
    ensures Fields(w) == [w]
  {
    assert WordLength(w) == |w|;
    assert w[..|w|] == w && w[|w|..] == [];
  }

  /** The words of a space-joined row are the words of its cells. */
  lemma {:induction false} FieldsOfJoin(parts: seq<string>)
    ensures Fields(Join(parts)) == AllFields(parts)
  {
    if |parts| == 1 {
      assert AllFields(parts[1..]) == [];
    } else if parts != [] {
      FieldsOfJoin(parts[1..]);
      FieldsSplit(parts[0], ' ', Join(parts[1..]));
      assert parts[0] + " " + Join(parts[1..]) == parts[0] + ([' '] + Join(parts[1..]));
    }
  }

  lemma {:induction false} AllFieldsOfWords(ws: seq<string>)
    requires forall i :: 0 <= i < |ws| ==> IsWord(ws[i])
    ensures AllFields(ws) == ws
  {
    if ws != [] {
      WordIsOneField(ws[0]);
      AllFieldsOfWords(ws[1..]);
    }
  }

  lemma {:induction false} AllFieldsOfBlanks(ws: seq<string>)
    requires forall i :: 0 <= i < |ws| ==> ws[i] == ""
    ensures AllFields(ws) == []
  {
    if ws != [] {
      AllFieldsOfBlanks(ws[1..]);
    }
  }

  lemma {:induction false} AllFieldsAppend(a: seq<string>, b: seq<string>)
    ensures AllFields(a + b) == AllFields(a) + AllFields(b)
  {
    var c := a + b;
    if a == [] {
      assert c == b;
    } else {
      AllFieldsAppend(a[1..], b);
      assert c[0] == a[0] && c[1..] == a[1..] + b;
      Associative(Fields(a[0]), AllFields(a[1..]), AllFields(b));
    }
  }

  /** Joining words and splitting again gives them back. */
  lemma JoinedWords(ws: seq<string>)
    requires forall i :: 0 <= i < |ws| ==> IsWord(ws[i])
    ensures Fields(Join(ws)) == ws
  {
    FieldsOfJoin(ws);
    AllFieldsOfWords(ws);
  }

  lemma FieldsThenBlanks(cell: string, blanks: seq<string>)
    requires forall i :: 0 <= i < |blanks| ==> blanks[i] == ""
    ensures AllFields([cell] + blanks) == Fields(cell)
  {
    AllFieldsOfBlanks(blanks);
    assert ([cell] + blanks)[1..] == blanks;
  }

  /** Two words are split at any white space between them. */
  lemma Separated(a: string, c: char, b: string)
    requires IsWord(a) && IsWord(b) && c in {' ', '\t', '\n', '\r', '\U{0B}', '\U{0C}', '\U{85}', '\U{A0}'}
    ensures Fields(a + [c] + b) == [a, b]
  {
    FieldsSplit(a, c, b);
    WordIsOneField(a);
    WordIsOneField(b);
    assert a + [c] + b == a + ([c] + b);
  }
}
