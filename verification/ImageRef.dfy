/** Splitting an image reference into name and tag, and printing it again. */
module ImageRef {
  import opened Prelude

  datatype Error = MissingImage | InvalidImage | MissingTag

  predicate IsSeparator(c: char) {
    c == '@' || c == ':'
  }

  /** The position of the first separator, or the length if there is none. */
  function Cut(s: string): (k: nat)
    ensures k <= |s| && (forall i :: 0 <= i < k ==> !IsSeparator(s[i])) && (k < |s| ==> IsSeparator(s[k]))
  {
    if s == [] || IsSeparator(s[0]) then 0 else 1 + Cut(s[1..])
  }

  function ParseNameAndTag(fromImage: string, tagParam: string): Result<(string, string), Error> {
    if fromImage == "" then Err(MissingImage)
    else
      var k := Cut(fromImage);
      var name := fromImage[..k];
      if name == "" then Err(InvalidImage)
      else
        var tag := if tagParam != "" then tagParam else if k < |fromImage| then fromImage[k + 1..] else "";
        if tag == "" then Err(MissingTag) else Ok((name, tag))
  }

  function ToImageRef(name: string, tag: string): string {
    if tag == "" then name
    else if "sha256:" <= tag then name + "@" + tag
    else name + ":" + tag
  }

  /** Printing a split reference gives it back exactly when its first separator is '@' if and
      only if a sha256 digest follows; registries with ports need no exception. */
  lemma PrintUndoesSplit(ref: string)
    requires ParseNameAndTag(ref, "").Ok?
    ensures var (name, tag) := ParseNameAndTag(ref, "").value;
      ToImageRef(name, tag) == ref <==> (ref[Cut(ref)] == '@' <==> "sha256:" <= tag)
  {
    var (name, tag) := ParseNameAndTag(ref, "").value;
    assert ref == name + [ref[|name|]] + tag;
    assert ToImageRef(name, tag)[|name|] == if "sha256:" <= tag then '@' else ':';
  }

  /** `k` is the position of the first '@' or ':', or the length. */
  predicate FirstSeparator(s: string, k: nat) {
    && k <= |s| && (k < |s| ==> s[k] == '@' || s[k] == ':')
    && forall i :: 0 <= i < k ==> s[i] != '@' && s[i] != ':'
  }

  lemma CutIsFirst(s: string, k: nat)
    requires FirstSeparator(s, k)
    ensures Cut(s) == k
  {
  }

  /** For every image and tag parameter: what is split off, and when the split fails. */
  lemma ParseExactly(fromImage: string, tagParam: string, k: nat)
    requires FirstSeparator(fromImage, k)
    ensures var r := ParseNameAndTag(fromImage, tagParam);
      && (r.Ok? <==> k > 0 && (tagParam != "" || k + 1 < |fromImage|))
      && (r.Ok? ==> r.value.0 == fromImage[..k] && r.value.1 == if tagParam != "" then tagParam else fromImage[k + 1..])
      && (r.Err? ==> r.error == if fromImage == "" then MissingImage else if k == 0 then InvalidImage else MissingTag)
  {
    CutIsFirst(fromImage, k);
  }

  /** The reference that is pulled. */
  lemma PulledExactly(fromImage: string, tagParam: string, k: nat)
    requires FirstSeparator(fromImage, k) && ParseNameAndTag(fromImage, tagParam).Ok?
    ensures var (name, tag) := ParseNameAndTag(fromImage, tagParam).value;
      ToImageRef(name, tag) ==
        fromImage[..k]
        + (if tagParam == "" then (if "sha256:" <= fromImage[k + 1..] then "@" else ":") + fromImage[k + 1..]
           else (if "sha256:" <= tagParam then "@" else ":") + tagParam)
    ensures ToImageRef(fromImage, "") == fromImage
  {
    CutIsFirst(fromImage, k);
    var (name, tag) := ParseNameAndTag(fromImage, tagParam).value;
    assert name + "@" + tag == name + ("@" + tag) && name + ":" + tag == name + (":" + tag);
  }

  lemma {:induction false} CutOf(name: string, rest: string)
    requires (forall i :: 0 <= i < |name| ==> !IsSeparator(name[i])) && rest != "" && IsSeparator(rest[0])
    ensures Cut(name + rest) == |name|
  {
    if name != "" {
      CutOf(name[1..], rest);
      assert (name + rest)[1..] == name[1..] + rest;
    }
  }

  /** Splitting a printed reference gives back its name and tag. */
  lemma SplitUndoesPrint(name: string, tag: string)
    requires name != "" && tag != "" && forall i :: 0 <= i < |name| ==> !IsSeparator(name[i])
    ensures ParseNameAndTag(ToImageRef(name, tag), "") == Ok((name, tag))
  {
    var sep := if "sha256:" <= tag then "@" else ":";
    var ref := ToImageRef(name, tag);
    assert ref == name + (sep + tag);
    CutOf(name, sep + tag);
    assert ref[..|name|] == name && ref[|name| + 1..] == tag;
  }
}
