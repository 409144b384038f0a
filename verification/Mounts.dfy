/** The read-only mount check of put-archive: is the target, or a directory above it, mounted
    read-only? */
module Mounts {
  import opened Text

  /** One element of path.Clean: empty and "." elements vanish, ".." takes one away. */
  function Push(rooted: bool, acc: seq<string>, part: string): seq<string> {
    if part == "" || part == "." then acc
    else if part != ".." then acc + [part]
    else if acc != [] && acc[|acc| - 1] != ".." then acc[..|acc| - 1]
    else if rooted then acc
    else acc + [part]
  }

  function Fold(rooted: bool, parts: seq<string>, acc: seq<string>): seq<string>
    decreases |parts|
  {
    if parts == [] then acc else Fold(rooted, parts[1..], Push(rooted, acc, parts[0]))
  }

  predicate IsRooted(s: string) {
    s != "" && s[0] == '/'
  }

  /** The components of a path, with "." and ".." resolved as far as possible. */
  function Parts(s: string): seq<string> {
    Fold(IsRooted(s), Split(s, '/'), [])
  }

  /** A rooted text has an empty piece before its first slash. */
  function Lead(rooted: bool): seq<string> {
    if rooted then [""] else []
  }

  function Show(rooted: bool, cs: seq<string>): string {
    if cs == [] then (if rooted then "/" else ".") else Joined(Lead(rooted) + cs, '/')
  }

  /** path.Clean. */
  function Clean(s: string): string {
    Show(IsRooted(s), Parts(s))
  }

  /** path.Dir: the text up to and including the last slash, cleaned. */
  function Dir(s: string): string {
    Clean(if 0 <= Last(s, '/') < |s| then s[..Last(s, '/') + 1] else "")
  }

  predicate AllNoSlash(cs: seq<string>) {
    forall i :: 0 <= i < |cs| ==> Without(cs[i], '/')
  }

  /** Components as cleaning leaves them: names, after leading ".." on a relative path. */
  predicate Normal(rooted: bool, cs: seq<string>) {
    && AllNoSlash(cs)
    && (forall i :: 0 <= i < |cs| ==> cs[i] != "" && cs[i] != ".")
    && (forall i :: 0 <= i < |cs| && cs[i] == ".." ==> !rooted && (i > 0 ==> cs[i - 1] == ".."))
  }

  lemma {:induction false} FoldIsNormal(rooted: bool, parts: seq<string>, acc: seq<string>)
    requires Normal(rooted, acc) && AllNoSlash(parts)
    ensures Normal(rooted, Fold(rooted, parts, acc))
    decreases |parts|
  {
    if parts != [] {
      FoldIsNormal(rooted, parts[1..], Push(rooted, acc, parts[0]));
    }
  }

  lemma PushNormal(rooted: bool, acc: seq<string>, parts: seq<string>)
    requires parts != [] && Normal(rooted, acc + parts)
    ensures Push(rooted, acc, parts[0]) == acc + [parts[0]]
  {
    var i := |acc|;
    assert (acc + parts)[i] == parts[0];
    assert i > 0 ==> (acc + parts)[i - 1] == acc[i - 1];
  }

  /** Normal components pass through unchanged. */
  lemma {:induction false} FoldNormal(rooted: bool, parts: seq<string>, acc: seq<string>)
    requires Normal(rooted, acc + parts)
    ensures Fold(rooted, parts, acc) == acc + parts
    decreases |parts|
  {
    if parts != [] {
      PushNormal(rooted, acc, parts);
      assert acc + [parts[0]] + parts[1..] == acc + parts;
      FoldNormal(rooted, parts[1..], acc + [parts[0]]);
    }
  }

  lemma {:induction false} FoldBlank(rooted: bool, parts: seq<string>, acc: seq<string>)
    ensures Fold(rooted, parts + [""], acc) == Fold(rooted, parts, acc)
    decreases |parts|
  {
    var all := parts + [""];
    if parts == [] {
      assert all[1..] == [];
    } else {
      FoldBlank(rooted, parts[1..], Push(rooted, acc, parts[0]));
      assert all[0] == parts[0] && all[1..] == parts[1..] + [""];
    }
  }

  lemma FoldEnd(rooted: bool, cs: seq<string>, end: seq<string>)
    requires Normal(rooted, cs) && (end == [] || end == [""])
    ensures Fold(rooted, cs + end, []) == cs
  {
    assert [] + cs == cs && cs + [] == cs;
    FoldNormal(rooted, cs, []);
    FoldBlank(rooted, cs, []);
  }

  lemma FoldText(rooted: bool, cs: seq<string>, end: seq<string>)
    requires Normal(rooted, cs) && (end == [] || end == [""])
    ensures Fold(rooted, Lead(rooted) + cs + end, []) == cs
  {
    FoldEnd(rooted, cs, end);
    if rooted {
      assert (Lead(rooted) + cs + end)[1..] == cs + end;
    } else {
      assert Lead(rooted) + cs + end == cs + end;
    }
  }

  lemma StartsRooted(pieces: seq<string>)
    requires pieces != [] && AllNoSlash(pieces) && (pieces[0] == "" ==> |pieces| > 1)
    ensures IsRooted(Joined(pieces, '/')) <==> pieces[0] == ""
  {
  }

  /** The text made of normal components, rooted or not, and perhaps a slash at the end. */
  lemma TextIs(rooted: bool, cs: seq<string>, end: seq<string>)
    requires Normal(rooted, cs) && (end == [] || end == [""]) && (rooted || cs != []) && (cs == [] ==> end != [])
    ensures var s := Joined(Lead(rooted) + cs + end, '/'); IsRooted(s) == rooted && Parts(s) == cs
  {
    var all := Lead(rooted) + cs + end;
    SplitJoined(all, '/');
    FoldText(rooted, cs, end);
    assert !rooted ==> all[0] == cs[0];
    StartsRooted(all);
  }

  lemma RootParts()
    ensures Parts("/") == [] && Parts(".") == [] && Parts("") == []
  {
    TextIs(true, [], [""]);
    assert Lead(true) + [] + [""] == ["", ""] && ["", ""][1..] == [""];
    assert First(".", '/') == 1;
    assert [""][1..] == [] && ["."][1..] == [];
  }

  /** Showing normal components and reading them again gives them back. */
  lemma ShownParts(rooted: bool, cs: seq<string>)
    requires Normal(rooted, cs)
    ensures IsRooted(Show(rooted, cs)) == rooted && Parts(Show(rooted, cs)) == cs
    ensures Clean(Show(rooted, cs)) == Show(rooted, cs)
  {
    if cs == [] {
      RootParts();
    } else {
      TextIs(rooted, cs, []);
      assert Lead(rooted) + cs + [] == Lead(rooted) + cs;
    }
  }

  /** A cleaned path is normal, and cleaning keeps its components. */
  lemma CleanIs(s: string)
    ensures Normal(IsRooted(s), Parts(s))
    ensures Parts(Clean(s)) == Parts(s) && IsRooted(Clean(s)) == IsRooted(s) && Clean(Clean(s)) == Clean(s)
  {
    SplitPieces(s, '/');
    FoldIsNormal(IsRooted(s), Split(s, '/'), []);
    ShownParts(IsRooted(s), Parts(s));
  }

  lemma {:induction false} LastOfNone(s: string)
    requires Without(s, '/')
    ensures Last(s, '/') == -1
  {
    if s != "" {
      LastOfNone(s[..|s| - 1]);
    }
  }

  function Front(cs: seq<string>): seq<string> {
    if cs == [] then [] else cs[..|cs| - 1]
  }

  /** Where Dir cuts the text of a path. */
  lemma DirOfJoined(pieces: seq<string>, c: string)
    requires pieces != [] && Without(c, '/')
    ensures Dir(Joined(pieces + [c], '/')) == Clean(Joined(pieces + [""], '/'))
  {
    var u := Joined(pieces, '/');
    JoinedLast(pieces, c, '/');
    JoinedLast(pieces, "", '/');
    LastOfSplit(u, c, '/');
    assert (u + ['/'] + c)[..|u| + 1] == u + ['/'] + "";
  }

  lemma DirOfTop(c: string)
    requires c != "" && Without(c, '/')
    ensures Dir(c) == "." && Dir("/") == "/" && Dir(".") == "."
  {
    RootParts();
    assert Last("/", '/') == 0 && "/"[..1] == "/";
    LastOfNone(c);
    LastOfNone(".");
  }

  lemma DirOfDeep(rooted: bool, cs: seq<string>)
    requires Normal(rooted, cs) && cs != [] && (rooted || |cs| > 1)
    ensures Dir(Show(rooted, cs)) == Show(rooted, Front(cs))
  {
    var pieces, c := Lead(rooted) + Front(cs), cs[|cs| - 1];
    assert Lead(rooted) + cs == pieces + [c];
    DirOfJoined(pieces, c);
    TextIs(rooted, Front(cs), [""]);
  }

  /** On a clean path Dir takes the last component away; the root and "." stay. */
  lemma DirIsParent(rooted: bool, cs: seq<string>)
    requires Normal(rooted, cs)
    ensures Normal(rooted, Front(cs)) && Dir(Show(rooted, cs)) == Show(rooted, Front(cs))
  {
    if cs != [] && (rooted || |cs| > 1) {
      DirOfDeep(rooted, cs);
    } else {
      DirOfTop(if cs == [] then "a" else cs[0]);
      assert cs != [] ==> Lead(rooted) + cs == cs;
    }
  }

  lemma {:induction false} FoldOneMore(rooted: bool, parts: seq<string>, x: string, acc: seq<string>)
    ensures Fold(rooted, parts + [x], acc) == Push(rooted, Fold(rooted, parts, acc), x)
    decreases |parts|
  {
    var all := parts + [x];
    if parts == [] {
      assert all[1..] == [];
    } else {
      FoldOneMore(rooted, parts[1..], x, Push(rooted, acc, parts[0]));
      assert all[0] == parts[0] && all[1..] == parts[1..] + [x];
    }
  }

  /** How cleaning reads a path, one component after the other: empty ones and "." are skipped, ".."
      takes a name away, is dropped at the root, and is kept where a relative path has no name to lose. */
  lemma PartsOfChild(path: string, x: string)
    requires path != "" && Without(x, '/')
    ensures var cs := Parts(path);
      Parts(path + "/" + x) ==
        if x == "" || x == "." then cs
        else if x != ".." then cs + [x]
        else if cs != [] && cs[|cs| - 1] != ".." then cs[..|cs| - 1]
        else if IsRooted(path) then cs else cs + [".."]
    ensures IsRooted(path + "/" + x) == IsRooted(path)
    ensures Without(path, '/') ==> Parts(path) == if path == "." then [] else [path]
  {
    var child := path + "/" + x;
    assert child == path + ['/'] + x;
    SplitLast(path, x, '/');
    FoldOneMore(IsRooted(path), Split(path, '/'), x, []);
    if Without(path, '/') {
      SplitPieces(path, '/');
      FirstOfSplit(path, "", '/');
      assert path + "" == path && [path][1..] == [];
    }
  }

  /** "..", after a path that does not end in one, leads to its directory. */
  lemma DotDotIsDir(path: string)
    requires Clean(path) == path && (Parts(path) != [] ==> Parts(path)[|Parts(path)| - 1] != "..")
    requires IsRooted(path) || Parts(path) != []
    ensures Clean(path + "/" + "..") == Dir(path)
  {
    CleanIs(path);
    DirIsParent(IsRooted(path), Parts(path));
    RootParts();
    PartsOfChild(path, "..");
  }

  lemma DirShrinks(filePath: string)
    requires Clean(filePath) == filePath
    ensures Clean(Dir(filePath)) == Dir(filePath)
    ensures Dir(filePath) == filePath || |Parts(Dir(filePath))| < |Parts(filePath)|
  {
    var rooted, cs := IsRooted(filePath), Parts(filePath);
    CleanIs(filePath);
    DirIsParent(rooted, cs);
    ShownParts(rooted, Front(cs));
  }

  /** Never: the recursion does not come to an end, and in Go overflows the stack. */
  datatype Answer = Yes | No | Never

  /** The recursion of the source on a clean path.  A path that is its own parent, and is not the
      root, makes the same call again. */
  function IsParentDir(filePath: string, potentialParent: string): Answer
    requires Clean(filePath) == filePath
    decreases |Parts(filePath)|
  {
    if filePath == potentialParent then Yes
    else if filePath == "/" then No
    else
      DirShrinks(filePath);
      if Dir(filePath) == filePath then Never else IsParentDir(Dir(filePath), potentialParent)
  }

  /** The mount point is written in clean form, and its components are a prefix of the path's. */
  predicate Above(mount: string, path: string) {
    IsRooted(mount) == IsRooted(path) && Clean(mount) == mount && Parts(mount) <= Parts(path)
  }

  lemma PrefixOfFront(ds: seq<string>, cs: seq<string>)
    requires cs != [] && ds != cs
    ensures ds <= cs <==> ds <= Front(cs)
  {
  }

  /** One level up, the same mount points are above, apart from the path itself. */
  lemma AboveFront(rooted: bool, cs: seq<string>, mount: string)
    requires Normal(rooted, cs) && cs != [] && Show(rooted, cs) != mount
    ensures Above(mount, Show(rooted, cs)) <==> Above(mount, Show(rooted, Front(cs)))
    ensures Show(rooted, cs) != Show(rooted, Front(cs)) && Show(rooted, cs) != "/"
  {
    ShownParts(rooted, cs);
    ShownParts(rooted, Front(cs));
    RootParts();
    if Parts(mount) != cs {
      PrefixOfFront(Parts(mount), cs);
    }
  }

  lemma {:induction false} ParentOfShown(rooted: bool, cs: seq<string>, mount: string)
    requires Normal(rooted, cs)
    ensures var path := Show(rooted, cs);
      && Clean(path) == path
      && IsParentDir(path, mount) == if Above(mount, path) then Yes else if rooted then No else Never
    decreases |cs|
  {
    ShownParts(rooted, cs);
    DirIsParent(rooted, cs);
    if Show(rooted, cs) != mount && cs != [] {
      ParentOfShown(rooted, Front(cs), mount);
      AboveFront(rooted, cs, mount);
    }
  }

  /** For every path and mount point: the check says yes exactly when the mount point is written
      cleanly and is the path or above it; otherwise it says no on a rooted path, and never ends
      on a relative one. */
  lemma IsParentDirIsPrefix(path: string, mount: string)
    ensures Clean(Clean(path)) == Clean(path)
    ensures IsParentDir(Clean(path), mount) == if Above(mount, path) then Yes else if IsRooted(path) then No else Never
  {
    CleanIs(path);
    ParentOfShown(IsRooted(path), Parts(path), mount);
  }

  /** A mount point written with a slash at the end, such as "/a/", is never seen, although it has
      the components of the clean one. */
  lemma TrailingSlashIsMissed(cs: seq<string>, path: string)
    requires Normal(true, cs) && cs != [] && IsRooted(path)
    ensures var mount := Show(true, cs) + "/";
      && IsRooted(mount) && Parts(mount) == cs
      && Clean(Clean(path)) == Clean(path) && IsParentDir(Clean(path), mount) == No
  {
    TextIs(true, cs, [""]);
    JoinedLast(Lead(true) + cs, "", '/');
    assert Show(true, cs) + ['/'] + "" == Show(true, cs) + "/";
    IsParentDirIsPrefix(path, Show(true, cs) + "/");
  }

  /** The recursion of the source, unfolded at most `n` times, comes to an end: at the mount point,
      or at the root. */
  predicate StopsWithin(path: string, mount: string, n: nat)
    decreases n
  {
    path == mount || path == "/" || (n > 0 && StopsWithin(Dir(path), mount, n - 1))
  }

  ghost predicate Stops(path: string, mount: string) {
    exists n: nat :: StopsWithin(path, mount, n)
  }

  /** Where the model says that the recursion ends, it does. */
  lemma {:induction false} EndsIfAnswered(path: string, mount: string) returns (n: nat)
    requires Clean(path) == path && IsParentDir(path, mount) != Never
    ensures StopsWithin(path, mount, n)
    decreases |Parts(path)|
  {
    n := 0;
    if path != mount && path != "/" {
      DirShrinks(path);
      n := EndsIfAnswered(Dir(path), mount);
      n := n + 1;
    }
  }

  /** Where the model says that it does not end, no number of calls is enough. */
  lemma {:induction false} NeverEnds(path: string, mount: string, n: nat)
    requires Clean(path) == path && IsParentDir(path, mount) == Never
    ensures !StopsWithin(path, mount, n)
    decreases n
  {
    if n > 0 {
      DirShrinks(path);
      NeverEnds(Dir(path), mount, n - 1);
    }
  }

  /** The recursion stops if and only if the path is rooted or the mount point is, in clean form,
      above it; for a rooted mount point, if and only if the path is rooted. */
  lemma StopsExactly(path: string, mount: string)
    ensures Stops(Clean(path), mount) <==> IsRooted(path) || Above(mount, path)
    ensures IsRooted(mount) ==> (Stops(Clean(path), mount) <==> IsRooted(path))
  {
    IsParentDirIsPrefix(path, mount);
    if IsRooted(path) || Above(mount, path) {
      var n := EndsIfAnswered(Clean(path), mount);
    } else {
      forall n: nat ensures !StopsWithin(Clean(path), mount, n) {
        NeverEnds(Clean(path), mount, n);
      }
    }
  }

  /** A relative path under a rooted mount point: the recursion runs from "a" to "." and stays there. */
  lemma RelativePathNeverStops()
    ensures !Stops(Clean("a"), "/b")
    ensures Clean(Clean("a")) == Clean("a") && IsParentDir(Clean("a"), "/b") == Never
  {
    StopsExactly("a", "/b");
    IsParentDirIsPrefix("a", "/b");
  }

  datatype Mount = Mount(destination: string, options: seq<string>)

  predicate ReadOnly(m: Mount) {
    "ro" in m.options
  }

  predicate FirstReadOnly(mounts: seq<Mount>, i: nat) {
    i < |mounts| && ReadOnly(mounts[i]) && forall k :: 0 <= k < i ==> !ReadOnly(mounts[k])
  }

  /** Hangs: the check does not return.  In Go its recursion overflows the stack, which ends the daemon. */
  datatype Verdict = Refused | Allowed | Hangs

  /** put-archive is refused exactly when the root file system is read-only, or a read-only mount
      is above the target; on a relative target only the first read-only mount is looked at, and
      if it is not above the target the check never returns. */
  method IsReadOnlyMount(rootReadOnly: bool, mounts: seq<Mount>, containerPath: string) returns (r: Verdict)
    ensures r.Refused? <==> rootReadOnly || exists i: nat ::
      i < |mounts| && "ro" in mounts[i].options && Above(mounts[i].destination, containerPath)
      && (IsRooted(containerPath) || FirstReadOnly(mounts, i))
    ensures IsRooted(containerPath) ==> (r.Refused? <==> rootReadOnly || Refuses(mounts, containerPath))
    ensures r.Hangs? <==> !rootReadOnly && !IsRooted(containerPath) && exists i: nat ::
      FirstReadOnly(mounts, i) && !Above(mounts[i].destination, containerPath)
  {
    var filePath := Clean(containerPath);
    CleanIs(containerPath);
    if rootReadOnly {
      return Refused;
    }
    for i := 0 to |mounts|
      invariant forall k :: 0 <= k < i && ReadOnly(mounts[k]) ==>
        IsRooted(containerPath) && !Above(mounts[k].destination, containerPath)
    {
      var options := mounts[i].options;
      for j := 0 to |options|
        invariant "ro" in options[..j] ==> IsRooted(containerPath) && !Above(mounts[i].destination, containerPath)
      {
        if options[j] == "ro" {
          IsParentDirIsPrefix(containerPath, mounts[i].destination);
          var answer := IsParentDir(filePath, mounts[i].destination);
          if answer != No {
            assert ReadOnly(mounts[i]) && (IsRooted(containerPath) || FirstReadOnly(mounts, i));
            return if answer == Yes then Refused else Hangs;
          }
        }
      }
      assert options[..|options|] == options;
    }
    return Allowed;
  }

  /** Some read-only mount is seen to be above this rooted path. */
  ghost predicate Refuses(mounts: seq<Mount>, path: string) {
    exists i :: 0 <= i < |mounts| && ReadOnly(mounts[i]) && Above(mounts[i].destination, path)
  }

  /** Some read-only mount is above this rooted path, however it is written. */
  ghost predicate Protects(mounts: seq<Mount>, path: string) {
    exists i :: 0 <= i < |mounts| && ReadOnly(mounts[i]) && IsRooted(mounts[i].destination)
                && Parts(mounts[i].destination) <= Parts(path)
  }

  /** A read-only mount written cleanly is at or above this one. */
  ghost predicate Covered(mounts: seq<Mount>, m: Mount) {
    exists j :: 0 <= j < |mounts| && ReadOnly(mounts[j]) && Above(mounts[j].destination, m.destination)
  }

  lemma CoveredIsHonoured(mounts: seq<Mount>, i: nat, path: string)
    requires i < |mounts| && Covered(mounts, mounts[i]) && IsRooted(mounts[i].destination) && IsRooted(path)
    requires Parts(mounts[i].destination) <= Parts(path)
    ensures Refuses(mounts, path)
  {
    var j :| 0 <= j < |mounts| && ReadOnly(mounts[j]) && Above(mounts[j].destination, mounts[i].destination);
    assert Above(mounts[j].destination, path);
  }

  /** Read-only mounts are honoured on every rooted path if and only if each of them is covered by
      one that is written cleanly. */
  lemma HonouredExactly(mounts: seq<Mount>)
    ensures (forall path | IsRooted(path) :: Refuses(mounts, path) <==> Protects(mounts, path)) <==>
      forall m | m in mounts && ReadOnly(m) && IsRooted(m.destination) :: Covered(mounts, m)
  {
    if forall m | m in mounts && ReadOnly(m) && IsRooted(m.destination) :: Covered(mounts, m) {
      forall path | IsRooted(path) ensures Refuses(mounts, path) <==> Protects(mounts, path) {
        if Protects(mounts, path) {
          var i :| 0 <= i < |mounts| && ReadOnly(mounts[i]) && IsRooted(mounts[i].destination)
                   && Parts(mounts[i].destination) <= Parts(path);
          CoveredIsHonoured(mounts, i, path);
        }
      }
    } else {
      var m :| m in mounts && ReadOnly(m) && IsRooted(m.destination) && !Covered(mounts, m);
      assert Protects(mounts, m.destination) && !Refuses(mounts, m.destination);
    }
  }
}
