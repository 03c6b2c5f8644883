/** The filesystem bridge: `read_file`'s sandbox test and status ordering,
    and `list_files`'s sorted listing (services/mcp_hub/bridge.py). */
module Bridge {
  import opened Paths
  import opened Wrappers
  import Sorting

  /** `MCP_ROOT` when the environment does not set it. */
  const DefaultRoot: string := "/data"

  /** What the filesystem holds at a path. */
  datatype Entry = File(content: string) | Directory

  /** The filesystem, by the segments of an absolute path below `/`. The
      root directory `/` itself (segments `[]`) always exists. */
  type FileSystem = map<seq<string>, Entry>

  /** The answer of `POST /read`: the JSON body, or an HTTP error status. */
  datatype ReadResponse = Served(path: string, content: string) | Refused(status: int, detail: string)

  const TraversalDetail: string := "Path traversal not allowed"
  const NotFoundDetail: string := "Not found"
  const ServerErrorDetail: string := "Internal Server Error"

  /** The segments the normalised root consists of. */
  function RootSegs(root: string): seq<string>
  {
    Resolve([], Split(root, Sep), true)
  }

  /** The sandbox test as written: the normalised target must start, as a
      string, with the normalised root. */
  predicate PassesPrefixCheck(cwd: string, root: string, path: string)
    requires IsAbs(cwd)
  {
    StartsWith(Abspath(cwd, PosixJoin(root, path)), Abspath(cwd, root))
  }

  predicate IsDirectory(fs: FileSystem, at: seq<string>)
  {
    at == [] || (at in fs && fs[at] == Directory)
  }

  /** The kernel's walk over the components of a path, from the directory
      `at`. Each component is looked up in a directory: `""` and `.` stay,
      `..` goes to the parent (and stays at `/`), and a name must exist.
      `None` is the walk failing (ENOENT or ENOTDIR). Nothing is normalised
      first, so a missing name before a `..`, or a file before a `/`,
      stops the walk. */
  function Lookup(fs: FileSystem, at: seq<string>, comps: seq<string>): (r: Option<seq<string>>)
    ensures r.Some? ==> r.value == [] || r.value in fs
    decreases |comps|
  {
    if comps == [] then (if at == [] || at in fs then Some(at) else None)
    else if !IsDirectory(fs, at) then None
    else if comps[0] == "" || comps[0] == "." then Lookup(fs, at, comps[1..])
    else if comps[0] == ".." then Lookup(fs, if at == [] then [] else at[..|at| - 1], comps[1..])
    else if at + [comps[0]] in fs then Lookup(fs, at + [comps[0]], comps[1..])
    else None
  }

  /** Where `os.path.exists(target)` and `open(target)` land: the raw target,
      taken relative to the working directory `cwd`, walked by the kernel. */
  function Located(cwd: string, root: string, path: string, fs: FileSystem): (r: Option<seq<string>>)
    requires IsAbs(cwd)
    ensures r.Some? ==> r.value == [] || r.value in fs
  {
    Lookup(fs, [], Split(PosixJoin(cwd, PosixJoin(root, path)), Sep))
  }

  /** `read_file(path)` against the root `root`, the working directory `cwd`
      and the filesystem `fs`. The sandbox test looks at the normalised
      target; existence and `open` act on the raw one. */
  function ReadFile(cwd: string, root: string, path: string, fs: FileSystem): (r: ReadResponse)
    requires IsAbs(cwd)
    ensures !PassesPrefixCheck(cwd, root, path) <==> r == Refused(400, TraversalDetail)
    ensures r == Refused(404, NotFoundDetail) <==>
      PassesPrefixCheck(cwd, root, path) && Located(cwd, root, path, fs).None?
    ensures r.Served? ==>
      && r.path == path
      && PassesPrefixCheck(cwd, root, path)
      && var at := Located(cwd, root, path, fs);
         at.Some? && at.value != [] && at.value in fs && fs[at.value] == File(r.content)
    ensures PassesPrefixCheck(cwd, root, path) ==>
      var at := Located(cwd, root, path, fs);
      at.Some? && at.value in fs && at.value != [] && fs[at.value].File? ==> r == Served(path, fs[at.value].content)
    ensures PassesPrefixCheck(cwd, root, path) ==>
      var at := Located(cwd, root, path, fs);
      at.Some? && IsDirectory(fs, at.value) ==> r == Refused(500, ServerErrorDetail)
  {
    var target := PosixJoin(root, path);
    if !StartsWith(Abspath(cwd, target), Abspath(cwd, root)) then Refused(400, TraversalDetail)
    else match Located(cwd, root, path, fs)
      case None => Refused(404, NotFoundDetail)
      case Some(at) =>
        if at != [] && fs[at].File? then Served(path, fs[at].content)
        else Refused(500, ServerErrorDetail)
  }

  // ---------------------------------------------------------------------------
  // Where the kernel's walk lands.

  /** A successful walk visits the same segments normalisation computes:
      without symbolic links, the file `open` reaches is the one at the
      normalised target the sandbox test examined. */
  lemma LocatedIsNormalTarget(cwd: string, root: string, path: string, fs: FileSystem)
    requires IsAbs(cwd)
    ensures var q := PosixJoin(cwd, PosixJoin(root, path)); var at := Located(cwd, root, path, fs);
      at.Some? ==> Abspath(cwd, PosixJoin(root, path)) == Slashes(LeadingSlashes(q)) + Join(at.value, Sep)
  {
    var target := PosixJoin(root, path);
    var q := PosixJoin(cwd, target);
    assert Abspath(cwd, target) == Normpath(q);
    NormpathAbsolute(q);
    SplitPartsNoSep(q, Sep);
    LookupFollowsResolve(fs, [], Split(q, Sep));
  }

  lemma {:induction false} LookupFollowsResolve(fs: FileSystem, at: seq<string>, comps: seq<string>)
    requires Clean(at) && NoSep(comps, Sep)
    ensures Lookup(fs, at, comps).Some? ==> Lookup(fs, at, comps).value == Resolve(at, comps, true)
    decreases |comps|
  {
    if comps != [] && IsDirectory(fs, at) {
      var c := comps[0];
      assert NoSep(comps[1..], Sep) by {
        forall i | 0 <= i < |comps| - 1 ensures Sep !in comps[1..][i] {
          assert comps[1..][i] == comps[i + 1];
        }
      }
      assert Sep !in c;
      if c == ".." && at != [] {
        assert Name(at[|at| - 1]);
        assert Clean(at[..|at| - 1]);
      } else if c != "" && c != "." && c != ".." {
        assert Clean(at + [c]) by {
          assert forall i :: 0 <= i < |at| ==> (at + [c])[i] == at[i];
        }
      }
      LookupFollowsResolve(fs, Step(at, c, true), comps[1..]);
    }
  }

  /** A walk whose last component is empty (a trailing `/`) ends only at a
      directory. */
  lemma {:induction false} LookupTrailingSlash(fs: FileSystem, at: seq<string>, comps: seq<string>)
    ensures Lookup(fs, at, comps + [""]).Some? ==> IsDirectory(fs, Lookup(fs, at, comps + [""]).value)
    decreases |comps|
  {
    if comps == [] {
      assert [] + [""] == [""];
    } else {
      assert (comps + [""])[0] == comps[0] && (comps + [""])[1..] == comps[1..] + [""];
      if IsDirectory(fs, at) {
        var c := comps[0];
        if c == "" || c == "." {
          LookupTrailingSlash(fs, at, comps[1..]);
        } else if c == ".." {
          LookupTrailingSlash(fs, if at == [] then [] else at[..|at| - 1], comps[1..]);
        } else if at + [c] in fs {
          LookupTrailingSlash(fs, at + [c], comps[1..]);
        }
      }
    }
  }

  /** A path that ends in `/` is never served: the kernel finds a file only
      where no directory is required (`x.txt/` is ENOTDIR). */
  lemma TrailingSlashNeverServed(cwd: string, root: string, path: string, fs: FileSystem)
    requires IsAbs(cwd) && path != [] && path[|path| - 1] == Sep
    ensures !ReadFile(cwd, root, path, fs).Served?
  {
    LocatedTrailingSlash(cwd, root, path, fs);
  }

  lemma LocatedTrailingSlash(cwd: string, root: string, path: string, fs: FileSystem)
    requires IsAbs(cwd) && path != [] && path[|path| - 1] == Sep
    ensures Located(cwd, root, path, fs).Some? ==> IsDirectory(fs, Located(cwd, root, path, fs).value)
  {
    var q := PosixJoin(cwd, PosixJoin(root, path));
    EndsWithSep(root, path);
    EndsWithSep(cwd, PosixJoin(root, path));
    var stem := q[..|q| - 1];
    assert Split(q, Sep) == Split(stem, Sep) + [""] by {
      assert q == stem + [Sep] + "";
      SplitAround(stem, "", Sep);
    }
    LookupTrailingSlash(fs, [], Split(stem, Sep));
  }

  /** Joining keeps a final separator of the second path. */
  lemma EndsWithSep(a: string, b: string)
    requires b != [] && b[|b| - 1] == Sep
    ensures var r := PosixJoin(a, b); r != [] && r[|r| - 1] == Sep
  {
  }

  /** A missing name is not rescued by a `..` after it: the kernel looks the
      name up before it climbs. */
  lemma MissingBeforeClimb(fs: FileSystem, at: seq<string>, name: string, rest: seq<string>)
    requires Name(name) && IsDirectory(fs, at) && at + [name] !in fs
    ensures Lookup(fs, at, [name, ".."] + rest) == None
  {
    assert ([name, ".."] + rest)[0] == name;
  }

  // ---------------------------------------------------------------------------
  // How the target of a relative path normalises.

  lemma NormpathAbsolute(p: string)
    requires IsAbs(p)
    ensures Normpath(p) == Slashes(LeadingSlashes(p)) + Join(Resolve([], Split(p, Sep), true), Sep)
  {
  }

  lemma JoinKeepsLeadingSlashes(root: string, path: string)
    requires IsAbs(root) && !IsAbs(path)
    ensures LeadingSlashes(PosixJoin(root, path)) == LeadingSlashes(root)
  {
    var t := PosixJoin(root, path);
    assert t[..|root|] == root;
    if |root| == 1 {
      assert t == root + path;
      assert |t| >= 2 ==> t[1] == path[0];
    } else if |root| == 2 {
      if root[1] == Sep {
        assert t == root + path;
        assert |t| >= 3 ==> t[2] == path[0];
      }
    }
  }

  /** A relative path is resolved against the normalised root's segments. */
  lemma {:induction false} RelativeTarget(cwd: string, root: string, path: string)
    requires IsAbs(cwd) && IsAbs(root) && !IsAbs(path)
    ensures Abspath(cwd, root) == Slashes(LeadingSlashes(root)) + Join(RootSegs(root), Sep)
    ensures Abspath(cwd, PosixJoin(root, path)) ==
      Slashes(LeadingSlashes(root)) + Join(Resolve(RootSegs(root), Split(path, Sep), true), Sep)
  {
    var t := PosixJoin(root, path);
    NormpathAbsolute(root);
    NormpathAbsolute(t);
    JoinKeepsLeadingSlashes(root, path);
    if root[|root| - 1] == Sep {
      var stem := root[..|root| - 1];
      assert root == stem + [Sep] + "";
      assert t == stem + [Sep] + path;
      SplitAround(stem, "", Sep);
      SplitAround(stem, path, Sep);
      ResolveAppend([], Split(stem, Sep), [""], true);
      ResolveAppend([], Split(stem, Sep), Split(path, Sep), true);
    } else {
      assert t == root + [Sep] + path;
      SplitAround(root, path, Sep);
      ResolveAppend([], Split(root, Sep), Split(path, Sep), true);
    }
  }

  lemma RootSegsClean(root: string)
    ensures Clean(RootSegs(root))
  {
    SplitPartsNoSep(root, Sep);
    ResolveRootedClean([], Split(root, Sep));
  }

  lemma JoinNamesNonEmpty(segs: seq<string>)
    requires Clean(segs) && segs != []
    ensures |Join(segs, Sep)| > 0
  {
    JoinHead(segs, Sep);
  }

  /** Joining a proper prefix of a list of names gives a strictly shorter string. */
  lemma JoinProperPrefixShorter(segs: seq<string>, k: nat)
    requires Clean(segs) && k < |segs|
    ensures |Join(segs[..k], Sep)| < |Join(segs, Sep)|
  {
    JoinNamesNonEmpty(segs);
    if k > 0 {
      assert segs == segs[..k] + segs[k..];
      JoinAppend(segs[..k], segs[k..], Sep);
    }
  }

  /** A path made only of `..` segments climbs to an ancestor of the root,
      which is shorter than the root and therefore refused. */
  lemma ClimbAboveRootRefused(cwd: string, root: string, m: nat, fs: FileSystem)
    requires IsAbs(cwd) && IsAbs(root) && RootSegs(root) != [] && m >= 1
    ensures ReadFile(cwd, root, Join(Dots(m), Sep), fs) == Refused(400, TraversalDetail)
  {
    var path := Join(Dots(m), Sep);
    var segs := RootSegs(root);
    assert NoSep(Dots(m), Sep);
    SplitJoin(Dots(m), Sep);
    JoinHead(Dots(m), Sep);
    assert !IsAbs(path);
    RelativeTarget(cwd, root, path);
    RootSegsClean(root);
    ResolveClimb(segs, m);
    var k := if m <= |segs| then |segs| - m else 0;
    JoinProperPrefixShorter(segs, k);
  }

  /** A relative path of plain names lands directly below the root and is
      never refused by the sandbox test. */
  lemma PlainDescentAccepted(cwd: string, root: string, names: seq<string>)
    requires IsAbs(cwd) && IsAbs(root) && Clean(names) && names != []
    ensures Abspath(cwd, PosixJoin(root, Join(names, Sep))) ==
      if RootSegs(root) == [] then Abspath(cwd, root) + Join(names, Sep)
      else Abspath(cwd, root) + [Sep] + Join(names, Sep)
    ensures PassesPrefixCheck(cwd, root, Join(names, Sep))
  {
    var path := Join(names, Sep);
    var segs := RootSegs(root);
    var lead := Slashes(LeadingSlashes(root));
    assert Split(path, Sep) == names by {
      assert NoSep(names, Sep);
      SplitJoin(names, Sep);
    }
    assert !IsAbs(path) by {
      JoinHead(names, Sep);
    }
    RelativeTarget(cwd, root, path);
    assert Resolve(segs, names, true) == segs + names by {
      ResolveNames(segs, names, true);
    }
    assert Abspath(cwd, root) == lead + Join(segs, Sep);
    assert Abspath(cwd, PosixJoin(root, path)) == lead + Join(segs + names, Sep);
    DescentText(lead, segs, names);
  }

  /** The text of a root followed by plain names. */
  lemma DescentText(lead: string, segs: seq<string>, names: seq<string>)
    requires names != []
    ensures lead + Join(segs + names, Sep) ==
      if segs == [] then lead + Join(segs, Sep) + Join(names, Sep)
      else lead + Join(segs, Sep) + [Sep] + Join(names, Sep)
    ensures StartsWith(lead + Join(segs + names, Sep), lead + Join(segs, Sep))
  {
    if segs != [] {
      JoinAppend(segs, names, Sep);
      assert lead + Join(segs + names, Sep) == (lead + Join(segs, Sep)) + ([Sep] + Join(names, Sep));
    } else {
      assert segs + names == names;
    }
  }

  /** An absolute argument replaces the root, so it is served only if its own
      normal form already starts with the normalised root. */
  lemma AbsoluteArgumentReplacesRoot(cwd: string, root: string, path: string, fs: FileSystem)
    requires IsAbs(cwd) && IsAbs(path)
    ensures ReadFile(cwd, root, path, fs).Served? ==>
      && StartsWith(Normpath(path), Abspath(cwd, root))
      && Lookup(fs, [], Split(path, Sep)).Some?
      && fs[Lookup(fs, [], Split(path, Sep)).value] == File(ReadFile(cwd, root, path, fs).content)
    ensures !StartsWith(Normpath(path), Abspath(cwd, root)) ==> ReadFile(cwd, root, path, fs) == Refused(400, TraversalDetail)
  {
  }

  /** A relative path of `m` `..` segments followed by names climbs `m`
      levels from the root (stopping at `/`) and then descends. */
  lemma ClimbThenDescend(cwd: string, root: string, m: nat, names: seq<string>)
    requires IsAbs(cwd) && IsAbs(root) && Clean(names)
    ensures var segs := RootSegs(root);
      Abspath(cwd, PosixJoin(root, Join(Dots(m) + names, Sep))) ==
        Slashes(LeadingSlashes(root)) + Join(segs[..if m <= |segs| then |segs| - m else 0] + names, Sep)
  {
    var comps := Dots(m) + names;
    var path := Join(comps, Sep);
    var segs := RootSegs(root);
    var k := if m <= |segs| then |segs| - m else 0;
    var split := Split(path, Sep);
    assert !IsAbs(path) && split == (if comps == [] then [""] else comps) by {
      SplitClimbPath(m, names);
    }
    assert Resolve(segs, split, true) == segs[..k] + names by {
      RootSegsClean(root);
      ResolveClimbNames(segs, m, names);
    }
    assert Abspath(cwd, PosixJoin(root, path)) == Slashes(LeadingSlashes(root)) + Join(Resolve(segs, split, true), Sep) by {
      RelativeTarget(cwd, root, path);
    }
  }

  lemma SplitClimbPath(m: nat, names: seq<string>)
    requires Clean(names)
    ensures !IsAbs(Join(Dots(m) + names, Sep))
    ensures Split(Join(Dots(m) + names, Sep), Sep) == if Dots(m) + names == [] then [""] else Dots(m) + names
  {
    var comps := Dots(m) + names;
    if comps != [] {
      assert NoSep(comps, Sep) by {
        forall i | 0 <= i < |comps| ensures Sep !in comps[i] {
          if i >= m { assert comps[i] == names[i - m]; }
        }
      }
      SplitJoin(comps, Sep);
      JoinHead(comps, Sep);
      assert comps[0] == ".." || Name(comps[0]);
    }
  }

  lemma ResolveClimbNames(segs: seq<string>, m: nat, names: seq<string>)
    requires Clean(segs) && Clean(names)
    ensures Resolve(segs, if Dots(m) + names == [] then [""] else Dots(m) + names, true) ==
      segs[..if m <= |segs| then |segs| - m else 0] + names
  {
    var k := if m <= |segs| then |segs| - m else 0;
    if Dots(m) + names == [] {
      assert segs[..k] + names == segs;
    } else {
      ResolveAppend(segs, Dots(m), names, true);
      ResolveClimb(segs, m);
      ResolveNames(segs[..k], names, true);
    }
  }

  /** `../../etc/passwd` against `/data` normalises to `/etc/passwd` and is refused. */
  lemma EtcPasswdRefused(cwd: string, fs: FileSystem)
    requires IsAbs(cwd)
    ensures ReadFile(cwd, DefaultRoot, "../../etc/passwd", fs) == Refused(400, TraversalDetail)
  {
    EtcPasswdTarget(cwd);
    assert !StartsWith("/etc/passwd", "/data") by {
      assert "/etc/passwd"[1] != "/data"[1];
    }
  }

  lemma EtcPasswdTarget(cwd: string)
    requires IsAbs(cwd)
    ensures Abspath(cwd, DefaultRoot) == "/data"
    ensures Abspath(cwd, PosixJoin(DefaultRoot, "../../etc/passwd")) == "/etc/passwd"
  {
    var names := ["etc", "passwd"];
    assert Clean(names);
    PathText(2, "etc", "passwd", "../../etc/passwd", "/etc/passwd");
    DataRoot(cwd);
    ClimbThenDescend(cwd, DefaultRoot, 2, names);
    assert ["data"][..0] + names == names;
  }

  /** Literal spellings of a climbing path and of its resolved target. */
  lemma PathText(m: nat, a: string, b: string, path: string, target: string)
    requires 1 <= m <= 2
    requires path == if m == 1 then ".." + "/" + a + "/" + b else ".." + "/" + ".." + "/" + a + "/" + b
    requires target == "/" + a + "/" + b
    ensures path == Join(Dots(m) + [a, b], Sep)
    ensures target == Slashes(1) + Join([a, b], Sep)
  {
    ClimbText(m, a, b);
  }

  /** The text of `m` (one or two) `..` segments followed by two names. */
  lemma ClimbText(m: nat, a: string, b: string)
    requires 1 <= m <= 2
    ensures Join([a, b], Sep) == a + "/" + b
    ensures Join(Dots(m) + [a, b], Sep) == if m == 1 then ".." + "/" + a + "/" + b else ".." + "/" + ".." + "/" + a + "/" + b
  {
    assert [a, b][1..] == [b];
    assert Join([a, b], Sep) == a + "/" + b;
    var once := [".."] + [a, b];
    assert once[1..] == [a, b];
    assert Join(once, Sep) == ".." + "/" + (a + "/" + b);
    if m == 2 {
      var twice := [".."] + once;
      assert twice[1..] == once;
      assert Dots(2) + [a, b] == twice;
    } else {
      assert Dots(1) + [a, b] == once;
    }
  }

  /** `/data` is already normal, with the one segment `data`. */
  lemma DataRoot(cwd: string)
    requires IsAbs(cwd)
    ensures Split(DefaultRoot, Sep) == ["", "data"]
    ensures RootSegs(DefaultRoot) == ["data"]
    ensures LeadingSlashes(DefaultRoot) == 1
    ensures Abspath(cwd, DefaultRoot) == DefaultRoot
  {
    var comps := ["", "data"];
    assert DefaultRoot == Join(comps, Sep);
    assert NoSep(comps, Sep);
    SplitJoin(comps, Sep);
    NormpathAbsolute(DefaultRoot);
  }

  /** The kernel walks a relative path below `/data` from `/`, through the
      components of `/data` and then those of the path. */
  lemma LocatedUnderDataRoot(cwd: string, path: string, comps: seq<string>, fs: FileSystem)
    requires IsAbs(cwd) && comps != [] && NoSep(comps, Sep) && path == Join(comps, Sep) && !IsAbs(path)
    ensures Located(cwd, DefaultRoot, path, fs) == Lookup(fs, [], ["", "data"] + comps)
    ensures IsDirectory(fs, ["data"]) ==> Located(cwd, DefaultRoot, path, fs) == Lookup(fs, ["data"], comps)
  {
    EnterData(fs, comps);
    DataRoot(cwd);
    SplitJoin(comps, Sep);
    var target := PosixJoin(DefaultRoot, path);
    assert target == DefaultRoot + [Sep] + path;
    SplitAround(DefaultRoot, path, Sep);
    assert PosixJoin(cwd, target) == target;
  }

  /** Walking `/data` enters the directory `data`. */
  lemma EnterData(fs: FileSystem, comps: seq<string>)
    ensures IsDirectory(fs, ["data"]) ==> Lookup(fs, [], ["", "data"] + comps) == Lookup(fs, ["data"], comps)
  {
    var rest := ["data"] + comps;
    assert (["", "data"] + comps)[1..] == rest;
    assert rest[1..] == comps;
    assert [] + ["data"] == ["data"];
  }

  /** `/data` holding the one file `x.txt`. */
  function DataTree(content: string): FileSystem
  {
    map[["data"] := Directory, ["data", "x.txt"] := File(content)]
  }

  /** `nosuch/../x.txt` normalises to `/data/x.txt`, which exists, but the
      kernel looks up `nosuch` first and fails: 404. */
  lemma MissingNameBeforeClimbNotFound(cwd: string, content: string)
    requires IsAbs(cwd)
    ensures Abspath(cwd, PosixJoin(DefaultRoot, "nosuch/../x.txt")) == "/data/x.txt"
    ensures ReadFile(cwd, DefaultRoot, "nosuch/../x.txt", DataTree(content)) == Refused(404, NotFoundDetail)
  {
    MissingTarget(cwd, content);
    assert StartsWith("/data/x.txt", "/data");
  }

  lemma MissingTarget(cwd: string, content: string)
    requires IsAbs(cwd)
    ensures Abspath(cwd, DefaultRoot) == "/data"
    ensures Abspath(cwd, PosixJoin(DefaultRoot, "nosuch/../x.txt")) == "/data/x.txt"
    ensures Located(cwd, DefaultRoot, "nosuch/../x.txt", DataTree(content)) == None
  {
    MissingNormal(cwd);
    MissingLocated(cwd, content);
  }

  lemma MissingNormal(cwd: string)
    requires IsAbs(cwd)
    ensures Abspath(cwd, DefaultRoot) == "/data"
    ensures Abspath(cwd, PosixJoin(DefaultRoot, "nosuch/../x.txt")) == "/data/x.txt"
  {
    MissingText();
    DataRoot(cwd);
    RelativeTarget(cwd, DefaultRoot, "nosuch/../x.txt");
    MissingResolves();
  }

  lemma MissingLocated(cwd: string, content: string)
    requires IsAbs(cwd)
    ensures Located(cwd, DefaultRoot, "nosuch/../x.txt", DataTree(content)) == None
  {
    var fs := DataTree(content);
    assert IsDirectory(fs, ["data"]);
    MissingPathLocated(cwd, fs);
    MissingWalk(content);
  }

  lemma MissingPathLocated(cwd: string, fs: FileSystem)
    requires IsAbs(cwd) && IsDirectory(fs, ["data"])
    ensures Located(cwd, DefaultRoot, "nosuch/../x.txt", fs) == Lookup(fs, ["data"], ["nosuch", "..", "x.txt"])
  {
    MissingText();
    LocatedUnderDataRoot(cwd, "nosuch/../x.txt", ["nosuch", "..", "x.txt"], fs);
  }

  /** The kernel's walk of `nosuch/../x.txt` inside `/data` stops at `nosuch`. */
  lemma MissingWalk(content: string)
    ensures Lookup(DataTree(content), ["data"], ["nosuch", "..", "x.txt"]) == None
  {
    var fs := DataTree(content);
    assert ["data"] + ["nosuch"] !in fs by {
      assert ["data", "nosuch"] != ["data", "x.txt"] by {
        assert ["data", "nosuch"][1] != ["data", "x.txt"][1];
      }
      assert fs.Keys == {["data"], ["data", "x.txt"]};
    }
    MissingBeforeClimb(fs, ["data"], "nosuch", ["x.txt"]);
    assert ["nosuch", ".."] + ["x.txt"] == ["nosuch", "..", "x.txt"];
  }

  /** The spelling and the components of `nosuch/../x.txt`. */
  lemma MissingText()
    ensures "nosuch/../x.txt" == Join(["nosuch", "..", "x.txt"], Sep)
    ensures NoSep(["nosuch", "..", "x.txt"], Sep)
    ensures !IsAbs("nosuch/../x.txt")
    ensures Split("nosuch/../x.txt", Sep) == ["nosuch", "..", "x.txt"]
  {
    var comps := ["nosuch", "..", "x.txt"];
    JoinThree("nosuch", "..", "x.txt");
    assert "nosuch" + "/" + ".." + "/" + "x.txt" == "nosuch/../x.txt";
    assert NoSep(comps, Sep);
    SplitJoin(comps, Sep);
  }

  lemma JoinThree(a: string, b: string, c: string)
    ensures Join([a, b, c], Sep) == a + "/" + b + "/" + c
  {
    assert [a, b, c][1..] == [b, c];
    assert [b, c][1..] == [c];
    assert Join([b, c], Sep) == b + [Sep] + c;
    assert Join([a, b, c], Sep) == a + [Sep] + (b + [Sep] + c);
  }

  /** Below `/data`, `nosuch/../x.txt` resolves to `/data/x.txt`. */
  lemma MissingResolves()
    ensures Slashes(1) + Join(Resolve(["data"], ["nosuch", "..", "x.txt"], true), Sep) == "/data/x.txt"
  {
    var comps := ["nosuch", "..", "x.txt"];
    assert comps[1..] == ["..", "x.txt"] && comps[2..] == ["x.txt"];
    assert Resolve(["data"], comps, true) == ["data", "x.txt"];
    assert ["data", "x.txt"][1..] == ["x.txt"];
    assert Join(["data", "x.txt"], Sep) == "data/x.txt";
  }

  // ---------------------------------------------------------------------------
  // The prefix test compares strings, not path components.

  /** With root `/data`, `../data2/x` resolves into the sibling directory
      `/data2`, which passes the raw prefix test and is served. */
  lemma SiblingDirectoryServed(cwd: string, content: string)
    requires IsAbs(cwd)
    ensures ReadFile(cwd, DefaultRoot, "../data2/x", SiblingTree(content)) == Served("../data2/x", content)
  {
    SiblingTarget(cwd);
    assert StartsWith("/data2/x", "/data");
    SiblingLocated(cwd, content);
  }

  /** The kernel's walk of `/data/../data2/x` reaches the file. */
  lemma SiblingLocated(cwd: string, content: string)
    requires IsAbs(cwd)
    ensures Located(cwd, DefaultRoot, "../data2/x", SiblingTree(content)) == Some(["data2", "x"])
  {
    var fs := SiblingTree(content);
    var comps := Dots(1) + ["data2", "x"];
    PathText(1, "data2", "x", "../data2/x", "/data2/x");
    assert NoSep(comps, Sep);
    assert !IsAbs("../data2/x");
    LocatedUnderDataRoot(cwd, "../data2/x", comps, fs);
    assert IsDirectory(fs, ["data"]);
    assert comps == ["..", "data2", "x"];
    SiblingWalk(content);
  }

  lemma SiblingWalk(content: string)
    ensures Lookup(SiblingTree(content), ["data"], ["..", "data2", "x"]) == Some(["data2", "x"])
  {
    var fs := SiblingTree(content);
    assert ["..", "data2", "x"][1..] == ["data2", "x"];
    assert ["data2", "x"][1..] == ["x"];
    assert ["data"][..0] == [];
    assert [] + ["data2"] == ["data2"] && ["data2"] + ["x"] == ["data2", "x"];
    assert Lookup(fs, ["data2", "x"], []) == Some(["data2", "x"]);
    assert Lookup(fs, ["data2"], ["x"]) == Some(["data2", "x"]);
    assert Lookup(fs, [], ["data2", "x"]) == Some(["data2", "x"]);
  }

  /** `/data` beside a sibling `/data2` holding the file `x`. */
  function SiblingTree(content: string): FileSystem
  {
    map[["data"] := Directory, ["data2"] := Directory, ["data2", "x"] := File(content)]
  }

  lemma SiblingTarget(cwd: string)
    requires IsAbs(cwd)
    ensures Abspath(cwd, DefaultRoot) == "/data"
    ensures Abspath(cwd, PosixJoin(DefaultRoot, "../data2/x")) == "/data2/x"
  {
    var names := ["data2", "x"];
    assert Clean(names);
    PathText(1, "data2", "x", "../data2/x", "/data2/x");
    DataRoot(cwd);
    ClimbThenDescend(cwd, DefaultRoot, 1, names);
    assert ["data"][..0] + names == names;
  }

  /** Containment by path components: the target is the root itself or
      lies below the root followed by a separator. */
  predicate Contains(root: string, target: string)
  {
    target == root || StartsWith(target, if root != "" && root[|root| - 1] == Sep then root else root + [Sep])
  }

  /** `read_file` with the component-wise containment test in place of the
      raw prefix test; otherwise as `ReadFile`. */
  function ReadFileContained(cwd: string, root: string, path: string, fs: FileSystem): (r: ReadResponse)
    requires IsAbs(cwd)
    ensures !Contains(Abspath(cwd, root), Abspath(cwd, PosixJoin(root, path))) <==> r == Refused(400, TraversalDetail)
    ensures r == Refused(404, NotFoundDetail) <==>
      Contains(Abspath(cwd, root), Abspath(cwd, PosixJoin(root, path))) && Located(cwd, root, path, fs).None?
    ensures r.Served? ==>
      && r.path == path
      && Contains(Abspath(cwd, root), Abspath(cwd, PosixJoin(root, path)))
      && var at := Located(cwd, root, path, fs);
         at.Some? && at.value != [] && at.value in fs && fs[at.value] == File(r.content)
  {
    var target := PosixJoin(root, path);
    if !Contains(Abspath(cwd, root), Abspath(cwd, target)) then Refused(400, TraversalDetail)
    else match Located(cwd, root, path, fs)
      case None => Refused(404, NotFoundDetail)
      case Some(at) =>
        if at != [] && fs[at].File? then Served(path, fs[at].content)
        else Refused(500, ServerErrorDetail)
  }

  /** On normal forms, containment is exactly "the root's segments are a
      prefix of the target's segments". */
  lemma ContainsIffSegmentPrefix(lead: nat, rs: seq<string>, ts: seq<string>)
    requires 1 <= lead <= 2 && Clean(rs) && Clean(ts)
    ensures Contains(Slashes(lead) + Join(rs, Sep), Slashes(lead) + Join(ts, Sep)) <==>
      (|rs| <= |ts| && ts[..|rs|] == rs)
  {
    if Contains(Slashes(lead) + Join(rs, Sep), Slashes(lead) + Join(ts, Sep)) {
      ContainsImpliesPrefix(lead, rs, ts);
    }
    if |rs| <= |ts| && ts[..|rs|] == rs {
      PrefixImpliesContains(lead, rs, ts);
    }
  }

  lemma RootForm(lead: nat, rs: seq<string>)
    requires 1 <= lead <= 2 && Clean(rs)
    ensures var root := Slashes(lead) + Join(rs, Sep);
      root != "" && (root[|root| - 1] == Sep <==> rs == [])
  {
    var root := Slashes(lead) + Join(rs, Sep);
    if rs != [] {
      var last := rs[|rs| - 1];
      JoinTail(rs, Sep);
      assert Name(last);
      assert root[|root| - 1] == last[|last| - 1];
    }
  }

  lemma PrefixImpliesContains(lead: nat, rs: seq<string>, ts: seq<string>)
    requires 1 <= lead <= 2 && Clean(rs) && Clean(ts)
    requires |rs| <= |ts| && ts[..|rs|] == rs
    ensures Contains(Slashes(lead) + Join(rs, Sep), Slashes(lead) + Join(ts, Sep))
  {
    RootForm(lead, rs);
    if ts != rs {
      var tail := ts[|rs|..];
      assert ts == rs + tail;
      if rs == [] {
        ContainsBelow(Slashes(lead), "", Join(ts, Sep));
      } else {
        JoinAppend(rs, tail, Sep);
        ContainsBelow(Slashes(lead), Join(rs, Sep), Join(tail, Sep));
      }
    }
  }

  /** What follows the root, after a separator unless the root already ends
      in one, is contained in it. */
  lemma ContainsBelow(lead: string, jr: string, rest: string)
    requires lead + jr != ""
    ensures (lead + jr)[|lead + jr| - 1] == Sep ==> Contains(lead + jr, lead + (jr + rest))
    ensures Contains(lead + jr, lead + (jr + [Sep] + rest))
  {
    var root := lead + jr;
    assert lead + (jr + rest) == root + rest;
    assert lead + (jr + [Sep] + rest) == (root + [Sep]) + rest;
    PrefixOfAppend(root, rest);
    PrefixOfAppend(root + [Sep], rest);
  }

  lemma PrefixOfAppend(p: string, rest: string)
    ensures StartsWith(p + rest, p)
  {
    assert (p + rest)[..|p|] == p;
  }

  lemma ContainsImpliesPrefix(lead: nat, rs: seq<string>, ts: seq<string>)
    requires 1 <= lead <= 2 && Clean(rs) && Clean(ts)
    requires Contains(Slashes(lead) + Join(rs, Sep), Slashes(lead) + Join(ts, Sep))
    ensures |rs| <= |ts| && ts[..|rs|] == rs
  {
    if rs != [] {
      RootForm(lead, rs);
      StripLead(Slashes(lead), Join(rs, Sep), Join(ts, Sep));
      JoinExtends(rs, ts);
    }
  }

  lemma StripLead(lead: string, jr: string, jt: string)
    requires lead + jr != "" && (lead + jr)[|lead + jr| - 1] != Sep
    requires Contains(lead + jr, lead + jt)
    ensures jt == jr || StartsWith(jt, jr + [Sep])
  {
    assert (lead + jt)[|lead|..] == jt && (lead + jr)[|lead|..] == jr;
    if lead + jt != lead + jr {
      assert StartsWith(lead + jt, lead + jr + [Sep]);
      assert (lead + jr + [Sep])[|lead|..] == jr + [Sep];
    }
  }

  lemma JoinExtends(rs: seq<string>, ts: seq<string>)
    requires Clean(rs) && Clean(ts) && rs != []
    requires Join(ts, Sep) == Join(rs, Sep) || StartsWith(Join(ts, Sep), Join(rs, Sep) + [Sep])
    ensures |rs| <= |ts| && ts[..|rs|] == rs
  {
    assert NoSep(rs, Sep) && NoSep(ts, Sep);
    JoinNamesNonEmpty(rs);
    SplitJoin(rs, Sep);
    assert ts != [];
    SplitJoin(ts, Sep);
    SplitExtends(Join(rs, Sep), Join(ts, Sep));
  }

  /** A string that extends another by a separator splits into the other's
      parts followed by more. */
  lemma SplitExtends(jr: string, jt: string)
    requires jt == jr || StartsWith(jt, jr + [Sep])
    ensures |Split(jr, Sep)| <= |Split(jt, Sep)| && Split(jt, Sep)[..|Split(jr, Sep)|] == Split(jr, Sep)
  {
    if jt != jr {
      var rest := jt[|jr| + 1..];
      assert jt == jr + [Sep] + rest by {
        assert jt[..|jr| + 1] == jr + [Sep];
        assert jt == jt[..|jr| + 1] + rest;
      }
      SplitAround(jr, rest, Sep);
    }
  }

  /** With the corrected test, a relative path is served only if its
      resolution stays at or below the root's segments. */
  lemma ContainedReadStaysUnderRoot(cwd: string, root: string, path: string, fs: FileSystem)
    requires IsAbs(cwd) && IsAbs(root) && !IsAbs(path)
    ensures var segs := RootSegs(root); var resolved := Resolve(segs, Split(path, Sep), true);
      ReadFileContained(cwd, root, path, fs) != Refused(400, TraversalDetail) <==>
        (|segs| <= |resolved| && resolved[..|segs|] == segs)
  {
    var segs := RootSegs(root);
    RelativeTarget(cwd, root, path);
    RootSegsClean(root);
    SplitPartsNoSep(path, Sep);
    ResolveRootedClean(segs, Split(path, Sep));
    ContainsIffSegmentPrefix(LeadingSlashes(root), segs, Resolve(segs, Split(path, Sep), true));
  }

  /** The corrected test refuses the sibling directory. */
  lemma SiblingDirectoryRefusedWhenContained(cwd: string, content: string)
    requires IsAbs(cwd)
    ensures ReadFileContained(cwd, DefaultRoot, "../data2/x", SiblingTree(content)) == Refused(400, TraversalDetail)
  {
    SiblingTarget(cwd);
    assert "/data2/x"[5] != "/data/"[5];
    assert !StartsWith("/data2/x", "/data/");
  }

  // ---------------------------------------------------------------------------
  // Listing.

  /** One tuple of `os.walk`: a directory, as its segments below the root,
      and the names of the files directly in it. */
  datatype WalkEntry = WalkEntry(dir: seq<string>, files: seq<string>)

  /** The path of file `name` of directory `dir`, relative to the root. */
  function RelPath(dir: seq<string>, name: string): string
  {
    Join(dir + [name], Sep)
  }

  /** A relative path splits back into its directory's segments and the
      file name when none of them contains `/`. */
  lemma RelPathSplits(dir: seq<string>, name: string)
    requires NoSep(dir + [name], Sep)
    ensures Split(RelPath(dir, name), Sep) == dir + [name]
  {
    SplitJoin(dir + [name], Sep);
  }

  /** The relative paths of a directory's files, in the order listed. */
  function DirPaths(dir: seq<string>, names: seq<string>): (r: seq<string>)
    ensures |r| == |names|
    ensures forall i :: 0 <= i < |names| ==> r[i] == RelPath(dir, names[i])
    decreases |names|
  {
    if names == [] then [] else DirPaths(dir, names[..|names| - 1]) + [RelPath(dir, names[|names| - 1])]
  }

  /** Every relative path the walk yields, in walk order. */
  function WalkPaths(walk: seq<WalkEntry>): seq<string>
    decreases |walk|
  {
    if walk == [] then []
    else WalkPaths(walk[..|walk| - 1]) + DirPaths(walk[|walk| - 1].dir, walk[|walk| - 1].files)
  }

  /** `list_files()`: collect the relative path of every file the walk
      visits, then sort. */
  method ListFiles(walk: seq<WalkEntry>) returns (files: seq<string>)
    ensures Sorting.Sorted(files)
    ensures multiset(files) == multiset(WalkPaths(walk))
    ensures files == Sorting.Sort(WalkPaths(walk))
  {
    var result: seq<string> := [];
    for i := 0 to |walk|
      invariant result == WalkPaths(walk[..i])
    {
      var entry := walk[i];
      for j := 0 to |entry.files|
        invariant result == WalkPaths(walk[..i]) + DirPaths(entry.dir, entry.files[..j])
      {
        assert entry.files[..j + 1][..j] == entry.files[..j];
        result := result + [RelPath(entry.dir, entry.files[j])];
      }
      assert entry.files[..|entry.files|] == entry.files;
      assert walk[..i + 1][..i] == walk[..i];
    }
    assert walk[..|walk|] == walk;
    files := Sorting.Sort(result);
  }

  /** The listing depends only on which paths the walk yields, not on the
      order in which it visits directories and files. */
  lemma ListingIgnoresWalkOrder(w1: seq<WalkEntry>, w2: seq<WalkEntry>)
    requires multiset(WalkPaths(w1)) == multiset(WalkPaths(w2))
    ensures Sorting.Sort(WalkPaths(w1)) == Sorting.Sort(WalkPaths(w2))
  {
    Sorting.SortedUnique(Sorting.Sort(WalkPaths(w1)), Sorting.Sort(WalkPaths(w2)));
  }
}
