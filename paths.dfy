/** POSIX path manipulation as the bridge uses it: `os.path.join`,
    `os.path.normpath` and `os.path.abspath` on `str` values, modelled over
    the list of segments a path splits into at '/'. */
module Paths {

  const Sep: char := '/'

  /** `s.split(sep)`: the maximal runs between separators, empty runs included. */
  function Split(s: string, sep: char): (parts: seq<string>)
    ensures |parts| >= 1
    decreases |s|
  {
    if s == [] then [""]
    else
      var rest := Split(s[1..], sep);
      if s[0] == sep then [""] + rest
      else [[s[0]] + rest[0]] + rest[1..]
  }

  /** `sep.join(parts)`. */
  function Join(parts: seq<string>, sep: char): string
    decreases |parts|
  {
    if parts == [] then ""
    else if |parts| == 1 then parts[0]
    else parts[0] + [sep] + Join(parts[1..], sep)
  }

  predicate NoSep(parts: seq<string>, sep: char)
  {
    forall i :: 0 <= i < |parts| ==> sep !in parts[i]
  }

  lemma {:induction false} SplitNoSep(s: string, sep: char)
    requires sep !in s
    ensures Split(s, sep) == [s]
    decreases |s|
  {
    if s != [] {
      assert sep !in s[1..];
      SplitNoSep(s[1..], sep);
      assert [s[0]] + s[1..] == s;
    }
  }

  /** No part of a split contains the separator. */
  lemma {:induction false} SplitPartsNoSep(s: string, sep: char)
    ensures NoSep(Split(s, sep), sep)
    decreases |s|
  {
    if s != [] {
      SplitPartsNoSep(s[1..], sep);
      var rest := Split(s[1..], sep);
      if s[0] != sep {
        assert sep !in [s[0]] + rest[0];
        var parts := Split(s, sep);
        forall i | 0 <= i < |parts| ensures sep !in parts[i] {
          if i > 0 { assert parts[i] == rest[i]; }
        }
      }
    }
  }

  /** Splitting distributes over a separator placed between two strings. */
  lemma {:induction false} SplitAround(a: string, b: string, sep: char)
    ensures Split(a + [sep] + b, sep) == Split(a, sep) + Split(b, sep)
    decreases |a|
  {
    if a == [] {
      assert a + [sep] + b == [sep] + b;
      assert ([sep] + b)[1..] == b;
    } else {
      assert (a + [sep] + b)[1..] == a[1..] + [sep] + b;
      SplitAround(a[1..], b, sep);
    }
  }

  /** Joining and then splitting gives back the parts. */
  lemma {:induction false} SplitJoin(parts: seq<string>, sep: char)
    requires |parts| >= 1 && NoSep(parts, sep)
    ensures Split(Join(parts, sep), sep) == parts
    decreases |parts|
  {
    SplitNoSep(parts[0], sep);
    if |parts| > 1 {
      SplitJoin(parts[1..], sep);
      SplitAround(parts[0], Join(parts[1..], sep), sep);
    }
  }

  /** Splitting and then joining gives back the string. */
  lemma {:induction false} JoinSplit(s: string, sep: char)
    ensures Join(Split(s, sep), sep) == s
    decreases |s|
  {
    if s != [] {
      JoinSplit(s[1..], sep);
      var rest := Split(s[1..], sep);
      assert s == [s[0]] + s[1..];
      if s[0] == sep {
        assert ([""] + rest)[1..] == rest;
        assert Join([""] + rest, sep) == "" + [sep] + Join(rest, sep);
      } else {
        var parts := [[s[0]] + rest[0]] + rest[1..];
        if |rest| == 1 {
          assert Join(parts, sep) == [s[0]] + rest[0];
        } else {
          assert parts[1..] == rest[1..];
          assert Join(rest, sep) == rest[0] + [sep] + Join(rest[1..], sep);
          assert Join(parts, sep) == [s[0]] + rest[0] + [sep] + Join(rest[1..], sep);
        }
      }
    }
  }

  /** Joining two non-empty lists puts one separator between their joins. */
  lemma {:induction false} JoinAppend(a: seq<string>, b: seq<string>, sep: char)
    requires a != [] && b != []
    ensures Join(a + b, sep) == Join(a, sep) + [sep] + Join(b, sep)
    decreases |a|
  {
    if |a| == 1 {
      assert (a + b)[1..] == b;
    } else {
      assert (a + b)[1..] == a[1..] + b;
      JoinAppend(a[1..], b, sep);
    }
  }

  /** `s.startswith(prefix)`. */
  predicate StartsWith(s: string, prefix: string)
  {
    |prefix| <= |s| && s[..|prefix|] == prefix
  }

  predicate IsAbs(p: string)
  {
    |p| > 0 && p[0] == Sep
  }

  /** `os.path.join(a, b)`: an absolute `b` replaces `a`; otherwise a
      separator is inserted unless `a` is empty or already ends in one. */
  function PosixJoin(a: string, b: string): (r: string)
    ensures IsAbs(b) ==> r == b
    ensures !IsAbs(b) ==> |r| >= |a| + |b| && r[..|a|] == a && r[|r| - |b|..] == b
    ensures IsAbs(a) ==> IsAbs(r)
  {
    if IsAbs(b) then b
    else if a == [] || a[|a| - 1] == Sep then a + b
    else a + [Sep] + b
  }

  /** POSIX keeps exactly two leading slashes and folds three or more into one. */
  function LeadingSlashes(p: string): (n: nat)
    ensures n <= 2
    ensures (n > 0) == IsAbs(p)
    ensures n == 2 <==> StartsWith(p, "//") && !StartsWith(p, "///")
  {
    if !IsAbs(p) then 0
    else if |p| >= 2 && p[1] == Sep && !(|p| >= 3 && p[2] == Sep) then 2
    else 1
  }

  function Slashes(n: nat): (r: string)
    ensures |r| == n && forall i :: 0 <= i < n ==> r[i] == Sep
  {
    if n == 0 then "" else [Sep] + Slashes(n - 1)
  }

  /** One iteration of normpath's loop over the components. */
  function Step(acc: seq<string>, comp: string, rooted: bool): seq<string>
  {
    if comp == "" || comp == "." then acc
    else if comp != ".." || (!rooted && acc == []) || (acc != [] && acc[|acc| - 1] == "..") then acc + [comp]
    else if acc != [] then acc[..|acc| - 1]
    else acc
  }

  /** normpath's loop: fold `Step` over the components from left to right. */
  function Resolve(acc: seq<string>, comps: seq<string>, rooted: bool): seq<string>
    decreases |comps|
  {
    if comps == [] then acc
    else Resolve(Step(acc, comps[0], rooted), comps[1..], rooted)
  }

  /** `os.path.normpath(p)`. */
  function Normpath(p: string): (r: string)
    ensures r != ""
    ensures IsAbs(r) <==> IsAbs(p)
  {
    if p == "" then "."
    else
      var lead := LeadingSlashes(p);
      var body := Join(Resolve([], Split(p, Sep), lead > 0), Sep);
      var r := Slashes(lead) + body;
      if r == "" then "."
      else
        assert lead == 0 ==> r == body && |r| > 0;
        assert lead == 0 ==> !IsAbs(r) by {
          if lead == 0 { NotAbsolute(p, r); }
        }
        r
  }

  /** `os.path.abspath(p)` with the process's working directory `cwd`. */
  function Abspath(cwd: string, p: string): (r: string)
    requires IsAbs(cwd)
    ensures IsAbs(r)
  {
    if IsAbs(p) then Normpath(p) else Normpath(PosixJoin(cwd, p))
  }

  // ---------------------------------------------------------------------------
  // Segment-level facts about normalisation.

  /** A clean segment is a name: not empty, not '.', not '..', without '/'. */
  predicate Name(seg: string)
  {
    seg != "" && seg != "." && seg != ".." && Sep !in seg
  }

  predicate Clean(segs: seq<string>)
  {
    forall i :: 0 <= i < |segs| ==> Name(segs[i])
  }

  /** A relative normal form: some '..' segments followed by names. */
  predicate RelativeForm(segs: seq<string>)
  {
    forall i :: 0 <= i < |segs| ==>
      && segs[i] != "" && segs[i] != "." && Sep !in segs[i]
      && (segs[i] == ".." ==> forall j :: 0 <= j < i ==> segs[j] == "..")
  }

  lemma {:induction false} ResolveAppend(acc: seq<string>, a: seq<string>, b: seq<string>, rooted: bool)
    ensures Resolve(acc, a + b, rooted) == Resolve(Resolve(acc, a, rooted), b, rooted)
    decreases |a|
  {
    if a != [] {
      assert (a + b)[0] == a[0];
      assert (a + b)[1..] == a[1..] + b;
      ResolveAppend(Step(acc, a[0], rooted), a[1..], b, rooted);
    } else {
      assert a + b == b;
    }
  }

  /** Rooted resolution of separator-free components yields only names. */
  lemma {:induction false} ResolveRootedClean(acc: seq<string>, comps: seq<string>)
    requires Clean(acc) && NoSep(comps, Sep)
    ensures Clean(Resolve(acc, comps, true))
    decreases |comps|
  {
    if comps != [] {
      var next := Step(acc, comps[0], true);
      assert Clean(next);
      assert NoSep(comps[1..], Sep) by {
        forall i | 0 <= i < |comps| - 1 ensures Sep !in comps[1..][i] { assert comps[1..][i] == comps[i + 1]; }
      }
      ResolveRootedClean(next, comps[1..]);
    }
  }

  /** Names pass through resolution unchanged. */
  lemma {:induction false} ResolveNames(acc: seq<string>, names: seq<string>, rooted: bool)
    requires Clean(names)
    ensures Resolve(acc, names, rooted) == acc + names
    decreases |names|
  {
    if names != [] {
      assert Clean(names[1..]) by {
        forall i | 0 <= i < |names| - 1 ensures Name(names[1..][i]) { assert names[1..][i] == names[i + 1]; }
      }
      ResolveNames(acc + [names[0]], names[1..], rooted);
      assert acc + [names[0]] + names[1..] == acc + names;
    }
  }

  function Dots(m: nat): (r: seq<string>)
    ensures |r| == m && forall i :: 0 <= i < m ==> r[i] == ".."
  {
    if m == 0 then [] else [".."] + Dots(m - 1)
  }

  /** Each rooted '..' removes one name, and '..' at the root stays at the root. */
  lemma {:induction false} ResolveClimb(acc: seq<string>, m: nat)
    requires Clean(acc)
    ensures Resolve(acc, Dots(m), true) == acc[..if m <= |acc| then |acc| - m else 0]
    decreases m
  {
    if m > 0 {
      assert Dots(m)[0] == ".." && Dots(m)[1..] == Dots(m - 1);
      if acc != [] {
        assert Name(acc[|acc| - 1]);
        var next := acc[..|acc| - 1];
        assert Step(acc, "..", true) == next;
        assert Clean(next) by {
          forall i | 0 <= i < |next| ensures Name(next[i]) { assert next[i] == acc[i]; }
        }
        ResolveClimb(next, m - 1);
      } else {
        ResolveClimb(acc, m - 1);
      }
    }
  }

  /** Relative normalisation of separator-free components keeps the relative form. */
  lemma {:induction false} ResolveRelativeForm(acc: seq<string>, comps: seq<string>)
    requires RelativeForm(acc) && NoSep(comps, Sep)
    ensures RelativeForm(Resolve(acc, comps, false))
    decreases |comps|
  {
    if comps != [] {
      var next := Step(acc, comps[0], false);
      assert RelativeForm(next) by {
        if next == acc + [comps[0]] && comps[0] == ".." {
          assert acc == [] || acc[|acc| - 1] == "..";
          forall j | 0 <= j < |acc| ensures acc[j] == ".." {
            if j < |acc| - 1 {
              assert acc[|acc| - 1] == "..";
            }
          }
        }
      }
      assert NoSep(comps[1..], Sep) by {
        forall i | 0 <= i < |comps| - 1 ensures Sep !in comps[1..][i] { assert comps[1..][i] == comps[i + 1]; }
      }
      ResolveRelativeForm(next, comps[1..]);
    }
  }

  lemma NotAbsolute(p: string, r: string)
    requires p != "" && LeadingSlashes(p) == 0
    requires r == Join(Resolve([], Split(p, Sep), false), Sep) && r != ""
    ensures !IsAbs(r)
  {
    var segs := Resolve([], Split(p, Sep), false);
    SplitPartsNoSep(p, Sep);
    ResolveRelativeForm([], Split(p, Sep));
    assert segs != [];
    assert segs[0] != "";
    JoinHead(segs, Sep);
  }

  /** A join ends with its last part. */
  lemma {:induction false} JoinTail(parts: seq<string>, sep: char)
    requires parts != []
    ensures var last := parts[|parts| - 1]; var j := Join(parts, sep);
      |j| >= |last| && j[|j| - |last|..] == last
    decreases |parts|
  {
    if |parts| > 1 {
      JoinTail(parts[1..], sep);
    }
  }

  /** A join starts with its first part. */
  lemma JoinHead(parts: seq<string>, sep: char)
    requires parts != []
    ensures |Join(parts, sep)| >= |parts[0]| && Join(parts, sep)[..|parts[0]|] == parts[0]
  {
  }
}
