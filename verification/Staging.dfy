/** The names a deploy stages under and a commit publishes under, in the C and the Python installer. */
module Staging {
  import opened Paths
  import opened Text

  const SUFFIX: string := ".staged"
  const INSTALL_PATH_MAX_LEN: nat := 512

  /** Name used for the installed file: savename if given, otherwise the base name of the source. */
  function SaveName(path: string, name: string): string {
    if |name| > 0 then name else Basename(path)
  }

  /** The staged path execDeployCmd builds in its 512-byte buffer, or None when it refuses to. */
  function StagedPath(dir: string, path: string, name: string): Option<string> {
    var joined := Joined(dir, SaveName(path, name));
    if |joined| >= INSTALL_PATH_MAX_LEN || |joined| + |SUFFIX| > INSTALL_PATH_MAX_LEN then None
    else Some(Take(joined + SUFFIX, INSTALL_PATH_MAX_LEN - 1))
  }

  /** Where execCommitCmd renames to: the staged path cut at its FIRST suffix. */
  function CommitPath(staged: string): Option<string> {
    match FindFirst(staged, SUFFIX, 0)
    case None => None
    case Some(i) => Some(staged[..i])
  }

  /** Where the Python exec_commit_cmd renames to: the staged path cut at its LAST suffix. */
  function PyCommitPath(staged: string): Option<string> {
    match FindLast(staged, SUFFIX, |staged|)
    case None => None
    case Some(i) => Some(staged[..i])
  }

  /** The one length of joined path for which the suffix is cut short. */
  ghost predicate Misnamed(dir: string, path: string, name: string) {
    var joined := Joined(dir, SaveName(path, name));
    |joined| == 505 && !Contains(joined, SUFFIX)
  }

  lemma {:induction false} TrimShortens(s: string)
    ensures |TrimSlashes(s)| <= |s|
  {
    if |s| > 0 && s[|s| - 1] == '/' {
      TrimShortens(s[..|s| - 1]);
    }
  }

  lemma {:induction false} LastPartShortens(s: string)
    ensures |AfterLastSlash(s)| <= |s|
  {
    if |s| > 0 && s[|s| - 1] != '/' {
      LastPartShortens(s[..|s| - 1]);
    }
  }

  /** The joined path is at most one character longer than directory and name together. */
  lemma JoinedLength(dir: string, path: string, name: string, room: nat)
    requires |path| <= room && |name| <= room && room >= 1
    ensures |Joined(dir, SaveName(path, name))| <= |dir| + 1 + room
  {
    TrimShortens(path);
    LastPartShortens(TrimSlashes(path));
  }

  /** The staged path of a name of 504 characters below the root has lost the last letter of its suffix. */
  lemma MisnamedExample(name: string)
    requires |name| == 504 && forall i :: 0 <= i < |name| ==> name[i] == 'a'
    ensures Misnamed("", "/content/file", name)
    ensures StagedPath("", "/content/file", name) == Some("/" + name + ".stage")
  {
    var joined := Joined("", name);
    assert joined == "/" + name;
    assert SUFFIX[..6] == ".stage";
    assert Take(joined + SUFFIX, 511) == joined + SUFFIX[..6];
    assert forall i: nat :: OccursAt(joined, SUFFIX, i) ==> joined[i] == SUFFIX[0];
  }

  lemma OccurrenceInPrefix(s: string, t: string, n: nat, i: nat)
    requires n <= |s| && i + |t| <= n
    ensures OccursAt(s[..n], t, i) <==> OccursAt(s, t, i)
  {
    assert s[..n][i..i + |t|] == s[i..i + |t|];
  }

  /** No occurrence of the suffix straddles the end of a name the suffix is appended to:
      its only dot is its first character. */
  lemma NoStraddle(base: string, tail: string, i: nat)
    requires tail <= SUFFIX
    requires OccursAt(base + tail, SUFFIX, i)
    ensures i + |SUFFIX| <= |base| || (i == |base| && tail == SUFFIX)
  {
    var s := base + tail;
    assert forall j | 0 <= j < |SUFFIX| :: SUFFIX[j] == s[i + j];
    assert forall j | 1 <= j < |SUFFIX| :: SUFFIX[j] != '.';
    assert |tail| > 0 ==> s[|base|] == tail[0] == SUFFIX[0];
  }

  /** A staged path carries the suffix unless the joined path is exactly 505 characters long
      and does not already contain it. */
  lemma StagedCarriesSuffix(dir: string, path: string, name: string)
    requires StagedPath(dir, path, name).Some?
    ensures Contains(StagedPath(dir, path, name).value, SUFFIX) <==> !Misnamed(dir, path, name)
  {
    var joined := Joined(dir, SaveName(path, name));
    var staged := StagedPath(dir, path, name).value;
    if |joined| < 505 {
      assert staged == joined + SUFFIX;
      assert OccursAt(staged, SUFFIX, |joined|);
    } else {
      assert staged == joined + SUFFIX[..6];
      if Contains(staged, SUFFIX) {
        var i: nat :| OccursAt(staged, SUFFIX, i);
        NoStraddle(joined, SUFFIX[..6], i);
        OccurrenceInPrefix(staged, SUFFIX, |joined|, i);
        assert staged[..|joined|] == joined;
        assert OccursAt(joined, SUFFIX, i);
      }
      if Contains(joined, SUFFIX) {
        var i: nat :| OccursAt(joined, SUFFIX, i);
        assert staged[..|joined|] == joined;
        OccurrenceInPrefix(staged, SUFFIX, |joined|, i);
        assert OccursAt(staged, SUFFIX, i);
      }
    }
  }

  /** A commit target never carries the suffix, so commits and deploys touch disjoint names. */
  lemma CommitTargetIsVisible(staged: string)
    requires CommitPath(staged).Some?
    ensures !Contains(CommitPath(staged).value, SUFFIX)
    ensures Contains(staged, SUFFIX)
  {
    var i := FindFirst(staged, SUFFIX, 0).value;
    assert OccursAt(staged, SUFFIX, i);
    if Contains(staged[..i], SUFFIX) {
      var j: nat :| OccursAt(staged[..i], SUFFIX, j);
      OccurrenceInPrefix(staged, SUFFIX, i, j);
      assert false;
    }
  }

  /** The C commit undoes the staging exactly when the name before staging is free of the suffix. */
  lemma CommitUndoesStaging(base: string)
    ensures CommitPath(base + SUFFIX).Some?
    ensures CommitPath(base + SUFFIX).value == base <==> !Contains(base, SUFFIX)
  {
    var s := base + SUFFIX;
    assert OccursAt(s, SUFFIX, |base|);
    var i := FindFirst(s, SUFFIX, 0).value;
    assert s[..|base|] == base;
    if Contains(base, SUFFIX) {
      var j: nat :| OccursAt(base, SUFFIX, j);
      OccurrenceInPrefix(s, SUFFIX, |base|, j);
      assert i <= j < |base|;
    } else if i < |base| {
      NoStraddle(base, SUFFIX, i);
      OccurrenceInPrefix(s, SUFFIX, |base|, i);
      assert Contains(base, SUFFIX);
    }
  }

  /** The Python commit always strips exactly the suffix its deploy added. */
  lemma PyCommitUndoesStaging(base: string)
    ensures PyCommitPath(base + SUFFIX) == Some(base)
  {
    var s := base + SUFFIX;
    assert OccursAt(s, SUFFIX, |base|);
    var i := FindLast(s, SUFFIX, |s|).value;
    if i != |base| {
      NoStraddle(base, SUFFIX, i);
      assert false;
    }
    assert s[..|base|] == base;
  }

  lemma SuffixStart(s: string, i: nat)
    requires OccursAt(s, SUFFIX, i)
    ensures s[i] == '.'
  {
    assert s[i..i + |SUFFIX|][0] == SUFFIX[0];
  }

  /** The C commit cuts at the first suffix, whatever follows it. */
  lemma CommitCuts(front: string, rest: string)
    requires '.' !in front
    ensures CommitPath(front + SUFFIX + rest) == Some(front)
  {
    var staged := front + SUFFIX + rest;
    assert staged[..|front|] == front && staged[|front|..|front| + |SUFFIX|] == SUFFIX;
    assert OccursAt(staged, SUFFIX, |front|);
    var i := FindFirst(staged, SUFFIX, 0).value;
    SuffixStart(staged, i);
  }

  /** Below the root a deploy is staged under its save name and the suffix. */
  lemma StagedAs(path: string, name: string)
    requires name != "" && name[0] != '/' && |name| < 504
    ensures StagedPath("", path, name) == Some("/" + name + SUFFIX)
  {
    JoinedHasOneSlash("", name);
    assert "" + "/" + name == "/" + name;
  }

  /** A deploy into the root is published under its save name, when that is short enough, has no slash in
      front and is free of the suffix. */
  lemma PublishedAs(path: string, name: string)
    requires name != "" && name[0] != '/' && |name| < 504 && !Contains("/" + name, SUFFIX)
    ensures StagedPath("", path, name) == Some("/" + name + SUFFIX)
    ensures CommitPath("/" + name + SUFFIX) == Some("/" + name)
  {
    StagedAs(path, name);
    CommitUndoesStaging("/" + name);
  }

  /** Without a save name it is published under the last part of its source path. */
  lemma PublishedAsLast(dir: string, last: string)
    requires last != "" && '/' !in last && |last| < 504 && !Contains("/" + last, SUFFIX)
    ensures StagedPath("", dir + "/" + last, "") == Some("/" + last + SUFFIX)
    ensures CommitPath("/" + last + SUFFIX) == Some("/" + last)
  {
    BasenameOf(dir, last, 0);
    assert dir + "/" + last + Slashes(0) == dir + "/" + last;
    PublishedAs(dir + "/" + last, last);
  }

  lemma Regrouped(a: string, b: string, s: string, c: string)
    ensures a + (b + s + c) + s == (a + b) + s + (c + s)
  {
  }

  /** A deploy whose save name contains the suffix: the C commit publishes it under what stands before the
      suffix, the Python commit under its own name. */
  lemma SuffixInside(path: string, front: string, rest: string)
    requires front != "" && front[0] != '/' && '.' !in front && |front| + |rest| < 400
    ensures var name := front + SUFFIX + rest;
      && StagedPath("", path, name) == Some("/" + name + SUFFIX)
      && CommitPath("/" + name + SUFFIX) == Some("/" + front)
      && PyCommitPath("/" + name + SUFFIX) == Some("/" + name)
  {
    var name := front + SUFFIX + rest;
    assert name[0] == front[0];
    StagedAs(path, name);
    PyCommitUndoesStaging("/" + name);
    CommitCuts("/" + front, rest + SUFFIX);
    Regrouped("/", front, SUFFIX, rest);
  }

  /** The save name "a.staged.b" is published as "/a". */
  lemma CommitRenames(name: string)
    requires name == "a" + SUFFIX + ".b"
    ensures StagedPath("", "/content/file", name) == Some("/" + name + SUFFIX)
    ensures CommitPath("/" + name + SUFFIX) == Some("/a") && PyCommitPath("/" + name + SUFFIX) == Some("/" + name)
  {
    SuffixInside("/content/file", "a", ".b");
    assert "/" + "a" == "/a";
  }

  // ---------- the staged path in its buffer ----------

  lemma {:induction false} TrimIsPlain(s: string)
    requires NUL !in s
    ensures NUL !in TrimSlashes(s)
  {
    if |s| > 0 && s[|s| - 1] == '/' {
      TrimIsPlain(s[..|s| - 1]);
    }
  }

  lemma {:induction false} LastPartIsPlain(s: string)
    requires NUL !in s
    ensures NUL !in AfterLastSlash(s)
  {
    if |s| > 0 && s[|s| - 1] != '/' {
      LastPartIsPlain(s[..|s| - 1]);
    }
  }

  lemma JoinedIsPlain(dir: string, path: string, name: string)
    requires NUL !in dir && NUL !in path && NUL !in name
    ensures NUL !in Joined(dir, SaveName(path, name))
  {
    TrimIsPlain(path);
    LastPartIsPlain(TrimSlashes(path));
  }

  /** The buffer of 512 characters in which execDeployCmd joins the path and appends the suffix ends up
      with the staged path, the cut one included, or the deploy is refused. */
  method BuildStagedPath(installDir: string, path: string, name: string, buf: array<char>) returns (ok: bool)
    requires buf.Length == INSTALL_PATH_MAX_LEN && NUL !in installDir && NUL !in path && NUL !in name
    modifies buf
    ensures ok <==> StagedPath(installDir, path, name).Some?
    ensures ok ==> Holds(buf[..], StagedPath(installDir, path, name).value, old(buf[..]))
  {
    ghost var joined := Joined(installDir, SaveName(path, name));
    JoinedIsPlain(installDir, path, name);
    var pSaveName := if |name| > 0 then name else Basename(path);
    var r := PathJoin(Some(installDir), Some(pSaveName), buf, INSTALL_PATH_MAX_LEN);
    if r == null {
      return false;
    }
    TextOf(buf[..], joined, old(buf[..]));
    if StrLen(buf[..]) + |SUFFIX| > INSTALL_PATH_MAX_LEN {
      return false;
    }
    var wanted := Strlcat(buf, SUFFIX, INSTALL_PATH_MAX_LEN, joined, old(buf[..]));
    return true;
  }
}
