/**
 * `CmdGit` of src/cmd_git.rs: the file list ptags indexes, obtained from
 * `git ls-files`, optionally without the files `git lfs ls-files` reports.
 * git itself is a parameter: a function from an argument vector to what
 * running git with it in the working directory produces.
 */
module CmdGit {
  import opened Types
  import opened Order
  import opened Text
  import opened Options

  datatype Error =
    | GitFailed(cmd: string, err: string)   // git ran and exited unsuccessfully; its stderr
    | CommandFailed(path: string)           // git could not be spawned
    | Utf8                                  // output that is not valid UTF-8

  /** Running git once: it could not be started, or it ran to completion. */
  datatype Run = SpawnFailed | Ran(output: Output)

  /** The command line `get_cmd` shows: the git binary and every argument, separated by one space. */
  method GetCmd(opt: Opt, args: seq<string>) returns (cmd: string)
    ensures cmd == Join(" ", [opt.binGit] + args)
  {
    cmd := CommandLine(opt.binGit, args);
  }

  /** When no word contains a space, the shown command line splits back into the binary and its arguments. */
  lemma CmdWords(bin: string, args: seq<string>)
    requires ' ' !in bin && forall i | 0 <= i < |args| :: ' ' !in args[i]
    ensures Split(Join(" ", [bin] + args), ' ') == [bin] + args
  {
    var words := [bin] + args;
    forall i | 0 <= i < |words| ensures ' ' !in words[i] {
      if i > 0 {
        assert words[i] == args[i - 1];
      }
    }
    SplitJoin(words, ' ');
  }

  /** What `call` returns for one run of git with `args`. */
  function CallResult(opt: Opt, args: seq<string>, run: Run): Result<Output, Error>
  {
    match run
    case SpawnFailed => Err(CommandFailed(opt.binGit))
    case Ran(out) =>
      if out.success then Ok(out)
      else if !out.stderr.utf8 then Err(Utf8)
      else Err(GitFailed(Join(" ", [opt.binGit] + args), out.stderr.text))
  }

  /**
   * `call`: run git once; a spawn failure names the binary, an unsuccessful
   * exit carries the command line and stderr.
   */
  method Call(opt: Opt, args: seq<string>, git: seq<string> -> Run) returns (r: Result<Output, Error>)
    ensures r == CallResult(opt, args, git(args))
    ensures r.Ok? <==> git(args).Ran? && git(args).output.success
    ensures r.Ok? ==> r.value == git(args).output
    ensures git(args).SpawnFailed? ==> r == Err(CommandFailed(opt.binGit))
    ensures git(args).Ran? && !git(args).output.success && git(args).output.stderr.utf8 ==>
      r == Err(GitFailed(Join(" ", [opt.binGit] + args), git(args).output.stderr.text))
  {
    var cmd := GetCmd(opt, args);
    var run := git(args);
    if run.SpawnFailed? {
      return Err(CommandFailed(opt.binGit));
    }
    var output := run.output;
    if !output.success {
      if !output.stderr.utf8 {
        return Err(Utf8);
      }
      return Err(GitFailed(cmd, output.stderr.text));
    }
    return Ok(output);
  }

  /** The arguments of `ls_files`: submodules take precedence over untracked files. */
  function LsFilesArgs(opt: Opt): (args: seq<string>)
    ensures |args| == 3 + (if opt.includeSubmodule || opt.includeUntracked then 1 else 0) + |opt.optGit|
    ensures args[..3] == ["ls-files", "--cached", "--exclude-standard"]
    ensures opt.includeSubmodule ==> args[3] == "--recurse-submodules"
    ensures !opt.includeSubmodule && opt.includeUntracked ==> args[3] == "--other"
    ensures args[|args| - |opt.optGit|..] == opt.optGit
  {
    ["ls-files", "--cached", "--exclude-standard"]
    + (if opt.includeSubmodule then ["--recurse-submodules"]
       else if opt.includeUntracked then ["--other"]
       else [])
    + opt.optGit
  }

  /** The sorted lines of a successful git's stdout, or the error `ls_files` stops with. */
  function Listing(opt: Opt, git: seq<string> -> Run): Result<seq<string>, Error>
  {
    var args := LsFilesArgs(opt);
    match CallResult(opt, args, git(args))
    case Err(e) => Err(e)
    case Ok(out) =>
      if !out.stdout.utf8 then Err(Utf8) else Ok(Sort(Lines(out.stdout.text)))
  }

  /** `ls_files`: the tracked (and, as asked, untracked or submodule) paths, sorted. */
  method LsFiles(opt: Opt, git: seq<string> -> Run) returns (r: Result<seq<string>, Error>)
    ensures r == Listing(opt, git)
    ensures r.Ok? ==> Sorted(r.value)
    ensures r.Ok? ==> multiset(r.value) == multiset(Lines(git(LsFilesArgs(opt)).output.stdout.text))
  {
    var args := ["ls-files"];
    args := args + ["--cached"];
    args := args + ["--exclude-standard"];
    if opt.includeSubmodule {
      args := args + ["--recurse-submodules"];
    } else if opt.includeUntracked {
      args := args + ["--other"];
    }
    args := args + opt.optGit;
    assert args == LsFilesArgs(opt);
    var output := Call(opt, args, git);
    if output.Err? {
      return Err(output.error);
    }
    if !output.value.stdout.utf8 {
      return Err(Utf8);
    }
    var list := Lines(output.value.stdout.text);
    var ret := [];
    for i := 0 to |list|
      invariant ret == list[..i]
    {
      ret := ret + [list[i]];
    }
    assert ret == list;
    return Ok(Sort(ret));
  }

  /** `git rev-parse <flag>`: the first line of its stdout, `""` if it printed none. */
  function RevParse(opt: Opt, flag: string, git: seq<string> -> Run): Result<string, Error>
  {
    var args := ["rev-parse", flag];
    match CallResult(opt, args, git(args))
    case Err(e) => Err(e)
    case Ok(out) => if !out.stdout.utf8 then Err(Utf8) else Ok(FirstLine(out.stdout.text))
  }

  /** `show_cdup`: the path from the working directory up to the top of the work tree. */
  method ShowCdup(opt: Opt, git: seq<string> -> Run) returns (r: Result<string, Error>)
    ensures r == RevParse(opt, "--show-cdup", git)
    ensures r.Ok? ==> '\n' !in r.value
  {
    r := ShowFirstLine(opt, ["rev-parse", "--show-cdup"], git);
  }

  /** `show_prefix`: the path from the top of the work tree down to the working directory. */
  method ShowPrefix(opt: Opt, git: seq<string> -> Run) returns (r: Result<string, Error>)
    ensures r == RevParse(opt, "--show-prefix", git)
    ensures r.Ok? ==> '\n' !in r.value
  {
    r := ShowFirstLine(opt, ["rev-parse", "--show-prefix"], git);
  }

  method ShowFirstLine(opt: Opt, args: seq<string>, git: seq<string> -> Run) returns (r: Result<string, Error>)
    requires |args| == 2 && args[0] == "rev-parse"
    ensures r == RevParse(opt, args[1], git)
  {
    assert args == ["rev-parse", args[1]];
    var output := Call(opt, args, git);
    if output.Err? {
      return Err(output.error);
    }
    if !output.value.stdout.utf8 {
      return Err(Utf8);
    }
    var list := Lines(output.value.stdout.text);
    return Ok(if |list| > 0 then list[0] else "");
  }

  /** What rev-parse prints, one line ending in `"\n"`, comes back as that line. */
  lemma RevParseLine(opt: Opt, flag: string, git: seq<string> -> Run, line: string)
    requires git(["rev-parse", flag]) == Ran(Output(true, Bytes(line + "\n", true), Bytes("", true)))
    requires '\n' !in line && !EndsWithCR(line)
    ensures RevParse(opt, flag, git) == Ok(line)
  {
    FirstLineOf(line, "");
  }

  /** The third space-separated field of a `git lfs ls-files` line (`<oid> <*|-> <path>`), `""` if absent. */
  function LfsField(l: string): (f: string)
    ensures ' ' !in f
  {
    var words := Split(l, ' ');
    if |words| > 2 then words[2] else ""
  }

  /** A well-formed line gives back its path. */
  lemma LfsFieldOf(oid: string, mark: string, path: string)
    requires ' ' !in oid && ' ' !in mark && ' ' !in path
    ensures LfsField(oid + " " + mark + " " + path) == path
  {
    var parts := [oid, mark, path];
    assert parts[1..] == [mark, path] && parts[1..][1..] == [path];
    assert Join(" ", [path]) == path;
    assert Join(" ", [mark, path]) == mark + " " + path;
    assert Join(" ", parts) == oid + " " + (mark + " " + path);
    assert oid + " " + (mark + " " + path) == oid + " " + mark + " " + path;
    assert [' '] == " ";
    SplitJoin(parts, ' ');
  }

  /** The path as `lfs_ls_files` writes it: `replace` removes every occurrence of the prefix. */
  function LfsPathAsWritten(l: string, cdup: string, prefix: string): (r: string)
    ensures StartsWith(LfsField(l), prefix) && prefix != [] ==> |r| <= |LfsField(l)| - |prefix|
    ensures !StartsWith(LfsField(l), prefix) ==> r == cdup + LfsField(l)
  {
    var path := LfsField(l);
    if StartsWith(path, prefix) then RemoveAll(path, prefix) else cdup + path
  }

  /**
   * The path relative to the working directory: a path under it loses the
   * leading prefix once; any other path is reached through `cdup`.
   */
  function LfsPath(l: string, cdup: string, prefix: string): (r: string)
    ensures StartsWith(LfsField(l), prefix) ==> prefix + r == LfsField(l)
    ensures !StartsWith(LfsField(l), prefix) ==> r == cdup + LfsField(l)
  {
    var path := LfsField(l);
    if StartsWith(path, prefix) then path[|prefix|..] else cdup + path
  }

  predicate OccursAt(s: string, p: string, i: nat)
  {
    i + |p| <= |s| && s[i..i + |p|] == p
  }

  /** `p` occurs nowhere in `s`. */
  predicate Absent(s: string, p: string)
  {
    forall i: nat | i <= |s| :: !OccursAt(s, p, i)
  }

  lemma {:induction false} RemoveAbsent(s: string, p: string)
    requires p != [] && Absent(s, p)
    ensures RemoveAll(s, p) == s
    decreases |s|
  {
    if |s| >= |p| {
      assert !OccursAt(s, p, 0);
      assert s[0..|p|] == s[..|p|];
      forall i: nat ensures !OccursAt(s[1..], p, i) {
        assert !OccursAt(s, p, i + 1);
        if i + |p| <= |s[1..]| {
          assert s[1..][i..i + |p|] == s[i + 1..i + 1 + |p|];
        }
      }
      RemoveAbsent(s[1..], p);
      assert s == [s[0]] + s[1..];
    }
  }

  /** Both agree whenever the prefix does not occur again after the leading one. */
  lemma LfsPathAgrees(l: string, cdup: string, prefix: string)
    requires StartsWith(LfsField(l), prefix) ==> Absent(LfsField(l)[|prefix|..], prefix)
    ensures LfsPathAsWritten(l, cdup, prefix) == LfsPath(l, cdup, prefix)
  {
    var path := LfsField(l);
    if StartsWith(path, prefix) && prefix != [] {
      assert path == prefix + path[|prefix|..];
      RemoveAbsent(path[|prefix|..], prefix);
    }
  }

  /** With prefix `a/`, the LFS file `a/ba/x` is listed as `bx` instead of `ba/x`. */
  lemma LfsPathRemovesInnerPrefix()
    ensures LfsPathAsWritten("0a1b * a/ba/x", "", "a/") == "bx"
    ensures LfsPath("0a1b * a/ba/x", "", "a/") == "ba/x"
  {
    assert "0a1b * a/ba/x" == "0a1b" + " " + "*" + " " + "a/ba/x";
    LfsFieldOf("0a1b", "*", "a/ba/x");
    RemoveInnerPrefix();
  }

  /**
   * What the difference does to `--exclude-lfs`: run in `a/`, ls-files lists
   * `ba/x` and the LFS listing names `a/ba/x`; as written the file is kept, the
   * corrected path drops it.
   */
  lemma ExcludeLfsInnerPrefix()
    ensures Without(["ba/x"], [LfsPathAsWritten("0a1b * a/ba/x", "", "a/")]) == ["ba/x"]
    ensures Without(["ba/x"], [LfsPath("0a1b * a/ba/x", "", "a/")]) == []
  {
    LfsPathRemovesInnerPrefix();
    var kept := LfsPathAsWritten("0a1b * a/ba/x", "", "a/");
    var dropped := LfsPath("0a1b * a/ba/x", "", "a/");
    assert |kept| == 2;
    WithoutOne("ba/x", kept);
    WithoutOne("ba/x", dropped);
  }

  lemma WithoutOne(x: string, y: string)
    ensures Without([x], [y]) == if x == y then [] else [x]
  {
    assert [x][..0] == [];
  }

  lemma RemoveInnerPrefix()
    ensures StartsWith("a/ba/x", "a/")
    ensures RemoveAll("a/ba/x", "a/") == "bx"
    ensures "a/ba/x"[2..] == "ba/x"
  {
    var s: string := "a/ba/x";
    assert s[..2] == "a/" && s[2..] == "ba/x";
    var t: string := "ba/x";
    assert t[..2] != "a/" && t[1..] == "a/x";
    var u: string := "a/x";
    assert u[..2] == "a/" && u[2..] == "x";
    assert RemoveAll("x", "a/") == "x";
  }

  function LfsArgs(opt: Opt): (args: seq<string>)
    ensures |args| == 2 + |opt.optGitLfs|
    ensures args[..2] == ["lfs", "ls-files"] && args[2..] == opt.optGitLfs
  {
    ["lfs", "ls-files"] + opt.optGitLfs
  }

  /**
   * `lfs_ls_files`: the LFS paths relative to the working directory, sorted;
   * git lfs, cdup and prefix are asked in that order and the first failure wins,
   * before the lfs output is decoded.
   */
  function LfsListing(opt: Opt, git: seq<string> -> Run): Result<seq<string>, Error>
  {
    var args := LfsArgs(opt);
    match CallResult(opt, args, git(args))
    case Err(e) => Err(e)
    case Ok(out) =>
      match RevParse(opt, "--show-cdup", git)
      case Err(e) => Err(e)
      case Ok(cdup) =>
        match RevParse(opt, "--show-prefix", git)
        case Err(e) => Err(e)
        case Ok(prefix) =>
          if !out.stdout.utf8 then Err(Utf8)
          else Ok(Sort(LfsPaths(Lines(out.stdout.text), cdup, prefix)))
  }

  function LfsPaths(lines: seq<string>, cdup: string, prefix: string): (r: seq<string>)
    ensures |r| == |lines|
    ensures forall i | 0 <= i < |lines| :: r[i] == LfsPath(lines[i], cdup, prefix)
  {
    seq(|lines|, i requires 0 <= i < |lines| => LfsPath(lines[i], cdup, prefix))
  }

  method LfsLsFiles(opt: Opt, git: seq<string> -> Run) returns (r: Result<seq<string>, Error>)
    ensures r == LfsListing(opt, git)
    ensures r.Ok? ==> Sorted(r.value)
  {
    var args := ["lfs", "ls-files"];
    args := args + opt.optGitLfs;
    var output := Call(opt, args, git);
    if output.Err? {
      return Err(output.error);
    }
    var cdup := ShowCdup(opt, git);
    if cdup.Err? {
      return Err(cdup.error);
    }
    var prefix := ShowPrefix(opt, git);
    if prefix.Err? {
      return Err(prefix.error);
    }
    if !output.value.stdout.utf8 {
      return Err(Utf8);
    }
    var list := Lines(output.value.stdout.text);
    var ret := NormalizeLfs(list, cdup.value, prefix.value);
    return Ok(Sort(ret));
  }

  /** The loop of `lfs_ls_files`: one path per lfs line, made relative to the working directory. */
  method NormalizeLfs(list: seq<string>, cdup: string, prefix: string) returns (ret: seq<string>)
    ensures ret == LfsPaths(list, cdup, prefix)
  {
    ret := [];
    for i := 0 to |list|
      invariant ret == LfsPaths(list[..i], cdup, prefix)
    {
      ret := ret + [LfsPath(list[i], cdup, prefix)];
    }
    assert list[..|list|] == list;
  }

  /** The entries of `list` that are not in `lfs`, in their order. */
  function Without(list: seq<string>, lfs: seq<string>): seq<string>
  {
    if list == [] then []
    else
      var x := list[|list| - 1];
      Without(list[..|list| - 1], lfs) + (if x in lfs then [] else [x])
  }

  /** Filtering keeps exactly the entries outside `lfs`, each as often as it was listed. */
  lemma {:induction false} WithoutCount(list: seq<string>, lfs: seq<string>)
    ensures forall x :: multiset(Without(list, lfs))[x] == if x in lfs then 0 else multiset(list)[x]
  {
    if list != [] {
      var init, y := list[..|list| - 1], list[|list| - 1];
      assert list == init + [y];
      WithoutCount(init, lfs);
    }
  }

  /** Filtering keeps the order, so a sorted list stays sorted. */
  lemma {:induction false} WithoutSorted(list: seq<string>, lfs: seq<string>)
    requires Sorted(list)
    ensures Sorted(Without(list, lfs))
  {
    if list != [] {
      var init, y := list[..|list| - 1], list[|list| - 1];
      assert Sorted(init);
      WithoutSorted(init, lfs);
      WithoutCount(init, lfs);
      var w := Without(init, lfs);
      forall k | 0 <= k < |w| ensures LessEq(w[k], y) {
        assert w[k] in multiset(w);
        assert w[k] in init;
      }
    }
  }

  /** `get_files`: the ls-files listing, less the LFS files when they are excluded. */
  function Files(opt: Opt, git: seq<string> -> Run): Result<seq<string>, Error>
  {
    match Listing(opt, git)
    case Err(e) => Err(e)
    case Ok(list) =>
      if !opt.excludeLfs then Ok(list)
      else
        match LfsListing(opt, git)
        case Err(e) => Err(e)
        case Ok(lfs) => Ok(Without(list, lfs))
  }

  method GetFiles(opt: Opt, git: seq<string> -> Run) returns (r: Result<seq<string>, Error>)
    ensures r == Files(opt, git)
  {
    var list := LsFiles(opt, git);
    if list.Err? {
      return Err(list.error);
    }
    if opt.excludeLfs {
      var lfsList := LfsLsFiles(opt, git);
      if lfsList.Err? {
        return Err(lfsList.error);
      }
      var newList := DropLfs(list.value, lfsList.value);
      return Ok(newList);
    }
    return list;
  }

  /** The loop of `get_files`: keep, in order, every listed path that git lfs does not report. */
  method DropLfs(paths: seq<string>, lfs: seq<string>) returns (newList: seq<string>)
    ensures newList == Without(paths, lfs)
  {
    newList := [];
    for i := 0 to |paths|
      invariant newList == Without(paths[..i], lfs)
    {
      assert paths[..i + 1][..i] == paths[..i];
      if paths[i] !in lfs {
        newList := newList + [paths[i]];
      }
    }
    assert paths[..|paths|] == paths;
  }

  /**
   * The file list is sorted; without `--exclude-lfs` it is the listing, and
   * with it a path survives exactly when git lfs does not report it.
   */
  lemma FilesSpec(opt: Opt, git: seq<string> -> Run)
    ensures Files(opt, git).Ok? ==> Sorted(Files(opt, git).value)
    ensures Listing(opt, git).Ok? && !opt.excludeLfs ==> Files(opt, git) == Listing(opt, git)
    ensures Files(opt, git).Ok? && opt.excludeLfs ==>
      Listing(opt, git).Ok? && LfsListing(opt, git).Ok? &&
      forall x :: multiset(Files(opt, git).value)[x]
               == if x in LfsListing(opt, git).value then 0 else multiset(Listing(opt, git).value)[x]
    ensures Files(opt, git).Err? <==>
      Listing(opt, git).Err? || (opt.excludeLfs && LfsListing(opt, git).Err?)
  {
    if Listing(opt, git).Ok? && opt.excludeLfs && LfsListing(opt, git).Ok? {
      WithoutSorted(Listing(opt, git).value, LfsListing(opt, git).value);
      WithoutCount(Listing(opt, git).value, LfsListing(opt, git).value);
    }
  }

  /** The command line of a failing `ls-files` carries every argument, as cmd_git.rs's test expects. */
  lemma GitFailedCommandLine(opt: Opt)
    requires opt.binGit == "git" && opt.optGit == ["-aaa"]
    requires !opt.includeSubmodule && !opt.includeUntracked
    ensures Join(" ", [opt.binGit] + LsFilesArgs(opt)) == "git ls-files --cached --exclude-standard -aaa"
  {
    var args := LsFilesArgs(opt);
    assert args == ["ls-files", "--cached", "--exclude-standard"] + [] + ["-aaa"];
    assert [opt.binGit] + args == ["git", "ls-files", "--cached", "--exclude-standard", "-aaa"];
    JoinFive(" ", "git", "ls-files", "--cached", "--exclude-standard", "-aaa");
    Spelled1();
    Spelled2();
    Spelled3();
    Spelled4();
  }

  // The expected command line, spelled out one word at a time: comparing the whole
  // literal in one step exceeds the solver's resource budget, so the proof is split.
  lemma Spelled1()
    ensures "git" + " " + "ls-files" == "git ls-files"
  {
  }

  lemma Spelled2()
    ensures "git ls-files" + " " + "--cached" == "git ls-files --cached"
  {
  }

  lemma Spelled3()
    ensures "git ls-files --cached" + " " + "--exclude-standard" == "git ls-files --cached --exclude-standard"
  {
  }

  lemma Spelled4()
    ensures "git ls-files --cached --exclude-standard" + " " + "-aaa" == "git ls-files --cached --exclude-standard -aaa"
  {
  }

  lemma JoinFive(sep: string, a: string, b: string, c: string, d: string, e: string)
    ensures Join(sep, [a, b, c, d, e]) == a + sep + b + sep + c + sep + d + sep + e
  {
    JoinCons(sep, d, [e]);
    assert [d] + [e] == [d, e];
    JoinCons(sep, c, [d, e]);
    assert [c] + [d, e] == [c, d, e];
    JoinCons(sep, b, [c, d, e]);
    assert [b] + [c, d, e] == [b, c, d, e];
    JoinCons(sep, a, [b, c, d, e]);
    assert [a] + [b, c, d, e] == [a, b, c, d, e];
  }

  /** A git binary that cannot be started fails the whole file listing with its path. */
  lemma SpawnFailure(opt: Opt, git: seq<string> -> Run)
    requires git(LsFilesArgs(opt)).SpawnFailed?
    ensures Listing(opt, git) == Err(CommandFailed(opt.binGit))
    ensures Files(opt, git) == Err(CommandFailed(opt.binGit))
  {
  }
}
