/**
 * `CmdCtags` of src/cmd_ctags.rs: the ctags argument vector, the command
 * line shown for it, what one worker thread reports, and the loop that folds
 * the received reports into the list of outputs or the first error.
 */
module CmdCtags {
  import opened Types
  import opened Text
  import opened Options

  datatype Error =
    | CtagsFailed(cmd: string, err: string)   // ctags exited unsuccessfully; its stderr
    | CommandFailed(path: string)             // ctags could not be spawned
    | Io                                      // waiting for the child failed
    | Utf8                                    // stderr that is not valid UTF-8

  /** Running ctags on one shard: it could not be started, waiting for it failed, or it exited. */
  datatype Launch = SpawnFailed | WaitFailed | Exited(success: bool, stdout: Bytes)

  /** `"--exclude=" + e` for every exclude pattern, in order. */
  function ExcludeArgs(exclude: seq<string>): (r: seq<string>)
    ensures |r| == |exclude|
    ensures forall k | 0 <= k < |exclude| :: r[k] == "--exclude=" + exclude[k]
  {
    seq(|exclude|, k requires 0 <= k < |exclude| => "--exclude=" + exclude[k])
  }

  /** The arguments every ctags worker gets. */
  function CtagsArgs(opt: Opt): (args: seq<string>)
    ensures |args| == 2 + (if opt.unsorted then 1 else 0) + |opt.exclude| + |opt.optCtags|
    ensures args[..2] == ["-L -", "-f -"]
    ensures opt.unsorted ==> args[2] == "--sort=no"
    ensures forall k | 0 <= k < |opt.exclude| ::
      args[2 + (if opt.unsorted then 1 else 0) + k] == "--exclude=" + opt.exclude[k]
    ensures args[|args| - |opt.optCtags|..] == opt.optCtags
  {
    ["-L -", "-f -"] + (if opt.unsorted then ["--sort=no"] else []) + ExcludeArgs(opt.exclude) + opt.optCtags
  }

  /** The argument-building part of `call`: two fixed arguments, `--sort=no`, the excludes, the user's options. */
  method BuildArgs(opt: Opt) returns (args: seq<string>)
    ensures args == CtagsArgs(opt)
  {
    args := [];
    args := args + ["-L -"];
    args := args + ["-f -"];
    if opt.unsorted {
      args := args + ["--sort=no"];
    }
    ghost var fixed := args;
    assert fixed == ["-L -", "-f -"] + (if opt.unsorted then ["--sort=no"] else []);
    for k := 0 to |opt.exclude|
      invariant args == fixed + ExcludeArgs(opt.exclude[..k])
    {
      ExcludeArgsSnoc(opt.exclude, k);
      args := args + ["--exclude=" + opt.exclude[k]];
    }
    assert opt.exclude[..|opt.exclude|] == opt.exclude;
    args := args + opt.optCtags;
  }

  lemma ExcludeArgsSnoc(exclude: seq<string>, k: nat)
    requires k < |exclude|
    ensures ExcludeArgs(exclude[..k + 1]) == ExcludeArgs(exclude[..k]) + ["--exclude=" + exclude[k]]
  {
  }

  /** The command line `get_cmd` shows: the ctags binary and every argument, separated by one space. */
  method GetCmd(opt: Opt, args: seq<string>) returns (cmd: string)
    ensures cmd == Join(" ", [opt.binCtags] + args)
  {
    cmd := CommandLine(opt.binCtags, args);
  }

  /** The command line of a run with `--opt-ctags=--u`, as cmd_ctags.rs's test expects. */
  lemma CtagsFailedCommandLine(opt: Opt)
    requires opt.binCtags == "ctags" && !opt.unsorted && opt.exclude == [] && opt.optCtags == ["--u"]
    ensures Join(" ", [opt.binCtags] + CtagsArgs(opt)) == "ctags -L - -f - --u"
  {
    var args := CtagsArgs(opt);
    assert |args| == 3 && args[2] == "--u";
    assert args == args[..2] + [args[2]];
    assert [opt.binCtags] + args == ["ctags", "-L -", "-f -", "--u"];
    JoinCons(" ", "-f -", ["--u"]);
    assert ["-f -"] + ["--u"] == ["-f -", "--u"];
    JoinCons(" ", "-L -", ["-f -", "--u"]);
    assert ["-L -"] + ["-f -", "--u"] == ["-L -", "-f -", "--u"];
    JoinCons(" ", "ctags", ["-L -", "-f -", "--u"]);
    assert ["ctags"] + ["-L -", "-f -", "--u"] == ["ctags", "-L -", "-f -", "--u"];
  }

  /**
   * What one worker thread sends over the channel. The child's stderr goes to
   * `Stdio::null()`, so a child that ran reports an empty, valid stderr.
   */
  function WorkerResult(opt: Opt, launch: Launch): (r: Result<Output, Error>)
    ensures r == Err(CommandFailed(opt.binCtags)) <==> launch.SpawnFailed?
    ensures r == Err(Io) <==> launch.WaitFailed?
    ensures r.Ok? <==> launch.Exited?
    ensures r.Ok? ==> r.value == Output(launch.success, launch.stdout, Bytes("", true))
  {
    match launch
    case SpawnFailed => Err(CommandFailed(opt.binCtags))
    case WaitFailed => Err(Io)
    case Exited(success, stdout) => Ok(Output(success, stdout, Bytes("", true)))
  }

  /** What the check loop makes of one received result: nothing if it is a success, else the error it stops with. */
  function Check(cmd: string, received: Result<Output, Error>): (r: Option<Error>)
    ensures r.None? <==> received.Ok? && received.value.success
    ensures received.Err? ==> r == Some(received.error)
    ensures received.Ok? && r.Some? ==> (r.value.Utf8? <==> !received.value.stderr.utf8)
    ensures received.Ok? && r.Some? && !r.value.Utf8? ==> r.value == CtagsFailed(cmd, received.value.stderr.text)
  {
    match received
    case Err(e) => Some(e)
    case Ok(out) =>
      if out.success then None
      else if !out.stderr.utf8 then Some(Utf8)
      else Some(CtagsFailed(cmd, out.stderr.text))
  }

  /** A worker's result fails the check exactly when the child did not run to a successful exit; a failed exit carries an empty stderr. */
  lemma CheckWorker(opt: Opt, cmd: string, launch: Launch)
    ensures Check(cmd, WorkerResult(opt, launch)) ==
      match launch
      case SpawnFailed => Some(CommandFailed(opt.binCtags))
      case WaitFailed => Some(Io)
      case Exited(success, _) => if success then None else Some(CtagsFailed(cmd, ""))
  {
  }

  /**
   * `call` once the `opt.thread` results are received, in receipt order:
   * the first result that fails the check decides the error; otherwise
   * every output is kept, in receipt order.
   */
  method Call(opt: Opt, files: seq<string>, received: seq<Result<Output, Error>>)
    returns (r: Result<seq<Output>, Error>)
    requires opt.thread <= |files| && |received| == opt.thread
    ensures r.Ok? <==> forall k | 0 <= k < |received| :: Check(Join(" ", [opt.binCtags] + CtagsArgs(opt)), received[k]).None?
    ensures r.Ok? ==> |r.value| == |received|
    ensures r.Ok? ==> forall k | 0 <= k < |received| :: received[k] == Ok(r.value[k]) && r.value[k].success
    ensures r.Err? ==> exists k | 0 <= k < |received| ::
      && (forall j | 0 <= j < k :: Check(Join(" ", [opt.binCtags] + CtagsArgs(opt)), received[j]).None?)
      && Check(Join(" ", [opt.binCtags] + CtagsArgs(opt)), received[k]) == Some(r.error)
  {
    var args := BuildArgs(opt);
    var cmd := GetCmd(opt, args);
    var outputs := [];
    for k := 0 to |received|
      invariant |outputs| == k
      invariant forall j | 0 <= j < k :: Check(cmd, received[j]).None?
      invariant forall j | 0 <= j < k :: received[j] == Ok(outputs[j]) && outputs[j].success
    {
      var child := received[k];
      if child.Err? {
        return Err(child.error);
      }
      var output := child.value;
      if !output.success {
        if !output.stderr.utf8 {
          return Err(Utf8);
        }
        return Err(CtagsFailed(cmd, output.stderr.text));
      }
      outputs := outputs + [output];
    }
    return Ok(outputs);
  }
}
