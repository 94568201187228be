/**
 * The older crate root src/main.rs: the same `git_files` sharding and the
 * same merge as src/bin.rs, with a scan that carries the candidate line
 * along, starts at index 0, and always checks UTF-8.
 */
module LegacyMain {
  import opened Types
  import opened Order
  import opened Text
  import opened Options
  import opened Multisets
  import opened Sharding
  import opened TagMerge
  import CmdGit
  import CmdCtags

  datatype Error =
    | GitError(git: CmdGit.Error)
    | CtagsError(ctags: CmdCtags.Error)
    | Io                                   // creating the tags file failed
    | FromUtf8Error                        // an output that is not valid UTF-8

  /** `git_files` of main.rs: the `ls_files` list dealt round-robin, `f + "\n"` pushed in one piece. */
  method GitFiles(opt: Opt, git: seq<string> -> CmdGit.Run) returns (r: Result<seq<string>, Error>)
    requires opt.thread > 0 || CmdGit.Listing(opt, git).Err? || CmdGit.Listing(opt, git).value == []
    ensures CmdGit.Listing(opt, git).Err? ==> r == Err(GitError(CmdGit.Listing(opt, git).error))
    ensures CmdGit.Listing(opt, git).Ok? ==> r.Ok? && |r.value| == opt.thread
    ensures CmdGit.Listing(opt, git).Ok? ==> forall s | 0 <= s < opt.thread ::
      r.value[s] == ShardText(CmdGit.Listing(opt, git).value, opt.thread, s)
  {
    var list := CmdGit.LsFiles(opt, git);
    if list.Err? {
      return Err(GitError(list.error));
    }
    var n, paths := opt.thread, list.value;
    var files := seq(n, _ => "");
    for i := 0 to |paths|
      invariant |files| == n
      invariant forall s | 0 <= s < n :: files[s] == ShardText(paths[..i], n, s)
    {
      ghost var before := files;
      files := files[i % n := files[i % n] + (paths[i] + "\n")];
      PushPath(before, files, paths, i, n);
    }
    assert paths[..|paths|] == paths;
    return Ok(files);
  }

  /**
   * The scan of main.rs's `write_tags`: `(min_index, min_line)` starts at
   * `(0, lines[0])` and moves to `i` only when line `i` is present and the
   * candidate is absent or strictly larger (`Option` ordering).
   */
  method SelectMin(lines: seq<Option<string>>) returns (minIndex: nat, minLine: Option<string>)
    requires |lines| > 0
    ensures minIndex < |lines| && minLine == lines[minIndex]
    ensures AnyLine(lines) ==> IsLowestMin(lines, minIndex)
    ensures !AnyLine(lines) ==> minIndex == 0 && minLine == None
  {
    minIndex, minLine := 0, lines[0];
    for i := 0 to |lines|
      invariant minIndex <= i && minIndex < |lines| && minLine == lines[minIndex]
      invariant minLine.None? ==> minIndex == 0 && forall j | 0 <= j < i :: lines[j].None?
      invariant minLine.Some? ==>
        forall j | 0 <= j < i && lines[j].Some? :: LessEq(minLine.value, lines[j].value)
      invariant minLine.Some? ==>
        forall j | 0 <= j < minIndex && lines[j].Some? :: Less(minLine.value, lines[j].value)
    {
      if lines[i].Some? {
        LessIrreflexive(lines[i].value);
      }
      if !lines[i].None? && (minLine.None? || OptionLess(lines[i], minLine)) {
        BelowAll(lines, minIndex, i);
        minIndex := i;
        minLine := lines[i];
      } else if lines[i].Some? {
        LessTotal(minLine.value, lines[i].value);
      }
    }
  }

  /**
   * `write_tags` of main.rs: every output must be valid UTF-8 before the file
   * is created; the content is the header and then the merged lines.
   */
  method WriteTags(outputs: seq<Output>, create: bool, header: Result<string, CmdCtags.Error>)
    returns (created: bool, r: Result<string, Error>)
    ensures !AllUtf8(outputs) ==> !created && r == Err(FromUtf8Error)
    ensures AllUtf8(outputs) ==> created == create
    ensures AllUtf8(outputs) && !create ==> r == Err(Io)
    ensures AllUtf8(outputs) && create && header.Err? ==> r == Err(CtagsError(header.error))
    ensures AllUtf8(outputs) && create && header.Ok? ==>
      r == Ok(header.value + Terminated(Merge(Texts(outputs))))
  {
    var ok, lines, iters := OpenCursors(outputs);
    if !ok {
      return false, Err(FromUtf8Error);
    }
    if !create {
      return false, Err(Io);
    }
    if header.Err? {
      return true, Err(CtagsError(header.error));
    }
    var content := MergeInto(header.value, lines, iters);
    return true, Ok(content);
  }

  /** The first loop of main.rs's `write_tags`: decode every output, stopping at the first invalid one, and read its first line. */
  method OpenCursors(outputs: seq<Output>) returns (ok: bool, lines: seq<Option<string>>, iters: seq<seq<string>>)
    ensures ok <==> AllUtf8(outputs)
    ensures ok ==> Fused(lines, iters) && Rests(lines, iters) == Texts(outputs)
  {
    lines, iters := [], [];
    for k := 0 to |outputs|
      invariant |lines| == k && |iters| == k
      invariant forall i | 0 <= i < k :: outputs[i].stdout.utf8
      invariant Opened(lines, iters, outputs)
    {
      if !outputs[k].stdout.utf8 {
        return false, lines, iters;
      }
      var iter := Lines(outputs[k].stdout.text);
      OpenNext(lines, iters, outputs);
      lines := lines + [NextLine(iter)];
      iters := iters + [AfterNext(iter)];
    }
    StartCursor(lines, iters, outputs);
    ok := true;
  }

  /** The `while` loop of main.rs: advance the chosen cursor, then write `min_line.unwrap_or("")` and `"\n"`. */
  method MergeInto(header: string, lines0: seq<Option<string>>, iters0: seq<seq<string>>) returns (content: string)
    requires Fused(lines0, iters0)
    ensures content == header + Terminated(Merge(Rests(lines0, iters0)))
  {
    var lines, iters := lines0, iters0;
    content := header;
    while AnyLine(lines)
      invariant Fused(lines, iters) && |lines| == |lines0|
      invariant content + Terminated(Merge(Rests(lines, iters))) == header + Terminated(Merge(Rests(lines0, iters0)))
      decreases |Bag(Rests(lines, iters))|
    {
      var minIndex, minLine := SelectMin(lines);
      ghost var before, beforeIters, written := lines, iters, content;
      var it := iters[minIndex];
      lines := lines[minIndex := NextLine(it)];
      iters := iters[minIndex := AfterNext(it)];
      EmitStep(header + Terminated(Merge(Rests(lines0, iters0))), written, before, beforeIters, minIndex, lines, iters);
      content := content + (UnwrapOr(minLine, "") + "\n");
    }
    HeadsOfRests(lines, iters);
    assert content + "" == content;
  }
}
