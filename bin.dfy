/**
 * The driver functions of src/bin.rs: `git_files`, which deals the file
 * list round-robin into one text blob per ctags worker, and `write_tags`,
 * which merges the workers' outputs behind the tags header.
 */
module Bin {
  import opened Types
  import opened Order
  import opened Text
  import opened Multisets
  import opened Options
  import opened Sharding
  import opened TagMerge
  import CmdGit
  import CmdCtags

  datatype Error =
    | GitError(git: CmdGit.Error)
    | CtagsError(ctags: CmdCtags.Error)
    | Io                                   // creating the tags file failed
    | FromUtf8Error                        // an output that is not valid UTF-8

  /**
   * `git_files`: shard `s` of the `opt.thread` blobs holds every path whose
   * index is `s` modulo `opt.thread`, in order, each followed by `"\n"`.
   * `i % opt.thread` panics for `opt.thread == 0` unless the list is empty.
   */
  method GitFiles(opt: Opt, git: seq<string> -> CmdGit.Run) returns (r: Result<seq<string>, Error>)
    requires opt.thread > 0 || CmdGit.Files(opt, git).Err? || CmdGit.Files(opt, git).value == []
    ensures CmdGit.Files(opt, git).Err? ==> r == Err(GitError(CmdGit.Files(opt, git).error))
    ensures CmdGit.Files(opt, git).Ok? ==> r.Ok? && |r.value| == opt.thread
    ensures CmdGit.Files(opt, git).Ok? ==> forall s | 0 <= s < opt.thread ::
      r.value[s] == ShardText(CmdGit.Files(opt, git).value, opt.thread, s)
  {
    var list := CmdGit.GetFiles(opt, git);
    if list.Err? {
      return Err(GitError(list.error));
    }
    var files := Distribute(list.value, opt.thread);
    return Ok(files);
  }

  /** The loop of `git_files`: path `i` and then `"\n"` are appended to blob `i % n`. */
  method Distribute(list: seq<string>, n: nat) returns (files: seq<string>)
    requires n > 0 || list == []
    ensures |files| == n
    ensures forall s | 0 <= s < n :: files[s] == ShardText(list, n, s)
  {
    files := seq(n, _ => "");
    for i := 0 to |list|
      invariant |files| == n
      invariant forall s | 0 <= s < n :: files[s] == ShardText(list[..i], n, s)
    {
      var f := list[i];
      ghost var before := files;
      files := files[i % n := files[i % n] + f];
      files := files[i % n := files[i % n] + "\n"];
      assert before[i % n] + f + "\n" == before[i % n] + (f + "\n");
      PushPath(before, files, list, i, n);
    }
    assert list[..|list|] == list;
  }

  /**
   * The scan of `write_tags`: start at index 0 and move to `i` only when
   * line `i` is present and the candidate is absent or strictly larger.
   */
  method SelectMin(lines: seq<Option<string>>) returns (min: nat)
    requires AnyLine(lines)
    ensures IsLowestMin(lines, min)
  {
    min := 0;
    var i := 1;
    while i < |lines|
      invariant 1 <= i <= |lines|
      invariant min < i
      invariant lines[min].None? ==> forall j | 0 <= j < i :: lines[j].None?
      invariant lines[min].Some? ==>
        forall j | 0 <= j < i && lines[j].Some? :: LessEq(lines[min].value, lines[j].value)
      invariant lines[min].Some? ==>
        forall j | 0 <= j < min && lines[j].Some? :: Less(lines[min].value, lines[j].value)
    {
      if !lines[i].None? && (lines[min].None? || Less(lines[i].value, lines[min].value)) {
        BelowAll(lines, min, i);
        min := i;
      } else if lines[i].Some? {
        LessTotal(lines[min].value, lines[i].value);
      }
      i := i + 1;
    }
  }

  /**
   * `write_tags`. `create` says whether the tags file could be created and
   * `header` is what `get_tags_header` returned; `created` reports whether
   * the file was created. The content written is the header followed by the
   * merge of the outputs' lines, each followed by `"\n"`.
   */
  method WriteTags(opt: Opt, outputs: seq<Output>, create: bool, header: Result<string, CmdCtags.Error>)
    returns (created: bool, r: Result<string, Error>)
    ensures opt.validateUtf8 && !AllUtf8(outputs) ==> !created && r == Err(FromUtf8Error)
    ensures !(opt.validateUtf8 && !AllUtf8(outputs)) ==> created == create
    ensures !(opt.validateUtf8 && !AllUtf8(outputs)) && !create ==> r == Err(Io)
    ensures !(opt.validateUtf8 && !AllUtf8(outputs)) && create && header.Err? ==>
      r == Err(CtagsError(header.error))
    ensures !(opt.validateUtf8 && !AllUtf8(outputs)) && create && header.Ok? ==>
      r == Ok(header.value + Terminated(Merge(Texts(outputs))))
  {
    var ok, lines, iters := OpenCursors(opt.validateUtf8, outputs);
    if !ok {
      return false, Err(FromUtf8Error);
    }
    if !create {
      return false, Err(Io);
    }
    created := true;
    if header.Err? {
      return true, Err(CtagsError(header.error));
    }
    var content := MergeInto(header.value, lines, iters);
    return true, Ok(content);
  }

  /**
   * The first loop of `write_tags`: decode every output (checking UTF-8 when
   * `validate` is set, stopping at the first invalid one) and read its first line.
   */
  method OpenCursors(validate: bool, outputs: seq<Output>)
    returns (ok: bool, lines: seq<Option<string>>, iters: seq<seq<string>>)
    ensures ok <==> !(validate && !AllUtf8(outputs))
    ensures ok ==> Fused(lines, iters) && Rests(lines, iters) == Texts(outputs)
  {
    lines, iters := [], [];
    for k := 0 to |outputs|
      invariant |lines| == k && |iters| == k
      invariant validate ==> forall i | 0 <= i < k :: outputs[i].stdout.utf8
      invariant Opened(lines, iters, outputs)
    {
      if validate && !outputs[k].stdout.utf8 {
        return false, lines, iters;
      }
      var iter := Lines(outputs[k].stdout.text);
      OpenNext(lines, iters, outputs);
      lines := lines + [NextLine(iter)];
      iters := iters + [AfterNext(iter)];
    }
    StartCursor(lines, iters, outputs);
    ok := true;
  }

  /**
   * The `while` loop of `write_tags`: after `header`, every step writes the
   * lowest current line and `"\n"` and advances that cursor, until all are exhausted.
   */
  method MergeInto(header: string, lines0: seq<Option<string>>, iters0: seq<seq<string>>) returns (content: string)
    requires Fused(lines0, iters0)
    ensures content == header + Terminated(Merge(Rests(lines0, iters0)))
  {
    var lines, iters := lines0, iters0;
    content := header;
    while AnyLine(lines)
      invariant Fused(lines, iters) && |lines| == |lines0|
      invariant content + Terminated(Merge(Rests(lines, iters))) == header + Terminated(Merge(Rests(lines0, iters0)))
      decreases |Bag(Rests(lines, iters))|
    {
      var min := SelectMin(lines);
      ghost var before, beforeIters, written := lines, iters, content;
      var line := lines[min].value;
      content := content + line;
      content := content + "\n";
      var it := iters[min];
      lines := lines[min := NextLine(it)];
      iters := iters[min := AfterNext(it)];
      EmitStep(header + Terminated(Merge(Rests(lines0, iters0))), written, before, beforeIters, min, lines, iters);
    }
    HeadsOfRests(lines, iters);
    assert content + "" == content;
  }


  /**
   * The outputs reach `write_tags` in channel-receipt order. When every
   * worker's output is sorted, any receipt order writes the same tags.
   */
  lemma ReceiptOrderIrrelevant(a: seq<Output>, b: seq<Output>)
    requires multiset(a) == multiset(b)
    requires forall i | 0 <= i < |a| :: Sorted(StdoutLines(a[i]))
    ensures Merge(Texts(a)) == Merge(Texts(b))
  {
    MapReorder(StdoutLines, a, b);
    MergeIgnoresOrder(Texts(a), Texts(b));
  }

  /**
   * What the tags file holds after the header: every output line exactly
   * once, sorted when each output is sorted, each output's lines in their
   * order.
   */
  lemma WrittenLines(outputs: seq<Output>)
    ensures multiset(Merge(Texts(outputs))) == Bag(Texts(outputs))
    ensures |Merge(Texts(outputs))| == TotalLen(Texts(outputs))
    ensures (forall i | 0 <= i < |outputs| :: Sorted(StdoutLines(outputs[i]))) ==> Sorted(Merge(Texts(outputs)))
    ensures |Schedule(Texts(outputs))| == |Merge(Texts(outputs))|
    ensures forall i | 0 <= i < |outputs| ::
      Project(Merge(Texts(outputs)), Schedule(Texts(outputs)), i) == StdoutLines(outputs[i])
  {
    var ts := Texts(outputs);
    MergePermutation(ts);
    MergeInterleaves(ts);
    if forall i | 0 <= i < |outputs| :: Sorted(StdoutLines(outputs[i])) {
      MergeSorted(ts);
    }
  }
}
