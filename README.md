# ptags core, modelled in Dafny

ptags builds a ctags tag file for a git work tree in parallel:

1. It asks git for the file list.
2. It deals the list round-robin into one text blob per worker.
3. It runs one ctags per blob.
4. It merges the workers' tag lines into one sorted tag file behind the ctags header.

This project models the sequential logic of that pipeline and proves what it promises.

- `Types`: `Option` and `Result`.
- `Options`: the command-line options and process output.
- `Text`: Rust's `str::lines`, `split`, `replace` and the `get_cmd` join.
- `Order`: string order and `Vec::sort`.
- `Multisets`: bags of lines, which the merge and sharding proofs count with.
- `Sharding`: `git_files`.
- `TagMerge`: the specification of the k-way merge.
- `CmdGit`: `src/cmd_git.rs`.
- `CmdCtags`: `src/cmd_ctags.rs`.
- `Bin`: `src/bin.rs`.
- `LegacyMain`: the older crate root `src/main.rs`.

Processes are parameters:

- git is a function from an argument vector to a `Run`: either `SpawnFailed` or `Ran(Output)`.
- ctags results arrive as the sequence of received results.
- Process output is `Bytes(text, utf8)`: the decoded text and whether it was valid UTF-8.

The loops of the source are methods with loop invariants. Each is proved against a specification function: `Merge`, `ShardText`, `Listing`, `LfsListing`, `Files` and `CtagsArgs`. The properties of those functions are proved as lemmas.

In these places the code behaves in a way a reader might not expect, and the model follows the code:

- A ctags or git binary that cannot be started is reported with the binary's path and the OS error, not with a command line (src/cmd_ctags.rs:99-100, src/cmd_git.rs:54-58).
- All `opt.thread` ctags results are received before the first one is checked. The run does not stop at the first failing worker (src/cmd_ctags.rs:106-125).
- The tags file is created before the header is fetched. A header failure therefore leaves a created, empty file (`created` is true in `Bin.WriteTags`; src/bin.rs:141-143).
- `opt.thread == 0` is allowed when the file list is empty: `i % opt.thread` only panics when a path is dealt (src/bin.rs:110-113). `Bin.GitFiles` requires exactly that.

## Model

| member | source | states |
|---|---|---|
| Order.Less | src/bin.rs:149 | Rust's `&str <`, also the order `ret.sort()` uses: only a non-empty string can be above another, and a proper prefix is below its extensions |
| Types.UnwrapOr | src/main.rs:129 | `unwrap_or(d)` is the value of a `Some`, and `d` for `None` |
| Order.LessTotal | src/bin.rs:149 | any two strings are equal or one is `<` the other, so the scan always has a comparable candidate |
| Order.LessTransitive | src/bin.rs:149 | string `<` is transitive |
| Order.LessIrreflexive | src/bin.rs:149 | no string is `<` itself, so an equal line never replaces the candidate |
| Order.OptionLess | src/main.rs:123 | `Option<&str>` order: only a `Some` can be above anything, and `None` is below every `Some` |
| Order.OptionLessStrict | src/main.rs:123 | that order is irreflexive, asymmetric and transitive |
| Order.Sort | src/cmd_git.rs:89 | `ret.sort()` yields a sorted permutation of its input |
| Order.SortedUnique | src/cmd_git.rs:89 | two sorted sequences with the same elements are equal, so which sort algorithm is used cannot be observed |
| Text.Split | src/cmd_git.rs:110 | `split(' ')` yields at least one piece and no piece contains the separator |
| Text.JoinSplit | src/cmd_git.rs:110 | joining the pieces of `split(c)` with `c` gives the string back |
| Text.SplitJoin | src/cmd_git.rs:110 | splitting a join of separator-free pieces gives the pieces back |
| Text.Lines | src/cmd_git.rs:84 | no line yielded by `lines()` contains `"\n"` |
| Text.LinesOfTerminated | src/bin.rs:113-114 | reading back the lines of a blob of line-free entries, each followed by `"\n"`, gives one line per entry, with a trailing `\r` dropped |
| Text.LinesTerminatedRoundTrip | src/bin.rs:113-114 | entries without `"\n"` or a trailing `\r` come back unchanged from their blob |
| Text.FirstLine | src/cmd_git.rs:127-128 | `lines().next().unwrap_or("")` contains no `"\n"` |
| Text.FirstLineOf | src/cmd_git.rs:127-128 | the first line of `l + "\n" + rest` is `l` less a trailing `\r` |
| Text.FirstLineSingle | src/cmd_git.rs:127-128 | text without a newline is its own first line, less one trailing `\r`; the empty text has no lines, so the result is `""` |
| Text.CommandLine | src/cmd_git.rs:140-146 | the `get_cmd` loop yields the binary and every argument joined by single spaces |
| Sharding.DealAt | src/bin.rs:112-115 | element `k` of shard `r` is path `r + k*n`, and the shard holds every such index in range |
| Sharding.DealSnoc | src/bin.rs:112-115 | dealing path number `|list|` appends it to shard `|list| % n` and to no other |
| Sharding.ShardsSnoc | src/bin.rs:112-115 | one loop step changes exactly one shard |
| Sharding.ShardsPartition | src/bin.rs:112-115 | the shards together hold every path exactly once |
| Sharding.ShardsTotal | src/bin.rs:110-115 | the shard sizes add up to the number of paths |
| Sharding.ShardTextSnoc | src/bin.rs:113-114 | one step appends `f + "\n"` to blob `i % n` and leaves every other blob as it was |
| Sharding.PushPath | src/bin.rs:112-115 | one loop step keeps every blob equal to the blob of the paths dealt so far |
| Sharding.ShardTextLines | src/bin.rs:113-114 | every blob is empty or ends in `"\n"`, and its lines are the shard's paths |
| Sharding.StatCount | src/bin.rs:182 | the statistics total `files.iter().map(lines().count()).sum()` equals the number of paths when no path contains a newline |
| TagMerge.AnyLine | src/bin.rs:145 | `lines.iter().any(is_some)` is false exactly when every cursor is exhausted |
| TagMerge.NextLine | src/bin.rs:137 | `iter.next()` is `None` exactly when the iterator is empty; otherwise its first line, the rest being `AfterNext` |
| TagMerge.AfterNext | src/bin.rs:156 | after `iter.next()` the iterator holds one line fewer: everything but the first line |
| TagMerge.MinIndex | src/bin.rs:146-153 | some index is the lowest minimum whenever a line is present |
| TagMerge.BelowAll | src/bin.rs:147-152 | taking a present line strictly below the candidate keeps the candidate strictly below every present line scanned so far |
| TagMerge.LowestMinUnique | src/main.rs:121-127 | at most one index is the lowest minimum, so the main.rs scan (`LegacyMain.SelectMin`) and the bin.rs scan (`Bin.SelectMin`) pick the same cursor |
| TagMerge.MergeStep | src/bin.rs:154-156 | each step emits the chosen line and advances only that cursor |
| TagMerge.Advance | src/bin.rs:156 | advancing a cursor removes exactly its current line from the lines still to come |
| TagMerge.MergeInterleaves | src/bin.rs:154-156 | the lines taken from each output are that output's lines in their order, and every step names an output |
| TagMerge.MergePermutation | src/bin.rs:145-157 | every line of every output is emitted exactly once; the count is the sum of the outputs' line counts |
| TagMerge.MergeSorted | src/bin.rs:146-153 | sorted outputs give a sorted merge |
| TagMerge.MergeDetermined | src/bin.rs:145-157 | sorted outputs holding the same lines merge to the same sequence, however they are split up |
| TagMerge.MergeIgnoresOrder | src/cmd_ctags.rs:107-109 | reordering sorted outputs does not change the merge |
| TagMerge.StartCursor | src/bin.rs:131-139 | reading each output's first line gives cursors whose remaining lines are the outputs' lines |
| TagMerge.AdvanceCursor | src/bin.rs:156 | `lines[min] = iters[min].next()` advances the cursor state exactly as the merge advances output `min` |
| TagMerge.CursorStep | src/bin.rs:145-157 | one loop step emits the lowest current line, keeps the cursors well formed and shrinks what is left |
| TagMerge.EmitStep | src/bin.rs:145-157 | one loop step, writing the lowest current line and `"\n"` and advancing its cursor, keeps content-so-far plus the merge still to come equal to the final content, and shrinks what is left |
| CmdGit.GetCmd | src/cmd_git.rs:140-146 | the command line is `bin_git` and the arguments joined by single spaces |
| CmdGit.CmdWords | src/cmd_git.rs:140-146 | a command line whose words hold no space splits back into the binary and its arguments |
| CmdGit.Call | src/cmd_git.rs:48-69 | succeeds exactly when git ran and exited successfully, returning its output. A spawn failure gives `CommandFailed(bin_git)`. A failed exit gives `GitFailed(cmd, stderr)`, or `Utf8` when stderr is not UTF-8 |
| CmdGit.LsFilesArgs | src/cmd_git.rs:72-80 | `ls-files --cached --exclude-standard`, then `--recurse-submodules` if submodules are included, else `--other` if untracked files are, then `opt_git` |
| CmdGit.LsFiles | src/cmd_git.rs:71-96 | the result is `Listing`; when it succeeds it is sorted and holds exactly the lines of git's stdout |
| CmdGit.GitFailedCommandLine | src/cmd_git.rs:264-268 | with `--opt-git=-aaa` the reported command line is `git ls-files --cached --exclude-standard -aaa` |
| CmdGit.SpawnFailure | src/cmd_git.rs:250-258 | a git binary that cannot be started fails the listing, and with it `get_files`, with `CommandFailed(bin_git)` |
| CmdGit.ShowCdup | src/cmd_git.rs:122-129 | the first line of `git rev-parse --show-cdup`, `""` when there is none; errors pass through |
| CmdGit.ShowPrefix | src/cmd_git.rs:131-138 | the first line of `git rev-parse --show-prefix`, `""` when there is none; errors pass through |
| CmdGit.ShowFirstLine | src/cmd_git.rs:125-128 | a `rev-parse` call's result is `RevParse`: the call's error, `Utf8`, or the first stdout line |
| CmdGit.RevParseLine | src/cmd_git.rs:127-128 | a single printed line comes back as that line |
| CmdGit.LfsField | src/cmd_git.rs:110 | the third space-separated field, `""` when there are fewer; it holds no space |
| CmdGit.LfsFieldOf | src/cmd_git.rs:110 | for a line `<oid> <mark> <path>` with space-free words the field is the path |
| CmdGit.LfsPath | src/cmd_git.rs:111-115 | a path under the prefix loses the leading prefix; any other path gets `cdup` in front |
| CmdGit.LfsPathAgrees | src/cmd_git.rs:111-115 | `replace` and the corrected stripping agree when the prefix does not occur again after the leading one |
| CmdGit.LfsPathAsWritten | src/cmd_git.rs:110-115 | the path as written: a path under the prefix gets at least the leading prefix removed, by `replace`; any other path gets `cdup` in front |
| CmdGit.LfsPathRemovesInnerPrefix | src/cmd_git.rs:112 | with prefix `a/`, the LFS path `a/ba/x` becomes `bx` as written, where `ba/x` was meant |
| CmdGit.ExcludeLfsInnerPrefix | src/cmd_git.rs:37-43 | with prefix `a/`, ls-files entry `ba/x` and LFS path `a/ba/x`, the code as written keeps `ba/x` under `--exclude-lfs`; the corrected path drops it |
| Text.StartsWith | src/cmd_git.rs:111 | `starts_with(p)` holds exactly when the text is `p` followed by the rest of the text |
| Text.RemoveAll | src/cmd_git.rs:112 | `str::replace(p, "")` never lengthens the text, leaves it unchanged for an empty or longer pattern, and removes at least a leading occurrence |
| CmdGit.RemoveAbsent | src/cmd_git.rs:112 | removing a pattern that occurs nowhere leaves the text unchanged |
| CmdGit.LfsArgs | src/cmd_git.rs:99-100 | the arguments are `lfs ls-files` followed by `opt_git_lfs`, in order |
| CmdGit.LfsPaths | src/cmd_git.rs:109-117 | entry `i` of the result is line `i`'s normalised path |
| CmdGit.NormalizeLfs | src/cmd_git.rs:107-117 | the loop builds exactly `LfsPaths`: one normalised path per lfs line, in order |
| CmdGit.LfsLsFiles | src/cmd_git.rs:98-120 | the result is `LfsListing` (lfs call, cdup, prefix, then decoding, first failure wins) and is sorted when it succeeds |
| CmdGit.WithoutCount | src/cmd_git.rs:37-43 | the filter keeps every listed path not in the LFS list, as often as it was listed, and drops every path in it |
| CmdGit.WithoutSorted | src/cmd_git.rs:37-43 | the filter keeps the order, so the sorted listing stays sorted |
| CmdGit.DropLfs | src/cmd_git.rs:37-43 | the filter loop builds exactly `Without(list, lfs_list)`: the listed paths git lfs does not report, in order |
| CmdGit.GetFiles | src/cmd_git.rs:33-46 | the result is `Files`: the listing, less the LFS paths when they are excluded |
| CmdGit.FilesSpec | src/cmd_git.rs:33-46 | the files are sorted. Without `--exclude-lfs` they are the listing unchanged. With it, a path survives exactly when git lfs does not report it. `get_files` fails exactly when one of its listings fails |
| CmdCtags.ExcludeArgs | src/cmd_ctags.rs:53-55 | one `--exclude=<e>` per exclude pattern, in order |
| CmdCtags.CtagsArgs | src/cmd_ctags.rs:47-56 | `-L -`, `-f -`, then `--sort=no` when unsorted, then the excludes in order, then `opt_ctags` |
| CmdCtags.BuildArgs | src/cmd_ctags.rs:47-56 | the push/append sequence builds exactly `CtagsArgs` |
| CmdCtags.GetCmd | src/cmd_ctags.rs:151-157 | the command line is `bin_ctags` and the arguments joined by single spaces |
| CmdCtags.CtagsFailedCommandLine | src/cmd_ctags.rs:250-258 | with `--opt-ctags=--u` the reported command line is `ctags -L - -f - --u` |
| CmdCtags.WorkerResult | src/cmd_ctags.rs:73-103 | a worker reports `CommandFailed(bin_ctags)` exactly on a spawn failure and `Io` exactly on a wait failure. Otherwise it reports the output with the empty stderr of `Stdio::null()` |
| CmdCtags.Check | src/cmd_ctags.rs:113-120 | a received result passes exactly when it is a successful output; a received error is passed on; a failed exit gives `Utf8` exactly when its stderr is not UTF-8, else `CtagsFailed(cmd, stderr)` |
| CmdCtags.CheckWorker | src/cmd_ctags.rs:111-120 | a worker's report passes the check exactly when ctags exited successfully; a failed exit gives `CtagsFailed(cmd, "")` |
| CmdCtags.Call | src/cmd_ctags.rs:111-125 | succeeds exactly when every received result passes the check, keeping one successful output per result in receipt order. Otherwise the error is that of the first result, in receipt order, that fails the check. Requires `thread <= |files|` and `thread` results |
| Bin.GitFiles | src/bin.rs:108-118 | a git error is passed on. Otherwise there are exactly `thread` blobs, and blob `s` is `ShardText(files, thread, s)` |
| Bin.Distribute | src/bin.rs:110-115 | the dealing loop builds `thread` blobs, blob `s` holding the paths at indices congruent to `s`, each followed by `"\n"` |
| Bin.SelectMin | src/bin.rs:146-153 | the scan stops on the lowest index whose line is minimal |
| Bin.OpenCursors | src/bin.rs:131-139 | with `validate_utf8` it fails exactly when some output is not UTF-8; otherwise the cursors hold every output's lines |
| Bin.MergeInto | src/bin.rs:145-157 | the content is the header followed by `Merge` of the cursors, each line followed by `"\n"` |
| Bin.WriteTags | src/bin.rs:128-160 | invalid UTF-8 under `validate_utf8` fails before the file is created; a failed create gives `Io`; a failed header gives the ctags error. Otherwise the content is the header and then every merged line followed by `"\n"` |
| Bin.ReceiptOrderIrrelevant | src/cmd_ctags.rs:107-109 | sorted outputs received in any order write the same tags |
| Bin.WrittenLines | src/bin.rs:145-157 | the written lines are every output line exactly once, sorted when each output is sorted, and each output's lines in order |
| LegacyMain.GitFiles | src/main.rs:88-97 | a git error is passed on. Otherwise there are `thread` blobs, blob `s` holding every listed path at an index congruent to `s`, each followed by `"\n"` |
| LegacyMain.SelectMin | src/main.rs:121-127 | `min_line` is `lines[min_index]`. With a line present, the index is the lowest minimal one; otherwise it is 0 with no line |
| LegacyMain.OpenCursors | src/main.rs:110-114 | fails exactly when some output is not UTF-8; otherwise the cursors hold every output's lines |
| LegacyMain.MergeInto | src/main.rs:120-130 | the content is the header followed by `Merge` of the cursors, each line followed by `"\n"` |
| LegacyMain.WriteTags | src/main.rs:107-133 | invalid UTF-8 fails before the file is created; otherwise the same create, header and content outcomes as `Bin.WriteTags` |

## Left out

- `CmdGit.Error`: `CommandFailed` carries only the binary's path. The `io::Error` that the source keeps next to it (src/cmd_git.rs:19,58) is an OS value and is not modelled.
- `CmdCtags.Error`: likewise, `CommandFailed` holds no `io::Error` (src/cmd_ctags.rs:32,100), and `Io` wraps none (src/cmd_ctags.rs:22). `Bin.Error` and `LegacyMain.Error` model their `Io` the same way.
- Thread spawning, the mpsc channel and child processes (src/cmd_ctags.rs:60-109) are concurrency and OS calls. `CmdCtags.Call` takes the `thread` received results in receipt order; `CmdCtags.WorkerResult` models what one worker sends; receipt order is any order.
- `set_pipe_size` (src/cmd_ctags.rs:86-87, 168-177) is guarded by `#[cfg(linux)]`. No standard target sets a `linux` cfg, so the compiled version is the no-op. The extra `Err` it could send is therefore not modelled.
- The single `stdin.write` of a shard ignores a short write. What ctags produces from its input is outside the model: ctags outputs are inputs.
- `RecvError` is not modelled: the main thread keeps a sender alive, so `recv` blocks rather than fails.
- `get_tags_header` and `is_exuberant_ctags` use temporary files and process execution. The header is a parameter of `WriteTags`.
- git process execution, including `current_dir`, is the `git` function parameter.
- UTF-8 decoding is a validity flag on already decoded text. `from_utf8_unchecked` on invalid bytes is modelled as yielding that text.
- Writes to the tags file, their errors and `BufWriter` flushing are not modelled. `File::create` is the boolean `create`.
- `run_opt`, `run`, `call_ctags` and the `get_tags_header` wrapper are left out. They are plain `?` compositions apart from timing and statistics printing, which are I/O.
- Verbose `eprintln!` output is left out as I/O.
- Option parsing (structopt) and error display texts are left out. `Opt` keeps only the fields the core reads.
- `unsorted` and `exclude` are read by src/cmd_ctags.rs but declared in neither `Opt` shown. They are fields of `Options.Opt`. `unsorted` only changes the ctags arguments.
- benches/ptags_bench.rs and src/lib.rs hold no logic of the core.
- src/main.rs belongs to an older crate layout: its own `Opt` has `ctags_bin`/`git_bin`, and it calls `CmdGit::ls_files` directly. `LegacyMain` is modelled against the src/cmd_git.rs present here. The older cmd_git.rs is not part of this model.
- `Text.Lines` uses the `lines()` of the Rust release this code was written against: `split_terminator('\n')`, then one trailing `\r` stripped from every line. Newer releases strip a `\r` only before `"\n"`.
- `Order.Less` compares characters, where Rust compares UTF-8 bytes. The two orders agree on valid text.
- `CmdGit.LfsField`: a path containing a space is cut at it. This is modelled as written: it is the third space-separated field of the line.
- `CmdGit.LfsPaths` uses the corrected `CmdGit.LfsPath` (see Findings), not `replace`. When the prefix recurs inside an LFS path, ptags lists a different path than the model; `CmdGit.LfsPathAgrees` shows the two agree otherwise.
- `CmdGit.NormalizeLfs` builds `LfsPaths`, so it also strips only the leading prefix where ptags removes every occurrence.
- `CmdGit.LfsLsFiles` and its specification `CmdGit.LfsListing` return the corrected paths for the same reason.
- `CmdGit.GetFiles`: under `--exclude-lfs`, an LFS file whose path holds the prefix again is kept by ptags but dropped by the model (`CmdGit.ExcludeLfsInnerPrefix` shows one). `CmdGit.Files`, `CmdGit.FilesSpec` and `Bin.GitFiles` inherit this. `LegacyMain.GitFiles` is unaffected: src/main.rs calls only `ls_files` and ignores `exclude_lfs`.

## Findings

| source | as written | input that shows it | evidently intended | confidence | as-written member | corrected member |
|---|---|---|---|---|---|---|
| src/cmd_git.rs:111-112 | a path that starts with the prefix has every occurrence of the prefix removed (`path.replace(&prefix, "")`) | running in directory `a/`, the LFS line `0a1b * a/ba/x` gives `bx` | strip only the leading prefix: `ba/x` | high, not executed | CmdGit.LfsPathAsWritten, CmdGit.LfsPathRemovesInnerPrefix, CmdGit.ExcludeLfsInnerPrefix | CmdGit.LfsPath |
