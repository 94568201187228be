/**
 * The run configuration (`Opt` in src/bin.rs) reduced to the fields the core
 * reads, and the captured result of a finished child process
 * (`std::process::Output`).
 */
module Options {

  datatype Opt = Opt(
    thread: nat,                // -t, number of shards and ctags workers
    binCtags: string,           // --bin-ctags
    binGit: string,             // --bin-git
    optCtags: seq<string>,      // -c, passed to ctags after the built-in arguments
    optGit: seq<string>,        // -g, passed to git ls-files
    optGitLfs: seq<string>,     // --opt-git-lfs, passed to git lfs ls-files
    excludeLfs: bool,           // --exclude-lfs
    includeUntracked: bool,     // --include-untracked
    includeIgnored: bool,       // --include-ignored (parsed, read by nothing)
    includeSubmodule: bool,     // --include-submodule
    validateUtf8: bool,         // --validate-utf8
    unsorted: bool,             // read by cmd_ctags.rs only
    exclude: seq<string>        // read by cmd_ctags.rs only
  )

  /** Raw process output: the text it decodes to, and whether it is valid UTF-8. */
  datatype Bytes = Bytes(text: string, utf8: bool)

  /** A finished child: whether its exit status was success, and what it wrote. */
  datatype Output = Output(success: bool, stdout: Bytes, stderr: Bytes)
}
