/**
 * The string operations of Rust's `str` that the core relies on:
 * `split`, `lines`, `starts_with`, `replace(p, "")`, the joining done by
 * `get_cmd`, and the newline-terminated blobs the sharder builds.
 */
module Text {

  /** The index of the first `c` in `s`, or `|s|` when there is none. */
  function IndexOf(s: string, c: char): (k: nat)
    ensures k <= |s|
    ensures k < |s| ==> s[k] == c
    ensures forall i | 0 <= i < k :: s[i] != c
  {
    if s == [] then 0
    else if s[0] == c then 0
    else 1 + IndexOf(s[1..], c)
  }

  /** `parts[0] + sep + parts[1] + sep + ...`, the empty string for no parts. */
  function Join(sep: string, parts: seq<string>): string
  {
    if |parts| == 0 then ""
    else if |parts| == 1 then parts[0]
    else parts[0] + sep + Join(sep, parts[1..])
  }

  lemma {:induction false} JoinSnoc(sep: string, parts: seq<string>, x: string)
    requires |parts| >= 1
    ensures Join(sep, parts + [x]) == Join(sep, parts) + sep + x
  {
    if |parts| > 1 {
      assert (parts + [x])[1..] == parts[1..] + [x];
      JoinSnoc(sep, parts[1..], x);
    }
  }

  lemma JoinCons(sep: string, x: string, rest: seq<string>)
    requires |rest| >= 1
    ensures Join(sep, [x] + rest) == x + sep + Join(sep, rest)
  {
    assert ([x] + rest)[1..] == rest;
  }

  /**
   * The `get_cmd` loop of both command wrappers: start from the binary and
   * append `" " + arg` for every argument.
   */
  method CommandLine(bin: string, args: seq<string>) returns (cmd: string)
    ensures cmd == Join(" ", [bin] + args)
  {
    cmd := bin;
    for i := 0 to |args|
      invariant cmd == Join(" ", [bin] + args[..i])
    {
      JoinSnoc(" ", [bin] + args[..i], args[i]);
      assert [bin] + args[..i + 1] == [bin] + args[..i] + [args[i]];
      cmd := cmd + " " + args[i];
    }
    assert args[..|args|] == args;
  }

  // Concat3 and Concat4 re-associate a concatenation as one separate step, which keeps
  // the proofs that use them within the solver's resource budget.
  lemma Concat3(a: string, b: string, c: string)
    ensures a + b + c == a + (b + c)
  {
  }

  lemma Concat4(a: string, b: string, c: string, d: string)
    ensures a + b + c + d == a + (b + c + d)
  {
  }

  /** `s.split(c)`: the pieces between occurrences of `c`; `""` gives `[""]`. */
  function Split(s: string, c: char): (parts: seq<string>)
    ensures |parts| >= 1
    ensures forall i | 0 <= i < |parts| :: c !in parts[i]
    decreases |s|
  {
    var k := IndexOf(s, c);
    if k == |s| then [s] else [s[..k]] + Split(s[k + 1..], c)
  }

  /** Joining the pieces back with `c` gives the original string. */
  lemma {:induction false} JoinSplit(s: string, c: char)
    ensures Join([c], Split(s, c)) == s
    decreases |s|
  {
    var k := IndexOf(s, c);
    if k < |s| {
      var head, rest := s[..k], s[k + 1..];
      assert Split(s, c) == [head] + Split(rest, c);
      JoinSplit(rest, c);
      JoinCons([c], head, Split(rest, c));
      assert s == head + [c] + rest;
    }
  }

  /** Splitting a join of `c`-free pieces gives the pieces back. */
  lemma {:induction false} SplitJoin(parts: seq<string>, c: char)
    requires |parts| >= 1
    requires forall i | 0 <= i < |parts| :: c !in parts[i]
    ensures Split(Join([c], parts), c) == parts
  {
    if |parts| == 1 {
      IndexOfAbsent(parts[0], c);
    } else {
      var head, tail := parts[0], parts[1..];
      assert Join([c], parts) == head + [c] + Join([c], tail);
      SplitCons(head, c, Join([c], tail));
      assert forall i | 0 <= i < |tail| :: c !in tail[i] by {
        forall i | 0 <= i < |tail| ensures c !in tail[i] {
          assert tail[i] == parts[i + 1];
        }
      }
      SplitJoin(tail, c);
      assert parts == [head] + tail;
    }
  }

  /** A piece free of `c`, then `c`: splitting yields that piece first. */
  lemma SplitCons(head: string, c: char, rest: string)
    requires c !in head
    ensures Split(head + [c] + rest, c) == [head] + Split(rest, c)
  {
    var s := head + [c] + rest;
    IndexOfAt(head, c, rest);
    assert s[..|head|] == head;
    assert s[|head| + 1..] == rest;
  }

  lemma IndexOfAbsent(s: string, c: char)
    requires c !in s
    ensures IndexOf(s, c) == |s|
  {
  }

  lemma IndexOfAt(a: string, c: char, b: string)
    requires c !in a
    ensures IndexOf(a + [c] + b, c) == |a|
  {
    var s := a + [c] + b;
    assert s[|a|] == c;
  }

  /** The line terminator that `lines()` drops besides `\n`: one final `\r`. */
  function StripCR(l: string): (r: string)
    ensures |l| > 0 && l[|l| - 1] == '\r' ==> l == r + "\r"
    ensures !(|l| > 0 && l[|l| - 1] == '\r') ==> r == l
  {
    if |l| > 0 && l[|l| - 1] == '\r' then l[..|l| - 1] else l
  }

  predicate EndsWithCR(l: string)
  {
    |l| > 0 && l[|l| - 1] == '\r'
  }

  /**
   * `s.lines()`: the pieces of `s.split('\n')` where a final empty piece is
   * left out (`split_terminator`), each without one trailing `\r`.
   */
  function Lines(s: string): (ls: seq<string>)
    ensures forall i | 0 <= i < |ls| :: '\n' !in ls[i]
  {
    var parts := Split(s, '\n');
    var kept := if parts[|parts| - 1] == "" then parts[..|parts| - 1] else parts;
    assert forall i | 0 <= i < |kept| :: '\n' !in kept[i] by {
      forall i | 0 <= i < |kept| ensures '\n' !in kept[i] {
        assert kept[i] == parts[i];
      }
    }
    seq(|kept|, i requires 0 <= i < |kept| => StripCR(kept[i]))
  }

  /** The text blob made of every line followed by `"\n"`. */
  function Terminated(ls: seq<string>): (s: string)
    ensures s == [] || s[|s| - 1] == '\n'
  {
    if ls == [] then "" else ls[0] + "\n" + Terminated(ls[1..])
  }

  lemma {:induction false} TerminatedSnoc(ls: seq<string>, x: string)
    ensures Terminated(ls + [x]) == Terminated(ls) + x + "\n"
  {
    if ls != [] {
      assert (ls + [x])[1..] == ls[1..] + [x];
      TerminatedSnoc(ls[1..], x);
    } else {
      assert [x][1..] == [];
    }
  }

  lemma {:induction false} SplitTerminated(ls: seq<string>)
    requires forall i | 0 <= i < |ls| :: '\n' !in ls[i]
    ensures Split(Terminated(ls), '\n') == ls + [""]
  {
    if ls != [] {
      var tail := ls[1..];
      NoNewlineTail(ls);
      calc {
        Split(Terminated(ls), '\n');
        { assert ls == [ls[0]] + tail; }
        Split(Terminated([ls[0]] + tail), '\n');
        { SplitTerminatedCons(ls[0], tail); }
        [ls[0]] + Split(Terminated(tail), '\n');
        { SplitTerminated(tail); }
        [ls[0]] + (tail + [""]);
        { assert ls == [ls[0]] + tail; }
        ls + [""];
      }
    }
  }

  lemma NoNewlineTail(ls: seq<string>)
    requires ls != [] && forall i | 0 <= i < |ls| :: '\n' !in ls[i]
    ensures forall i | 0 <= i < |ls[1..]| :: '\n' !in ls[1..][i]
  {
    forall i | 0 <= i < |ls[1..]| ensures '\n' !in ls[1..][i] {
      assert ls[1..][i] == ls[i + 1];
    }
  }

  lemma SplitTerminatedCons(head: string, tail: seq<string>)
    requires '\n' !in head
    ensures Split(Terminated([head] + tail), '\n') == [head] + Split(Terminated(tail), '\n')
  {
    assert ([head] + tail)[1..] == tail;
    assert Terminated([head] + tail) == head + ['\n'] + Terminated(tail);
    SplitCons(head, '\n', Terminated(tail));
  }

  /**
   * Reading back a blob built by Terminated gives one line per entry,
   * each without a trailing `\r`: `x.lines().count()` on a shard counts its paths.
   */
  lemma LinesOfTerminated(ls: seq<string>)
    requires forall i | 0 <= i < |ls| :: '\n' !in ls[i]
    ensures |Lines(Terminated(ls))| == |ls|
    ensures forall i | 0 <= i < |ls| :: Lines(Terminated(ls))[i] == StripCR(ls[i])
  {
    SplitTerminated(ls);
    assert (ls + [""])[..|ls|] == ls;
  }

  /** The round trip: entries free of line terminators come back unchanged. */
  lemma LinesTerminatedRoundTrip(ls: seq<string>)
    requires forall i | 0 <= i < |ls| :: '\n' !in ls[i] && !EndsWithCR(ls[i])
    ensures Lines(Terminated(ls)) == ls
  {
    LinesOfTerminated(ls);
  }

  /** `lines().next().unwrap_or("")`. */
  function FirstLine(s: string): (r: string)
    ensures '\n' !in r
  {
    var ls := Lines(s);
    if |ls| > 0 then ls[0] else ""
  }

  /** The first line is the text up to the first `\n`, without a trailing `\r`. */
  lemma FirstLineOf(l: string, rest: string)
    requires '\n' !in l
    ensures FirstLine(l + "\n" + rest) == StripCR(l)
  {
    SplitCons(l, '\n', rest);
  }

  /** A string with no `\n` is its own only line (less a trailing `\r`); `""` has none. */
  lemma FirstLineSingle(l: string)
    requires '\n' !in l
    ensures FirstLine(l) == StripCR(l)
    ensures l == "" ==> Lines(l) == []
  {
    IndexOfAbsent(l, '\n');
  }

  /** `s.starts_with(p)`: `s` is `p` followed by the rest of `s`. */
  predicate StartsWith(s: string, p: string): (r: bool)
    ensures r <==> |p| <= |s| && s == p + s[|p|..]
  {
    if |p| <= |s| && s[..|p|] == p then
      assert s == s[..|p|] + s[|p|..];
      true
    else
      false
  }

  /**
   * `s.replace(p, "")`: every non-overlapping occurrence of `p`, found left
   * to right, is removed; an empty pattern leaves `s` unchanged.
   */
  function RemoveAll(s: string, p: string): (r: string)
    ensures |r| <= |s|
    ensures p == [] || |s| < |p| ==> r == s
    ensures p != [] && StartsWith(s, p) ==> |r| <= |s| - |p|
    decreases |s|
  {
    if p == [] || |s| < |p| then s
    else if s[..|p|] == p then RemoveAll(s[|p|..], p)
    else [s[0]] + RemoveAll(s[1..], p)
  }
}
