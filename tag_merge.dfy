/**
 * The k-way merge of `write_tags`, as a specification on the remaining lines
 * of every cursor. A cursor is what is left of one ctags output: its current
 * line (`lines[i]` in the source) followed by what its iterator still holds.
 * Each step emits the smallest current line, the first such one on ties, and
 * advances only that cursor.
 */
module TagMerge {
  import opened Types
  import opened Order
  import opened Multisets
  import opened Text
  import opened Options

  /** The current line of every cursor: its first remaining line, or None once exhausted. */
  function Heads(rests: seq<seq<string>>): seq<Option<string>>
  {
    seq(|rests|, i requires 0 <= i < |rests| => if rests[i] == [] then None else Some(rests[i][0]))
  }

  /** `lines.iter().any(|x| x.is_some())`. */
  predicate AnyLine(lines: seq<Option<string>>): (r: bool)
    ensures !r <==> forall i | 0 <= i < |lines| :: lines[i] == None
  {
    exists i | 0 <= i < |lines| :: lines[i].Some?
  }

  /**
   * `m` is the cursor a step must pick: its line is present, no present line
   * is smaller, and every present line before it is strictly larger (ties go
   * to the lowest index).
   */
  predicate IsLowestMin(lines: seq<Option<string>>, m: nat)
  {
    && m < |lines| && lines[m].Some?
    && (forall j | 0 <= j < |lines| && lines[j].Some? :: LessEq(lines[m].value, lines[j].value))
    && (forall j | 0 <= j < m && lines[j].Some? :: Less(lines[m].value, lines[j].value))
  }

  /** A present line strictly below the candidate is strictly below everything the candidate was below. */
  lemma BelowAll(lines: seq<Option<string>>, min: nat, i: nat)
    requires min < i < |lines| && lines[i].Some?
    requires lines[min].None? ==> forall j | 0 <= j < i :: lines[j].None?
    requires lines[min].Some? ==> Less(lines[i].value, lines[min].value)
    requires lines[min].Some? ==>
      forall j | 0 <= j < i && lines[j].Some? :: LessEq(lines[min].value, lines[j].value)
    ensures forall j | 0 <= j < i && lines[j].Some? :: Less(lines[i].value, lines[j].value)
  {
    forall j | 0 <= j < i && lines[j].Some? ensures Less(lines[i].value, lines[j].value) {
      if lines[min].value != lines[j].value {
        LessTransitive(lines[i].value, lines[min].value, lines[j].value);
      }
    }
  }

  /** At most one index is the lowest minimum, so any two scans that find one agree. */
  lemma LowestMinUnique(lines: seq<Option<string>>, a: nat, b: nat)
    requires IsLowestMin(lines, a) && IsLowestMin(lines, b)
    ensures a == b
  {
    var x, y := lines[a].value, lines[b].value;
    LessEqAntisymmetric(x, y);
    LessIrreflexive(x);
  }

  /** The lowest minimum of a list of current lines, found from the last one backwards. */
  function MinIndex(lines: seq<Option<string>>): (m: nat)
    requires AnyLine(lines)
    ensures IsLowestMin(lines, m)
    decreases |lines|
  {
    var last := |lines| - 1;
    var init := lines[..last];
    if !AnyLine(init) then
      LastIsOnly(lines);
      last
    else
      var k := MinIndex(init);
      if lines[last].Some? && Less(lines[last].value, lines[k].value) then
        LastBelow(lines, k);
        last
      else
        LastNotBelow(lines, k);
        k
  }

  lemma LastIsOnly(lines: seq<Option<string>>)
    requires AnyLine(lines) && !AnyLine(lines[..|lines| - 1])
    ensures IsLowestMin(lines, |lines| - 1)
  {
    var last := |lines| - 1;
    forall j | 0 <= j < last ensures lines[j].None? {
      assert lines[..last][j] == lines[j];
    }
  }

  lemma LastBelow(lines: seq<Option<string>>, k: nat)
    requires |lines| > 0 && IsLowestMin(lines[..|lines| - 1], k)
    requires lines[|lines| - 1].Some? && Less(lines[|lines| - 1].value, lines[k].value)
    ensures IsLowestMin(lines, |lines| - 1)
  {
    var last := |lines| - 1;
    var x := lines[last].value;
    forall j | 0 <= j < last && lines[j].Some? ensures Less(x, lines[j].value) {
      assert lines[..last][j] == lines[j];
      if lines[k].value != lines[j].value {
        LessTransitive(x, lines[k].value, lines[j].value);
      }
    }
  }

  lemma LastNotBelow(lines: seq<Option<string>>, k: nat)
    requires |lines| > 0 && IsLowestMin(lines[..|lines| - 1], k)
    requires !(lines[|lines| - 1].Some? && Less(lines[|lines| - 1].value, lines[k].value))
    ensures IsLowestMin(lines, k)
  {
    var last := |lines| - 1;
    assert lines[k] == lines[..last][k];
    forall j | 0 <= j < |lines| && lines[j].Some? ensures LessEq(lines[k].value, lines[j].value) {
      if j < last {
        assert lines[..last][j] == lines[j];
      } else {
        LessTotal(lines[k].value, lines[j].value);
      }
    }
    forall j | 0 <= j < k && lines[j].Some? ensures Less(lines[k].value, lines[j].value) {
      assert lines[..last][j] == lines[j];
    }
  }

  lemma HeadsPresent(rests: seq<seq<string>>, m: nat)
    requires IsLowestMin(Heads(rests), m)
    ensures m < |rests| && rests[m] != [] && Heads(rests)[m].value == rests[m][0]
  {
  }

  /** Advancing a cursor that still has a line removes exactly that line from the bag. */
  lemma Advance(rests: seq<seq<string>>, m: nat)
    requires m < |rests| && rests[m] != []
    ensures Bag(rests[m := rests[m][1..]]) + multiset{rests[m][0]} == Bag(rests)
    ensures |Bag(rests[m := rests[m][1..]])| < |Bag(rests)|
  {
    BagUpdate(rests, m, rests[m][1..]);
    assert rests[m] == [rests[m][0]] + rests[m][1..];
    assert multiset(rests[m]) == multiset{rests[m][0]} + multiset(rests[m][1..]);
    var lhs := Bag(rests[m := rests[m][1..]]) + multiset(rests[m]);
    var rhs := Bag(rests) + multiset(rests[m][1..]);
    assert lhs == rhs;
    forall e: string ensures (Bag(rests[m := rests[m][1..]]) + multiset{rests[m][0]})[e] == Bag(rests)[e] {
      assert lhs[e] == rhs[e];
    }
  }

  /** The merged line sequence: the reference behaviour of the `while` loop of `write_tags`. */
  function Merge(rests: seq<seq<string>>): seq<string>
    decreases |Bag(rests)|
  {
    var h := Heads(rests);
    if !AnyLine(h) then []
    else
      var m := MinIndex(h);
      HeadsPresent(rests, m);
      Advance(rests, m);
      [rests[m][0]] + Merge(rests[m := rests[m][1..]])
  }

  /** Which cursor every step of Merge advanced. */
  ghost function Schedule(rests: seq<seq<string>>): seq<nat>
    decreases |Bag(rests)|
  {
    var h := Heads(rests);
    if !AnyLine(h) then []
    else
      var m := MinIndex(h);
      HeadsPresent(rests, m);
      Advance(rests, m);
      [m] + Schedule(rests[m := rests[m][1..]])
  }

  /** One step: whichever scan finds the lowest minimum `m`, Merge emits that line and advances only cursor `m`. */
  lemma MergeStep(rests: seq<seq<string>>, m: nat)
    requires IsLowestMin(Heads(rests), m)
    ensures rests[m] != []
    ensures Merge(rests) == [rests[m][0]] + Merge(rests[m := rests[m][1..]])
    ensures Schedule(rests) == [m] + Schedule(rests[m := rests[m][1..]])
  {
    var h := Heads(rests);
    LowestMinUnique(h, m, MinIndex(h));
  }

  /** The lines emitted from source `i`, in emission order. */
  function Project(out: seq<string>, sched: seq<nat>, i: nat): seq<string>
    requires |out| == |sched|
  {
    if out == [] then []
    else (if sched[0] == i then [out[0]] else []) + Project(out[1..], sched[1..], i)
  }

  /**
   * Merge is an interleaving of the cursors: every step names a source, and
   * the lines taken from each source are that source's lines, in their order.
   */
  lemma {:induction false} MergeInterleaves(rests: seq<seq<string>>)
    ensures |Schedule(rests)| == |Merge(rests)|
    ensures forall k | 0 <= k < |Schedule(rests)| :: Schedule(rests)[k] < |rests|
    ensures forall i | 0 <= i < |rests| :: Project(Merge(rests), Schedule(rests), i) == rests[i]
    decreases |Bag(rests)|
  {
    var h := Heads(rests);
    if !AnyLine(h) {
      forall i | 0 <= i < |rests| ensures rests[i] == [] {
        assert h[i].None?;
      }
    } else {
      var m := MinIndex(h);
      MergeStep(rests, m);
      Advance(rests, m);
      var next := rests[m := rests[m][1..]];
      MergeInterleaves(next);
      InterleavesStep(rests, m, Merge(next), Schedule(next));
    }
  }

  /** The induction step of MergeInterleaves: emitting `rests[m][0]` first keeps every projection right. */
  lemma InterleavesStep(rests: seq<seq<string>>, m: nat, out': seq<string>, sched': seq<nat>)
    requires m < |rests| && rests[m] != []
    requires |sched'| == |out'| && forall k | 0 <= k < |sched'| :: sched'[k] < |rests|
    requires forall i | 0 <= i < |rests| :: Project(out', sched', i) == rests[m := rests[m][1..]][i]
    ensures |[m] + sched'| == |[rests[m][0]] + out'|
    ensures forall k | 0 <= k < |[m] + sched'| :: ([m] + sched')[k] < |rests|
    ensures forall i | 0 <= i < |rests| :: Project([rests[m][0]] + out', [m] + sched', i) == rests[i]
  {
    var x, next := rests[m][0], rests[m := rests[m][1..]];
    var out, sched := [x] + out', [m] + sched';
    forall k | 0 <= k < |sched| ensures sched[k] < |rests| {
      if k > 0 {
        assert sched[k] == sched'[k - 1];
      }
    }
    forall i | 0 <= i < |rests| ensures Project(out, sched, i) == rests[i] {
      ProjectStep(out, sched, i, x, m, out', sched');
      if i == m {
        assert rests[m] == [x] + next[m];
      } else {
        assert next[i] == rests[i];
      }
    }
  }

  /** Projecting a step that emitted `x` from source `m`. */
  lemma ProjectStep(out: seq<string>, sched: seq<nat>, i: nat, x: string, m: nat, out': seq<string>, sched': seq<nat>)
    requires out == [x] + out' && sched == [m] + sched' && |out'| == |sched'|
    ensures Project(out, sched, i) == (if m == i then [x] else []) + Project(out', sched', i)
  {
    assert out[1..] == out' && sched[1..] == sched';
  }

  /** Every line of every cursor is emitted exactly once, so the count is the sum of the cursors' lengths. */
  lemma {:induction false} MergePermutation(rests: seq<seq<string>>)
    ensures multiset(Merge(rests)) == Bag(rests)
    ensures |Merge(rests)| == TotalLen(rests)
    decreases |Bag(rests)|
  {
    var h := Heads(rests);
    if !AnyLine(h) {
      forall i | 0 <= i < |rests| ensures rests[i] == [] {
        assert h[i].None?;
      }
      BagOfEmpties(rests);
    } else {
      var m := MinIndex(h);
      HeadsPresent(rests, m);
      Advance(rests, m);
      var next := rests[m := rests[m][1..]];
      MergePermutation(next);
      assert Merge(rests) == [rests[m][0]] + Merge(next);
    }
    BagSize(rests);
    assert |multiset(Merge(rests))| == |Merge(rests)|;
  }

  /** If every output is sorted, so is the merge. */
  lemma {:induction false} MergeSorted(rests: seq<seq<string>>)
    requires forall i | 0 <= i < |rests| :: Sorted(rests[i])
    ensures Sorted(Merge(rests))
    decreases |Bag(rests)|
  {
    var h := Heads(rests);
    if AnyLine(h) {
      var m := MinIndex(h);
      HeadsPresent(rests, m);
      Advance(rests, m);
      var x := rests[m][0];
      var next := rests[m := rests[m][1..]];
      forall i | 0 <= i < |next| ensures Sorted(next[i]) {
        if i == m {
          assert forall a, b | 0 <= a < b < |rests[m][1..]| :: rests[m][1..][a] == rests[m][a + 1] && rests[m][1..][b] == rests[m][b + 1];
        }
      }
      MergeSorted(next);
      var rest := Merge(next);
      MergePermutation(next);
      forall k | 0 <= k < |rest| ensures LessEq(x, rest[k]) {
        assert rest[k] in Bag(next);
        var i, t := InBag(next, rest[k]);
        if i == m {
          assert rest[k] == rests[m][t + 1];
        } else {
          assert next[i] == rests[i] && h[i] == Some(rests[i][0]);
          LessEqTransitive(x, rests[i][0], rests[i][t]);
        }
      }
      SortedCons(x, rest);
    }
  }

  /** Sorted outputs with the same lines merge to the same sequence, however they are split up. */
  lemma MergeDetermined(a: seq<seq<string>>, b: seq<seq<string>>)
    requires forall i | 0 <= i < |a| :: Sorted(a[i])
    requires forall i | 0 <= i < |b| :: Sorted(b[i])
    requires Bag(a) == Bag(b)
    ensures Merge(a) == Merge(b)
  {
    MergeSorted(a);
    MergeSorted(b);
    MergePermutation(a);
    MergePermutation(b);
    SortedUnique(Merge(a), Merge(b));
  }

  /** The order in which the sorted outputs arrive does not change the merge. */
  lemma MergeIgnoresOrder(a: seq<seq<string>>, b: seq<seq<string>>)
    requires forall i | 0 <= i < |a| :: Sorted(a[i])
    requires multiset(a) == multiset(b)
    ensures Merge(a) == Merge(b)
  {
    forall j | 0 <= j < |b| ensures Sorted(b[j]) {
      assert b[j] in multiset(a);
    }
    BagReorder(a, b);
    MergeDetermined(a, b);
  }

  /** The lines `lines()` yields for one ctags output. */
  function StdoutLines(o: Output): seq<string>
  {
    Lines(o.stdout.text)
  }

  /** The line sequences of all outputs, in the order the outputs are given. */
  function Texts(outputs: seq<Output>): (ts: seq<seq<string>>)
    ensures |ts| == |outputs|
    ensures forall i | 0 <= i < |outputs| :: ts[i] == StdoutLines(outputs[i])
  {
    MapSeq(StdoutLines, outputs)
  }

  /** Every output decodes as UTF-8. */
  predicate AllUtf8(outputs: seq<Output>)
  {
    forall i | 0 <= i < |outputs| :: outputs[i].stdout.utf8
  }

  /** `iter.next()` on a line iterator that still holds `it`: its first line, if any. */
  function NextLine(it: seq<string>): (r: Option<string>)
    ensures r.None? <==> it == []
    ensures r.Some? ==> it == [r.value] + AfterNext(it)
  {
    if it == [] then None else Some(it[0])
  }

  /** What the iterator still holds after `iter.next()`. */
  function AfterNext(it: seq<string>): (r: seq<string>)
    ensures |r| == if it == [] then 0 else |it| - 1
    ensures it != [] ==> it == [it[0]] + r
  {
    if it == [] then [] else it[1..]
  }

  /**
   * The cursor pairs of `write_tags`: `lines[i]` is what the iterator of
   * output `i` last yielded and `iters[i]` what it still holds. An iterator
   * that yielded None stays exhausted.
   */
  predicate Fused(lines: seq<Option<string>>, iters: seq<seq<string>>)
  {
    |lines| == |iters| && forall i | 0 <= i < |lines| :: lines[i].None? ==> iters[i] == []
  }

  /** The lines each cursor still has to emit, its current line first. */
  function Rests(lines: seq<Option<string>>, iters: seq<seq<string>>): seq<seq<string>>
    requires |lines| == |iters|
  {
    seq(|lines|, i requires 0 <= i < |lines| => if lines[i].Some? then [lines[i].value] + iters[i] else [])
  }

  lemma HeadsOfRests(lines: seq<Option<string>>, iters: seq<seq<string>>)
    requires Fused(lines, iters)
    ensures Heads(Rests(lines, iters)) == lines
  {
  }

  /** `lines[m] = iters[m].next()` advances the cursor state exactly as Merge advances source `m`. */
  lemma AdvanceCursor(lines: seq<Option<string>>, iters: seq<seq<string>>, m: nat)
    requires Fused(lines, iters) && m < |lines| && lines[m].Some?
    ensures var it := iters[m];
      var lines', iters' := lines[m := NextLine(it)], iters[m := AfterNext(it)];
      Fused(lines', iters') && Rests(lines', iters') == Rests(lines, iters)[m := Rests(lines, iters)[m][1..]]
  {
    var it := iters[m];
    var lines', iters' := lines[m := NextLine(it)], iters[m := AfterNext(it)];
    var before, after := Rests(lines, iters), Rests(lines', iters');
    assert before[m][1..] == it;
    var expected := before[m := it];
    forall i | 0 <= i < |lines| ensures after[i] == expected[i] {
      if i == m && it != [] {
        assert after[m] == [it[0]] + it[1..];
      }
    }
  }

  /**
   * The first `|lines|` outputs have been opened: each cursor holds the first
   * line its output yields and the iterator the lines after it.
   */
  predicate Opened(lines: seq<Option<string>>, iters: seq<seq<string>>, outputs: seq<Output>)
  {
    |lines| == |iters| <= |outputs| &&
    forall i | 0 <= i < |lines| ::
      lines[i] == NextLine(StdoutLines(outputs[i])) && iters[i] == AfterNext(StdoutLines(outputs[i]))
  }

  /** Opening the next output: `lines.push(iter.next()); iters.push(iter)`. */
  lemma OpenNext(lines: seq<Option<string>>, iters: seq<seq<string>>, outputs: seq<Output>)
    requires Opened(lines, iters, outputs) && |lines| < |outputs|
    ensures Opened(lines + [NextLine(StdoutLines(outputs[|lines|]))],
                   iters + [AfterNext(StdoutLines(outputs[|lines|]))], outputs)
  {
  }

  /** Reading the first line of every output gives a cursor state whose remaining lines are the outputs' lines. */
  lemma StartCursor(lines: seq<Option<string>>, iters: seq<seq<string>>, outputs: seq<Output>)
    requires Opened(lines, iters, outputs) && |lines| == |outputs|
    ensures Fused(lines, iters) && Rests(lines, iters) == Texts(outputs)
  {
    var rs := Rests(lines, iters);
    forall i | 0 <= i < |outputs| ensures rs[i] == Texts(outputs)[i] {
      var t := StdoutLines(outputs[i]);
      if t != [] {
        assert t == [t[0]] + t[1..];
      }
    }
  }

  /** One step of the `while` loop: emit the chosen current line and advance that cursor only. */
  lemma CursorStep(lines: seq<Option<string>>, iters: seq<seq<string>>, min: nat,
                   lines': seq<Option<string>>, iters': seq<seq<string>>)
    requires Fused(lines, iters) && IsLowestMin(lines, min)
    requires lines' == lines[min := NextLine(iters[min])]
    requires iters' == iters[min := AfterNext(iters[min])]
    ensures Fused(lines', iters')
    ensures Merge(Rests(lines, iters)) == [lines[min].value] + Merge(Rests(lines', iters'))
    ensures |Bag(Rests(lines', iters'))| < |Bag(Rests(lines, iters))|
  {
    HeadsOfRests(lines, iters);
    var rs := Rests(lines, iters);
    MergeStep(rs, min);
    Advance(rs, min);
    AdvanceCursor(lines, iters, min);
  }

  /**
   * One iteration of the `while` loop on the cursors and the content together:
   * what is written so far followed by the merge still to come stays `goal`.
   */
  lemma EmitStep(goal: string, written: string, lines: seq<Option<string>>, iters: seq<seq<string>>, min: nat,
                 lines': seq<Option<string>>, iters': seq<seq<string>>)
    requires Fused(lines, iters) && IsLowestMin(lines, min)
    requires lines' == lines[min := NextLine(iters[min])]
    requires iters' == iters[min := AfterNext(iters[min])]
    requires written + Terminated(Merge(Rests(lines, iters))) == goal
    ensures Fused(lines', iters')
    ensures written + lines[min].value + "\n" + Terminated(Merge(Rests(lines', iters'))) == goal
    ensures written + (lines[min].value + "\n") + Terminated(Merge(Rests(lines', iters'))) == goal
    ensures |Bag(Rests(lines', iters'))| < |Bag(Rests(lines, iters))|
  {
    CursorStep(lines, iters, min, lines', iters');
    var line, rest, rest' := lines[min].value, Merge(Rests(lines, iters)), Merge(Rests(lines', iters'));
    assert rest[1..] == rest';
    assert Terminated(rest) == line + "\n" + Terminated(rest');
    Concat4(written, line, "\n", Terminated(rest'));
    Concat3(written, line + "\n", Terminated(rest'));
  }
}
