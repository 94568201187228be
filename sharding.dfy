/**
 * Round-robin sharding of the file list: path `j` goes to shard `j % n`.
 * `Deal` is the reference definition of one shard; the lemmas show that
 * the shards partition the list and that dealing one more path appends it
 * to exactly one shard, which is what the `git_files` loops do.
 */
module Sharding {
  import opened Text
  import opened Multisets

  /** The paths shard `r` of `n` receives: `list[r]`, `list[r + n]`, `list[r + 2n]`, ... */
  function Deal(list: seq<string>, n: nat, r: nat): seq<string>
    requires n > 0
    decreases if r < |list| then |list| - r else 0
  {
    if r >= |list| then [] else [list[r]] + Deal(list, n, r + n)
  }

  /** All `n` shards, shard `r` at index `r`. */
  function Shards(list: seq<string>, n: nat): (ss: seq<seq<string>>)
    requires n > 0
    ensures |ss| == n
  {
    seq(n, r requires 0 <= r < n => Deal(list, n, r))
  }

  /** Element `k` of shard `r` is `list[r + k * n]`, and the shard holds every such index in range. */
  lemma {:induction false} DealAt(list: seq<string>, n: nat, r: nat, k: nat)
    requires n > 0
    ensures k < |Deal(list, n, r)| <==> r + k * n < |list|
    ensures k < |Deal(list, n, r)| ==> Deal(list, n, r)[k] == list[r + k * n]
    decreases if r < |list| then |list| - r else 0
  {
    if r < |list| && k > 0 {
      DealAt(list, n, r + n, k - 1);
      assert r + n + (k - 1) * n == r + k * n;
    }
  }

  lemma MulAtLeast(d: int, n: int)
    requires d >= 1 && n > 0
    ensures d * n >= n
  {
    assert d * n == (d - 1) * n + n;
    assert (d - 1) * n >= 0;
  }

  /** Euclidean division has only one quotient and remainder. */
  lemma ModUnique(x: int, n: int, q: int, t: int)
    requires n > 0 && 0 <= t < n && x == q * n + t
    ensures x % n == t
  {
    var q', t' := x / n, x % n;
    assert x == q' * n + t';
    var d := q' - q;
    assert d * n == t - t' by {
      assert q' * n - q * n == d * n;
    }
    if d >= 1 {
      MulAtLeast(d, n);
    } else if d <= -1 {
      MulAtLeast(-d, n);
    }
  }

  lemma ModStep(m: nat, n: nat, r: nat)
    requires n > 0 && r + n <= m
    ensures (m - r) % n == (m - (r + n)) % n
  {
    var a := m - (r + n);
    var q, t := a / n, a % n;
    assert a == q * n + t;
    assert m - r == (q + 1) * n + t;
    ModUnique(m - r, n, q + 1, t);
  }

  /** Dealing one more path `x` appends it to the shard whose index is `|list| mod n` (general offset form). */
  lemma {:induction false} DealSnocFrom(list: seq<string>, x: string, n: nat, r: nat)
    requires n > 0
    ensures Deal(list + [x], n, r)
         == Deal(list, n, r) + (if r <= |list| && (|list| - r) % n == 0 then [x] else [])
    decreases if r < |list| + 1 then |list| + 1 - r else 0
  {
    var l' := list + [x];
    if r < |list| {
      DealSnocFrom(list, x, n, r + n);
      assert l'[r] == list[r];
      CondStep(|list|, n, r);
      var tail := if r + n <= |list| && (|list| - (r + n)) % n == 0 then [x] else [];
      assert Deal(l', n, r) == [list[r]] + (Deal(list, n, r + n) + tail);
      assert Deal(list, n, r) == [list[r]] + Deal(list, n, r + n);
    } else if r == |list| {
      assert l'[r] == x;
      assert Deal(l', n, r) == [x] + Deal(l', n, r + n);
      assert 0 % n == 0;
    }
  }

  /** Path `m` lands `r` shards in exactly when it lands `r + n` shards in, for `r < m`. */
  lemma CondStep(m: nat, n: nat, r: nat)
    requires n > 0 && r < m
    ensures (m - r) % n == 0 <==> (r + n <= m && (m - (r + n)) % n == 0)
  {
    if r + n <= m {
      ModStep(m, n, r);
    } else {
      ModUnique(m - r, n, 0, m - r);
    }
  }

  lemma ModBelow(m: nat, n: nat, r: nat)
    requires r < n
    ensures (r <= m && (m - r) % n == 0) <==> m % n == r
  {
    if r <= m && (m - r) % n == 0 {
      var q := (m - r) / n;
      assert m - r == q * n + 0;
      assert m == q * n + r;
      ModUnique(m, n, q, r);
    }
    if m % n == r {
      var q := m / n;
      assert m == q * n + r;
      assert m - r == q * n + 0;
      ModUnique(m - r, n, q, 0);
    }
  }

  /** The step of the `git_files` loop: path `|list|` goes to shard `|list| % n` and nowhere else. */
  lemma DealSnoc(list: seq<string>, x: string, n: nat, r: nat)
    requires r < n
    ensures Deal(list + [x], n, r) == Deal(list, n, r) + (if |list| % n == r then [x] else [])
  {
    DealSnocFrom(list, x, n, r);
    ModBelow(|list|, n, r);
  }

  lemma DealEmpty(n: nat, r: nat)
    requires n > 0
    ensures Deal([], n, r) == []
  {
  }

  /** The shards together hold every path exactly once: the union of their multisets is the list's. */
  lemma {:induction false} ShardsPartition(list: seq<string>, n: nat)
    requires n > 0
    ensures Bag(Shards(list, n)) == multiset(list)
    decreases |list|
  {
    if list == [] {
      ShardsOfEmpty(n);
    } else {
      var init, x := list[..|list| - 1], list[|list| - 1];
      assert list == init + [x];
      ShardsPartition(init, n);
      ShardsSnoc(init, x, n);
      BagAppend(Shards(init, n), |init| % n, x, init);
    }
  }

  lemma BagAppend(before: seq<seq<string>>, m: nat, x: string, init: seq<string>)
    requires m < |before| && Bag(before) == multiset(init)
    ensures Bag(before[m := before[m] + [x]]) == multiset(init + [x])
  {
    var after := before[m := before[m] + [x]];
    BagUpdate(before, m, before[m] + [x]);
    assert multiset(before[m] + [x]) == multiset(before[m]) + multiset{x};
    assert multiset(init + [x]) == multiset(init) + multiset{x};
    var lhs := Bag(after) + multiset(before[m]);
    var rhs := Bag(before) + multiset(before[m] + [x]);
    assert lhs == rhs;
    forall e: string ensures Bag(after)[e] == multiset(init + [x])[e] {
      assert lhs[e] == rhs[e];
    }
  }

  lemma ShardsOfEmpty(n: nat)
    requires n > 0
    ensures Bag(Shards([], n)) == multiset{}
  {
    var ss := Shards([], n);
    forall r | 0 <= r < |ss| ensures ss[r] == [] {
      DealEmpty(n, r);
    }
    BagOfEmpties(ss);
  }

  /** Dealing one more path changes exactly one shard, shard `|list| % n`, by appending the path. */
  lemma ShardsSnoc(list: seq<string>, x: string, n: nat)
    requires n > 0
    ensures Shards(list + [x], n)
         == Shards(list, n)[|list| % n := Shards(list, n)[|list| % n] + [x]]
  {
    var m := |list| % n;
    var before := Shards(list, n);
    var after := Shards(list + [x], n);
    var expected := before[m := before[m] + [x]];
    forall r | 0 <= r < n ensures after[r] == expected[r] {
      DealSnoc(list, x, n, r);
    }
  }

  /** The shard sizes add up to the number of paths. */
  lemma ShardsTotal(list: seq<string>, n: nat)
    requires n > 0
    ensures TotalLen(Shards(list, n)) == |list|
  {
    ShardsPartition(list, n);
    BagSize(Shards(list, n));
  }

  /** The text blob of shard `r`: each of its paths followed by `"\n"`. */
  function ShardText(list: seq<string>, n: nat, r: nat): string
    requires n > 0
  {
    Terminated(Deal(list, n, r))
  }

  /** The step of the `git_files` loop on the blobs: path `x` and its `"\n"` are appended to blob `|list| % n` only. */
  lemma ShardTextSnoc(list: seq<string>, x: string, n: nat, r: nat)
    requires r < n
    ensures ShardText(list + [x], n, r) == ShardText(list, n, r) + (if |list| % n == r then x + "\n" else "")
  {
    DealSnoc(list, x, n, r);
    if |list| % n == r {
      TerminatedSnoc(Deal(list, n, r), x);
      assert Terminated(Deal(list, n, r)) + x + "\n" == Terminated(Deal(list, n, r)) + (x + "\n");
    } else {
      assert Deal(list + [x], n, r) == Deal(list, n, r);
      assert ShardText(list, n, r) + "" == ShardText(list, n, r);
    }
  }

  /** One iteration of the `git_files` loop keeps every blob equal to the blob of the paths dealt so far. */
  lemma PushPath(before: seq<string>, after: seq<string>, list: seq<string>, i: nat, n: nat)
    requires 0 < n == |before| && i < |list|
    requires forall s | 0 <= s < n :: before[s] == ShardText(list[..i], n, s)
    requires after == before[i % n := before[i % n] + (list[i] + "\n")]
    ensures forall s | 0 <= s < n :: after[s] == ShardText(list[..i + 1], n, s)
  {
    assert list[..i + 1] == list[..i] + [list[i]];
    forall s | 0 <= s < n ensures after[s] == ShardText(list[..i + 1], n, s) {
      ShardTextSnoc(list[..i], list[i], n, s);
    }
  }

  /** Every shard blob is empty or ends in `"\n"`, and reading its lines back gives its paths. */
  lemma ShardTextLines(list: seq<string>, n: nat, r: nat)
    requires n > 0
    requires forall j | 0 <= j < |list| :: '\n' !in list[j] && !EndsWithCR(list[j])
    ensures ShardText(list, n, r) == [] || ShardText(list, n, r)[|ShardText(list, n, r)| - 1] == '\n'
    ensures Lines(ShardText(list, n, r)) == Deal(list, n, r)
  {
    var d := Deal(list, n, r);
    forall k | 0 <= k < |d| ensures '\n' !in d[k] && !EndsWithCR(d[k]) {
      DealAt(list, n, r, k);
    }
    LinesTerminatedRoundTrip(d);
  }

  /**
   * The statistics count (`files.iter().map(|x| x.lines().count()).sum()`) is the
   * number of paths, as long as no path contains a newline.
   */
  lemma StatCount(list: seq<string>, n: nat)
    requires n > 0
    requires forall j | 0 <= j < |list| :: '\n' !in list[j]
    ensures TotalLen(seq(n, r requires 0 <= r < n => Lines(ShardText(list, n, r)))) == |list|
  {
    var counted := seq(n, r requires 0 <= r < n => Lines(ShardText(list, n, r)));
    forall r | 0 <= r < n ensures |counted[r]| == |Shards(list, n)[r]| {
      var d := Deal(list, n, r);
      forall k | 0 <= k < |d| ensures '\n' !in d[k] {
        DealAt(list, n, r, k);
      }
      LinesOfTerminated(d);
    }
    TotalLenPointwise(counted, Shards(list, n));
    ShardsTotal(list, n);
  }
}
