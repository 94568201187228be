/**
 * The ordering of Rust's `str` (`<` and `Ord`): lexicographic comparison,
 * character by character. For valid UTF-8 this is the same as comparing the
 * bytes, since UTF-8 preserves code point order. Also sortedness, the
 * effect of `Vec<String>::sort`, and the ordering of `Option<&str>`.
 */
module Order {
  import opened Types

  /** `a < b` on Rust strings. (Dafny's own `<` on sequences means "proper prefix".) */
  predicate Less(a: string, b: string): (r: bool)
    ensures r ==> |b| > 0
    ensures |a| <= |b| && b[..|a|] == a ==> (r <==> |a| < |b|)
    decreases |a|
  {
    if |a| == 0 then |b| > 0
    else |b| > 0 && (a[0] < b[0] || (a[0] == b[0] && Less(a[1..], b[1..])))
  }

  predicate LessEq(a: string, b: string)
  {
    a == b || Less(a, b)
  }

  lemma {:induction false} LessIrreflexive(a: string)
    ensures !Less(a, a)
    decreases |a|
  {
    if |a| > 0 {
      LessIrreflexive(a[1..]);
    }
  }

  lemma {:induction false} LessTransitive(a: string, b: string, c: string)
    requires Less(a, b) && Less(b, c)
    ensures Less(a, c)
    decreases |a|
  {
    if |a| > 0 && a[0] == b[0] && b[0] == c[0] {
      LessTransitive(a[1..], b[1..], c[1..]);
    }
  }

  /** Any two strings are equal or ordered one way: `Ord` on `str` is total. */
  lemma {:induction false} LessTotal(a: string, b: string)
    ensures a == b || Less(a, b) || Less(b, a)
    decreases |a|
  {
    if |a| > 0 && |b| > 0 && a[0] == b[0] {
      LessTotal(a[1..], b[1..]);
      if a[1..] == b[1..] {
        assert a == [a[0]] + a[1..] && b == [b[0]] + b[1..];
      }
    }
  }

  lemma LessAsymmetric(a: string, b: string)
    requires Less(a, b)
    ensures !Less(b, a)
  {
    if Less(b, a) {
      LessTransitive(a, b, a);
      LessIrreflexive(a);
    }
  }

  lemma LessEqTransitive(a: string, b: string, c: string)
    requires LessEq(a, b) && LessEq(b, c)
    ensures LessEq(a, c)
  {
    if a != b && b != c {
      LessTransitive(a, b, c);
    }
  }

  lemma LessEqAntisymmetric(a: string, b: string)
    requires LessEq(a, b) && LessEq(b, a)
    ensures a == b
  {
    if a != b {
      LessAsymmetric(a, b);
    }
  }

  /** Rust's `Option<&str>` ordering, which `lines[i] < min_line` uses: `None` is below every `Some`. */
  function OptionLess(a: Option<string>, b: Option<string>): (r: bool)
    ensures r ==> b.Some?
    ensures a.None? ==> (r <==> b.Some?)
  {
    match (a, b)
    case (None, Some(_)) => true
    case (Some(x), Some(y)) => Less(x, y)
    case _ => false
  }

  /** That ordering is a strict order on `Option<string>`. */
  lemma OptionLessStrict(a: Option<string>, b: Option<string>, c: Option<string>)
    ensures !OptionLess(a, a)
    ensures OptionLess(a, b) ==> !OptionLess(b, a)
    ensures OptionLess(a, b) && OptionLess(b, c) ==> OptionLess(a, c)
  {
    if a.Some? {
      LessIrreflexive(a.value);
      if b.Some? && Less(a.value, b.value) {
        LessAsymmetric(a.value, b.value);
        if c.Some? && Less(b.value, c.value) {
          LessTransitive(a.value, b.value, c.value);
        }
      }
    }
  }

  /** Every element is at most every later element: what `ret.sort()` leaves behind. */
  predicate Sorted(s: seq<string>)
  {
    forall i, j | 0 <= i < j < |s| :: LessEq(s[i], s[j])
  }

  lemma SortedCons(x: string, s: seq<string>)
    requires Sorted(s)
    requires forall k | 0 <= k < |s| :: LessEq(x, s[k])
    ensures Sorted([x] + s)
  {
    var t := [x] + s;
    forall i, j | 0 <= i < j < |t| ensures LessEq(t[i], t[j]) {
      if i > 0 {
        assert t[i] == s[i - 1] && t[j] == s[j - 1];
      } else {
        assert t[j] == s[j - 1];
      }
    }
  }

  /** Inserts `x` into the sorted `s` before the first element not below it. */
  function Insert(x: string, s: seq<string>): (r: seq<string>)
    requires Sorted(s)
    ensures Sorted(r)
    ensures multiset(r) == multiset(s) + multiset{x}
  {
    if s == [] then [x]
    else if LessEq(x, s[0]) then
      InsertFront(x, s);
      [x] + s
    else
      var rest := Insert(x, s[1..]);
      InsertBehind(x, s, rest);
      [s[0]] + rest
  }

  lemma InsertFront(x: string, s: seq<string>)
    requires Sorted(s) && s != [] && LessEq(x, s[0])
    ensures Sorted([x] + s)
  {
    forall k | 0 <= k < |s| ensures LessEq(x, s[k]) {
      LessEqTransitive(x, s[0], s[k]);
    }
    SortedCons(x, s);
  }

  lemma InsertBehind(x: string, s: seq<string>, rest: seq<string>)
    requires Sorted(s) && s != [] && !LessEq(x, s[0])
    requires Sorted(rest) && multiset(rest) == multiset(s[1..]) + multiset{x}
    ensures Sorted([s[0]] + rest)
    ensures multiset([s[0]] + rest) == multiset(s) + multiset{x}
  {
    assert s == [s[0]] + s[1..];
    LessTotal(x, s[0]);
    forall k | 0 <= k < |rest| ensures LessEq(s[0], rest[k]) {
      assert rest[k] in multiset(rest);
      if rest[k] != x {
        assert rest[k] in multiset(s[1..]);
        var j :| 0 <= j < |s[1..]| && s[1..][j] == rest[k];
        assert s[j + 1] == rest[k];
      }
    }
    SortedCons(s[0], rest);
  }

  /**
   * The model of `Vec<String>::sort`: a sorted permutation of the input.
   * Rust uses a stable merge sort; by SortedUnique every sorting algorithm
   * gives this same sequence.
   */
  function Sort(s: seq<string>): (r: seq<string>)
    ensures Sorted(r)
    ensures multiset(r) == multiset(s)
  {
    if s == [] then []
    else
      assert s == [s[0]] + s[1..];
      Insert(s[0], Sort(s[1..]))
  }

  /** A sorted sequence is determined by its multiset of elements. */
  lemma {:induction false} SortedUnique(a: seq<string>, b: seq<string>)
    requires Sorted(a) && Sorted(b)
    requires multiset(a) == multiset(b)
    ensures a == b
    decreases |a|
  {
    if a != [] {
      assert |b| == |a| by {
        assert |multiset(a)| == |a| && |multiset(b)| == |b|;
      }
      HeadIsLeast(b, a[0]);
      HeadIsLeast(a, b[0]);
      LessEqAntisymmetric(a[0], b[0]);
      TailMultiset(a, b);
      SortedUnique(a[1..], b[1..]);
      assert a == [a[0]] + a[1..] && b == [b[0]] + b[1..];
    }
  }

  /** The first element of a sorted sequence is at most each of its elements. */
  lemma HeadIsLeast(s: seq<string>, x: string)
    requires Sorted(s) && x in multiset(s)
    ensures LessEq(s[0], x)
  {
    var j :| 0 <= j < |s| && s[j] == x;
    if j > 0 {
      assert LessEq(s[0], s[j]);
    }
  }

  /** Equal first elements and equal multisets leave equal multisets of the tails. */
  lemma TailMultiset(a: seq<string>, b: seq<string>)
    requires a != [] && b != [] && a[0] == b[0] && multiset(a) == multiset(b)
    ensures multiset(a[1..]) == multiset(b[1..])
  {
    assert a == [a[0]] + a[1..] && b == [b[0]] + b[1..];
    var x, y := multiset(a[1..]), multiset(b[1..]);
    assert multiset(a) == multiset{a[0]} + x;
    assert multiset(b) == multiset{b[0]} + y;
    forall d: string ensures x[d] == y[d] {
      assert (multiset{a[0]} + x)[d] == (multiset{a[0]} + y)[d];
    }
  }
}
