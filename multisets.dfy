/**
 * A sequence of line sequences (the shards, or the ctags outputs) viewed as
 * one multiset of lines, and the total number of lines it holds.
 */
module Multisets {

  /** Every line of every member, with repetitions. */
  function Bag<T>(ss: seq<seq<T>>): multiset<T>
  {
    if ss == [] then multiset{} else multiset(ss[0]) + Bag(ss[1..])
  }

  /** The sum of the members' lengths. */
  function TotalLen<T>(ss: seq<seq<T>>): nat
  {
    if ss == [] then 0 else |ss[0]| + TotalLen(ss[1..])
  }

  lemma {:induction false} BagSize<T>(ss: seq<seq<T>>)
    ensures |Bag(ss)| == TotalLen(ss)
  {
    if ss != [] {
      BagSize(ss[1..]);
    }
  }

  /** Members that are all empty hold nothing. */
  lemma {:induction false} BagOfEmpties<T>(ss: seq<seq<T>>)
    requires forall i | 0 <= i < |ss| :: ss[i] == []
    ensures Bag(ss) == multiset{}
  {
    if ss != [] {
      BagOfEmpties(ss[1..]);
    }
  }

  /** Replacing one member changes the bag by exactly the two members' difference. */
  lemma {:induction false} BagUpdate<T>(ss: seq<seq<T>>, m: nat, s: seq<T>)
    requires m < |ss|
    ensures Bag(ss[m := s]) + multiset(ss[m]) == Bag(ss) + multiset(s)
  {
    if m > 0 {
      var t := ss[m := s];
      var rest := ss[1..][m - 1 := s];
      assert t[0] == ss[0] && t[1..] == rest;
      BagUpdate(ss[1..], m - 1, s);
      assert ss[1..][m - 1] == ss[m];
      calc {
        Bag(t) + multiset(ss[m]);
        multiset(ss[0]) + Bag(rest) + multiset(ss[m]);
        multiset(ss[0]) + (Bag(rest) + multiset(ss[1..][m - 1]));
        multiset(ss[0]) + (Bag(ss[1..]) + multiset(s));
        Bag(ss) + multiset(s);
      }
    }
  }

  /** Every element of the bag is the element of some member at some position. */
  lemma {:induction false} InBag<T>(ss: seq<seq<T>>, x: T) returns (i: nat, k: nat)
    requires x in Bag(ss)
    ensures i < |ss| && k < |ss[i]| && ss[i][k] == x
  {
    if x in multiset(ss[0]) {
      i := 0;
      k :| 0 <= k < |ss[0]| && ss[0][k] == x;
    } else {
      var i', k' := InBag(ss[1..], x);
      i, k := i' + 1, k';
    }
  }

  /** Taking member `j` out of the sequence takes its elements out of the bag. */
  lemma {:induction false} BagRemove<T>(ss: seq<seq<T>>, j: nat)
    requires j < |ss|
    ensures Bag(ss) == multiset(ss[j]) + Bag(ss[..j] + ss[j + 1..])
  {
    var whole := ss[..j] + ss[j + 1..];
    if j == 0 {
      assert whole == ss[1..];
    } else {
      var tail := ss[1..];
      var rest := tail[..j - 1] + tail[j..];
      BagRemove(tail, j - 1);
      assert tail[j - 1] == ss[j];
      assert whole[0] == ss[0];
      assert whole[1..] == rest;
      assert Bag(whole) == multiset(ss[0]) + Bag(rest);
    }
  }

  /** The bag does not depend on the order of the members. */
  lemma {:induction false} BagReorder<T>(a: seq<seq<T>>, b: seq<seq<T>>)
    requires multiset(a) == multiset(b)
    ensures Bag(a) == Bag(b)
    decreases |a|
  {
    if a == [] {
      assert |b| == |multiset(b)| == 0;
    } else {
      var j := Find(b, a[0]);
      var b' := b[..j] + b[j + 1..];
      DropMatching(a, b, j);
      BagReorder(a[1..], b');
      BagRemove(b, j);
    }
  }

  /** Taking `a[0]` from `a` and its match `b[j]` from `b` keeps the two rearrangements of each other. */
  lemma DropMatching<T>(a: seq<T>, b: seq<T>, j: nat)
    requires a != [] && j < |b| && b[j] == a[0] && multiset(a) == multiset(b)
    ensures multiset(a[1..]) == multiset(b[..j] + b[j + 1..])
  {
    MultisetRemove(b, j);
    MultisetRemove(a, 0);
    assert a[..0] + a[1..] == a[1..];
    Cancel(multiset(a[1..]), multiset(b[..j] + b[j + 1..]), a[0]);
  }

  lemma Cancel<T>(x: multiset<T>, y: multiset<T>, e: T)
    requires x + multiset{e} == y + multiset{e}
    ensures x == y
  {
    forall d: T ensures x[d] == y[d] {
      assert (x + multiset{e})[d] == (y + multiset{e})[d];
    }
  }

  /** Members of equal lengths give equal totals. */
  lemma {:induction false} TotalLenPointwise<T, U>(a: seq<seq<T>>, b: seq<seq<U>>)
    requires |a| == |b|
    requires forall i | 0 <= i < |a| :: |a[i]| == |b[i]|
    ensures TotalLen(a) == TotalLen(b)
  {
    if a != [] {
      TotalLenPointwise(a[1..], b[1..]);
    }
  }

  /** `f` applied to every element, in order. */
  function MapSeq<T, U>(f: T -> U, a: seq<T>): (r: seq<U>)
    ensures |r| == |a|
    ensures forall i | 0 <= i < |a| :: r[i] == f(a[i])
  {
    if a == [] then [] else [f(a[0])] + MapSeq(f, a[1..])
  }

  lemma MapSeqRemove<T, U>(f: T -> U, a: seq<T>, j: nat)
    requires j < |a|
    ensures MapSeq(f, a[..j] + a[j + 1..]) == MapSeq(f, a)[..j] + MapSeq(f, a)[j + 1..]
  {
    var a' := a[..j] + a[j + 1..];
    var l := MapSeq(f, a');
    var fa := MapSeq(f, a);
    var r := fa[..j] + fa[j + 1..];
    assert |l| == |r|;
    forall i | 0 <= i < |l| ensures l[i] == r[i] {
      if i < j {
        assert a'[i] == a[i] && r[i] == fa[i];
      } else {
        assert a'[i] == a[i + 1] && r[i] == fa[i + 1];
      }
    }
  }

  lemma MultisetRemove<T>(s: seq<T>, j: nat)
    requires j < |s|
    ensures multiset(s) == multiset(s[..j] + s[j + 1..]) + multiset{s[j]}
  {
    assert s == s[..j] + [s[j]] + s[j + 1..];
  }

  /** Applying `f` member-wise keeps two rearrangements of each other rearrangements. */
  lemma {:induction false} MapReorder<T, U>(f: T -> U, a: seq<T>, b: seq<T>)
    requires multiset(a) == multiset(b)
    ensures multiset(MapSeq(f, a)) == multiset(MapSeq(f, b))
    decreases |a|
  {
    if a == [] {
      assert |b| == |multiset(b)| == 0;
    } else {
      var j := Find(b, a[0]);
      DropMatching(a, b, j);
      MapReorder(f, a[1..], b[..j] + b[j + 1..]);
      MapStep(f, a, b, j);
    }
  }

  lemma Find<T>(b: seq<T>, x: T) returns (j: nat)
    requires x in multiset(b)
    ensures j < |b| && b[j] == x
  {
    j :| 0 <= j < |b| && b[j] == x;
  }

  lemma MapStep<T, U>(f: T -> U, a: seq<T>, b: seq<T>, j: nat)
    requires a != [] && j < |b| && b[j] == a[0]
    requires multiset(MapSeq(f, a[1..])) == multiset(MapSeq(f, b[..j] + b[j + 1..]))
    ensures multiset(MapSeq(f, a)) == multiset(MapSeq(f, b))
  {
    var fb := MapSeq(f, b);
    MapSeqRemove(f, b, j);
    MultisetRemove(fb, j);
    assert fb[j] == f(a[0]);
    var fa := MapSeq(f, a);
    assert fa == [f(a[0])] + MapSeq(f, a[1..]);
    assert multiset(fa) == multiset{f(a[0])} + multiset(MapSeq(f, a[1..]));
  }
}
