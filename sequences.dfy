/** Sequence helpers that the application relies on through Python built-ins:
    keeping the elements that pass a test (the `if x: lst.append(x)` idiom) and
    `str.join`. Each comes with an independent index-based description. */
module Sequences {

  /** The elements of `xs` that satisfy `p`, in their original order. */
  function Filter<T>(p: T -> bool, xs: seq<T>): (r: seq<T>)
    ensures |r| <= |xs|
    ensures forall k :: 0 <= k < |r| ==> p(r[k])
  {
    if xs == [] then []
    else Filter(p, xs[..|xs| - 1]) + (if p(xs[|xs| - 1]) then [xs[|xs| - 1]] else [])
  }

  /** The indices of the elements of `xs` that satisfy `p`, in increasing order. */
  function Positions<T>(p: T -> bool, xs: seq<T>): (r: seq<nat>)
    ensures forall k :: 0 <= k < |r| ==> r[k] < |xs|
  {
    if xs == [] then []
    else Positions(p, xs[..|xs| - 1]) + (if p(xs[|xs| - 1]) then [|xs| - 1] else [])
  }

  predicate StrictlyIncreasing(s: seq<nat>)
  {
    forall i, j :: 0 <= i < j < |s| ==> s[i] < s[j]
  }

  /** Filter picks exactly the elements at the positions that pass the test,
      with no reordering: its k-th result is the element at the k-th such position. */
  lemma {:induction false} FilterAt<T>(p: T -> bool, xs: seq<T>)
    ensures |Filter(p, xs)| == |Positions(p, xs)| <= |xs|
    ensures StrictlyIncreasing(Positions(p, xs))
    ensures forall k :: 0 <= k < |Filter(p, xs)| ==> Filter(p, xs)[k] == xs[Positions(p, xs)[k]]
    ensures forall i :: 0 <= i < |xs| ==> (p(xs[i]) <==> i in Positions(p, xs))
  {
    if xs != [] {
      var n := |xs| - 1;
      var init := xs[..n];
      FilterAt(p, init);
      assert forall i :: 0 <= i < n ==> init[i] == xs[i];
    }
  }

  /** Filter finds nothing exactly when no element passes the test. */
  lemma FilterEmptyIff<T>(p: T -> bool, xs: seq<T>)
    ensures Filter(p, xs) == [] <==> forall i :: 0 <= i < |xs| ==> !p(xs[i])
  {
    FilterAt(p, xs);
    if Filter(p, xs) != [] {
      assert p(xs[Positions(p, xs)[0]]);
    }
  }

  /** Filtering a sequence extended by one element. */
  lemma FilterSnoc<T>(p: T -> bool, xs: seq<T>, x: T)
    ensures Filter(p, xs + [x]) == Filter(p, xs) + (if p(x) then [x] else [])
  {
    assert (xs + [x])[..|xs|] == xs;
  }

  /** Python's `sep.join(xs)`. */
  function Join(sep: string, xs: seq<string>): string
  {
    if |xs| == 0 then ""
    else if |xs| == 1 then xs[0]
    else xs[0] + sep + Join(sep, xs[1..])
  }

  /** Where the i-th piece starts in `Join(sep, xs)`: every earlier piece
      followed by one separator. */
  function Offset(sep: string, xs: seq<string>, i: nat): nat
    requires i <= |xs|
  {
    if i == 0 then 0 else |xs[0]| + |sep| + Offset(sep, xs[1..], i - 1)
  }

  /** The piece after the i-th starts one piece and one separator later. */
  lemma {:induction false} OffsetNext(sep: string, xs: seq<string>, i: nat)
    requires i < |xs|
    ensures Offset(sep, xs, i + 1) == Offset(sep, xs, i) + |xs[i]| + |sep|
  {
    if i > 0 {
      OffsetNext(sep, xs[1..], i - 1);
    }
  }

  /** The first piece opens the joined string; a separator and the join of the
      remaining pieces follow it. */
  lemma JoinFirst(sep: string, xs: seq<string>)
    requires |xs| >= 1
    ensures |xs[0]| <= |Join(sep, xs)| && Join(sep, xs)[..|xs[0]|] == xs[0]
    ensures |xs| == 1 ==> |Join(sep, xs)| == |xs[0]|
    ensures |xs| > 1 ==>
      |xs[0]| + |sep| <= |Join(sep, xs)|
      && Join(sep, xs)[|xs[0]|..|xs[0]| + |sep|] == sep
      && Join(sep, xs)[|xs[0]| + |sep|..] == Join(sep, xs[1..])
  {
    if |xs| > 1 {
      var j := Join(sep, xs);
      assert j == xs[0] + sep + Join(sep, xs[1..]);
    }
  }

  /** From the offset of the i-th piece on, the joined string is the join of
      the pieces from the i-th on. */
  lemma {:induction false} JoinFrom(sep: string, xs: seq<string>, i: nat)
    requires i < |xs|
    ensures Offset(sep, xs, i) <= |Join(sep, xs)|
    ensures Join(sep, xs)[Offset(sep, xs, i)..] == Join(sep, xs[i..])
  {
    if i > 0 {
      var rest := xs[1..];
      var j := Join(sep, xs);
      var jr := Join(sep, rest);
      var d := |xs[0]| + |sep|;
      JoinFirst(sep, xs);
      JoinFrom(sep, rest, i - 1);
      var o := Offset(sep, rest, i - 1);
      assert j[d..][o..] == j[d + o..];
      assert rest[i - 1..] == xs[i..];
    }
  }

  /** The i-th piece sits at its offset; the last piece ends the joined string. */
  lemma JoinPieceAt(sep: string, xs: seq<string>, i: nat)
    requires i < |xs|
    ensures Offset(sep, xs, i) + |xs[i]| <= |Join(sep, xs)|
    ensures Join(sep, xs)[Offset(sep, xs, i)..Offset(sep, xs, i) + |xs[i]|] == xs[i]
    ensures i + 1 == |xs| ==> Offset(sep, xs, i) + |xs[i]| == |Join(sep, xs)|
  {
    var j := Join(sep, xs);
    var o := Offset(sep, xs, i);
    JoinFrom(sep, xs, i);
    JoinFirst(sep, xs[i..]);
    assert j[o..][..|xs[i]|] == j[o..o + |xs[i]|];
  }

  /** Exactly one separator follows every piece but the last. */
  lemma JoinSeparatorAfter(sep: string, xs: seq<string>, i: nat)
    requires i + 1 < |xs|
    ensures Offset(sep, xs, i) + |xs[i]| + |sep| <= |Join(sep, xs)|
    ensures Join(sep, xs)[Offset(sep, xs, i) + |xs[i]|..Offset(sep, xs, i) + |xs[i]| + |sep|] == sep
  {
    var j := Join(sep, xs);
    var e := Offset(sep, xs, i) + |xs[i]|;
    JoinFrom(sep, xs, i);
    JoinFirst(sep, xs[i..]);
    assert j[Offset(sep, xs, i)..][|xs[i]|..|xs[i]| + |sep|] == j[e..e + |sep|];
  }

  /** A slice of the second part of a concatenation. */
  lemma SliceOfSuffix(a: string, b: string, x: nat, y: nat)
    requires x <= y <= |b|
    ensures (a + b)[|a| + x..|a| + y] == b[x..y]
  {
  }

  /** `Join(sep, xs)` lays the pieces out in order at their offsets, with exactly
      one separator between neighbours and nothing after the last piece. */
  lemma JoinAt(sep: string, xs: seq<string>, i: nat)
    requires i < |xs|
    ensures Offset(sep, xs, i) + |xs[i]| <= |Join(sep, xs)|
    ensures Join(sep, xs)[Offset(sep, xs, i)..Offset(sep, xs, i) + |xs[i]|] == xs[i]
    ensures i + 1 < |xs| ==>
      Offset(sep, xs, i) + |xs[i]| + |sep| <= |Join(sep, xs)| &&
      Join(sep, xs)[Offset(sep, xs, i) + |xs[i]|..Offset(sep, xs, i) + |xs[i]| + |sep|] == sep
    ensures i + 1 == |xs| ==> Offset(sep, xs, i) + |xs[i]| == |Join(sep, xs)|
  {
    JoinPieceAt(sep, xs, i);
    if i + 1 < |xs| {
      JoinSeparatorAfter(sep, xs, i);
    }
  }

  /** `JoinAt` for a joined string that follows some text `l`. */
  lemma JoinAtAfter(l: string, sep: string, xs: seq<string>, i: nat)
    requires i < |xs|
    ensures var s, start := l + Join(sep, xs), |l| + Offset(sep, xs, i);
      var end := start + |xs[i]|;
      end <= |s| && s[start..end] == xs[i]
      && (i + 1 < |xs| ==> end + |sep| <= |s| && s[end..end + |sep|] == sep)
      && (i + 1 == |xs| ==> end == |s|)
  {
    var j := Join(sep, xs);
    var o := Offset(sep, xs, i);
    var n := |xs[i]|;
    JoinAt(sep, xs, i);
    SliceOfSuffix(l, j, o, o + n);
    if i + 1 < |xs| {
      SliceOfSuffix(l, j, o + n, o + n + |sep|);
    }
  }
}
