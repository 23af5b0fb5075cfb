/** Facts about slices of concatenations, used by every decoder round trip. */
module Slices {

  lemma SlicesOfFive<T>(a: seq<T>, b: seq<T>, c: seq<T>, d: seq<T>, e: seq<T>)
    ensures var x := a + b + c + d + e;
            && x[..|a|] == a && x[|a|..|a| + |b|] == b && x[|a| + |b|..|a| + |b| + |c|] == c
            && x[|a| + |b| + |c|..|a| + |b| + |c| + |d|] == d && x[|a| + |b| + |c| + |d|..] == e
  {
  }

  lemma SliceOfSlice<T>(s: seq<T>, i: nat, j: nat, k: nat, l: nat)
    requires i <= j <= |s| && k <= l <= j - i
    ensures s[i..j][k..l] == s[i + k..i + l]
  {
    var x, y := s[i..j][k..l], s[i + k..i + l];
    assert |x| == |y|;
    forall m | 0 <= m < |x| ensures x[m] == y[m] {
      assert x[m] == s[i..j][k + m];
    }
  }

  /** The five consecutive slices of s that a concatenation at p consists of. */
  lemma SlicesAt<T>(s: seq<T>, p: nat, x0: seq<T>, x1: seq<T>, x2: seq<T>, x3: seq<T>, x4: seq<T>)
    requires p + |x0| + |x1| + |x2| + |x3| + |x4| <= |s|
    requires s[p..p + |x0| + |x1| + |x2| + |x3| + |x4|] == x0 + x1 + x2 + x3 + x4
    ensures var n1, n2, n3 := |x0| + |x1|, |x0| + |x1| + |x2|, |x0| + |x1| + |x2| + |x3|;
            && s[p..p + |x0|] == x0 && s[p + |x0|..p + n1] == x1 && s[p + n1..p + n2] == x2
            && s[p + n2..p + n3] == x3 && s[p + n3..p + n3 + |x4|] == x4
  {
    var n1, n2, n3 := |x0| + |x1|, |x0| + |x1| + |x2|, |x0| + |x1| + |x2| + |x3|;
    var n4 := n3 + |x4|;
    SlicesOfFive(x0, x1, x2, x3, x4);
    SliceOfSlice(s, p, p + n4, 0, |x0|);
    SliceOfSlice(s, p, p + n4, |x0|, n1);
    SliceOfSlice(s, p, p + n4, n1, n2);
    SliceOfSlice(s, p, p + n4, n2, n3);
    SliceOfSlice(s, p, p + n4, n3, n4);
  }

  /** The two halves of the suffix of s at pos, when it is x + y. */
  lemma SuffixHalves<T>(s: seq<T>, pos: nat, x: seq<T>, y: seq<T>)
    requires pos <= |s| && s[pos..] == x + y
    ensures s[pos..pos + |x|] == x && s[pos + |x|..] == y
  {
    assert s[pos..pos + |x|] == s[pos..][..|x|];
    assert s[pos + |x|..] == s[pos..][|x|..];
  }

  lemma SliceSplit<T>(s: seq<T>, i: nat, j: nat, k: nat)
    requires i <= j <= k <= |s|
    ensures s[i..k] == s[i..j] + s[j..k]
  {
  }

  /** Five consecutive slices of s make up the slice that spans them. */
  lemma FiveAt<T>(s: seq<T>, p: nat, x0: seq<T>, x1: seq<T>, x2: seq<T>, x3: seq<T>, x4: seq<T>)
    requires var n1, n2, n3 := |x0| + |x1|, |x0| + |x1| + |x2|, |x0| + |x1| + |x2| + |x3|;
             && p + n3 + |x4| <= |s|
             && s[p..p + |x0|] == x0 && s[p + |x0|..p + n1] == x1 && s[p + n1..p + n2] == x2
             && s[p + n2..p + n3] == x3 && s[p + n3..p + n3 + |x4|] == x4
    ensures s[p..p + |x0| + |x1| + |x2| + |x3| + |x4|] == x0 + x1 + x2 + x3 + x4
  {
    var n1, n2, n3 := |x0| + |x1|, |x0| + |x1| + |x2|, |x0| + |x1| + |x2| + |x3|;
    var n4 := n3 + |x4|;
    SliceSplit(s, p, p + n3, p + n4);
    SliceSplit(s, p, p + n2, p + n3);
    SliceSplit(s, p, p + n1, p + n2);
    SliceSplit(s, p, p + |x0|, p + n1);
  }

  /** The three consecutive slices of s that a concatenation at p consists of. */
  lemma SlicesAt3<T>(s: seq<T>, p: nat, x0: seq<T>, x1: seq<T>, x2: seq<T>)
    requires p + |x0| + |x1| + |x2| <= |s| && s[p..p + |x0| + |x1| + |x2|] == x0 + x1 + x2
    ensures s[p..p + |x0|] == x0 && s[p + |x0|..p + |x0| + |x1|] == x1
    ensures s[p + |x0| + |x1|..p + |x0| + |x1| + |x2|] == x2
  {
    SlicesAt(s, p, x0, x1, x2, [], []);
    assert x0 + x1 + x2 + [] + [] == x0 + x1 + x2;
  }

  /** The two consecutive slices of s that a concatenation at p consists of. */
  lemma SlicesAt2<T>(s: seq<T>, p: nat, x0: seq<T>, x1: seq<T>)
    requires p + |x0| + |x1| <= |s| && s[p..p + |x0| + |x1|] == x0 + x1
    ensures s[p..p + |x0|] == x0 && s[p + |x0|..p + |x0| + |x1|] == x1
  {
    assert s[p..p + |x0|] == s[p..p + |x0| + |x1|][..|x0|];
    assert s[p + |x0|..p + |x0| + |x1|] == s[p..p + |x0| + |x1|][|x0|..];
  }
}
