/** The in-place shuffle used for probe items by the Edge (src/edge/bootstrap.go) and by the Center
    (src/center/center.go). */
module Shuffle {

  /** One draw of the random source: a value, or a failure. */
  datatype Draw = Drawn(j: nat) | Failed

  function Swapped<T>(s: seq<T>, i: nat, j: nat): (r: seq<T>)
    requires i < |s| && j < |s|
  {
    s[i := s[j]][j := s[i]]
  }

  /** The draw at position k serves index |s| - 1 - k and must lie below |s| - k, as the source promises. */
  ghost predicate InRange(draws: seq<Draw>, n: nat) {
    && |draws| == n - (if n == 0 then 0 else 1)
    && forall k :: 0 <= k < |draws| && draws[k].Drawn? ==> draws[k].j < n - k
  }

  /** Fisher-Yates from the last index down: swap, keep the last element, continue on the rest; a failed
      draw leaves the rest as it is. */
  function FisherYates<T>(s: seq<T>, draws: seq<Draw>): (r: seq<T>)
    requires InRange(draws, |s|)
    ensures |r| == |s|
    decreases |s|
  {
    if |s| <= 1 || draws[0].Failed? then s
    else
      var t := Swapped(s, |s| - 1, draws[0].j);
      FisherYates(t[..|s| - 1], draws[1..]) + [t[|s| - 1]]
  }

  lemma SwapInHead<T>(head: seq<T>, tail: seq<T>, j: nat)
    requires j < |head|
    ensures var n, t := |head| - 1, Swapped(head, |head| - 1, j);
            Swapped(head + tail, n, j) == t[..n] + ([t[n]] + tail)
  {
    var n, t := |head| - 1, Swapped(head, |head| - 1, j);
    assert Swapped(head + tail, n, j) == t + tail;
    assert t == t[..n] + [t[n]];
  }

  lemma ShuffleAfterSwap<T>(head: seq<T>, tail: seq<T>, draws: seq<Draw>)
    requires |head| > 1 && InRange(draws, |head|) && draws[0].Drawn?
    ensures InRange(draws[1..], |head| - 1)
    ensures var n, t := |head| - 1, Swapped(head, |head| - 1, draws[0].j);
            FisherYates(t[..n], draws[1..]) + ([t[n]] + tail) == FisherYates(head, draws) + tail
  {
  }

  /** The loop of the source, from the last index down to 1, on the caller's slice. */
  method ShuffleInPlace<T>(items: array<T>, draws: seq<Draw>)
    requires InRange(draws, items.Length)
    modifies items
    ensures items[..] == FisherYates(old(items[..]), draws)
  {
    var i := items.Length - 1;
    ghost var head, tail, rest := items[..], [], draws;
    while i > 0
      invariant i == |head| - 1 && items[..] == head + tail
      invariant InRange(rest, |head|) && |rest| <= |draws| && rest == draws[|draws| - |rest|..]
      invariant FisherYates(head, rest) + tail == FisherYates(old(items[..]), draws)
    {
      var d := draws[items.Length - 1 - i];
      if d.Failed? {
        return;
      }
      SwapInHead(head, tail, d.j);
      ShuffleAfterSwap(head, tail, rest);
      items[i], items[d.j] := items[d.j], items[i];
      assert items[..] == Swapped(head + tail, i, d.j);
      ghost var t := Swapped(head, i, d.j);
      head, tail, rest := t[..i], [t[i]] + tail, rest[1..];
      i := i - 1;
    }
  }

  lemma SwappedIsPermutation<T>(s: seq<T>, i: nat, j: nat)
    requires i < |s| && j < |s|
    ensures multiset(Swapped(s, i, j)) == multiset(s)
  {
  }

  /** Any draws at all, including a failing one, leave a permutation of the input. */
  lemma {:induction false} ShuffleIsPermutation<T>(s: seq<T>, draws: seq<Draw>)
    requires InRange(draws, |s|)
    ensures multiset(FisherYates(s, draws)) == multiset(s)
    decreases |s|
  {
    if |s| > 1 && draws[0].Drawn? {
      var t := Swapped(s, |s| - 1, draws[0].j);
      SwappedIsPermutation(s, |s| - 1, draws[0].j);
      ShuffleIsPermutation(t[..|s| - 1], draws[1..]);
      SameFrontSameBag(t, FisherYates(t[..|s| - 1], draws[1..]));
    }
  }

  lemma SameFrontSameBag<T>(t: seq<T>, front: seq<T>)
    requires t != [] && multiset(front) == multiset(t[..|t| - 1])
    ensures multiset(front + [t[|t| - 1]]) == multiset(t)
  {
    assert t == t[..|t| - 1] + [t[|t| - 1]];
  }

  ghost predicate Distinct<T>(s: seq<T>) {
    forall i, j :: 0 <= i < j < |s| ==> s[i] != s[j]
  }

  ghost predicate Complete(draws: seq<Draw>) {
    forall k :: 0 <= k < |draws| ==> draws[k].Drawn?
  }

  lemma DistinctByCount<T>(s: seq<T>)
    requires forall x :: x in multiset(s) ==> multiset(s)[x] == 1
    ensures Distinct(s)
  {
    forall i, j | 0 <= i < j < |s| ensures s[i] != s[j] {
      assert s == s[..i] + [s[i]] + s[i + 1..j] + [s[j]] + s[j + 1..];
      assert s[i] in multiset(s);
    }
  }

  lemma {:induction false} CountOfDistinct<T>(s: seq<T>, x: T)
    requires Distinct(s)
    ensures multiset(s)[x] <= 1
  {
    if s != [] {
      var last := |s| - 1;
      CountOfDistinct(s[..last], x);
      assert s == s[..last] + [s[last]];
      if x == s[last] {
        assert x !in s[..last];
      }
    }
  }

  lemma PermutationOfDistinct<T>(s: seq<T>, t: seq<T>)
    requires Distinct(s) && multiset(t) == multiset(s)
    ensures Distinct(t)
  {
    forall x | x in multiset(t) ensures multiset(t)[x] == 1 {
      CountOfDistinct(s, x);
    }
    DistinctByCount(t);
  }

  /** The first k draws succeed and none of them reaches below m. */
  ghost predicate StayAbove(draws: seq<Draw>, k: nat, m: nat)
    requires k <= |draws|
  {
    forall i :: 0 <= i < k && draws[i].Drawn? ==> draws[i].j >= m
  }

  lemma StayAboveStep(draws: seq<Draw>, k: nat, m: nat)
    requires 0 < k <= |draws|
    ensures StayAbove(draws, k, m) <==> (draws[0].Drawn? ==> draws[0].j >= m) && StayAbove(draws[1..], k - 1, m)
  {
    if StayAbove(draws[1..], k - 1, m) {
      assert forall i :: 0 < i < k ==> draws[i] == draws[1..][i - 1];
    }
  }

  lemma FirstDrawTakesFromPrefix<T>(s: seq<T>, draws: seq<Draw>, m: nat)
    requires Distinct(s) && InRange(draws, |s|) && |s| > 1 && draws[0].Drawn? && draws[0].j < m < |s|
    ensures FisherYates(s, draws)[..m] != s[..m]
  {
    var r, j := FisherYates(s, draws), draws[0].j;
    ShuffleIsPermutation(s, draws);
    PermutationOfDistinct(s, r);
    assert r[|s| - 1] == s[j];
    assert r[j] != r[|s| - 1];
    assert r[..m][j] != s[..m][j];
  }

  lemma SwapAbovePrefix<T>(s: seq<T>, draws: seq<Draw>, m: nat)
    requires Distinct(s) && InRange(draws, |s|) && |s| > 1 && draws[0].Drawn? && m <= draws[0].j
    ensures var t := Swapped(s, |s| - 1, draws[0].j)[..|s| - 1];
            Distinct(t) && InRange(draws[1..], |t|) && t[..m] == s[..m]
            && FisherYates(s, draws)[..m] == FisherYates(t, draws[1..])[..m]
  {
    SwappedIsPermutation(s, |s| - 1, draws[0].j);
    PermutationOfDistinct(s, Swapped(s, |s| - 1, draws[0].j));
  }

  /** When draw k fails, the indices below |s| - k have served no draw of their own. They keep their
      original elements, as the comments in the source expect of them, exactly when no earlier draw
      reached into them; the same holds of any shorter prefix, so with m == 1 the real item stays first
      exactly when no earlier draw was 0. */
  lemma {:induction false} FailureKeepsPrefixExactly<T>(s: seq<T>, draws: seq<Draw>, k: nat, m: nat)
    requires Distinct(s) && InRange(draws, |s|) && k < |draws| && draws[k].Failed? && m <= |s| - k
    requires forall i :: 0 <= i < k ==> draws[i].Drawn?
    ensures FisherYates(s, draws)[..m] == s[..m] <==> StayAbove(draws, k, m)
    decreases |s|
  {
    if k > 0 {
      StayAboveStep(draws, k, m);
      var n, j := |s|, draws[0].j;
      if j < m {
        FirstDrawTakesFromPrefix(s, draws, m);
      } else {
        SwapAbovePrefix(s, draws, m);
        FailureKeepsPrefixExactly(Swapped(s, n - 1, j)[..n - 1], draws[1..], k - 1, m);
      }
    }
  }

  /** One-to-one: on distinct elements, different complete draw sequences give different orders. */
  lemma {:induction false} ShuffleIsInjective<T>(s: seq<T>, d: seq<Draw>, e: seq<Draw>)
    requires Distinct(s) && InRange(d, |s|) && InRange(e, |s|) && Complete(d) && Complete(e)
    requires FisherYates(s, d) == FisherYates(s, e)
    ensures d == e
    decreases |s|
  {
    if |s| > 1 {
      FirstDraw(s, d);
      FirstDraw(s, e);
      assert d[0] == e[0];
      var t := Swapped(s, |s| - 1, d[0].j);
      DistinctFront(s, d[0].j);
      ShuffleIsInjective(t[..|s| - 1], d[1..], e[1..]);
      assert d == [d[0]] + d[1..] && e == [e[0]] + e[1..];
    }
  }

  /** The first draw decides the last element, and the others the rest. */
  lemma FirstDraw<T>(s: seq<T>, d: seq<Draw>)
    requires |s| > 1 && InRange(d, |s|) && d[0].Drawn?
    ensures InRange(d[1..], |s| - 1)
    ensures var r, t := FisherYates(s, d), Swapped(s, |s| - 1, d[0].j);
            r[|s| - 1] == s[d[0].j] && r[..|s| - 1] == FisherYates(t[..|s| - 1], d[1..])
  {
  }

  lemma DistinctFront<T>(s: seq<T>, j: nat)
    requires Distinct(s) && j < |s|
    ensures Distinct(Swapped(s, |s| - 1, j)[..|s| - 1])
  {
  }

  /** Onto: every order of the input comes from some complete draw sequence. */
  lemma {:induction false} ShuffleIsSurjective<T>(s: seq<T>, target: seq<T>) returns (draws: seq<Draw>)
    requires multiset(target) == multiset(s)
    ensures InRange(draws, |s|) && Complete(draws) && FisherYates(s, draws) == target
    decreases |s|
  {
    SameLength(s, target);
    var n := |s|;
    if n == 0 {
      return [];
    }
    var j := IndexOfLast(s, target);
    if n == 1 {
      return [];
    }
    var t := Swapped(s, n - 1, j);
    RestOfPermutation(s, target, j);
    var rest := ShuffleIsSurjective(t[..n - 1], target[..n - 1]);
    draws := [Drawn(j)] + rest;
    PrependDraw(s, j, rest);
    assert target == target[..n - 1] + [target[n - 1]];
  }

  lemma PrependDraw<T>(s: seq<T>, j: nat, rest: seq<Draw>)
    requires j < |s| && |s| > 1 && InRange(rest, |s| - 1) && Complete(rest)
    ensures var draws := [Drawn(j)] + rest; var t := Swapped(s, |s| - 1, j);
            InRange(draws, |s|) && Complete(draws)
            && FisherYates(s, draws) == FisherYates(t[..|s| - 1], rest) + [t[|s| - 1]]
  {
    var draws := [Drawn(j)] + rest;
    assert draws[1..] == rest;
  }

  lemma SameLength<T>(s: seq<T>, target: seq<T>)
    requires multiset(target) == multiset(s)
    ensures |target| == |s|
  {
    assert |target| == |multiset(target)| && |multiset(s)| == |s|;
  }

  lemma IndexOfLast<T>(s: seq<T>, target: seq<T>) returns (j: nat)
    requires |s| == |target| > 0 && multiset(target) == multiset(s)
    ensures j < |s| && s[j] == target[|s| - 1]
  {
    assert target[|s| - 1] in multiset(target);
    j :| 0 <= j < |s| && s[j] == target[|s| - 1];
  }

  lemma RestOfPermutation<T>(s: seq<T>, target: seq<T>, j: nat)
    requires |s| == |target| > 0 && multiset(target) == multiset(s)
    requires j < |s| && s[j] == target[|s| - 1]
    ensures var t := Swapped(s, |s| - 1, j);
            t[|s| - 1] == target[|s| - 1] && multiset(t[..|s| - 1]) == multiset(target[..|s| - 1])
  {
    var n, last := |s|, target[|s| - 1];
    var t := Swapped(s, n - 1, j);
    SwappedIsPermutation(s, n - 1, j);
    assert t == t[..n - 1] + [last];
    assert target == target[..n - 1] + [last];
    assert multiset(t[..n - 1]) == multiset(t) - multiset{last};
    assert multiset(target[..n - 1]) == multiset(target) - multiset{last};
  }
}
