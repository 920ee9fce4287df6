/**
 The Fisher-Yates shuffle of the password generator, in place, driven by one random byte per position.

 The swap at position `i` takes its partner from `byte % (i + 1)`, so a run of the loop is a sequence of index choices
 `js` with `js[i] <= i`.  Choices and permutations correspond one to one; bytes yield every choice exactly when there
 are at most 256 positions.
 */
module Shuffle {
  import opened Wrappers

  ghost predicate Choice(js: seq<nat>) {
    forall i :: 0 <= i < |js| ==> js[i] <= i
  }

  ghost function Choices(bytes: seq<Byte>): (js: seq<nat>)
    ensures |js| == |bytes| && Choice(js)
  {
    seq(|bytes|, i requires 0 <= i < |bytes| => bytes[i] % (i + 1))
  }

  ghost function Swapped<T>(a: seq<T>, i: nat, j: nat): seq<T>
    requires i < |a| && j < |a|
  {
    a[i := a[j]][j := a[i]]
  }

  // The swaps at positions n - 1, n - 2, ..., 1.
  ghost function Shuffled<T>(a: seq<T>, js: seq<nat>, n: nat): seq<T>
    requires n <= |a| == |js| && Choice(js)
    decreases n
  {
    if n <= 1 then a else Shuffled(Swapped(a, n - 1, js[n - 1]), js, n - 1)
  }

  method ShuffleInPlace<T>(a: array<T>, bytes: seq<Byte>)
    requires |bytes| == a.Length
    modifies a
    ensures a[..] == Shuffled(old(a[..]), Choices(bytes), a.Length)
  {
    ghost var js := Choices(bytes);
    var i := a.Length;
    while i > 1
      invariant 0 <= i <= a.Length
      invariant Shuffled(a[..], js, i) == Shuffled(old(a[..]), js, a.Length)
    {
      i := i - 1;
      var j := bytes[i] % (i + 1);
      ghost var before := a[..];
      a[i], a[j] := a[j], a[i];
      assert a[..] == Swapped(before, i, j);
    }
  }

  // ----- Nothing is lost -----

  lemma SwapPermutes<T>(a: seq<T>, i: nat, j: nat)
    requires i < |a| && j < |a|
    ensures multiset(Swapped(a, i, j)) == multiset(a)
  {
  }

  lemma {:induction false} ShufflePermutes<T>(a: seq<T>, js: seq<nat>, n: nat)
    requires n <= |a| == |js| && Choice(js)
    ensures |Shuffled(a, js, n)| == |a|
    ensures multiset(Shuffled(a, js, n)) == multiset(a)
    ensures forall k :: n <= k < |a| ==> Shuffled(a, js, n)[k] == a[k]
    decreases n
  {
    if n > 1 {
      SwapPermutes(a, n - 1, js[n - 1]);
      ShufflePermutes(Swapped(a, n - 1, js[n - 1]), js, n - 1);
    }
  }

  // ----- Different choices, different permutations -----

  ghost predicate Distinct<T>(a: seq<T>) {
    forall i, j :: 0 <= i < j < |a| ==> a[i] != a[j]
  }

  lemma SwapKeepsDistinct<T>(a: seq<T>, i: nat, j: nat)
    requires i < |a| && j < |a| && Distinct(a)
    ensures Distinct(Swapped(a, i, j))
  {
  }

  /** Two choices that shuffle a sequence of distinct elements alike are the same choice. */
  lemma {:induction false} ShuffleIsInjective<T>(a: seq<T>, js: seq<nat>, ks: seq<nat>, n: nat)
    requires n <= |a| == |js| == |ks| && Choice(js) && Choice(ks) && Distinct(a)
    requires Shuffled(a, js, n) == Shuffled(a, ks, n)
    ensures forall i :: 0 <= i < n ==> js[i] == ks[i]
    decreases n
  {
    if n == 1 {
      assert js[0] == 0 && ks[0] == 0;
    } else if n > 1 {
      var i := n - 1;
      ShufflePermutes(Swapped(a, i, js[i]), js, i);
      ShufflePermutes(Swapped(a, i, ks[i]), ks, i);
      assert a[js[i]] == Shuffled(a, js, n)[i] == Shuffled(a, ks, n)[i] == a[ks[i]];
      assert js[i] == ks[i];
      SwapKeepsDistinct(a, i, js[i]);
      ShuffleIsInjective(Swapped(a, i, js[i]), js, ks, i);
    }
  }

  // ----- Every permutation -----

  // `a` and `q` agree from `n` on, and hold the same elements below.
  ghost predicate Settled<T>(a: seq<T>, q: seq<T>, n: nat) {
    n <= |a| == |q| && a[n..] == q[n..] && multiset(a[..n]) == multiset(q[..n])
  }

  lemma FindBelow<T>(a: seq<T>, q: seq<T>, n: nat) returns (j: nat)
    requires 0 < n && Settled(a, q, n)
    ensures j < n && a[j] == q[n - 1]
  {
    assert q[..n][n - 1] in multiset(q[..n]);
    assert q[n - 1] in multiset(a[..n]);
    j :| 0 <= j < |a[..n]| && a[..n][j] == q[n - 1];
  }

  lemma NothingLeft<T>(a: seq<T>, q: seq<T>, n: nat)
    requires n <= 1 && Settled(a, q, n)
    ensures a == q
  {
    if n == 1 {
      var j := FindBelow(a, q, 1);
    }
    assert a == a[..n] + a[n..] && q == q[..n] + q[n..];
  }

  lemma {:induction false} OnlyEarlierChoices<T>(a: seq<T>, js: seq<nat>, ks: seq<nat>, n: nat)
    requires n <= |a| == |js| == |ks| && Choice(js) && Choice(ks)
    requires forall i :: 0 <= i < n ==> js[i] == ks[i]
    ensures Shuffled(a, js, n) == Shuffled(a, ks, n)
    decreases n
  {
    if n > 1 {
      OnlyEarlierChoices(Swapped(a, n - 1, js[n - 1]), js, ks, n - 1);
    }
  }

  lemma ExtendChoice<T>(a: seq<T>, ks: seq<nat>, n: nat, j: nat)
    requires 1 < n <= |a| == |ks| && Choice(ks) && j < n
    ensures Choice(ks[n - 1 := j])
    ensures Shuffled(a, ks[n - 1 := j], n) == Shuffled(Swapped(a, n - 1, j), ks, n - 1)
  {
    OnlyEarlierChoices(Swapped(a, n - 1, j), ks[n - 1 := j], ks, n - 1);
  }

  lemma FrontWithout<T>(s: seq<T>, n: nat)
    requires 0 < n <= |s|
    ensures multiset(s[..n]) == multiset(s[..n - 1]) + multiset{s[n - 1]}
    ensures s[n - 1..] == [s[n - 1]] + s[n..]
  {
    assert s[..n] == s[..n - 1] + [s[n - 1]];
  }

  lemma SameWithout<T>(x: multiset<T>, y: multiset<T>, e: T)
    requires x + multiset{e} == y + multiset{e}
    ensures x == y
  {
    assert x == (x + multiset{e}) - multiset{e} && y == (y + multiset{e}) - multiset{e};
  }

  lemma SwapSettles<T>(a: seq<T>, q: seq<T>, n: nat, j: nat)
    requires 1 < n && Settled(a, q, n) && j < n && a[j] == q[n - 1]
    ensures Settled(Swapped(a, n - 1, j), q, n - 1)
  {
    var b := Swapped(a, n - 1, j);
    SwapPermutes(a[..n], n - 1, j);
    assert b[..n] == Swapped(a[..n], n - 1, j);
    assert b[n..] == a[n..] && b[n - 1] == q[n - 1];
    FrontWithout(b, n);
    FrontWithout(q, n);
    SameWithout(multiset(b[..n - 1]), multiset(q[..n - 1]), q[n - 1]);
  }

  lemma StillChoice<T>(a: seq<T>, n: nat) returns (js: seq<nat>)
    requires n <= 1 && n <= |a|
    ensures |js| == |a| && Choice(js) && Shuffled(a, js, n) == a
  {
    js := seq(|a|, _ => 0);
  }

  lemma {:induction false} ShuffleReaches<T>(a: seq<T>, q: seq<T>, n: nat) returns (js: seq<nat>)
    requires Settled(a, q, n)
    ensures |js| == |a| && Choice(js) && Shuffled(a, js, n) == q
    decreases n
  {
    if n <= 1 {
      NothingLeft(a, q, n);
      js := StillChoice(a, n);
    } else {
      var j := FindBelow(a, q, n);
      SwapSettles(a, q, n, j);
      var ks := ShuffleReaches(Swapped(a, n - 1, j), q, n - 1);
      ExtendChoice(a, ks, n, j);
      js := ks[n - 1 := j];
    }
  }

  /** Each rearrangement of any sequence, repetitions included, comes from some choice of indices. */
  lemma RearrangementsAreReached<T>(a: seq<T>, q: seq<T>) returns (js: seq<nat>)
    requires |q| == |a| && multiset(q) == multiset(a)
    ensures |js| == |a| && Choice(js) && Shuffled(a, js, |a|) == q
  {
    assert a[..|a|] == a && q[..|a|] == q;
    js := ShuffleReaches(a, q, |a|);
  }

  /** Each permutation of a sequence of distinct elements comes from exactly one choice of indices. */
  lemma ChoicesArePermutations<T>(a: seq<T>, q: seq<T>) returns (js: seq<nat>)
    requires Distinct(a) && |q| == |a| && multiset(q) == multiset(a)
    ensures |js| == |a| && Choice(js) && Shuffled(a, js, |a|) == q
    ensures forall ks :: |ks| == |a| && Choice(ks) && Shuffled(a, ks, |a|) == q ==> ks == js
  {
    js := RearrangementsAreReached(a, q);
    forall ks | |ks| == |a| && Choice(ks) && Shuffled(a, ks, |a|) == q
      ensures ks == js
    {
      ShuffleIsInjective(a, js, ks, |a|);
    }
  }

  // ----- Bytes -----

  ghost predicate ReachedByBytes<T(!new)>(a: seq<T>, q: seq<T>) {
    exists bytes: seq<Byte> :: |bytes| == |a| && Shuffled(a, Choices(bytes), |a|) == q
  }

  lemma SmallRemainder(j: nat, n: nat)
    requires j < n
    ensures j % n == j
  {
  }

  lemma ChoiceFromBytes(js: seq<nat>) returns (bytes: seq<Byte>)
    requires Choice(js) && |js| <= 256
    ensures |bytes| == |js| && Choices(bytes) == js
  {
    bytes := seq(|js|, i requires 0 <= i < |js| => js[i] as Byte);
    forall i | 0 <= i < |js|
      ensures bytes[i] % (i + 1) == js[i]
    {
      SmallRemainder(js[i], i + 1);
    }
  }

  lemma {:induction false} StayingPut<T>(a: seq<T>, js: seq<nat>, n: nat)
    requires n <= |a| == |js| && Choice(js) && forall i :: 0 <= i < |js| ==> js[i] == i
    ensures Shuffled(a, js, n) == a
    decreases n
  {
    if n > 1 {
      assert Swapped(a, n - 1, js[n - 1]) == a;
      StayingPut(a, js, n - 1);
    }
  }

  lemma ByteFallsShort(bytes: seq<Byte>)
    requires |bytes| > 256
    ensures Choices(bytes)[256] < 256
  {
  }

  // Past 256 positions no byte leaves the element at position 256 where it is.
  lemma TooLongToStay<T(!new)>(a: seq<T>)
    requires Distinct(a) && |a| > 256
    ensures !ReachedByBytes(a, a)
  {
    if ReachedByBytes(a, a) {
      var bytes: seq<Byte> :| |bytes| == |a| && Shuffled(a, Choices(bytes), |a|) == a;
      var still: seq<nat> := seq(|a|, i => i);
      ByteFallsShort(bytes);
      StayingPut(a, still, |a|);
      ShuffleIsInjective(a, Choices(bytes), still, |a|);
      assert false;
    }
  }

  /** Random bytes reach every permutation of distinct elements if and only if there are at most 256 of them. */
  lemma BytesReachEveryPermutation<T(!new)>(a: seq<T>)
    requires Distinct(a)
    ensures (forall q :: |q| == |a| && multiset(q) == multiset(a) ==> ReachedByBytes(a, q)) <==> |a| <= 256
  {
    if |a| > 256 {
      TooLongToStay(a);
    } else {
      forall q | |q| == |a| && multiset(q) == multiset(a)
        ensures ReachedByBytes(a, q)
      {
        var js := ChoicesArePermutations(a, q);
        var bytes := ChoiceFromBytes(js);
        assert Shuffled(a, Choices(bytes), |a|) == q;
      }
    }
  }
}
