/** The swap loop that shuffles index tables, for any draws the random source makes. */
module FisherYates {

  function Swap<T>(s: seq<T>, i: nat, j: nat): (t: seq<T>)
    requires i < |s| && j < |s|
    ensures |t| == |s|
  {
    s[i := s[j]][j := s[i]]
  }

  /** Two elements change places and no other moves. */
  lemma SwapAt<T>(s: seq<T>, i: nat, j: nat, k: nat)
    requires i < |s| && j < |s| && k < |s|
    ensures Swap(s, i, j)[k] == s[if k == i then j else if k == j then i else k]
  {
  }

  lemma SwapKeepsElements<T>(s: seq<T>, i: nat, j: nat)
    requires i < |s| && j < |s|
    ensures multiset(Swap(s, i, j)) == multiset(s)
  {
  }

  /** js[i] is the draw made for position i; `Intn(i + 1)` only promises 0 <= js[i] <= i. */
  ghost predicate Draws(js: seq<nat>, n: nat) {
    |js| == n && forall i :: 0 <= i < n ==> js[i] <= i
  }

  /** What the loop leaves of s: the last position is settled first, then the shorter prefix. */
  function Shuffle<T>(s: seq<T>, js: seq<nat>): (t: seq<T>)
    requires Draws(js, |s|)
    ensures |t| == |s|
    decreases |s|
  {
    if s == [] then []
    else
      var i := |s| - 1;
      var u := Swap(s, i, js[i]);
      Shuffle(u[..i], js[..i]) + [u[i]]
  }

  function Identity(n: nat): (s: seq<nat>)
    ensures |s| == n
  {
    seq(n, i => i)
  }

  lemma IdentityAt(n: nat, i: nat)
    requires i < n
    ensures Identity(n)[i] == i
  {
  }

  ghost predicate Distinct<T>(s: seq<T>) {
    forall i, j :: 0 <= i < j < |s| ==> s[i] != s[j]
  }

  /** p lists 0..n-1, each once. */
  ghost predicate Permutation(p: seq<int>, n: nat) {
    && |p| == n
    && Distinct(p)
    && (forall i :: 0 <= i < n ==> 0 <= p[i] < n)
    && (forall v :: 0 <= v < n ==> v in p)
  }

  lemma SplitLast<T>(s: seq<T>)
    requires s != []
    ensures multiset(s) == multiset(s[..|s| - 1]) + multiset{s[|s| - 1]}
  {
    assert s == s[..|s| - 1] + [s[|s| - 1]];
  }

  lemma {:induction false} ShuffleKeepsElements<T>(s: seq<T>, js: seq<nat>)
    requires Draws(js, |s|)
    ensures multiset(Shuffle(s, js)) == multiset(s)
    decreases |s|
  {
    if s != [] {
      var i := |s| - 1;
      var u, t := Swap(s, i, js[i]), Shuffle(s, js);
      ShuffleTurn(s, js);
      ShuffleKeepsElements(u[..i], js[..i]);
      SwapKeepsElements(s, i, js[i]);
      SplitLast(u);
      SplitLast(t);
    }
  }

  lemma {:induction false} DistinctOnce<T>(s: seq<T>, x: T)
    requires Distinct(s) && x in s
    ensures multiset(s)[x] == 1
  {
    var n := |s| - 1;
    assert s == s[..n] + [s[n]];
    if x in s[..n] {
      DistinctOnce(s[..n], x);
      assert x != s[n];
    }
  }

  lemma RepeatedTwice<T>(s: seq<T>, i: nat, j: nat)
    requires i < j < |s| && s[i] == s[j]
    ensures multiset(s)[s[i]] >= 2
  {
    assert s == s[..j] + [s[j]] + s[j + 1..];
    assert s[i] in s[..j];
  }

  lemma SameElementsDistinct<T>(s: seq<T>, t: seq<T>)
    requires multiset(s) == multiset(t) && Distinct(s)
    ensures Distinct(t)
  {
    forall i, j | 0 <= i < j < |t| ensures t[i] != t[j] {
      if t[i] == t[j] {
        RepeatedTwice(t, i, j);
        assert t[i] in multiset(s);
        DistinctOnce(s, t[i]);
      }
    }
  }

  /** Whatever is drawn, the table is a permutation. */
  lemma ShuffleIsPermutation(n: nat, js: seq<nat>)
    requires Draws(js, n)
    ensures Permutation(Shuffle(Identity(n), js), n)
  {
    var s, p := Identity(n), Shuffle(Identity(n), js);
    ShuffleKeepsElements(s, js);
    SameElementsDistinct(s, p);
    forall i | 0 <= i < n ensures p[i] < n {
      assert p[i] in multiset(p);
      assert p[i] in s;
    }
    forall v | 0 <= v < n ensures v in p {
      assert s[v] in multiset(s);
      assert v in multiset(p);
    }
  }

  /** One turn of the loop: the value drawn is final, the rest shuffles the shorter prefix. */
  lemma ShuffleTurn<T>(s: seq<T>, js: seq<nat>)
    requires s != [] && Draws(js, |s|)
    ensures var i := |s| - 1; var t := Shuffle(s, js);
      && t[i] == s[js[i]]
      && t[..i] == Shuffle(Swap(s, i, js[i])[..i], js[..i])
  {
  }

  /** The position of v in a permutation. */
  ghost function Where(p: seq<int>, n: nat, v: nat): (i: nat)
    requires Permutation(p, n) && v < n
    ensures i < n && p[i] == v
  {
    assert v in p;
    var i :| 0 <= i < n && p[i] == v;
    i
  }

  /** Distinct draws give distinct tables. */
  lemma {:induction false} ShuffleInjective<T>(s: seq<T>, js: seq<nat>, ks: seq<nat>)
    requires Distinct(s) && Draws(js, |s|) && Draws(ks, |s|)
    requires Shuffle(s, js) == Shuffle(s, ks)
    ensures js == ks
    decreases |s|
  {
    if s != [] {
      var i := |s| - 1;
      SameDraw(s, js, ks);
      SwapKeepsDistinct(s, i, js[i]);
      ShuffleInjective(Swap(s, i, js[i])[..i], js[..i], ks[..i]);
      assert js[..i] == ks[..i];
      SameEnds(js, ks);
    }
  }

  lemma SameEnds(js: seq<nat>, ks: seq<nat>)
    requires |js| == |ks| > 0 && js[..|js| - 1] == ks[..|js| - 1] && js[|js| - 1] == ks[|js| - 1]
    ensures js == ks
  {
    assert js == js[..|js| - 1] + [js[|js| - 1]] && ks == ks[..|js| - 1] + [ks[|js| - 1]];
  }

  lemma SameDraw<T>(s: seq<T>, js: seq<nat>, ks: seq<nat>)
    requires s != [] && Distinct(s) && Draws(js, |s|) && Draws(ks, |s|)
    requires Shuffle(s, js) == Shuffle(s, ks)
    ensures var i := |s| - 1;
      && js[i] == ks[i]
      && Shuffle(Swap(s, i, js[i])[..i], js[..i]) == Shuffle(Swap(s, i, js[i])[..i], ks[..i])
  {
    hide Shuffle;
    ShuffleTurn(s, js);
    ShuffleTurn(s, ks);
  }

  lemma SwapKeepsDistinct<T>(s: seq<T>, i: nat, j: nat)
    requires Distinct(s) && i < |s| && j < |s|
    ensures Distinct(Swap(s, i, j)) && Distinct(Swap(s, i, j)[..i])
  {
    SwapKeepsElements(s, i, j);
    SameElementsDistinct(s, Swap(s, i, j));
  }

  /** Every arrangement is reached by some draws, so the loop is a bijection onto arrangements. */
  lemma {:induction false} ShuffleOnto<T>(s: seq<T>, t: seq<T>)
    requires multiset(s) == multiset(t)
    ensures exists js: seq<nat> :: Draws(js, |s|) && Shuffle(s, js) == t
    decreases |s|
  {
    assert |multiset(s)| == |s| && |multiset(t)| == |t|;
    if s == [] {
      assert Draws([], |s|) && Shuffle(s, []) == t;
    } else {
      var i := |s| - 1;
      var j := IndexOf(s, t, i);
      var u := Swap(s, i, j);
      LastDropped(s, t, j);
      ShuffleOnto(u[..i], t[..i]);
      var js: seq<nat> :| Draws(js, i) && Shuffle(u[..i], js) == t[..i];
      ExtendDraws(s, t, j, js);
    }
  }

  lemma IndexOf<T>(s: seq<T>, t: seq<T>, i: nat) returns (j: nat)
    requires multiset(s) == multiset(t) && i < |t|
    ensures j < |s| && s[j] == t[i]
  {
    assert t[i] in multiset(s);
    j :| j < |s| && s[j] == t[i];
  }

  lemma ExtendDraws<T>(s: seq<T>, t: seq<T>, j: nat, js: seq<nat>)
    requires s != [] && |t| == |s| && j < |s| && s[j] == t[|s| - 1]
    requires Draws(js, |s| - 1) && Shuffle(Swap(s, |s| - 1, j)[..|s| - 1], js) == t[..|s| - 1]
    ensures exists ks: seq<nat> :: Draws(ks, |s|) && Shuffle(s, ks) == t
  {
    var ks := js + [j];
    assert ks[..|s| - 1] == js;
    ShuffleTurn(s, ks);
    var r := Shuffle(s, ks);
    assert r == r[..|s| - 1] + [r[|s| - 1]] && t == t[..|s| - 1] + [t[|s| - 1]];
    assert Draws(ks, |s|);
  }

  lemma LastDropped<T>(s: seq<T>, t: seq<T>, j: nat)
    requires multiset(s) == multiset(t) && |s| == |t| > 0
    requires j < |s| && s[j] == t[|s| - 1]
    ensures multiset(Swap(s, |s| - 1, j)[..|s| - 1]) == multiset(t[..|s| - 1])
  {
    var i := |s| - 1;
    var u := Swap(s, i, j);
    SwapKeepsElements(s, i, j);
    SplitLast(u);
    SplitLast(t);
    CancelOne(multiset(u[..i]), multiset(t[..i]), t[i]);
  }

  lemma CancelOne<T>(a: multiset<T>, b: multiset<T>, x: T)
    requires a + multiset{x} == b + multiset{x}
    ensures a == b
  {
    assert a == (a + multiset{x}) - multiset{x};
    assert b == (b + multiset{x}) - multiset{x};
  }

  /** `for i := n-1; i > 0; i-- { j := rng.Intn(i+1); swap }`, in place. */
  method ShuffleInPlace(idx: array<nat>, js: seq<nat>)
    requires Draws(js, idx.Length)
    modifies idx
    ensures idx[..] == Shuffle(old(idx[..]), js)
  {
    var i := idx.Length - 1;
    ghost var s := idx[..];
    assert idx[..i + 1] == s && js[..i + 1] == js;
    while i > 0
      invariant -1 <= i < idx.Length
      invariant idx.Length > 0 ==> i >= 0
      invariant Unsettled(idx[..], js, i + 1) == Shuffle(s, js)
    {
      var j := js[i];
      UnsettledTurn(idx[..], js, i);
      idx[i], idx[j] := idx[j], idx[i];
      i := i - 1;
    }
    UnsettledDone(idx[..], js, i + 1);
  }

  /** What becomes of a when its first n positions are still to be shuffled. */
  ghost function Unsettled(a: seq<nat>, js: seq<nat>, n: nat): seq<nat>
    requires n <= |a| && Draws(js, |a|)
  {
    Shuffle(a[..n], js[..n]) + a[n..]
  }

  lemma UnsettledTurn(a: seq<nat>, js: seq<nat>, i: nat)
    requires i < |a| && Draws(js, |a|)
    ensures Unsettled(Swap(a, i, js[i]), js, i) == Unsettled(a, js, i + 1)
  {
    var b := Swap(a, i, js[i]);
    var u := Swap(a[..i + 1], i, js[i]);
    ShuffleTurn(a[..i + 1], js[..i + 1]);
    assert u[..i] == b[..i] && js[..i + 1][..i] == js[..i];
    assert b[i..] == [a[js[i]]] + a[i + 1..];
    assert Shuffle(a[..i + 1], js[..i + 1]) == Shuffle(b[..i], js[..i]) + [a[js[i]]];
  }

  lemma UnsettledDone(a: seq<nat>, js: seq<nat>, n: nat)
    requires n <= 1 && n <= |a| && Draws(js, |a|)
    ensures Unsettled(a, js, n) == a
  {
    if n == 1 {
      ShuffleTurn(a[..1], js[..1]);
    }
  }
}
