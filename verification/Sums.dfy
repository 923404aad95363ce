/** Sums of a measure over a sequence; counting is summing ones. */
module Sums {
  import opened Messages

  function Sum<T>(s: seq<T>, f: T -> nat): nat {
    if s == [] then 0 else Sum(s[..|s| - 1], f) + f(s[|s| - 1])
  }

  lemma SumAppend<T>(s: seq<T>, x: T, f: T -> nat)
    ensures Sum(s + [x], f) == Sum(s, f) + f(x)
  {
    assert (s + [x])[..|s|] == s;
  }

  lemma {:induction false} SumConcat<T>(a: seq<T>, b: seq<T>, f: T -> nat)
    ensures Sum(a + b, f) == Sum(a, f) + Sum(b, f)
    decreases |b|
  {
    if b == [] {
      assert a + b == a;
    } else {
      var n := |b| - 1;
      SumConcat(a, b[..n], f);
      assert (a + b)[..|a + b| - 1] == a + b[..n];
    }
  }

  lemma SumOne<T>(x: T, f: T -> nat)
    ensures Sum([x], f) == f(x)
  {
    SumAppend([], x, f);
    assert [] + [x] == [x];
  }

  lemma SumHead<T>(s: seq<T>, f: T -> nat)
    requires s != []
    ensures Sum(s, f) == f(s[0]) + Sum(s[1..], f)
  {
    assert s == [s[0]] + s[1..];
    SumConcat([s[0]], s[1..], f);
    SumOne(s[0], f);
  }

  lemma SumSplit<T>(s: seq<T>, i: nat, f: T -> nat)
    requires i <= |s|
    ensures Sum(s, f) == Sum(s[..i], f) + Sum(s[i..], f)
  {
    assert s == s[..i] + s[i..];
    SumConcat(s[..i], s[i..], f);
  }

  lemma SumRemove<T>(s: seq<T>, i: nat, f: T -> nat)
    requires i < |s|
    ensures Sum(s, f) == Sum(RemoveAt(s, i), f) + f(s[i])
  {
    SumSplit(s, i, f);
    SumHead(s[i..], f);
    SumConcat(s[..i], s[i..][1..], f);
    assert s[i..][1..] == s[i + 1..];
  }

  lemma SumMember<T>(s: seq<T>, i: nat, f: T -> nat)
    requires i < |s|
    ensures Sum(s, f) >= f(s[i])
  {
    SumRemove(s, i, f);
  }

  /** A positive sum has a positive term. */
  lemma {:induction false} SumPositive<T>(s: seq<T>, f: T -> nat) returns (i: nat)
    requires Sum(s, f) > 0
    ensures i < |s| && f(s[i]) > 0
  {
    var n := |s| - 1;
    if f(s[n]) > 0 {
      i := n;
    } else {
      i := SumPositive(s[..n], f);
    }
  }

  lemma {:induction false} SumAtMost<T>(s: seq<T>, f: T -> nat, g: T -> nat)
    requires forall i :: 0 <= i < |s| ==> f(s[i]) <= g(s[i])
    ensures Sum(s, f) <= Sum(s, g)
  {
    if s != [] { SumAtMost(s[..|s| - 1], f, g); }
  }

  lemma SumSame<T>(s: seq<T>, f: T -> nat, g: T -> nat)
    requires forall i :: 0 <= i < |s| ==> f(s[i]) == g(s[i])
    ensures Sum(s, f) == Sum(s, g)
  {
    SumAtMost(s, f, g);
    SumAtMost(s, g, f);
  }

  lemma {:induction false} SumBound<T>(s: seq<T>, f: T -> nat, k: nat)
    requires forall i :: 0 <= i < |s| ==> f(s[i]) <= k
    ensures Sum(s, f) <= |s| * k
  {
    if s != [] {
      SumBound(s[..|s| - 1], f, k);
      assert |s| * k == (|s| - 1) * k + k;
    }
  }

  /** Changing a measure at one member of a list without repetitions. */
  lemma {:induction false} SumChange(ps: seq<int>, p: int, f: int -> nat, g: int -> nat)
    requires NoDuplicates(ps) && p in ps
    requires forall q :: q in ps && q != p ==> f(q) == g(q)
    ensures Sum(ps, g) + f(p) == Sum(ps, f) + g(p)
  {
    var i :| 0 <= i < |ps| && ps[i] == p;
    SumRemove(ps, i, f);
    SumRemove(ps, i, g);
    var rest := RemoveAt(ps, i);
    forall k | 0 <= k < |rest| ensures f(rest[k]) == g(rest[k]) {
      assert rest[k] == ps[if k < i then k else k + 1];
    }
    SumSame(rest, f, g);
  }
}
