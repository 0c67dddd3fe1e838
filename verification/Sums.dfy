/** Multisets summed over sequences and projected along functions: neither depends on any order. */
module Sums {

  function Sum<T, U(==)>(s: seq<T>, f: T -> multiset<U>): multiset<U> {
    if s == [] then multiset{} else f(s[0]) + Sum(s[1..], f)
  }

  lemma {:induction false} SumRemove<T, U>(s: seq<T>, f: T -> multiset<U>, i: nat)
    requires i < |s|
    ensures Sum(s, f) == f(s[i]) + Sum(s[..i] + s[i + 1..], f)
  {
    if i == 0 {
      assert s[..0] + s[1..] == s[1..];
    } else {
      SumRemove(s[1..], f, i - 1);
      assert (s[..i] + s[i + 1..])[1..] == s[1..][..i - 1] + s[1..][i..];
    }
  }

  lemma {:induction false} SumPermutation<T, U>(s: seq<T>, t: seq<T>, f: T -> multiset<U>)
    requires multiset(s) == multiset(t)
    ensures Sum(s, f) == Sum(t, f)
  {
    if s == [] {
      assert |t| == |multiset(t)| == 0;
    } else {
      hide Sum;
      var i := SameHead(s, t);
      SumRemove(t, f, i);
      SumRemove(s, f, 0);
      assert s[..0] + s[1..] == s[1..];
      SumPermutation(s[1..], t[..i] + t[i + 1..], f);
    }
  }

  lemma SameHead<T>(s: seq<T>, t: seq<T>) returns (i: nat)
    requires s != [] && multiset(s) == multiset(t)
    ensures i < |t| && t[i] == s[0] && multiset(s[1..]) == multiset(t[..i] + t[i + 1..])
  {
    assert s[0] in multiset(t);
    i :| 0 <= i < |t| && t[i] == s[0];
    Without(t, i);
    Without(s, 0);
    assert s[..0] + s[1..] == s[1..];
    Cancel(multiset(s[1..]), multiset(t[..i] + t[i + 1..]), s[0]);
  }

  lemma Without<T>(s: seq<T>, i: nat)
    requires i < |s|
    ensures multiset(s) == multiset(s[..i] + s[i + 1..]) + multiset{s[i]}
  {
    assert s == s[..i] + [s[i]] + s[i + 1..];
  }

  lemma Cancel<T>(a: multiset<T>, b: multiset<T>, x: T)
    requires a + multiset{x} == b + multiset{x}
    ensures a == b
  {
    assert a == (a + multiset{x}) - multiset{x};
    assert b == (b + multiset{x}) - multiset{x};
  }

  /** The image of a multiset. */
  ghost function Image<T, U>(m: multiset<T>, f: T -> U): multiset<U>
    decreases |m|
  {
    if m == multiset{} then multiset{}
    else
      var x :| x in m;
      multiset{f(x)} + Image(m - multiset{x}, f)
  }

  lemma ImagePick<T, U>(m: multiset<T>, f: T -> U) returns (y: T)
    requires m != multiset{}
    ensures y in m && Image(m, f) == multiset{f(y)} + Image(m - multiset{y}, f)
  {
    y :| y in m && Image(m, f) == multiset{f(y)} + Image(m - multiset{y}, f);
  }

  lemma {:induction false} ImageRemove<T, U>(m: multiset<T>, f: T -> U, x: T)
    requires x in m
    ensures Image(m, f) == multiset{f(x)} + Image(m - multiset{x}, f)
    decreases |m|
  {
    hide Image;
    var y := ImagePick(m, f);
    if x != y {
      var rest := m - multiset{x} - multiset{y};
      assert m - multiset{y} - multiset{x} == rest;
      ImageRemove(m - multiset{y}, f, x);
      ImageRemove(m - multiset{x}, f, y);
      assert multiset{f(y)} + (multiset{f(x)} + Image(rest, f)) == multiset{f(x)} + (multiset{f(y)} + Image(rest, f));
    }
  }

  lemma {:induction false} ImageSum<T, U>(a: multiset<T>, b: multiset<T>, f: T -> U)
    ensures Image(a + b, f) == Image(a, f) + Image(b, f)
    decreases |a|
  {
    if a == multiset{} {
      assert a + b == b;
    } else {
      hide Image;
      var x := ImagePick(a, f);
      ImageRemove(a + b, f, x);
      assert a + b - multiset{x} == (a - multiset{x}) + b;
      ImageSum(a - multiset{x}, b, f);
      Associate(multiset{f(x)}, Image(a - multiset{x}, f), Image(b, f));
    }
  }

  lemma Associate<U>(a: multiset<U>, b: multiset<U>, c: multiset<U>)
    ensures a + (b + c) == (a + b) + c
  {
  }

  lemma {:induction false} ImageOrigin<T, U>(m: multiset<T>, f: T -> U, u: U)
    ensures u in Image(m, f) ==> exists x :: x in m && f(x) == u
    decreases |m|
  {
    if m != multiset{} {
      var y :| y in m && Image(m, f) == multiset{f(y)} + Image(m - multiset{y}, f);
      ImageOrigin(m - multiset{y}, f, u);
    }
  }
}
