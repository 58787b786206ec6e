/**
 Accounting for things that are each in exactly one place. `f` lists what is in a place, `at` says
 where a thing is; moving a thing keeps the two in agreement.
 */
module Places {

  predicate NoDup(s: seq<nat>) {
    forall i, j :: 0 <= i < j < |s| ==> s[i] != s[j]
  }

  lemma NoDupCons(x: nat, s: seq<nat>)
    ensures NoDup([x] + s) <==> x !in s && NoDup(s)
  {
    var t := [x] + s;
    assert forall i :: 0 <= i < |s| ==> s[i] == t[i + 1];
    if NoDup(t) {
      assert t[0] == x && forall i :: 0 <= i < |s| ==> s[i] != x;
      forall i, j | 0 <= i < j < |s| ensures s[i] != s[j] { assert t[i + 1] != t[j + 1]; }
    }
  }

  /** `all` is divided between `xs` and `rest`. */
  ghost predicate Splits(all: seq<nat>, xs: seq<nat>, rest: seq<nat>) {
    && NoDup(xs) && NoDup(rest)
    && (forall x :: x in all <==> x in xs || x in rest)
    && (forall x :: x in xs ==> x !in rest)
  }

  lemma SplitsLeft(x: nat, all: seq<nat>, xs: seq<nat>, rest: seq<nat>)
    requires Splits(all, xs, rest) && x !in all
    ensures Splits([x] + all, [x] + xs, rest) && Splits([x] + all, [x] + xs, [] + rest)
  {
    NoDupCons(x, xs);
    assert [] + rest == rest;
  }

  lemma SplitsRight(x: nat, all: seq<nat>, xs: seq<nat>, rest: seq<nat>)
    requires Splits(all, xs, rest) && x !in all
    ensures Splits([x] + all, xs, [x] + rest) && Splits([x] + all, [] + xs, [x] + rest)
  {
    NoDupCons(x, rest);
    assert [] + xs == xs;
  }

  /** The lists of the places partition the keys of `at`. */
  ghost predicate Partitioned<P(!new)>(f: P -> seq<nat>, at: map<nat, P>) {
    && (forall pl, x :: x in f(pl) <==> x in at && at[x] == pl)
    && (forall pl :: NoDup(f(pl)))
  }

  lemma Unmoved<P(!new)>(f: P -> seq<nat>, f': P -> seq<nat>, at: map<nat, P>)
    requires Partitioned(f, at) && forall pl :: f'(pl) == f(pl)
    ensures Partitioned(f', at)
  {
  }

  /** `x` goes from the front of place `a` to the back of place `b`. */
  lemma Moved<P(!new)>(f: P -> seq<nat>, f': P -> seq<nat>, at: map<nat, P>, x: nat, a: P, b: P)
    requires Partitioned(f, at) && a != b
    requires f(a) == [x] + f'(a) && f'(b) == f(b) + [x]
    requires forall pl :: pl != a && pl != b ==> f'(pl) == f(pl)
    ensures Partitioned(f', at[x := b])
  {
    assert f(a)[0] == x && x in f(a);
    assert forall i :: 0 <= i < |f'(a)| ==> f'(a)[i] == f(a)[i + 1];
    assert x !in f'(a);
    assert x in at && at[x] == a;
    assert x in f(b) <==> x in at && at[x] == b;
  }

  /** A new thing appears at the back of place `b`. */
  lemma Entered<P(!new)>(f: P -> seq<nat>, f': P -> seq<nat>, at: map<nat, P>, x: nat, b: P)
    requires Partitioned(f, at) && x !in at
    requires f'(b) == f(b) + [x]
    requires forall pl :: pl != b ==> f'(pl) == f(pl)
    ensures Partitioned(f', at[x := b])
  {
  }

  /** The things in `xs` leave place `a`, keeping the rest of it, and fill the empty place `b`. */
  lemma Swept<P(!new)>(f: P -> seq<nat>, f': P -> seq<nat>, at: map<nat, P>, at': map<nat, P>, xs: seq<nat>, a: P, b: P)
    requires Partitioned(f, at) && a != b && f(b) == [] && f'(b) == xs
    requires Splits(f(a), xs, f'(a))
    requires forall pl :: pl != a && pl != b ==> f'(pl) == f(pl)
    requires at'.Keys == at.Keys && forall x :: x in at ==> at'[x] == if x in xs then b else at[x]
    ensures Partitioned(f', at')
  {
    forall pl, x ensures x in f'(pl) <==> x in at' && at'[x] == pl {
      assert x in f(a) <==> x in at && at[x] == a;
      assert x in f(pl) <==> x in at && at[x] == pl;
    }
  }
}
