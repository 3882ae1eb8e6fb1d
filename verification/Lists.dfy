/** Loops that append, for each element in turn, some elements to a result; and collecting a map. */
module Lists {
  import opened Orders
  import opened Text

  function FlatMap<S, T>(f: S -> seq<T>, xs: seq<S>): seq<T> {
    if xs == [] then [] else FlatMap(f, xs[..|xs| - 1]) + f(xs[|xs| - 1])
  }

  lemma FlatMapLast<S, T>(f: S -> seq<T>, xs: seq<S>, x: S)
    ensures FlatMap(f, xs + [x]) == FlatMap(f, xs) + f(x)
  {
    assert (xs + [x])[..|xs|] == xs;
  }

  lemma FlatMapStep<S, T>(f: S -> seq<T>, xs: seq<S>, i: nat)
    requires i < |xs|
    ensures FlatMap(f, xs[..i + 1]) == FlatMap(f, xs[..i]) + f(xs[i])
  {
    assert xs[..i + 1] == xs[..i] + [xs[i]];
    FlatMapLast(f, xs[..i], xs[i]);
  }

  lemma {:induction false} FlatMapAppend<S, T>(f: S -> seq<T>, a: seq<S>, b: seq<S>)
    ensures FlatMap(f, a + b) == FlatMap(f, a) + FlatMap(f, b)
  {
    if b == [] {
      assert a + b == a;
    } else {
      assert a + b == (a + b[..|b| - 1]) + [b[|b| - 1]];
      FlatMapAppend(f, a, b[..|b| - 1]);
      FlatMapAppendOne(f, a, b[..|b| - 1], b[|b| - 1], b);
    }
  }

  lemma FlatMapAppendOne<S, T>(f: S -> seq<T>, a: seq<S>, rest: seq<S>, x: S, b: seq<S>)
    requires b == rest + [x] && FlatMap(f, a + rest) == FlatMap(f, a) + FlatMap(f, rest)
    ensures FlatMap(f, (a + rest) + [x]) == FlatMap(f, a) + FlatMap(f, b)
  {
    FlatMapLast(f, a + rest, x);
    FlatMapLast(f, rest, x);
    Associates(FlatMap(f, a), FlatMap(f, rest), f(x));
  }

  lemma FlatMapOne<S, T>(f: S -> seq<T>, x: S)
    ensures FlatMap(f, [x]) == f(x)
  {
    assert [] + [x] == [x];
    FlatMapLast(f, [], x);
  }

  /** One loop after another is one loop. */
  lemma {:induction false} FlatMapCompose<S, T, U>(g: T -> seq<U>, f: S -> seq<T>, h: S -> seq<U>, xs: seq<S>)
    requires forall x :: x in xs ==> FlatMap(g, f(x)) == h(x)
    ensures FlatMap(g, FlatMap(f, xs)) == FlatMap(h, xs)
  {
    if xs != [] {
      var rest, x := xs[..|xs| - 1], xs[|xs| - 1];
      assert x in xs && forall y :: y in rest ==> y in xs;
      FlatMapCompose(g, f, h, rest);
      FlatMapAppend(g, FlatMap(f, rest), f(x));
    }
  }

  /** The elements that are kept, in order. */
  function Only<S>(keep: S -> bool, xs: seq<S>): (r: seq<S>)
    ensures |r| <= |xs|
  {
    if xs == [] then [] else Only(keep, xs[..|xs| - 1]) + if keep(xs[|xs| - 1]) then [xs[|xs| - 1]] else []
  }

  lemma {:induction false} OnlyMembers<S>(keep: S -> bool, xs: seq<S>, x: S)
    ensures x in Only(keep, xs) <==> x in xs && keep(x)
  {
    if xs != [] {
      var rest := xs[..|xs| - 1];
      OnlyMembers(keep, rest, x);
      assert xs == rest + [xs[|xs| - 1]];
    }
  }

  /** A loop that appends one element for each kept one appends them side by side. */
  lemma {:induction false} FlatMapAligned<S, T>(f: S -> seq<T>, keep: S -> bool, rel: (S, T) -> bool, xs: seq<S>)
    requires forall x :: x in xs ==> if keep(x) then |f(x)| == 1 && rel(x, f(x)[0]) else f(x) == []
    ensures var ks, ys := Only(keep, xs), FlatMap(f, xs); |ys| == |ks| && forall k :: 0 <= k < |ks| ==> rel(ks[k], ys[k])
  {
    if xs != [] {
      var rest, x := xs[..|xs| - 1], xs[|xs| - 1];
      assert x in xs && forall y :: y in rest ==> y in xs;
      FlatMapAligned(f, keep, rel, rest);
    }
  }

  lemma {:induction false} FlatMapIsOnly<S>(f: S -> seq<S>, keep: S -> bool, xs: seq<S>)
    requires forall x :: x in xs ==> f(x) == if keep(x) then [x] else []
    ensures FlatMap(f, xs) == Only(keep, xs)
  {
    if xs != [] {
      var rest, x := xs[..|xs| - 1], xs[|xs| - 1];
      assert x in xs && forall y :: y in rest ==> y in xs;
      FlatMapIsOnly(f, keep, rest);
    }
  }

  /** At most the first n elements. */
  function Cut<T>(xs: seq<T>, n: nat): (r: seq<T>)
    ensures r <= xs && |r| == if n < |xs| then n else |xs|
  {
    if n < |xs| then xs[..n] else xs
  }

  // ---------- one result for each element ----------

  function Image<S, T>(f: S -> T, xs: seq<S>): (r: seq<T>)
    ensures |r| == |xs|
  {
    if xs == [] then [] else Image(f, xs[..|xs| - 1]) + [f(xs[|xs| - 1])]
  }

  lemma ImageStep<S, T>(f: S -> T, xs: seq<S>, i: nat)
    requires i < |xs|
    ensures Image(f, xs[..i + 1]) == Image(f, xs[..i]) + [f(xs[i])]
  {
    assert xs[..i + 1][..i] == xs[..i];
  }

  /** Finds an element and takes the sequence apart around it. */
  lemma TakeApart<T>(ys: seq<T>, x: T) returns (a: seq<T>, b: seq<T>)
    requires x in ys
    ensures ys == a + [x] + b
  {
    var i :| 0 <= i < |ys| && ys[i] == x;
    a, b := ys[..i], ys[i + 1..];
  }

  lemma SameRest<T>(xs: seq<T>, x: T, a: seq<T>, b: seq<T>)
    requires multiset(xs + [x]) == multiset(a + [x] + b)
    ensures multiset(xs) == multiset(a + b)
  {
    ConcatMultiset(xs, [x]);
    PartsMultiset(a, x, b);
    assert multiset(xs) == multiset(xs + [x]) - multiset{x};
  }

  lemma ImageLast<S, T>(f: S -> T, xs: seq<S>, x: S)
    ensures Image(f, xs + [x]) == Image(f, xs) + [f(x)]
  {
    assert (xs + [x])[..|xs|] == xs;
  }

  lemma LastIsMember<T>(xs: seq<T>, x: T, ys: seq<T>)
    requires multiset(xs + [x]) == multiset(ys)
    ensures x in ys
  {
    assert x in multiset(xs + [x]);
  }

  lemma {:induction false} ImageMultiset<S, T>(f: S -> T, xs: seq<S>, ys: seq<S>)
    requires multiset(xs) == multiset(ys)
    ensures multiset(Image(f, xs)) == multiset(Image(f, ys))
    decreases |xs|, 1
  {
    if xs == [] {
      PermutationMembers(xs, ys);
    } else {
      var rest, x := xs[..|xs| - 1], xs[|xs| - 1];
      assert xs == rest + [x];
      ImageMultisetLast(f, rest, x, ys);
    }
  }

  lemma {:induction false} ImageMultisetLast<S, T>(f: S -> T, rest: seq<S>, x: S, ys: seq<S>)
    requires multiset(rest + [x]) == multiset(ys)
    ensures multiset(Image(f, rest + [x])) == multiset(Image(f, ys))
    decreases |rest| + 1, 0
  {
    LastIsMember(rest, x, ys);
    var a, b := TakeApart(ys, x);
    SameRest(rest, x, a, b);
    ImageMultiset(f, rest, a + b);
    ImagePull(f, a, x, b);
    ImageLast(f, rest, x);
    ConcatMultiset(Image(f, rest), [f(x)]);
  }

  lemma {:induction false} ImageAppend<S, T>(f: S -> T, xs: seq<S>, ys: seq<S>)
    ensures Image(f, xs + ys) == Image(f, xs) + Image(f, ys)
  {
    if ys == [] {
      assert xs + ys == xs;
    } else {
      assert (xs + ys)[..|xs + ys| - 1] == xs + ys[..|ys| - 1];
      ImageAppend(f, xs, ys[..|ys| - 1]);
    }
  }

  lemma ImageOfOne<S, T>(f: S -> T, x: S)
    ensures Image(f, [x]) == [f(x)]
  {
    assert [x][..0] == [];
  }

  lemma ImageParts<S, T>(f: S -> T, a: seq<S>, x: S, b: seq<S>)
    ensures Image(f, a + [x] + b) == Image(f, a) + [f(x)] + Image(f, b)
    ensures Image(f, a + b) == Image(f, a) + Image(f, b)
  {
    ImageAppend(f, a + [x], b);
    ImageAppend(f, a, [x]);
    ImageOfOne(f, x);
    ImageAppend(f, a, b);
  }

  lemma PartsMultiset<T>(a: seq<T>, x: T, b: seq<T>)
    ensures multiset(a + [x] + b) == multiset(a + b) + multiset{x}
  {
    ConcatMultiset(a + [x], b);
    ConcatMultiset(a, [x]);
    ConcatMultiset(a, b);
    LastMoves(multiset(a), multiset{x}, multiset(b));
  }

  lemma ImagePull<S, T>(f: S -> T, a: seq<S>, x: S, b: seq<S>)
    ensures multiset(Image(f, a + [x] + b)) == multiset(Image(f, a + b)) + multiset{f(x)}
  {
    ImageParts(f, a, x, b);
    PartsMultiset(Image(f, a), f(x), Image(f, b));
  }

  lemma {:induction false} MemberOfImage<S, T>(f: S -> T, xs: seq<S>, y: T) returns (x: S)
    requires y in Image(f, xs)
    ensures x in xs && y == f(x)
  {
    x := xs[|xs| - 1];
    if y != f(x) { x := MemberOfImage(f, xs[..|xs| - 1], y); }
  }

  // ---------- walking a map ----------

  /** The entries of a map in some order. */
  ghost function Listing<K, V>(m: map<K, V>): seq<(K, V)> {
    if m == map[] then []
    else
      var k :| k in m;
      [(k, m[k])] + Listing(m - {k})
  }

  lemma {:induction false} ListingIsItems<K, V>(m: map<K, V>)
    ensures multiset(Listing(m)) == multiset(m.Items)
    decreases |m|
  {
    if m != map[] {
      var x := Listing(m)[0];
      var rest := m - {x.0};
      assert x.0 in m && x == (x.0, m[x.0]) && Listing(m) == [x] + Listing(rest);
      ListingIsItems(rest);
      ItemsSplit(m, x.0);
    }
  }

  lemma {:induction false} ListingLength<K, V>(m: map<K, V>)
    ensures |Listing(m)| == |m|
    decreases |m|
  {
    if m != map[] {
      var x := Listing(m)[0];
      var rest := m - {x.0};
      assert x.0 in m && Listing(m) == [x] + Listing(rest);
      MapShrinks(m, x.0);
      ListingLength(rest);
    }
  }

  lemma ItemsSplit<K, V>(m: map<K, V>, k: K)
    requires k in m
    ensures multiset(m.Items) == multiset{(k, m[k])} + multiset((m - {k}).Items)
  {
    var rest := m - {k};
    forall x ensures x in m.Items <==> x == (k, m[k]) || x in rest.Items {
      if x in m.Items && x.0 != k { assert x.0 in rest && rest[x.0] == x.1; }
      if x in rest.Items { assert x.0 in m && m[x.0] == x.1; }
    }
    assert m.Items == {(k, m[k])} + rest.Items;
    assert (k, m[k]) !in rest.Items;
  }

  /** A `range` over a map visits every entry once. */
  method VisitAll<K(==), V(==)>(m: map<K, V>) returns (all: seq<(K, V)>)
    ensures multiset(all) == multiset(Listing(m))
    ensures |all| == |m|
  {
    all := [];
    var rest := m;
    while rest != map[]
      invariant multiset(all) + multiset(rest.Items) == multiset(m.Items)
      invariant |all| + |rest| == |m|
      decreases |rest|
    {
      var k :| k in rest;
      ItemsSplit(rest, k);
      MapShrinks(rest, k);
      all := all + [(k, rest[k])];
      rest := rest - {k};
    }
    ListingIsItems(m);
    assert rest.Items == {};
  }

  lemma MapShrinks<K, V>(m: map<K, V>, k: K)
    requires k in m
    ensures |m - {k}| == |m| - 1
  {
    assert (m - {k}).Keys == m.Keys - {k};
    assert |m - {k}| == |(m - {k}).Keys|;
  }
}
