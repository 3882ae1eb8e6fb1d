/** Sorting and order independence, for the places where Go sorts with `sort.SliceStable` or walks a
    map in an unspecified order. */
module Orders {

  ghost predicate StrictWeak<T(!new)>(less: (T, T) -> bool) {
    && (forall x :: !less(x, x))
    && (forall x, y, z :: less(x, y) && less(y, z) ==> less(x, z))
    && (forall x, y, z :: less(x, z) ==> less(x, y) || less(y, z))
  }

  /** Different members of xs never tie. */
  ghost predicate NoTies<T>(less: (T, T) -> bool, xs: seq<T>) {
    forall x, y :: x in xs && y in xs && x != y ==> less(x, y) || less(y, x)
  }

  ghost predicate Sorted<T>(less: (T, T) -> bool, xs: seq<T>) {
    forall i, j :: 0 <= i < j < |xs| ==> !less(xs[j], xs[i])
  }

  function Insert<T>(less: (T, T) -> bool, x: T, ys: seq<T>): (r: seq<T>)
    ensures multiset(r) == multiset{x} + multiset(ys)
    ensures |r| == |ys| + 1
  {
    if ys == [] then [x]
    else if !less(ys[0], x) then [x] + ys
    else
      assert ys == [ys[0]] + ys[1..];
      [ys[0]] + Insert(less, x, ys[1..])
  }

  /** sort.SliceStable: the sorted permutation that keeps tied elements in their input order. */
  function StableSort<T>(less: (T, T) -> bool, xs: seq<T>): (r: seq<T>)
    ensures multiset(r) == multiset(xs)
    ensures |r| == |xs|
  {
    if xs == [] then []
    else
      assert xs == [xs[0]] + xs[1..];
      Insert(less, xs[0], StableSort(less, xs[1..]))
  }

  lemma {:induction false} InsertSorted<T(!new)>(less: (T, T) -> bool, x: T, ys: seq<T>)
    requires StrictWeak(less) && Sorted(less, ys)
    ensures Sorted(less, Insert(less, x, ys))
  {
    if ys != [] && less(ys[0], x) {
      InsertSorted(less, x, ys[1..]);
      var rest := Insert(less, x, ys[1..]);
      forall k | 0 <= k < |rest| ensures !less(rest[k], ys[0]) {
        assert rest[k] in multiset(rest);
        assert rest[k] == x || rest[k] in ys[1..];
      }
    } else if ys != [] {
      forall k | 0 <= k < |ys| ensures !less(ys[k], x) { }
    }
  }

  lemma {:induction false} StableSortSorts<T(!new)>(less: (T, T) -> bool, xs: seq<T>)
    requires StrictWeak(less)
    ensures Sorted(less, StableSort(less, xs))
  {
    if xs != [] {
      StableSortSorts(less, xs[1..]);
      InsertSorted(less, xs[0], StableSort(less, xs[1..]));
    }
  }

  lemma PermutationMembers<T>(xs: seq<T>, ys: seq<T>)
    requires multiset(xs) == multiset(ys)
    ensures |xs| == |ys|
    ensures forall x :: x in xs <==> x in ys
  {
    assert |multiset(xs)| == |xs| && |multiset(ys)| == |ys|;
    forall x ensures x in xs <==> x in ys {
      assert x in xs <==> x in multiset(xs);
      assert x in ys <==> x in multiset(ys);
    }
  }

  lemma SortedHead<T(!new)>(less: (T, T) -> bool, xs: seq<T>, ys: seq<T>)
    requires NoTies(less, xs) && xs != []
    requires Sorted(less, xs) && Sorted(less, ys)
    requires multiset(xs) == multiset(ys)
    ensures ys != [] && xs[0] == ys[0]
  {
    PermutationMembers(xs, ys);
    assert ys[0] in xs && xs[0] in ys;
    var i :| 0 <= i < |xs| && xs[i] == ys[0];
    var j :| 0 <= j < |ys| && ys[j] == xs[0];
    assert i == 0 || !less(xs[i], xs[0]);
    assert j == 0 || !less(ys[j], ys[0]);
  }

  lemma TailPermutes<T>(xs: seq<T>, ys: seq<T>)
    requires multiset(xs) == multiset(ys) && xs != [] && ys != [] && xs[0] == ys[0]
    ensures multiset(xs[1..]) == multiset(ys[1..])
  {
    assert xs == [xs[0]] + xs[1..] && ys == [ys[0]] + ys[1..];
    assert multiset(xs[1..]) == multiset(xs) - multiset{xs[0]};
    assert multiset(ys[1..]) == multiset(ys) - multiset{ys[0]};
  }

  lemma SortedTail<T(!new)>(less: (T, T) -> bool, xs: seq<T>)
    requires Sorted(less, xs) && xs != []
    ensures Sorted(less, xs[1..])
  {
  }

  /** Without ties a collection has only one sorted arrangement. */
  lemma {:induction false} SortedUnique<T(!new)>(less: (T, T) -> bool, xs: seq<T>, ys: seq<T>)
    requires NoTies(less, xs)
    requires Sorted(less, xs) && Sorted(less, ys)
    requires multiset(xs) == multiset(ys)
    ensures xs == ys
    decreases |xs|
  {
    if xs == [] {
      PermutationMembers(xs, ys);
    } else {
      SortedHead(less, xs, ys);
      TailPermutes(xs, ys);
      SortedTail(less, xs);
      SortedTail(less, ys);
      assert NoTies(less, xs[1..]) by { assert forall x :: x in xs[1..] ==> x in xs; }
      SortedUnique(less, xs[1..], ys[1..]);
      assert xs == [xs[0]] + xs[1..] && ys == [ys[0]] + ys[1..];
    }
  }

  /** The result of sorting is the same for every order of the input. */
  lemma SortIgnoresInputOrder<T(!new)>(less: (T, T) -> bool, xs: seq<T>, ys: seq<T>)
    requires StrictWeak(less) && NoTies(less, xs)
    requires multiset(xs) == multiset(ys)
    ensures StableSort(less, xs) == StableSort(less, ys)
  {
    StableSortSorts(less, xs);
    StableSortSorts(less, ys);
    PermutationMembers(xs, StableSort(less, xs));
    SortedUnique(less, StableSort(less, xs), StableSort(less, ys));
  }

  lemma TailNotBeforeHead<T>(less: (T, T) -> bool, xs: seq<T>, m: nat, x: T, y: T)
    requires Sorted(less, xs) && m <= |xs| && x in xs[..m] && y in xs[m..]
    ensures !less(y, x)
  {
    var i :| 0 <= i < m && xs[..m][i] == x;
    var j :| 0 <= j < |xs| - m && xs[m..][j] == y;
    assert xs[i] == x && xs[m + j] == y;
  }

  lemma ConcatMultiset<T>(a: seq<T>, b: seq<T>)
    ensures multiset(a + b) == multiset(a) + multiset(b)
  {
  }

  lemma LastMoves<T>(a: multiset<T>, b: multiset<T>, c: multiset<T>)
    ensures a + b + c == a + c + b
  {
  }

  function Fold<A, T>(step: (A, T) -> A, acc: A, xs: seq<T>): A {
    if xs == [] then acc else Fold(step, step(acc, xs[0]), xs[1..])
  }

  lemma {:induction false} FoldAppend<A, T>(step: (A, T) -> A, acc: A, xs: seq<T>, ys: seq<T>)
    ensures Fold(step, acc, xs + ys) == Fold(step, Fold(step, acc, xs), ys)
  {
    if xs == [] {
      assert xs + ys == ys;
    } else {
      assert (xs + ys)[1..] == xs[1..] + ys;
      FoldAppend(step, step(acc, xs[0]), xs[1..], ys);
    }
  }

  lemma FoldLast<A, T>(step: (A, T) -> A, acc: A, xs: seq<T>, x: T)
    ensures Fold(step, acc, xs + [x]) == step(Fold(step, acc, xs), x)
  {
    FoldAppend(step, acc, xs, [x]);
    assert [x][1..] == [];
  }

  lemma FoldStep<A, T>(step: (A, T) -> A, acc: A, xs: seq<T>, i: nat)
    requires i < |xs|
    ensures Fold(step, acc, xs[..i + 1]) == step(Fold(step, acc, xs[..i]), xs[i])
  {
    assert xs[..i + 1] == xs[..i] + [xs[i]];
    FoldLast(step, acc, xs[..i], xs[i]);
  }

  /** Two loops with commuting steps can be swapped. */
  lemma FoldsCommute<A(!new), T(!new)>(step: (A, T) -> A, acc: A, xs: seq<T>, ys: seq<T>)
    requires Commutes(step)
    ensures Fold(step, Fold(step, acc, xs), ys) == Fold(step, Fold(step, acc, ys), xs)
  {
    FoldAppend(step, acc, xs, ys);
    FoldAppend(step, acc, ys, xs);
    ConcatMultiset(xs, ys);
    ConcatMultiset(ys, xs);
    FoldIgnoresOrder(step, acc, xs + ys, ys + xs);
  }

  ghost predicate Commutes<A(!new), T(!new)>(step: (A, T) -> A) {
    forall a, x, y :: step(step(a, x), y) == step(step(a, y), x)
  }

  lemma {:induction false} FoldPull<A(!new), T(!new)>(step: (A, T) -> A, acc: A, xs: seq<T>, i: nat)
    requires Commutes(step) && i < |xs|
    ensures Fold(step, acc, xs) == Fold(step, step(acc, xs[i]), xs[..i] + xs[i + 1..])
    decreases i
  {
    if i == 0 {
      assert xs[..0] + xs[1..] == xs[1..];
    } else {
      FoldPull(step, step(acc, xs[0]), xs[1..], i - 1);
      assert xs[1..][..i - 1] + xs[1..][i..] == (xs[..i] + xs[i + 1..])[1..];
    }
  }

  /** A loop whose steps commute ends in the same state for every order of its input. */
  lemma {:induction false} FoldIgnoresOrder<A(!new), T(!new)>(step: (A, T) -> A, acc: A, xs: seq<T>, ys: seq<T>)
    requires Commutes(step) && multiset(xs) == multiset(ys)
    ensures Fold(step, acc, xs) == Fold(step, acc, ys)
    decreases |xs|
  {
    PermutationMembers(xs, ys);
    if xs != [] {
      assert xs[0] in ys;
      var i :| 0 <= i < |ys| && ys[i] == xs[0];
      FoldPull(step, acc, ys, i);
      var rest := ys[..i] + ys[i + 1..];
      assert ys == ys[..i] + [ys[i]] + ys[i + 1..];
      assert xs == [xs[0]] + xs[1..];
      assert multiset(rest) == multiset(ys) - multiset{xs[0]} == multiset(xs[1..]);
      FoldIgnoresOrder(step, step(acc, xs[0]), xs[1..], rest);
    }
  }

  lemma SwapPermutes<T>(s: seq<T>, i: nat, j: nat)
    requires i < j < |s|
    ensures multiset(s[i := s[j]][j := s[i]]) == multiset(s)
  {
  }

  /** The first i + 1 elements are in order, the one at j aside. */
  ghost predicate SortedBut<T>(less: (T, T) -> bool, s: seq<T>, i: nat, j: nat)
    requires i < |s|
  {
    forall k, m :: 0 <= k < m <= i && m != j ==> !less(s[m], s[k])
  }

  ghost predicate Asymmetric<T(!new)>(less: (T, T) -> bool) {
    forall x, y :: less(x, y) ==> !less(y, x)
  }

  lemma SwapSinks<T(!new)>(less: (T, T) -> bool, was: seq<T>, now: seq<T>, i: nat, j: nat)
    requires Asymmetric(less) && 0 < j <= i < |was| && SortedBut(less, was, i, j) && less(was[j], was[j - 1])
    requires now == was[j - 1 := was[j]][j := was[j - 1]]
    ensures SortedBut(less, now, i, j - 1)
  {
    forall k, m | 0 <= k < m <= i && m != j - 1 ensures !less(now[m], now[k]) {
      if m == j && k == j - 1 {
        assert less(was[j], was[j - 1]);
      } else if m == j {
        assert !less(was[j - 1], was[k]);
      } else {
        assert !less(was[m], was[if k == j then j - 1 else if k == j - 1 then j else k]);
      }
    }
  }

  lemma SunkIsSorted<T(!new)>(less: (T, T) -> bool, s: seq<T>, i: nat, j: nat)
    requires StrictWeak(less) && j <= i < |s| && SortedBut(less, s, i, j) && (j > 0 ==> !less(s[j], s[j - 1]))
    ensures forall k, m :: 0 <= k < m <= i ==> !less(s[m], s[k])
  {
    forall k | 0 <= k < j ensures !less(s[j], s[k]) {
      if k < j - 1 { assert !less(s[j - 1], s[k]); }
    }
  }

  /** Element i sinks by swaps to the place j where it is no longer before its left neighbour. */
  method Sink<T(!new)>(less: (T, T) -> bool, s: array<T>, i: nat) returns (j: nat)
    requires i < s.Length && Asymmetric(less) && SortedBut(less, s[..], i, i)
    modifies s
    ensures j <= i && SortedBut(less, s[..], i, j) && (j > 0 ==> !less(s[j], s[j - 1]))
    ensures multiset(s[..]) == multiset(old(s[..]))
  {
    j := i;
    while j > 0 && less(s[j], s[j - 1])
      invariant j <= i
      invariant SortedBut(less, s[..], i, j)
      invariant multiset(s[..]) == multiset(old(s[..]))
    {
      ghost var was := s[..];
      s[j], s[j - 1] := s[j - 1], s[j];
      ghost var now := s[..];
      assert now == was[j - 1 := was[j]][j := was[j - 1]];
      SwapPermutes(was, j - 1, j);
      SwapSinks(less, was, now, i, j);
      j := j - 1;
    }
  }

  /** Insertion by swaps: element i joins the sorted head. */
  method SinkIn<T(!new)>(less: (T, T) -> bool, s: array<T>, i: nat)
    requires i < s.Length && StrictWeak(less)
    requires forall k, m :: 0 <= k < m < i ==> !less(s[m], s[k])
    modifies s
    ensures forall k, m :: 0 <= k < m <= i ==> !less(s[m], s[k])
    ensures multiset(s[..]) == multiset(old(s[..]))
  {
    OrderIsAsymmetric(less);
    var j := Sink(less, s, i);
    ghost var now := s[..];
    SunkIsSorted(less, now, i, j);
    assert forall k, m :: 0 <= k < m <= i ==> !less(now[m], now[k]);
  }

  lemma OrderIsAsymmetric<T(!new)>(less: (T, T) -> bool)
    requires StrictWeak(less)
    ensures Asymmetric(less)
  {
    forall x, y | less(x, y) ensures !less(y, x) { assert !less(x, x); }
  }
}
