/** Sequence helpers: duplicate-free sequences, `Array.from(new Set(xs))`,
    and first-occurrence indices. */
module Collections {

  predicate NoDup<T(==)>(s: seq<T>) {
    forall i, j :: 0 <= i < j < |s| ==> s[i] != s[j]
  }

  /** Index of the first occurrence of `x` in `xs`. */
  function FirstIndex<T(==)>(xs: seq<T>, x: T): (k: nat)
    requires x in xs
    ensures k < |xs| && xs[k] == x
    ensures forall i :: 0 <= i < k ==> xs[i] != x
  {
    if xs[0] == x then 0 else 1 + FirstIndex(xs[1..], x)
  }

  /** `Array.from(new Set(xs))`: each distinct element once, in the order of
      its first occurrence. */
  function Dedup<T(==)>(xs: seq<T>): (d: seq<T>)
    decreases |xs|
  {
    if xs == [] then []
    else
      var d := Dedup(xs[..|xs| - 1]);
      if xs[|xs| - 1] in d then d else d + [xs[|xs| - 1]]
  }

  lemma {:induction false} DedupMembers<T>(xs: seq<T>)
    ensures forall x :: x in Dedup(xs) <==> x in xs
    decreases |xs|
  {
    if xs != [] {
      var init := xs[..|xs| - 1];
      DedupMembers(init);
      assert xs == init + [xs[|xs| - 1]];
    }
  }

  lemma {:induction false} DedupNoDup<T>(xs: seq<T>)
    ensures NoDup(Dedup(xs))
    decreases |xs|
  {
    if xs != [] {
      DedupNoDup(xs[..|xs| - 1]);
    }
  }

  lemma {:induction false} FirstIndexOfPrefix<T>(xs: seq<T>, n: nat, x: T)
    requires n <= |xs| && x in xs[..n]
    ensures x in xs && FirstIndex(xs, x) == FirstIndex(xs[..n], x)
  {
    if xs[0] != x {
      assert xs[1..][..n - 1] == xs[..n][1..];
      FirstIndexOfPrefix(xs[1..], n - 1, x);
    }
  }

  /** The distinct elements appear in the order of their first occurrence. */
  lemma {:induction false} DedupOrder<T>(xs: seq<T>)
    ensures forall y :: y in Dedup(xs) ==> y in xs
    ensures forall i, j :: 0 <= i < j < |Dedup(xs)| ==>
      FirstIndex(xs, Dedup(xs)[i]) < FirstIndex(xs, Dedup(xs)[j])
    decreases |xs|
  {
    DedupMembers(xs);
    if xs != [] {
      var n := |xs| - 1;
      var init := xs[..n];
      var d' := Dedup(init);
      DedupOrder(init);
      DedupMembers(init);
      assert init == xs[..n];
      forall y | y in d'
        ensures FirstIndex(xs, y) == FirstIndex(init, y) < n
      {
        FirstIndexOfPrefix(xs, n, y);
      }
      var last := xs[n];
      if last in d' {
        DedupOrderSkip(xs, d');
      } else {
        DedupOrderSnoc(xs, d');
      }
    }
  }

  /** A repeated last element leaves the order as it was. */
  lemma DedupOrderSkip<T>(xs: seq<T>, d': seq<T>)
    requires xs != [] && d' == Dedup(xs[..|xs| - 1]) && xs[|xs| - 1] in d'
    requires forall y :: y in d' ==> y in xs
    requires forall i, j :: 0 <= i < j < |d'| ==> FirstIndex(xs, d'[i]) < FirstIndex(xs, d'[j])
    ensures forall i, j :: 0 <= i < j < |Dedup(xs)| ==>
      FirstIndex(xs, Dedup(xs)[i]) < FirstIndex(xs, Dedup(xs)[j])
  {
    assert Dedup(xs) == d';
  }

  /** The element appended by the last step of `Dedup` comes after all others. */
  lemma DedupOrderSnoc<T>(xs: seq<T>, d': seq<T>)
    requires xs != [] && d' == Dedup(xs[..|xs| - 1]) && xs[|xs| - 1] !in d'
    requires forall y :: y in d' <==> y in xs[..|xs| - 1]
    requires forall y :: y in d' ==> y in xs && FirstIndex(xs, y) < |xs| - 1
    requires forall i, j :: 0 <= i < j < |d'| ==> FirstIndex(xs, d'[i]) < FirstIndex(xs, d'[j])
    ensures forall i, j :: 0 <= i < j < |Dedup(xs)| ==>
      FirstIndex(xs, Dedup(xs)[i]) < FirstIndex(xs, Dedup(xs)[j])
  {
    var n := |xs| - 1;
    var d := Dedup(xs);
    assert d == d' + [xs[n]];
    assert xs[n] !in xs[..n];
    assert FirstIndex(xs, xs[n]) == n;
    forall i, j | 0 <= i < j < |d|
      ensures FirstIndex(xs, d[i]) < FirstIndex(xs, d[j])
    {
      assert d[i] == d'[i] && d'[i] in d';
      if j < |d'| {
        assert d[j] == d'[j];
      }
    }
  }

  /** Elements of `xs` satisfying `p`, order kept (`xs.filter(p)`). */
  function Filter<T(!new)>(p: T -> bool, xs: seq<T>): (r: seq<T>)
    ensures |r| <= |xs|
    ensures forall x :: x in r <==> x in xs && p(x)
  {
    if xs == [] then []
    else if p(xs[0]) then [xs[0]] + Filter(p, xs[1..])
    else Filter(p, xs[1..])
  }

  /** `a` is `b` with some elements left out, the rest in their order. */
  predicate Subsequence<T(==)>(a: seq<T>, b: seq<T>)
    decreases |b|
  {
    if a == [] then true
    else if b == [] then false
    else if a[0] == b[0] then Subsequence(a[1..], b[1..])
    else Subsequence(a, b[1..])
  }

  /** Filtering keeps the order of the kept elements. */
  lemma {:induction false} FilterSubsequence<T(!new)>(p: T -> bool, xs: seq<T>)
    ensures Subsequence(Filter(p, xs), xs)
  {
    if xs != [] {
      FilterSubsequence(p, xs[1..]);
      if p(xs[0]) {
        assert ([xs[0]] + Filter(p, xs[1..]))[1..] == Filter(p, xs[1..]);
      }
    }
  }

  lemma {:induction false} SubsequenceDrop<T>(a: seq<T>, b: seq<T>)
    requires a != [] && Subsequence(a, b)
    ensures Subsequence(a[1..], b)
    decreases |b|, 1
  {
    if a[0] != b[0] {
      SubsequenceDrop(a, b[1..]);
    }
    SubsequenceTail(a[1..], b);
  }

  lemma {:induction false} SubsequenceTail<T>(a: seq<T>, b: seq<T>)
    requires b != [] && Subsequence(a, b[1..])
    ensures Subsequence(a, b)
    decreases |b|, 0
  {
    if a != [] && a[0] == b[0] {
      SubsequenceDrop(a, b[1..]);
    }
  }

  /** When every element satisfies `p` the filter keeps everything. */
  lemma {:induction false} FilterAll<T(!new)>(p: T -> bool, xs: seq<T>)
    requires forall i :: 0 <= i < |xs| ==> p(xs[i])
    ensures Filter(p, xs) == xs
  {
    if xs != [] {
      FilterAll(p, xs[1..]);
    }
  }

  /** Filtering distributes over appending one element. */
  lemma {:induction false} FilterSnoc<T(!new)>(p: T -> bool, xs: seq<T>, x: T)
    ensures Filter(p, xs + [x]) == Filter(p, xs) + (if p(x) then [x] else [])
  {
    if xs == [] {
      assert xs + [x] == [x];
      assert [x][1..] == [];
    } else {
      assert (xs + [x])[1..] == xs[1..] + [x];
      FilterSnoc(p, xs[1..], x);
    }
  }

  /** Filtering a sequence with a known first element. */
  lemma FilterCons<T(!new)>(p: T -> bool, x: T, xs: seq<T>)
    ensures Filter(p, [x] + xs) == (if p(x) then [x] else []) + Filter(p, xs)
  {
    assert ([x] + xs)[0] == x && ([x] + xs)[1..] == xs;
  }

  /** A prefix with no element satisfying `p` contributes nothing. */
  lemma {:induction false} FilterSkip<T(!new)>(p: T -> bool, xs: seq<T>, k: nat)
    requires k <= |xs| && forall i :: 0 <= i < k ==> !p(xs[i])
    ensures Filter(p, xs) == Filter(p, xs[k..])
  {
    if k > 0 {
      assert xs[1..][k - 1..] == xs[k..];
      FilterSkip(p, xs[1..], k - 1);
    }
  }

  /** Filters by predicates that agree on the elements give the same result. */
  lemma {:induction false} FilterAgree<T(!new)>(p: T -> bool, q: T -> bool, xs: seq<T>)
    requires forall i :: 0 <= i < |xs| ==> p(xs[i]) == q(xs[i])
    ensures Filter(p, xs) == Filter(q, xs)
  {
    if xs != [] {
      FilterAgree(p, q, xs[1..]);
    }
  }

  /** First element of `xs` satisfying `p` (`xs.find(p)`), as an index. */
  function FindIndex<T>(p: T -> bool, xs: seq<T>): (k: nat)
    ensures k <= |xs|
    ensures k < |xs| ==> p(xs[k])
    ensures forall i :: 0 <= i < k ==> !p(xs[i])
  {
    if xs == [] then 0
    else if p(xs[0]) then 0
    else 1 + FindIndex(p, xs[1..])
  }
}

/** A JavaScript `Record<string, string>` built by assignments: a map plus the
    insertion order of its keys. Integer-like keys, which JavaScript lists
    first, are not treated specially. */
module VarTables {
  import opened Collections

  datatype VarTable = VarTable(keys: seq<string>, values: map<string, string>) {
    ghost predicate Valid() {
      NoDup(keys) && (forall k :: k in values <==> k in keys)
    }
  }

  const Empty := VarTable([], map[])

  /** `record[k] = v`: a new key goes to the end; an existing key keeps its place. */
  function Put(t: VarTable, k: string, v: string): (r: VarTable)
    requires t.Valid()
    ensures r.Valid()
    ensures r.values == t.values[k := v]
    ensures k in t.values ==> r.keys == t.keys
    ensures k !in t.values ==> r.keys == t.keys + [k]
  {
    if k in t.values then VarTable(t.keys, t.values[k := v])
    else VarTable(t.keys + [k], t.values[k := v])
  }

  /** A table with the given distinct keys, each described by `describe`. */
  function FromKeys(keys: seq<string>, describe: string -> string): (r: VarTable)
    requires NoDup(keys)
    ensures r.Valid() && r.keys == keys
    ensures forall k :: k in r.values ==> r.values[k] == describe(k)
  {
    VarTable(keys, map k | k in keys :: describe(k))
  }
}
