/** Generic operations on data frames modelled as sequences of rows: boolean-mask
    filtering, `unique()` in first-appearance order, `.iloc[0]` of a filtered frame,
    and the error results of the pandas calls the scripts make. */
module Tables {

  /** The failures the scripts can raise. */
  datatype Error =
    | EmptyConcat   // pd.concat of an empty list raises ValueError
    | MissingRow    // .iloc[0] on an empty selection raises IndexError
    | NotAnInteger  // int(...) of a string that is not a decimal integer raises ValueError

  datatype Option<+T> = None | Some(value: T)

  datatype Result<+T> = Ok(value: T) | Err(error: Error)

  /** `df[mask]`: the rows satisfying `p`, in their original order. */
  function Filter<T(!new)>(s: seq<T>, p: T -> bool): (r: seq<T>)
    ensures |r| <= |s|
    ensures forall x :: x in r <==> x in s && p(x)
    decreases |s|
  {
    if s == [] then []
    else
      var init := Filter(s[..|s| - 1], p);
      assert s == s[..|s| - 1] + [s[|s| - 1]];
      if p(s[|s| - 1]) then init + [s[|s| - 1]] else init
  }

  /** Filtering distributes over concatenation; with FilterSingleton this fixes the
      result uniquely: the kept rows keep their relative order. */
  lemma {:induction false} FilterConcat<T(!new)>(a: seq<T>, b: seq<T>, p: T -> bool)
    ensures Filter(a + b, p) == Filter(a, p) + Filter(b, p)
    decreases |b|
  {
    if b == [] {
      assert a + b == a;
    } else {
      var b', x := b[..|b| - 1], b[|b| - 1];
      calc {
        Filter(a + b, p);
        { assert a + b == (a + b') + [x]; }
        Filter((a + b') + [x], p);
        { FilterSnoc(a + b', x, p); FilterConcat(a, b', p); }
        if p(x) then (Filter(a, p) + Filter(b', p)) + [x] else Filter(a, p) + Filter(b', p);
        { assert b == b' + [x]; FilterSnoc(b', x, p); }
        Filter(a, p) + Filter(b, p);
      }
    }
  }

  /** Filtering a frame with one more row at the end. */
  lemma FilterSnoc<T(!new)>(s: seq<T>, x: T, p: T -> bool)
    ensures Filter(s + [x], p) == if p(x) then Filter(s, p) + [x] else Filter(s, p)
  {
    assert (s + [x])[..|s|] == s;
  }

  lemma FilterSingleton<T(!new)>(x: T, p: T -> bool)
    ensures Filter([x], p) == if p(x) then [x] else []
  {
    assert [x][..0] == [];
  }

  /** Each row occurs in the filtered frame exactly as often as in the frame when it
      satisfies the mask, and not at all otherwise. */
  lemma {:induction false} FilterCount<T(!new)>(s: seq<T>, p: T -> bool, x: T)
    ensures multiset(Filter(s, p))[x] == if p(x) then multiset(s)[x] else 0
    decreases |s|
  {
    if s != [] {
      var init := s[..|s| - 1];
      FilterCount(init, p, x);
      assert s == init + [s[|s| - 1]];
    }
  }

  lemma {:induction false} FilterNone<T(!new)>(s: seq<T>, p: T -> bool)
    requires forall i :: 0 <= i < |s| ==> !p(s[i])
    ensures Filter(s, p) == []
    decreases |s|
  {
    if s != [] {
      FilterNone(s[..|s| - 1], p);
    }
  }

  lemma {:induction false} FilterAll<T(!new)>(s: seq<T>, p: T -> bool)
    requires forall i :: 0 <= i < |s| ==> p(s[i])
    ensures Filter(s, p) == s
    decreases |s|
  {
    if s != [] {
      FilterAll(s[..|s| - 1], p);
      assert s == s[..|s| - 1] + [s[|s| - 1]];
    }
  }

  predicate Distinct<T(==,!new)>(s: seq<T>)
  {
    forall i, j :: 0 <= i < j < |s| ==> s[i] != s[j]
  }

  /** pandas `Series.unique()`: each value once, in order of first appearance. */
  function Unique<T(==,!new)>(s: seq<T>): (r: seq<T>)
    ensures forall x :: x in r <==> x in s
    ensures Distinct(r)
    decreases |s|
  {
    if s == [] then []
    else
      var u := Unique(s[..|s| - 1]);
      assert s == s[..|s| - 1] + [s[|s| - 1]];
      if s[|s| - 1] in u then u else u + [s[|s| - 1]]
  }

  /** The index of the first occurrence of `x` in `s`. */
  function IndexOf<T(==,!new)>(s: seq<T>, x: T): (i: nat)
    requires x in s
    ensures i < |s| && s[i] == x
    ensures forall j :: 0 <= j < i ==> s[j] != x
  {
    if s[0] == x then 0 else 1 + IndexOf(s[1..], x)
  }

  lemma IndexOfUnique<T(!new)>(s: seq<T>, x: T, k: nat)
    requires k < |s| && s[k] == x
    requires forall j :: 0 <= j < k ==> s[j] != x
    ensures IndexOf(s, x) == k
  {
    var i := IndexOf(s, x);
    assert !(i < k) && !(k < i);
  }

  lemma IndexOfPrefix<T(!new)>(s: seq<T>, n: nat, x: T)
    requires n <= |s| && x in s[..n]
    ensures x in s && IndexOf(s, x) == IndexOf(s[..n], x)
  {
    var i := IndexOf(s[..n], x);
    assert s[i] == s[..n][i];
    assert forall j :: 0 <= j < i ==> s[j] == s[..n][j];
    IndexOfUnique(s, x, i);
  }

  /** `Unique` lists values in strictly increasing order of their first appearance. */
  lemma {:induction false} UniqueFirstAppearance<T(!new)>(s: seq<T>, i: nat, j: nat)
    requires i < j < |Unique(s)|
    ensures Unique(s)[i] in s && Unique(s)[j] in s
    ensures IndexOf(s, Unique(s)[i]) < IndexOf(s, Unique(s)[j])
    decreases |s|
  {
    var init := s[..|s| - 1];
    var last := s[|s| - 1];
    var u := Unique(init);
    assert s == init + [last];
    if j < |u| {
      assert Unique(s)[i] == u[i] && Unique(s)[j] == u[j];
      UniqueFirstAppearance(init, i, j);
      IndexOfPrefix(s, |s| - 1, u[i]);
      IndexOfPrefix(s, |s| - 1, u[j]);
    } else {
      assert last !in u && Unique(s) == u + [last];
      assert Unique(s)[j] == last;
      assert u[i] in init;
      IndexOfPrefix(s, |s| - 1, u[i]);
      IndexOfUnique(s, last, |s| - 1);
    }
  }

  /** `df[mask].iloc[0]`: the first row satisfying `p`, or None where pandas raises. */
  function First<T(!new)>(s: seq<T>, p: T -> bool): Option<T>
  {
    var f := Filter(s, p);
    if f == [] then None else Some(f[0])
  }

  /** `First` finds the row at the least index satisfying the mask, and there is none
      exactly when no row satisfies it. */
  lemma FirstIsEarliest<T(!new)>(s: seq<T>, p: T -> bool)
    ensures First(s, p).None? <==> forall i :: 0 <= i < |s| ==> !p(s[i])
    ensures First(s, p).Some? ==>
              exists i :: 0 <= i < |s| && s[i] == First(s, p).value && p(s[i]) &&
                          forall j :: 0 <= j < i ==> !p(s[j])
  {
    if i :| 0 <= i < |s| && p(s[i]) {
      var k := EarliestIndex(s, p);
      FilterNone(s[..k], p);
      FilterSingleton(s[k], p);
      assert s == s[..k] + [s[k]] + s[k + 1..];
      FilterConcat(s[..k] + [s[k]], s[k + 1..], p);
      FilterConcat(s[..k], [s[k]], p);
      assert Filter(s, p)[0] == s[k];
    } else {
      FilterNone(s, p);
    }
  }

  function EarliestIndex<T(!new)>(s: seq<T>, p: T -> bool): (k: nat)
    requires exists i :: 0 <= i < |s| && p(s[i])
    ensures k < |s| && p(s[k]) && forall j :: 0 <= j < k ==> !p(s[j])
  {
    if p(s[0]) then 0 else 1 + EarliestIndex(s[1..], p)
  }

  /** Two masks that agree on every row select the same rows. */
  lemma {:induction false} SameFilter<T(!new)>(s: seq<T>, p: T -> bool, q: T -> bool)
    requires forall x :: p(x) == q(x)
    ensures Filter(s, p) == Filter(s, q)
    decreases |s|
  {
    if s != [] {
      SameFilter(s[..|s| - 1], p, q);
    }
  }

  /** Both masks at once: `df[p][q]` is `df[p & q]`. */
  function And<T>(p: T -> bool, q: T -> bool): T -> bool
  {
    x => p(x) && q(x)
  }

  lemma {:induction false} FilterFilter<T(!new)>(s: seq<T>, p: T -> bool, q: T -> bool)
    ensures Filter(Filter(s, p), q) == Filter(s, And(p, q))
    decreases |s|
  {
    if s != [] {
      FilterFilter(s[..|s| - 1], p, q);
      var last := s[|s| - 1];
      if p(last) {
        var f := Filter(s[..|s| - 1], p) + [last];
        assert f[..|f| - 1] == Filter(s[..|s| - 1], p);
      }
    }
  }

  /** Filtering keeps the relative order of what it keeps: two kept values appear in
      the input in the same order as in the output. */
  lemma {:induction false} FilterOrder<T(!new)>(s: seq<T>, p: T -> bool, i: nat, j: nat)
    requires Distinct(s)
    requires i < j < |Filter(s, p)|
    ensures Filter(s, p)[i] in s && Filter(s, p)[j] in s
    ensures IndexOf(s, Filter(s, p)[i]) < IndexOf(s, Filter(s, p)[j])
    decreases |s|
  {
    var init := s[..|s| - 1];
    var last := s[|s| - 1];
    var f := Filter(init, p);
    assert s == init + [last];
    assert Distinct(init);
    if j < |f| {
      assert Filter(s, p)[i] == f[i] && Filter(s, p)[j] == f[j];
      FilterOrder(init, p, i, j);
      IndexOfPrefix(s, |s| - 1, f[i]);
      IndexOfPrefix(s, |s| - 1, f[j]);
    } else {
      assert Filter(s, p) == f + [last];
      assert f[i] in init;
      IndexOfPrefix(s, |s| - 1, f[i]);
      assert last !in init;
      IndexOfUnique(s, last, |s| - 1);
    }
  }

  lemma FilterDistinct<T(!new)>(s: seq<T>, p: T -> bool)
    requires Distinct(s)
    ensures Distinct(Filter(s, p))
  {
    forall i, j | 0 <= i < j < |Filter(s, p)| ensures Filter(s, p)[i] != Filter(s, p)[j] {
      FilterOrder(s, p, i, j);
    }
  }

  /** Concatenation of a list of frames (`pd.concat`), which fails on an empty list. */
  function ConcatFrames<T(!new)>(frames: seq<seq<T>>): Result<seq<T>>
  {
    if frames == [] then Err(EmptyConcat) else Ok(Flatten(frames))
  }

  function Flatten<T(!new)>(frames: seq<seq<T>>): seq<T>
    decreases |frames|
  {
    if frames == [] then [] else Flatten(frames[..|frames| - 1]) + frames[|frames| - 1]
  }
}
