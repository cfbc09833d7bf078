/** Small datatypes and sequence folds shared by the model. */
module Basics {

  datatype Option<+T> = None | Some(value: T)

  datatype Result<+T, +E> = Ok(value: T) | Err(error: E)

  type byte = b: int | 0 <= b < 256

  function Min(a: int, b: int): int { if a <= b then a else b }

  function Max(a: int, b: int): int { if a <= b then b else a }

  function Abs(a: int): nat { if a < 0 then -a else a }

  function Last<T>(xs: seq<T>): T
    requires xs != []
  {
    xs[|xs| - 1]
  }

  function Init<T>(xs: seq<T>): seq<T>
    requires xs != []
  {
    xs[..|xs| - 1]
  }

  lemma InitLast<T>(xs: seq<T>)
    requires xs != []
    ensures xs == Init(xs) + [Last(xs)]
  {
  }

  lemma AppendInit<T>(xs: seq<T>, ys: seq<T>)
    requires ys != []
    ensures Init(xs + ys) == xs + Init(ys) && Last(xs + ys) == Last(ys)
  {
  }

  lemma Assoc<T>(xs: seq<T>, ys: seq<T>, zs: seq<T>)
    ensures xs + ys + zs == xs + (ys + zs)
  {
  }

  lemma SplitEqual<T>(xs: seq<T>, ys: seq<T>, xs': seq<T>, ys': seq<T>)
    requires xs + ys == xs' + ys' && |xs| == |xs'|
    ensures xs == xs' && ys == ys'
  {
    assert xs == (xs + ys)[..|xs|] && ys == (xs + ys)[|xs|..];
    assert xs' == (xs' + ys')[..|xs'|] && ys' == (xs' + ys')[|xs'|..];
  }

  lemma Rejoin<T>(xs: seq<T>, i: nat, j: nat)
    requires i <= j <= |xs|
    ensures xs[..i] + xs[i..j] == xs[..j]
  {
  }

  lemma Pieces<T>(xs: seq<T>, i: nat, j: nat, k: nat, l: nat)
    requires i <= j <= k <= l <= |xs|
    ensures xs[i..j] + xs[j..k] + xs[k..l] == xs[i..l]
  {
  }

  lemma SliceBehind<T>(xs: seq<T>, ys: seq<T>, i: nat, j: nat)
    requires i <= j <= |ys|
    ensures (xs + ys)[|xs| + i..|xs| + j] == ys[i..j]
  {
  }

  lemma Increment<T>(m: multiset<T>, x: T)
    ensures m[x := m[x] + 1] == m + multiset{x}
  {
  }

  lemma NoSmallMultiple(k: int, x: int)
    requires k > 0
    ensures x == 0 || k * x >= k || k * x <= -k
  {
    if x >= 1 {
      assert k * x >= k * 1;
    } else if x <= -1 {
      assert k * x <= k * -1;
    }
  }

  lemma QuotientUnique(m: nat, k: nat, q: nat, r: nat)
    requires k > 0 && m == k * q + r && r < k
    ensures m / k == q && m % k == r
  {
    var q', r' := m / k, m % k;
    assert m == k * q' + r';
    assert k * (q - q') == k * q - k * q';
    NoSmallMultiple(k, q - q');
  }

  /** f of every element, in order. */
  function Project<S, T>(f: S -> T, xs: seq<S>): (r: seq<T>)
    ensures |r| == |xs|
  {
    if xs == [] then [] else Project(f, Init(xs)) + [f(Last(xs))]
  }

  lemma {:induction false} ProjectAppend<S, T>(f: S -> T, xs: seq<S>, ys: seq<S>)
    ensures Project(f, xs + ys) == Project(f, xs) + Project(f, ys)
  {
    if ys == [] {
      assert xs + ys == xs;
    } else {
      AppendInit(xs, ys);
      ProjectAppend(f, xs, Init(ys));
      Assoc(Project(f, xs), Project(f, Init(ys)), [f(Last(ys))]);
    }
  }

  lemma {:induction false} ProjectAt<S, T>(f: S -> T, xs: seq<S>, i: nat)
    requires i < |xs|
    ensures Project(f, xs)[i] == f(xs[i])
    decreases |xs|
  {
    if i < |xs| - 1 {
      ProjectAt(f, Init(xs), i);
    }
  }

  function Sum(xs: seq<int>): int
  {
    if xs == [] then 0 else Sum(Init(xs)) + Last(xs)
  }

  lemma {:induction false} SumAppend(xs: seq<int>, ys: seq<int>)
    ensures Sum(xs + ys) == Sum(xs) + Sum(ys)
  {
    if ys == [] {
      assert xs + ys == xs;
    } else {
      assert Init(xs + ys) == xs + Init(ys);
      SumAppend(xs, Init(ys));
    }
  }

  /** The least element, if there is one. */
  function Least(xs: seq<int>): (r: Option<int>)
    ensures r.None? <==> xs == []
    ensures r.Some? ==> r.value in xs && forall x | x in xs :: r.value <= x
  {
    if xs == [] then None
    else
      assert xs == Init(xs) + [Last(xs)];
      match Least(Init(xs))
      case None => Some(Last(xs))
      case Some(m) => Some(Min(m, Last(xs)))
  }

  /** The greatest element, if there is one. */
  function Greatest(xs: seq<int>): (r: Option<int>)
    ensures r.None? <==> xs == []
    ensures r.Some? ==> r.value in xs && forall x | x in xs :: x <= r.value
  {
    if xs == [] then None
    else
      assert xs == Init(xs) + [Last(xs)];
      match Greatest(Init(xs))
      case None => Some(Last(xs))
      case Some(m) => Some(Max(m, Last(xs)))
  }

  /** The last n elements, or all of them when there are fewer. */
  function Suffix<T>(xs: seq<T>, n: nat): (r: seq<T>)
    ensures |r| == Min(|xs|, n)
    ensures xs == xs[..|xs| - |r|] + r
  {
    xs[|xs| - Min(|xs|, n)..]
  }
}
