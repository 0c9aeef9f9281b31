/** Shared vocabulary: optional values and the string-to-string records that
    the spreadsheet rows, the case payloads and the alerts are made of. */
module Base {

  datatype Option<+T> = None | Some(value: T)

  /** A value, or the message of the `ValueError` the source raises. */
  datatype Result<+T> = Ok(value: T) | Err(error: string)

  /** Python's `s or ""` for an optional string. */
  function OrEmpty(s: Option<string>): string
  {
    if s.Some? then s.value else ""
  }

  /** A row of a tab, or a JSON object whose values are all strings. */
  type Record = map<string, string>

  /** Python's `d.get(k)`. */
  function Get(r: Record, k: string): Option<string>
  {
    if k in r then Some(r[k]) else None
  }

  /** Python's `d.get(k, default)`. */
  function GetOr(r: Record, k: string, default: string): string
  {
    if k in r then r[k] else default
  }

  /** The distinct-elements property used for header rows and result lists. */
  predicate Distinct<T(==)>(xs: seq<T>)
  {
    forall i, j :: 0 <= i < j < |xs| ==> xs[i] != xs[j]
  }

  /** `[x for x in xs if p(x)]`: the entries that satisfy `p`, in their
      order. */
  function Keep<T(==,!new)>(xs: seq<T>, p: T -> bool): (r: seq<T>)
    ensures |r| <= |xs|
    ensures forall x :: x in r ==> x in xs && p(x)
  {
    if xs == [] then []
    else
      var init, last := xs[..|xs| - 1], xs[|xs| - 1];
      assert forall x :: x in init ==> x in xs;
      Keep(init, p) + (if p(last) then [last] else [])
  }

  /** ... and it keeps every entry that satisfies `p`. */
  lemma {:induction false} KeepExactly<T(!new)>(xs: seq<T>, p: T -> bool, x: T)
    ensures x in Keep(xs, p) <==> x in xs && p(x)
  {
    if xs != [] {
      var init, last := xs[..|xs| - 1], xs[|xs| - 1];
      KeepExactly(init, p, x);
      assert xs == init + [last];
    }
  }

  /** The entries of `Keep(xs, p)` are exactly the entries of `xs` that
      satisfy `p`. */
  lemma KeepIff<T(!new)>(xs: seq<T>, p: T -> bool)
    ensures forall x :: x in Keep(xs, p) <==> x in xs && p(x)
  {
    forall x
      ensures x in Keep(xs, p) <==> x in xs && p(x)
    {
      KeepExactly(xs, p, x);
    }
  }

  /** Two tests that agree on every entry keep the same entries. */
  lemma {:induction false} KeepAgree<T(!new)>(xs: seq<T>, p: T -> bool, q: T -> bool)
    requires forall j :: 0 <= j < |xs| ==> (p(xs[j]) <==> q(xs[j]))
    ensures Keep(xs, p) == Keep(xs, q)
  {
    if xs != [] {
      KeepAgree(xs[..|xs| - 1], p, q);
    }
  }

  /** A test every entry passes keeps the whole list. */
  lemma {:induction false} KeepAll<T(!new)>(xs: seq<T>, p: T -> bool)
    requires forall j :: 0 <= j < |xs| ==> p(xs[j])
    ensures Keep(xs, p) == xs
  {
    if xs != [] {
      KeepAll(xs[..|xs| - 1], p);
      assert xs[..|xs| - 1] + [xs[|xs| - 1]] == xs;
    }
  }

  /** `[f(x) for x in xs]`, built one entry at a time from the front. */
  function Map<T, U>(xs: seq<T>, f: T -> U): (ys: seq<U>)
    ensures |ys| == |xs|
  {
    if xs == [] then [] else Map(xs[..|xs| - 1], f) + [f(xs[|xs| - 1])]
  }

  /** Entry `i` of the image is the image of entry `i`. */
  lemma {:induction false} MapAt<T, U>(xs: seq<T>, f: T -> U, i: int)
    requires 0 <= i < |xs|
    ensures Map(xs, f)[i] == f(xs[i])
  {
    if i < |xs| - 1 {
      MapAt(xs[..|xs| - 1], f, i);
    }
  }

  /** Mapping one more entry of a prefix appends its image. */
  lemma MapSnoc<T, U>(xs: seq<T>, f: T -> U, i: int)
    requires 0 <= i < |xs|
    ensures Map(xs[..i + 1], f) == Map(xs[..i], f) + [f(xs[i])]
  {
    assert xs[..i + 1][..i] == xs[..i];
  }

  /** `xs` with each of its first `m` entries replaced by its image under
      `f`, one index at a time. */
  function MapPrefix<T>(xs: seq<T>, f: T -> T, m: nat): (ys: seq<T>)
    requires m <= |xs|
    ensures |ys| == |xs|
  {
    if m == 0 then xs else MapPrefix(xs, f, m - 1)[m - 1 := f(xs[m - 1])]
  }

  /** Entry by entry: mapped below `m`, untouched from `m` on. */
  lemma {:induction false} MapPrefixAt<T>(xs: seq<T>, f: T -> T, m: nat, j: nat)
    requires m <= |xs| && j < |xs|
    ensures MapPrefix(xs, f, m)[j] == if j < m then f(xs[j]) else xs[j]
  {
    if m > 0 {
      MapPrefixAt(xs, f, m - 1, j);
    }
  }

  /** `sum(1 for x in xs if p(x))`, counted from the front. */
  function Count<T>(xs: seq<T>, p: T -> bool): (n: nat)
    ensures n <= |xs|
  {
    if xs == [] then 0 else Count(xs[..|xs| - 1], p) + if p(xs[|xs| - 1]) then 1 else 0
  }

  /** The count is 0 exactly when no entry satisfies `p`. */
  lemma {:induction false} CountNone<T>(xs: seq<T>, p: T -> bool)
    ensures Count(xs, p) == 0 <==> forall j :: 0 <= j < |xs| ==> !p(xs[j])
  {
    if xs != [] {
      var init := xs[..|xs| - 1];
      CountNone(init, p);
      assert forall j :: 0 <= j < |init| ==> init[j] == xs[j];
    }
  }

  /** Counting is additive over a concatenation. */
  lemma {:induction false} CountConcat<T>(xs: seq<T>, ys: seq<T>, p: T -> bool)
    ensures Count(xs + ys, p) == Count(xs, p) + Count(ys, p)
  {
    if ys != [] {
      var init := ys[..|ys| - 1];
      assert (xs + ys)[..|xs + ys| - 1] == xs + init;
      CountConcat(xs, init, p);
    } else {
      assert xs + ys == xs;
    }
  }
}
