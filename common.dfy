/** Shared value wrappers and the array searches the source leans on
    (Array.prototype.findIndex, find and some). */
module Common {

  datatype Option<+T> = None | Some(value: T)

  /** A value, or the reason the operation refused to produce one. */
  datatype Result<+T, +E> = Ok(value: T) | Err(error: E)

  /** JavaScript truthiness of a possibly missing string: `undefined` and `''` are falsy. */
  predicate Truthy(s: Option<string>) {
    s.Some? && s.value != ""
  }

  /** The expression `s || fallback` on a possibly missing string. */
  function OrElse(s: Option<string>, fallback: string): string {
    if Truthy(s) then s.value else fallback
  }

  /** Index of the first element satisfying `p`, or `|xs|` when there is none
      (the position `findIndex` reports as -1). */
  function FirstWhere<T>(xs: seq<T>, p: T -> bool): (i: nat)
    ensures i <= |xs|
    ensures i < |xs| ==> p(xs[i])
    ensures forall j :: 0 <= j < i ==> !p(xs[j])
  {
    if xs == [] then 0
    else if p(xs[0]) then 0
    else 1 + FirstWhere(xs[1..], p)
  }

  /** `xs.find(p)`: the first element satisfying `p`, if any. */
  function Find<T>(xs: seq<T>, p: T -> bool): (r: Option<T>)
    ensures r.Some? ==> r.value in xs && p(r.value)
    ensures r.None? <==> forall j :: 0 <= j < |xs| ==> !p(xs[j])
  {
    var i := FirstWhere(xs, p);
    if i < |xs| then Some(xs[i]) else None
  }

  /** `xs.findIndex(p)`, written as the linear scan it is. */
  method FindIndex<T>(xs: seq<T>, p: T -> bool) returns (idx: int)
    ensures -1 <= idx < |xs|
    ensures 0 <= idx ==> p(xs[idx]) && forall j :: 0 <= j < idx ==> !p(xs[j])
    ensures idx == -1 <==> forall j :: 0 <= j < |xs| ==> !p(xs[j])
    ensures idx == (if FirstWhere(xs, p) < |xs| then FirstWhere(xs, p) else -1)
  {
    idx := 0;
    while idx < |xs|
      invariant 0 <= idx <= |xs|
      invariant forall j :: 0 <= j < idx ==> !p(xs[j])
    {
      if p(xs[idx]) {
        return;
      }
      idx := idx + 1;
    }
    idx := -1;
  }

  /** `xs.filter(p)`: the elements satisfying `p`, in their original order. */
  function Filter<T(!new)>(xs: seq<T>, p: T -> bool): (r: seq<T>)
    ensures |r| <= |xs|
    ensures forall x :: x in r <==> x in xs && p(x)
    ensures |r| == |xs| <==> forall i :: 0 <= i < |xs| ==> p(xs[i])
  {
    if xs == [] then [] else (if p(xs[0]) then [xs[0]] else []) + Filter(xs[1..], p)
  }

  /** Filtering a concatenation filters each part and keeps them in order. */
  lemma {:induction false} FilterAppend<T(!new)>(a: seq<T>, b: seq<T>, p: T -> bool)
    ensures Filter(a + b, p) == Filter(a, p) + Filter(b, p)
  {
    if a != [] {
      assert (a + b)[1..] == a[1..] + b;
      FilterAppend(a[1..], b, p);
    } else {
      assert a + b == b;
    }
  }

  /** A `for...of` loop that maps each element with `f` and returns early,
      with nothing, at the first element `stop` holds for. */
  method MapOrStop<A, B>(xs: seq<A>, stop: A -> bool, f: A -> B) returns (r: Option<seq<B>>)
    ensures r.None? <==> exists i :: 0 <= i < |xs| && stop(xs[i])
    ensures r.Some? ==> |r.value| == |xs| && forall i :: 0 <= i < |xs| ==> r.value[i] == f(xs[i])
  {
    var ys: seq<B> := [];
    for i := 0 to |xs|
      invariant |ys| == i
      invariant forall k :: 0 <= k < i ==> !stop(xs[k]) && ys[k] == f(xs[k])
    {
      if stop(xs[i]) {
        return None;
      }
      ys := ys + [f(xs[i])];
    }
    r := Some(ys);
  }
}
