/**
 * The values the search of minimax_module.py compares: the whole numbers
 * evaluate_board returns and the two infinities (the initial window and the
 * results of a won or lost board), ordered as Python orders those floats.
 *
 * The loops of max_place and min_place (and of max_move and min_move) are
 * folds over the values of the children they visit: MaxLoop and MinLoop.
 * They are proved to give the best child value clamped to the window they
 * started with, which is what fail-hard alpha-beta promises.
 */
module Values {

  /** A utility: minus infinity, a whole number, or plus infinity. */
  datatype Utility = NegInf | Fin(n: int) | PosInf

  /** `x <= y` on utilities. */
  predicate Le(x: Utility, y: Utility)
  {
    match x
    case NegInf => true
    case Fin(m) => y == PosInf || (y.Fin? && m <= y.n)
    case PosInf => y == PosInf
  }

  /** max(x, y). */
  function Max(x: Utility, y: Utility): (m: Utility)
    ensures Le(x, m) && Le(y, m) && (m == x || m == y)
  {
    if Le(y, x) then x else y
  }

  /** min(x, y). */
  function Min(x: Utility, y: Utility): (m: Utility)
    ensures Le(m, x) && Le(m, y) && (m == x || m == y)
  {
    if Le(x, y) then x else y
  }

  /** max(x, vs[0], ..., vs[|vs| - 1]). */
  function MaxAll(x: Utility, vs: seq<Utility>): (m: Utility)
    ensures Le(x, m) && forall i :: 0 <= i < |vs| ==> Le(vs[i], m)
    ensures m == x || m in vs
    decreases |vs|
  {
    if vs == [] then x else Max(MaxAll(x, vs[..|vs| - 1]), vs[|vs| - 1])
  }

  /** min(x, vs[0], ..., vs[|vs| - 1]). */
  function MinAll(x: Utility, vs: seq<Utility>): (m: Utility)
    ensures Le(m, x) && forall i :: 0 <= i < |vs| ==> Le(m, vs[i])
    ensures m == x || m in vs
    decreases |vs|
  {
    if vs == [] then x else Min(MinAll(x, vs[..|vs| - 1]), vs[|vs| - 1])
  }

  /** The loop of max_place after the children with values `vs`, entered with
    * window [a, b]: the running `a`, or `b` together with `true` once
    * `a >= b` has made the loop return `b`. */
  function MaxLoop(a: Utility, b: Utility, vs: seq<Utility>): (r: (Utility, bool))
    ensures Le(a, b) ==> Le(a, r.0) && Le(r.0, b)
    ensures r.1 ==> r.0 == b
    decreases |vs|
  {
    if vs == [] then (a, false)
    else
      var prev := MaxLoop(a, b, vs[..|vs| - 1]);
      if prev.1 then prev
      else
        var a' := Max(prev.0, vs[|vs| - 1]);
        if Le(b, a') then (b, true) else (a', false)
  }

  /** The loop of min_place: the running `b`, or `a` together with `true` once
    * `b <= a` has made the loop return `a`. */
  function MinLoop(a: Utility, b: Utility, vs: seq<Utility>): (r: (Utility, bool))
    ensures Le(a, b) ==> Le(a, r.0) && Le(r.0, b)
    ensures r.1 ==> r.0 == a
    decreases |vs|
  {
    if vs == [] then (b, false)
    else
      var prev := MinLoop(a, b, vs[..|vs| - 1]);
      if prev.1 then prev
      else
        var b' := Min(prev.0, vs[|vs| - 1]);
        if Le(b', a) then (a, true) else (b', false)
  }

  /** Fail-hard alpha-beta at a MAX node: the loop gives the largest of `a`
    * and the children's values, cut down to `b`; it stops early exactly when
    * that largest value reaches `b`. */
  lemma {:induction false} MaxLoopClamp(a: Utility, b: Utility, vs: seq<Utility>)
    requires Le(a, b)
    ensures MaxLoop(a, b, vs).0 == Min(MaxAll(a, vs), b)
    ensures MaxLoop(a, b, vs).1 <==> vs != [] && Le(b, MaxAll(a, vs))
    decreases |vs|
  {
    if vs != [] {
      var init := vs[..|vs| - 1];
      MaxLoopClamp(a, b, init);
    }
  }

  /** Fail-hard alpha-beta at a MIN node: the loop gives the smallest of `b`
    * and the children's values, raised to `a`; it stops early exactly when
    * that smallest value falls to `a`. */
  lemma {:induction false} MinLoopClamp(a: Utility, b: Utility, vs: seq<Utility>)
    requires Le(a, b)
    ensures MinLoop(a, b, vs).0 == Max(MinAll(b, vs), a)
    ensures MinLoop(a, b, vs).1 <==> vs != [] && Le(MinAll(b, vs), a)
    decreases |vs|
  {
    if vs != [] {
      var init := vs[..|vs| - 1];
      MinLoopClamp(a, b, init);
    }
  }

  /** What `max(values, key=values.get)` picks when `vs` lists the values in
    * the dictionary's insertion order: the index of a largest value, the
    * first one among equal largest values. */
  function ArgMaxFirst(vs: seq<Utility>): (i: nat)
    requires |vs| > 0
    ensures i < |vs|
    ensures forall j :: 0 <= j < |vs| ==> Le(vs[j], vs[i])
    ensures forall j :: 0 <= j < i ==> !Le(vs[i], vs[j])
    decreases |vs|
  {
    if |vs| == 1 then 0
    else
      var k := ArgMaxFirst(vs[..|vs| - 1]);
      if Le(vs[|vs| - 1], vs[k]) then k else |vs| - 1
  }
}
