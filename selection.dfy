/**
  * A loop that walks a list by index and acts only on the elements a test
  * keeps: which elements it acts on, and at which positions.
  */
module Selection {

  /** The elements of `xs` that `keep` accepts, in their original order. */
  function Filter<T>(xs: seq<T>, keep: T -> bool): seq<T> {
    if xs == [] then []
    else Filter(xs[..|xs| - 1], keep) + (if keep(xs[|xs| - 1]) then [xs[|xs| - 1]] else [])
  }

  /** The positions of the elements of `xs` that `keep` accepts, in increasing order. */
  function Positions<T>(xs: seq<T>, keep: T -> bool): seq<nat> {
    if xs == [] then []
    else Positions(xs[..|xs| - 1], keep) + (if keep(xs[|xs| - 1]) then [|xs| - 1] else [])
  }

  /** The kept elements are the elements at the kept positions; there are at most `|xs|` of them. */
  lemma {:induction false} FilterAtPositions<T>(xs: seq<T>, keep: T -> bool)
    ensures |Positions(xs, keep)| == |Filter(xs, keep)| <= |xs|
    ensures forall j :: 0 <= j < |Positions(xs, keep)| ==>
              Positions(xs, keep)[j] < |xs| && Filter(xs, keep)[j] == xs[Positions(xs, keep)[j]]
  {
    if xs != [] {
      var init := xs[..|xs| - 1];
      FilterAtPositions(init, keep);
      var ps, fs := Positions(init, keep), Filter(init, keep);
      forall j | 0 <= j < |ps|
        ensures Positions(xs, keep)[j] == ps[j] && Filter(xs, keep)[j] == fs[j]
      {
      }
    }
  }

  /** Positions are listed in strictly increasing order and all lie inside `xs`. */
  lemma {:induction false} PositionsIncreasing<T>(xs: seq<T>, keep: T -> bool)
    ensures forall j :: 0 <= j < |Positions(xs, keep)| ==> Positions(xs, keep)[j] < |xs|
    ensures forall j, k :: 0 <= j < k < |Positions(xs, keep)| ==>
              Positions(xs, keep)[j] < Positions(xs, keep)[k]
  {
    if xs != [] {
      PositionsIncreasing(xs[..|xs| - 1], keep);
    }
  }

  /** A position is listed exactly when `keep` accepts the element there. */
  lemma {:induction false} PositionsExact<T>(xs: seq<T>, keep: T -> bool)
    ensures forall i :: 0 <= i < |xs| ==> (i in Positions(xs, keep) <==> keep(xs[i]))
  {
    if xs != [] {
      var init := xs[..|xs| - 1];
      PositionsExact(init, keep);
      PositionsIncreasing(init, keep);
      var ps := Positions(init, keep);
      var extra: seq<nat> := if keep(xs[|xs| - 1]) then [|xs| - 1] else [];
      assert Positions(xs, keep) == ps + extra;
      forall i | 0 <= i < |xs|
        ensures i in ps + extra <==> keep(xs[i])
      {
        if i < |init| {
          assert xs[i] == init[i];
          assert i !in extra;
        } else {
          assert i !in ps;
        }
      }
    }
  }
}
