/**
 Order-preserving selection from a sequence: the elements a predicate keeps,
 and the positions they are read from.
 */
module Subsequences {

  /** The elements of `xs` that `keep` accepts, in their original order. */
  function Filter<T>(keep: T -> bool, xs: seq<T>): seq<T>
  {
    if |xs| == 0 then []
    else Filter(keep, xs[..|xs| - 1]) + (if keep(xs[|xs| - 1]) then [xs[|xs| - 1]] else [])
  }

  /** The positions of the elements of `xs` that `keep` accepts, ascending. */
  function Positions<T>(keep: T -> bool, xs: seq<T>): seq<nat>
  {
    if |xs| == 0 then []
    else Positions(keep, xs[..|xs| - 1]) + (if keep(xs[|xs| - 1]) then [|xs| - 1] else [])
  }

  /** `sub` is `xs` read at the strictly increasing positions `pos`. */
  ghost predicate SubsequenceAt<T>(sub: seq<T>, xs: seq<T>, pos: seq<nat>)
  {
    && |pos| == |sub|
    && (forall i :: 0 <= i < |pos| ==> pos[i] < |xs| && sub[i] == xs[pos[i]])
    && (forall i, j :: 0 <= i < j < |pos| ==> pos[i] < pos[j])
  }

  /** Extending `xs` by one element extends a subsequence by that element
      (at position `|xs|`) or leaves it as it is. */
  lemma SubsequenceAtSnoc<T>(sub: seq<T>, xs: seq<T>, pos: seq<nat>, x: T, take: bool)
    requires SubsequenceAt(sub, xs, pos)
    ensures take ==> SubsequenceAt(sub + [x], xs + [x], pos + [|xs|])
    ensures !take ==> SubsequenceAt(sub, xs + [x], pos)
  {
  }

  /** The filtered sequence is `xs` read at `Positions`, and a position is
      among them exactly when `keep` accepts its element. */
  lemma {:induction false} FilterAtPositions<T>(keep: T -> bool, xs: seq<T>)
    ensures SubsequenceAt(Filter(keep, xs), xs, Positions(keep, xs))
    ensures forall j :: 0 <= j < |xs| ==> (j in Positions(keep, xs) <==> keep(xs[j]))
  {
    if |xs| > 0 {
      var n := |xs| - 1;
      var prefix := xs[..n];
      var x := xs[n];
      var p := Positions(keep, prefix);
      FilterAtPositions(keep, prefix);
      assert xs == prefix + [x];
      SubsequenceAtSnoc(Filter(keep, prefix), prefix, p, x, keep(x));
      assert forall i :: 0 <= i < |p| ==> p[i] < n;
      forall j | 0 <= j < |xs|
        ensures j in Positions(keep, xs) <==> keep(xs[j])
      {
        if j < n {
          assert xs[j] == prefix[j];
          assert j in Positions(keep, xs) <==> j in p;
        }
      }
    }
  }

  /** Filtering an already filtered sequence with the same predicate changes
      nothing. */
  lemma {:induction false} FilterIdempotent<T>(keep: T -> bool, xs: seq<T>)
    ensures Filter(keep, Filter(keep, xs)) == Filter(keep, xs)
  {
    if |xs| > 0 {
      var n := |xs| - 1;
      var prefix := xs[..n];
      var x := xs[n];
      assert Filter(keep, xs) == Filter(keep, prefix) + (if keep(x) then [x] else []);
      FilterIdempotent(keep, prefix);
      if keep(x) {
        FilterSnoc(keep, Filter(keep, prefix), x);
      } else {
        assert Filter(keep, xs) == Filter(keep, prefix) + [];
        assert Filter(keep, prefix) + [] == Filter(keep, prefix);
      }
    }
  }

  /** Filtering one more element appends it when accepted. */
  lemma FilterSnoc<T>(keep: T -> bool, xs: seq<T>, x: T)
    ensures Filter(keep, xs + [x]) == Filter(keep, xs) + (if keep(x) then [x] else [])
  {
    assert (xs + [x])[..|xs|] == xs;
  }
}
