/**
  The filtering loop of `SPSPlot::GetGraphs` (src/SPSPlot.cpp:147-155): of a
  reaction's (rho, label) pairs, keep in order those whose rho lies in the
  plotting window.
 */
module RhoWindow {
  import opened Doubles

  /** A rho beside the excitation label of the same index. */
  type Point = (Double, string)

  /** Pairs each rho with the label at its index (`GetEx_Strings()->at(j)`). */
  function Points(rhos: seq<Double>, labels: seq<string>): seq<Point>
    requires |rhos| <= |labels|
  {
    seq(|rhos|, j requires 0 <= j < |rhos| => (rhos[j], labels[j]))
  }

  function Zip(xs: seq<Double>, ys: seq<string>): seq<Point>
    requires |xs| == |ys|
  {
    seq(|xs|, k requires 0 <= k < |xs| => (xs[k], ys[k]))
  }

  /** `rho >= rhoMin && rho <= rhoMax`; a NaN fails both comparisons. */
  predicate InWindow(rho: Double, lo: real, hi: real)
  {
    rho.Num? && lo <= rho.v && rho.v <= hi
  }

  /** The points kept for plotting, in their original order. */
  function Window(ps: seq<Point>, lo: real, hi: real): (w: seq<Point>)
    ensures |w| <= |ps|
    ensures forall k :: 0 <= k < |w| ==> InWindow(w[k].0, lo, hi)
  {
    if ps == [] then []
    else
      var last := ps[|ps| - 1];
      Window(ps[..|ps| - 1], lo, hi) + (if InWindow(last.0, lo, hi) then [last] else [])
  }

  /** A point is kept exactly when it is one of the inputs and its rho is in the window. */
  lemma {:induction false} WindowMembership(ps: seq<Point>, lo: real, hi: real, p: Point)
    ensures p in Window(ps, lo, hi) <==> p in ps && InWindow(p.0, lo, hi)
  {
    if ps != [] {
      WindowMembership(ps[..|ps| - 1], lo, hi, p);
      assert ps == ps[..|ps| - 1] + [ps[|ps| - 1]];
    }
  }

  /** Filtering distributes over concatenation: the kept points stay in input order. */
  lemma {:induction false} WindowAppend(xs: seq<Point>, ys: seq<Point>, lo: real, hi: real)
    ensures Window(xs + ys, lo, hi) == Window(xs, lo, hi) + Window(ys, lo, hi)
    decreases |ys|
  {
    if ys == [] {
      assert xs + ys == xs;
    } else {
      var last := ys[|ys| - 1];
      assert (xs + ys)[..|xs + ys| - 1] == xs + ys[..|ys| - 1];
      WindowAppend(xs, ys[..|ys| - 1], lo, hi);
    }
  }

  /** Narrowing the window is the same as filtering what a wider window kept. */
  lemma {:induction false} WindowNarrowing(ps: seq<Point>, lo1: real, hi1: real, lo2: real, hi2: real)
    requires lo2 <= lo1 && hi1 <= hi2
    ensures Window(Window(ps, lo2, hi2), lo1, hi1) == Window(ps, lo1, hi1)
  {
    if ps != [] {
      var init, last := ps[..|ps| - 1], ps[|ps| - 1];
      WindowNarrowing(init, lo1, hi1, lo2, hi2);
      var kept := if InWindow(last.0, lo2, hi2) then [last] else [];
      WindowAppend(Window(init, lo2, hi2), kept, lo1, hi1);
      assert Window(kept, lo1, hi1) == (if InWindow(last.0, lo1, hi1) then [last] else []) by {
        if kept != [] {
          assert kept[..0] == [];
        }
      }
    }
  }

  /** The nested loop for one reaction: `valid_rhos[i]` and `ex_labels[i]` are the kept points. */
  method FilterReaction(rhos: seq<Double>, labels: seq<string>, lo: real, hi: real)
    returns (validRhos: seq<Double>, exLabels: seq<string>)
    requires |rhos| <= |labels|
    ensures |validRhos| == |exLabels|
    ensures Zip(validRhos, exLabels) == Window(Points(rhos, labels), lo, hi)
  {
    validRhos, exLabels := [], [];
    var j := 0;
    while j < |rhos|
      invariant 0 <= j <= |rhos|
      invariant |validRhos| == |exLabels|
      invariant Zip(validRhos, exLabels) == Window(Points(rhos[..j], labels), lo, hi)
    {
      var rho, text := rhos[j], labels[j];
      assert Points(rhos[..j + 1], labels)[..j] == Points(rhos[..j], labels);
      if InWindow(rho, lo, hi) {
        validRhos, exLabels := validRhos + [rho], exLabels + [text];
      }
      j := j + 1;
    }
    assert rhos[..j] == rhos;
  }
}
