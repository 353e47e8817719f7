/** Counting records by their status label: the classification loops of
    create_vms_total and create_alarms_total both reduce to this. */
module Counting {

  /** How many of `labels` are in `wanted`, counted from the left as the loops do. */
  function CountIn(labels: seq<string>, wanted: set<string>): (n: nat)
    ensures n <= |labels|
  {
    if labels == [] then 0
    else CountIn(labels[..|labels| - 1], wanted) + (if labels[|labels| - 1] in wanted then 1 else 0)
  }

  /** The positions whose label is wanted: an independent definition of the count. */
  ghost function Positions(labels: seq<string>, wanted: set<string>): set<int>
  {
    set i | 0 <= i < |labels| && labels[i] in wanted
  }

  /** CountIn counts exactly the positions whose label is wanted. */
  lemma {:induction false} CountInIsPositions(labels: seq<string>, wanted: set<string>)
    ensures CountIn(labels, wanted) == |Positions(labels, wanted)|
  {
    if labels != [] {
      var n := |labels| - 1;
      var init := labels[..n];
      CountInIsPositions(init, wanted);
      if labels[n] in wanted {
        assert Positions(labels, wanted) == Positions(init, wanted) + {n};
      } else {
        assert Positions(labels, wanted) == Positions(init, wanted);
      }
    }
  }

  /** Counts for disjoint label sets add up. */
  lemma CountInDisjoint(labels: seq<string>, a: set<string>, b: set<string>)
    requires a !! b
    ensures CountIn(labels, a + b) == CountIn(labels, a) + CountIn(labels, b)
  {
    CountInIsPositions(labels, a);
    CountInIsPositions(labels, b);
    CountInIsPositions(labels, a + b);
    assert Positions(labels, a + b) == Positions(labels, a) + Positions(labels, b);
    assert Positions(labels, a) !! Positions(labels, b);
  }

  /** The count reaches the length exactly when every label is wanted. */
  lemma {:induction false} CountInFull(labels: seq<string>, wanted: set<string>)
    ensures CountIn(labels, wanted) == |labels| <==> forall i :: 0 <= i < |labels| ==> labels[i] in wanted
  {
    if labels != [] {
      var n := |labels| - 1;
      CountInFull(labels[..n], wanted);
      if labels[n] in wanted {
        assert (forall i :: 0 <= i < |labels| ==> labels[i] in wanted)
          <==> (forall i :: 0 <= i < n ==> labels[..n][i] in wanted);
      }
    }
  }

  /** A record whose label is not wanted adds nothing to the count. */
  lemma UnwantedAddsNothing(labels: seq<string>, x: string, wanted: set<string>)
    requires x !in wanted
    ensures CountIn(labels + [x], wanted) == CountIn(labels, wanted)
  {
    assert (labels + [x])[..|labels|] == labels;
  }
}
