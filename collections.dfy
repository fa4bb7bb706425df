/** The list-through-set operations the service performs on column names.
    Python lists a set in no fixed order; the model lists it in order of
    first occurrence, and the contracts promise only the elements and that
    none repeats. */
module Collections {

  predicate Distinct(xs: seq<string>)
  {
    forall i, j :: 0 <= i < j < |xs| ==> xs[i] != xs[j]
  }

  /** `list(set(xs).difference(set(ys)))` */
  function Difference(xs: seq<string>, ys: seq<string>): (r: seq<string>)
    ensures forall x :: x in r <==> x in xs && x !in ys
    ensures Distinct(r)
  {
    if xs == [] then []
    else
      var front := Difference(xs[..|xs| - 1], ys);
      var last := xs[|xs| - 1];
      assert xs == xs[..|xs| - 1] + [last];
      if last in ys || last in front then front else front + [last]
  }

  /** `list(set(xs).intersection(set(ys)))` */
  function Intersection(xs: seq<string>, ys: seq<string>): (r: seq<string>)
    ensures forall x :: x in r <==> x in xs && x in ys
    ensures Distinct(r)
    ensures r == [] <==> forall x :: x in xs ==> x !in ys
  {
    if xs == [] then []
    else
      var front := Intersection(xs[..|xs| - 1], ys);
      var last := xs[|xs| - 1];
      assert xs == xs[..|xs| - 1] + [last];
      if last !in ys || last in front then front else front + [last]
  }
}
