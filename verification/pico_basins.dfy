/**
 * Cleaning of the PICO basin mask.
 *
 * Regridding can leave fractional basin ids at the seams between basins.  Each such
 * interior cell is replaced by the id that occurs most often among its four diagonal
 * neighbours.  The replacement happens in place, during one sweep over the grid in the
 * point-loop order, so a cell sees the already cleaned values of the row before it.
 */
module PicoBasins {

  import opened Grids

  /** Occurrences of x in v. */
  function Occurrences(v: seq<real>, x: real): nat {
    multiset(v)[x]
  }

  /**
   * The scan of most_frequent_element over v: the pair (element, frequency) held after
   * the last element.  An element replaces the current one only when its running count
   * strictly exceeds the best frequency so far; the scan of the empty list is (0, 0).
   */
  function Scan(v: seq<real>): (real, nat)
    decreases |v|
  {
    if |v| == 0 then (0.0, 0)
    else
      var prev := Scan(v[..|v| - 1]);
      var x := v[|v| - 1];
      var f := Occurrences(v, x);
      if f > prev.1 then (x, f) else prev
  }

  /** The element most_frequent_element returns for v. */
  function MostFrequent(v: seq<real>): real {
    Scan(v).0
  }

  lemma PrefixOccurrences(w: seq<real>, k: nat, y: real)
    requires k <= |w|
    ensures Occurrences(w[..k], y) <= Occurrences(w, y)
  {
    assert w == w[..k] + w[k..];
    assert multiset(w) == multiset(w[..k]) + multiset(w[k..]);
  }

  lemma LastOccurrences(v: seq<real>, y: real)
    requires |v| > 0
    ensures Occurrences(v, y) == Occurrences(v[..|v| - 1], y) + (if y == v[|v| - 1] then 1 else 0)
  {
    assert v == v[..|v| - 1] + [v[|v| - 1]];
  }

  /**
   * On a non-empty list the scan returns an element of the list whose frequency is the
   * largest of all, and among the elements of largest frequency the one that reaches
   * that frequency first: in any prefix where some element already occurs that often,
   * the returned element does too.
   */
  lemma {:induction false} ScanIsFirstMode(v: seq<real>)
    requires |v| > 0
    ensures Scan(v).0 in v
    ensures Occurrences(v, Scan(v).0) == Scan(v).1
    ensures forall y :: Occurrences(v, y) <= Scan(v).1
    ensures forall k, y :: 0 <= k <= |v| && Occurrences(v[..k], y) >= Scan(v).1 ==>
              Occurrences(v[..k], Scan(v).0) >= Scan(v).1
    decreases |v|
  {
    var w := v[..|v| - 1];
    var x := v[|v| - 1];
    var f := Occurrences(v, x);
    var prev := Scan(w);
    LastOccurrences(v, x);
    forall y ensures Occurrences(v, y) == Occurrences(w, y) + (if y == x then 1 else 0) {
      LastOccurrences(v, y);
    }
    if |w| > 0 {
      ScanIsFirstMode(w);
    } else {
      forall y ensures Occurrences(w, y) == 0 { }
    }
    assert forall y :: Occurrences(w, y) <= prev.1;
    if f > prev.1 {
      assert Scan(v) == (x, f);
      forall k, y | 0 <= k <= |v| && Occurrences(v[..k], y) >= f
        ensures Occurrences(v[..k], x) >= f
      {
        if k == |v| {
          assert v[..k] == v;
        } else {
          assert v[..k] == w[..k];
          PrefixOccurrences(w, k, y);
        }
      }
    } else {
      assert Scan(v) == prev;
      assert |w| > 0;
      assert prev.0 != x;
      forall k, y | 0 <= k <= |v| && Occurrences(v[..k], y) >= prev.1
        ensures Occurrences(v[..k], prev.0) >= prev.1
      {
        if k == |v| {
          assert v[..k] == v;
        } else {
          assert v[..k] == w[..k];
        }
      }
    }
  }

  /**
   * most_frequent_element: one pass over v counting occurrences in a map; the answer
   * changes only when a count strictly exceeds the best count so far.
   */
  method MostFrequentElement(v: seq<real>) returns (r: real)
    ensures r == MostFrequent(v)
    ensures |v| == 0 ==> r == 0.0
    ensures |v| > 0 ==> r in v && forall y :: Occurrences(v, y) <= Occurrences(v, r)
  {
    var frequency: map<real, nat> := map[];
    var maxFrequency: nat := 0;
    r := 0.0;
    var k := 0;
    while k < |v|
      invariant 0 <= k <= |v|
      invariant forall y :: (if y in frequency then frequency[y] else 0) == Occurrences(v[..k], y)
      invariant (r, maxFrequency) == Scan(v[..k])
    {
      var x := v[k];
      var f := (if x in frequency then frequency[x] else 0) + 1;
      frequency := frequency[x := f];
      assert v[..k + 1][..k] == v[..k];
      forall y ensures Occurrences(v[..k + 1], y) == Occurrences(v[..k], y) + (if y == x then 1 else 0) {
        LastOccurrences(v[..k + 1], y);
      }
      if f > maxFrequency {
        maxFrequency := f;
        r := x;
      }
      k := k + 1;
    }
    assert v[..k] == v;
    if |v| > 0 {
      ScanIsFirstMode(v);
    }
  }

  /** x has no fractional part (C's round(x) == x). */
  predicate IsInteger(x: real) {
    x == x.Floor as real
  }

  /**
   * The cleaned id of a cell with id x and diagonal neighbours nb: the most frequent
   * neighbour id when x is fractional or matches none of the neighbours, else x.
   */
  function Rounded(x: real, nb: seq<real>): real {
    if !IsInteger(x) || x !in nb then MostFrequent(nb) else x
  }

  /** A cell whose id is an integer shared with a neighbour is left alone. */
  lemma RoundedKeepsConsistentIds(x: real, nb: seq<real>)
    requires IsInteger(x) && x in nb
    ensures Rounded(x, nb) == x
  {
  }

  /** A repaired cell takes an id that occurs among its neighbours, and occurs most often there. */
  lemma RoundedTakesNeighbourMode(x: real, nb: seq<real>)
    requires |nb| > 0
    requires !IsInteger(x) || x !in nb
    ensures Rounded(x, nb) in nb
    ensures forall y :: Occurrences(nb, y) <= Occurrences(nb, Rounded(x, nb))
  {
    ScanIsFirstMode(nb);
  }

  /** The domain boundary: first and last row and column. */
  predicate OnBoundary(i: int, j: int, mx: int, my: int) {
    i == 0 || j == 0 || i > mx - 2 || j > my - 2
  }

  /**
   * Cell (p, q) of g, the field o after the sweep, holds its cleaned value: the boundary
   * keeps its id; an interior cell holds Rounded of its id and of its diagonal
   * neighbours as the sweep saw them, the row p-1 already cleaned and the row p+1 not yet.
   */
  predicate Swept(g: Grid<real>, o: Grid<real>, mx: nat, my: nat, p: int, q: int)
    requires IsGrid(g, mx, my) && IsGrid(o, mx, my) && 0 <= p < mx && 0 <= q < my
  {
    if OnBoundary(p, q, mx, my) then g[p][q] == o[p][q]
    else g[p][q] == Rounded(o[p][q], [o[p + 1][q + 1], g[p - 1][q + 1], g[p - 1][q - 1], o[p + 1][q - 1]])
  }

  /** Writing a cell of the sweep keeps every cell the sweep has already passed. */
  lemma SweptFrame(g: Grid<real>, o: Grid<real>, mx: nat, my: nat, i: nat, j: nat, m: real, p: int, q: int)
    requires IsGrid(g, mx, my) && IsGrid(o, mx, my) && i < mx && j < my && 0 <= p < mx && 0 <= q < my
    requires Swept(g, o, mx, my, p, q) && Before(p, q, i, j)
    ensures IsGrid(g[i := g[i][j := m]], mx, my)
    ensures Swept(g[i := g[i][j := m]], o, mx, my, p, q)
  {
  }

  /** The sweep has cleaned every cell before (i, j) of g and left the others as in o. */
  predicate SweptBefore(g: Grid<real>, o: Grid<real>, mx: nat, my: nat, i: nat, j: nat) {
    IsGrid(g, mx, my) && IsGrid(o, mx, my) &&
    (forall p, q :: 0 <= p < mx && 0 <= q < my && !Before(p, q, i, j) ==> g[p][q] == o[p][q]) &&
    (forall p, q :: 0 <= p < mx && 0 <= q < my && Before(p, q, i, j) ==> Swept(g, o, mx, my, p, q))
  }

  /** The field a holds the grid g. */
  ghost predicate Holds(a: array2<real>, g: Grid<real>)
    reads a
  {
    IsGrid(g, a.Length0, a.Length1) &&
    forall p, q :: 0 <= p < a.Length0 && 0 <= q < a.Length1 ==> a[p, q] == g[p][q]
  }

  /** The cleaned value of cell (i, j) computed from the grid g as it stands. */
  function CleanedAt(g: Grid<real>, mx: nat, my: nat, i: nat, j: nat): real
    requires IsGrid(g, mx, my) && i < mx && j < my
  {
    if OnBoundary(i, j, mx, my) then g[i][j]
    else Rounded(g[i][j], [g[i + 1][j + 1], g[i - 1][j + 1], g[i - 1][j - 1], g[i + 1][j - 1]])
  }

  /** Giving cell (i, j) its cleaned value advances the sweep by one cell. */
  lemma SweepStep(g: Grid<real>, o: Grid<real>, mx: nat, my: nat, i: nat, j: nat)
    requires i < mx && j < my && SweptBefore(g, o, mx, my, i, j)
    ensures SweptBefore(g[i := g[i][j := CleanedAt(g, mx, my, i, j)]], o, mx, my, i, j + 1)
  {
    var v := CleanedAt(g, mx, my, i, j);
    var g' := g[i := g[i][j := v]];
    assert !Before(i, j, i, j);
    if !OnBoundary(i, j, mx, my) {
      assert !Before(i + 1, j + 1, i, j) && !Before(i + 1, j - 1, i, j);
    }
    assert Swept(g', o, mx, my, i, j);
    forall p, q | 0 <= p < mx && 0 <= q < my && Before(p, q, i, j + 1)
      ensures Swept(g', o, mx, my, p, q)
    {
      if p != i || q != j {
        SweptFrame(g, o, mx, my, i, j, v, p, q);
      }
    }
  }

  /** One step of round_basins: cleans cell (i, j) in place. */
  method CleanCell(basinMask: array2<real>, ghost g: Grid<real>, i: nat, j: nat)
    returns (ghost g': Grid<real>)
    requires i < basinMask.Length0 && j < basinMask.Length1
    requires Holds(basinMask, g)
    modifies basinMask
    ensures g' == g[i := g[i][j := CleanedAt(g, basinMask.Length0, basinMask.Length1, i, j)]]
    ensures Holds(basinMask, g')
  {
    var mx, my := basinMask.Length0, basinMask.Length1;
    ghost var v := g[i][j];
    if !OnBoundary(i, j, mx, my) {
      var idFractional := basinMask[i, j];
      var neighbours := [basinMask[i + 1, j + 1], basinMask[i - 1, j + 1],
                         basinMask[i - 1, j - 1], basinMask[i + 1, j - 1]];
      assert neighbours == [g[i + 1][j + 1], g[i - 1][j + 1], g[i - 1][j - 1], g[i + 1][j - 1]];
      if !IsInteger(idFractional) || idFractional !in neighbours {
        var m := MostFrequentElement(neighbours);
        basinMask[i, j] := m;
        v := m;
      }
    }
    g' := g[i := g[i][j := v]];
  }

  /**
   * round_basins: one sweep over the grid in point-loop order that replaces every
   * interior cell by Rounded of its id and its diagonal neighbours (i+1, j+1),
   * (i-1, j+1), (i-1, j-1), (i+1, j-1) as they are when the sweep reaches it.  Boundary
   * cells are not touched.
   */
  method RoundBasins(basinMask: array2<real>)
    modifies basinMask
    ensures forall i, j :: 0 <= i < basinMask.Length0 && 0 <= j < basinMask.Length1 ==>
              Swept(Snapshot(basinMask), old(Snapshot(basinMask)), basinMask.Length0, basinMask.Length1, i, j)
  {
    ghost var o := Snapshot(basinMask);
    ghost var g := o;
    var mx, my := basinMask.Length0, basinMask.Length1;
    var i := 0;
    while i < mx
      invariant 0 <= i <= mx
      invariant Holds(basinMask, g) && SweptBefore(g, o, mx, my, i, 0)
    {
      var j := 0;
      while j < my
        invariant 0 <= j <= my
        invariant Holds(basinMask, g) && SweptBefore(g, o, mx, my, i, j)
      {
        SweepStep(g, o, mx, my, i, j);
        g := CleanCell(basinMask, g, i, j);
        j := j + 1;
      }
      assert forall p, q :: 0 <= q < my ==> (Before(p, q, i, my) <==> Before(p, q, i + 1, 0));
      i := i + 1;
    }
    assert forall p, q :: 0 <= p < mx ==> Before(p, q, mx, 0);
    assert Snapshot(basinMask) == g by {
      assert forall p :: 0 <= p < mx ==> Snapshot(basinMask)[p] == g[p];
    }
  }
}
