/** Cutting a link into cells: a standard cell is what a car covers at free
    flow in one time step; the last cell absorbs the remainder. */
module Discretisation {

  /** The standard cell length: cars are assumed faster than trucks, so the
      car free-flow speed sets it. */
  function StdCellLength(ffsCar: real, unitTime: real): real {
    ffsCar * unitTime
  }

  /** floor(length / std), raised to 1 when that is 0. */
  function NumCells(length: real, std: real): (n: int)
    requires std != 0.0
    ensures n != 0
    ensures (length / std).Floor != 0 ==> n == (length / std).Floor
    ensures (length / std).Floor == 0 ==> n == 1
  {
    var f := (length / std).Floor;
    if f == 0 then 1 else f
  }

  function LastCellLength(length: real, std: real, n: int): real {
    length - (n - 1) as real * std
  }

  /** How many standard cells init_cell_array builds: n - 1, and none when
      that is not positive. */
  function StdCellCount(n: int): nat {
    if n > 1 then n - 1 else 0
  }

  /** The lengths of the cells init_cell_array builds, upstream first: the
      standard cells, then the last cell when the link has positive length. */
  function CellLengths(length: real, std: real): seq<real>
    requires std != 0.0
  {
    var n := NumCells(length, std);
    seq(StdCellCount(n), _ => std) + (if length > 0.0 then [LastCellLength(length, std, n)] else [])
  }

  function Sum(xs: seq<real>): real {
    if xs == [] then 0.0 else Sum(xs[..|xs| - 1]) + xs[|xs| - 1]
  }

  lemma {:induction false} SumOfStandardCells(k: nat, std: real)
    ensures Sum(seq(k, _ => std)) == k as real * std
  {
    if k > 0 {
      assert seq(k, _ => std)[..k - 1] == seq(k - 1, _ => std);
      SumOfStandardCells(k - 1, std);
    }
  }

  /** floor(length / std) standard cells fit into the link, one more does not. */
  lemma FloorFits(length: real, std: real)
    requires 0.0 < length && 0.0 < std
    ensures var f := (length / std).Floor;
      0 <= f && f as real * std <= length < (f as real + 1.0) * std
  {
    var q := length / std;
    var f := q.Floor;
    assert q * std == length;
    assert q > 0.0;
    var lo := f as real;
    assert lo * std <= length by {
      assert lo <= q;
      assert lo * std <= q * std;
    }
    FloorPlusOneExceeds(length, std);
  }

  lemma FloorPlusOneExceeds(length: real, std: real)
    requires 0.0 < std
    ensures length < ((length / std).Floor as real + 1.0) * std
  {
    var q := length / std;
    var hi := q.Floor as real + 1.0;
    assert q * std == length;
    assert q < hi;
    assert q * std < hi * std;
  }

  /** A link of positive length is covered exactly: NumCells cells (at least
      one), all standard but the last, whose lengths add up to the link
      length; the last cell is positive and shorter than two standard
      cells, and no shorter than one when there are two cells or more. */
  lemma CellLengthsCoverLink(length: real, std: real)
    requires 0.0 < length && 0.0 < std
    ensures var ls := CellLengths(length, std);
      |ls| == NumCells(length, std) >= 1 &&
      Sum(ls) == length &&
      (forall i :: 0 <= i < |ls| - 1 ==> ls[i] == std) &&
      0.0 < ls[|ls| - 1] < 2.0 * std &&
      (|ls| >= 2 ==> std <= ls[|ls| - 1])
  {
    FloorFits(length, std);
    var f := (length / std).Floor;
    var n := NumCells(length, std);
    assert n >= 1 && StdCellCount(n) == n - 1;
    var last := LastCellLength(length, std, n);
    var stds := seq(n - 1, _ => std);
    var ls := CellLengths(length, std);
    assert ls == stds + [last];
    assert ls[..|ls| - 1] == stds;
    SumOfStandardCells(n - 1, std);
    assert Sum(ls) == (n - 1) as real * std + last;
    if f == 0 {
      assert last == length;
    } else {
      assert n == f;
      assert last == length - (f as real - 1.0) * std;
    }
  }

  /** A link of zero or negative length gets no cells at all. */
  lemma NoCellsWithoutLength(length: real, std: real)
    requires length <= 0.0 && 0.0 < std
    ensures CellLengths(length, std) == []
  {
    var q := length / std;
    assert q * std == length;
    assert q <= 0.0;
    assert q.Floor <= 0;
  }
}
