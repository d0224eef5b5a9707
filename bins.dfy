/** Bin geometry: the rows (lower, upper) of a histogram's bins without the
    underflow row, the patch that gives the open overflow row a finite upper
    edge, and the bin centres and half-widths that the fit and the prediction
    evaluate at. */
module Bins {

  /** An upper bin edge; the overflow bin extends to +infinity. */
  datatype Bound = Finite(value: real) | Infinite

  /** One row of `allbins`: the lower and the upper edge of a bin. */
  datatype Row = Row(lo: real, hi: Bound)

  predicate AllFinite(rows: seq<Row>) {
    forall i :: 0 <= i < |rows| ==> rows[i].hi.Finite?
  }

  function Width(r: Row): real
    requires r.hi.Finite?
  {
    r.hi.value - r.lo
  }

  /** The rows of `allbins` past the first: the rows of the regular bins,
      then the overflow row (e_N, +infinity); the underflow row
      (-infinity, e_0) is dropped. */
  function RowsAboveUnderflow(edges: seq<real>): (rows: seq<Row>)
    requires |edges| >= 1
    ensures |rows| == |edges| && rows[0].lo == edges[0]
    ensures rows[|rows| - 1] == Row(edges[|edges| - 1], Infinite)
  {
    seq(|edges|, i requires 0 <= i < |edges| =>
      Row(edges[i], if i + 1 < |edges| then Finite(edges[i + 1]) else Infinite))
  }

  /** The overflow-row patch: the last row gets an upper edge one
      previous-bin width above its lower edge; every other row, and the last
      row's lower edge, stay as they were. */
  function Patched(rows: seq<Row>): (r: seq<Row>)
    requires |rows| >= 2 && rows[|rows| - 2].hi.Finite?
    ensures |r| == |rows| && r[..|r| - 1] == rows[..|rows| - 1]
    ensures r[|r| - 1].lo == rows[|rows| - 1].lo
    ensures r[|r| - 1].hi.Finite? && Width(r[|r| - 1]) == Width(rows[|rows| - 2])
  {
    var n := |rows|;
    rows[..n - 1] + [Row(rows[n - 1].lo, Finite(rows[n - 1].lo + rows[n - 2].hi.value - rows[n - 2].lo))]
  }

  /** The patch applied in place to the array of rows. */
  method PatchOverflowRow(bins: array<Row>)
    requires bins.Length >= 2 && bins[bins.Length - 2].hi.Finite?
    modifies bins
    ensures bins[..] == Patched(old(bins[..]))
  {
    var n := bins.Length;
    bins[n - 1] := Row(bins[n - 1].lo, Finite(bins[n - 1].lo + bins[n - 2].hi.value - bins[n - 2].lo));
  }

  /** The rows of a binning after the patch, as the fit and the prediction
      see them: row i spans [e_i, e_{i+1}) for the regular bins, and the
      former overflow row starts at the last edge and is as wide as the bin
      below it. */
  function PatchedRows(edges: seq<real>): (rows: seq<Row>)
    requires |edges| >= 2
    ensures |rows| == |edges| && AllFinite(rows)
    ensures Width(rows[|rows| - 1]) == edges[|edges| - 1] - edges[|edges| - 2]
  {
    Patched(RowsAboveUnderflow(edges))
  }

  /** Row i of the patched binning starts at edge i, and every regular row
      ends at the next edge. */
  lemma PatchedRowsSpan(edges: seq<real>)
    requires |edges| >= 2
    ensures var rows := PatchedRows(edges);
      && (forall i {:trigger rows[i]} :: 0 <= i < |rows| ==> rows[i].lo == edges[i])
      && (forall i {:trigger rows[i]} :: 0 <= i < |rows| - 1 ==> rows[i].hi == Finite(edges[i + 1]))
  {
  }

  /** The bin centres: the midpoint of every row. */
  function Centres(rows: seq<Row>): (x: seq<real>)
    requires AllFinite(rows)
    ensures |x| == |rows|
  {
    seq(|rows|, i requires 0 <= i < |rows| => 0.5 * (rows[i].lo + rows[i].hi.value))
  }

  /** The half-width of every row. */
  function HalfWidths(rows: seq<Row>): (dx: seq<real>)
    requires AllFinite(rows)
    ensures |dx| == |rows|
  {
    seq(|rows|, i requires 0 <= i < |rows| => 0.5 * (rows[i].hi.value - rows[i].lo))
  }

  /** Bin geometry of `fit_tf`, `tf_closure` and `tf_prediction`: builds the
      rows, patches the overflow row in place and returns the centres and
      half-widths of the patched rows. */
  method BinGeometry(edges: seq<real>) returns (x: seq<real>, dx: seq<real>)
    requires |edges| >= 2
    ensures |x| == |edges| && |dx| == |edges|
    ensures x == Centres(PatchedRows(edges)) && dx == HalfWidths(PatchedRows(edges))
  {
    var rows := RowsAboveUnderflow(edges);
    var bins := new Row[|rows|](i requires 0 <= i < |rows| => rows[i]);
    PatchOverflowRow(bins);
    assert bins[..] == PatchedRows(edges);
    x := Centres(bins[..]);
    dx := HalfWidths(bins[..]);
  }

  /** The centre of every regular bin is the midpoint of its two edges. */
  lemma RegularCentres(edges: seq<real>)
    requires |edges| >= 2
    ensures var x := Centres(PatchedRows(edges));
      forall i {:trigger x[i]} :: 0 <= i < |edges| - 1 ==> x[i] == 0.5 * (edges[i] + edges[i + 1])
  {
    PatchedRowsSpan(edges);
  }

  /** Each point's error bar spans its bin exactly; the last point sits half
      a bin above the last edge, with the half-width of the last regular
      bin. */
  lemma GeometrySpansBins(edges: seq<real>)
    requires |edges| >= 2
    ensures var x, dx := Centres(PatchedRows(edges)), HalfWidths(PatchedRows(edges));
      && (forall i {:trigger x[i]} :: 0 <= i < |edges| - 1 ==> x[i] - dx[i] == edges[i] && x[i] + dx[i] == edges[i + 1])
      && x[|x| - 1] - dx[|dx| - 1] == edges[|edges| - 1]
      && dx[|dx| - 1] == dx[|dx| - 2]
  {
    var rows := PatchedRows(edges);
    var n := |edges|;
    assert rows[n - 2].hi == Finite(edges[n - 1]);
  }
}
