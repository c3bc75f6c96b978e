/** The row edits behind deleteRow and deleteRowAndShift, on the decoded
    grid. A zero-based index at or past the end grows the grid the way a
    JavaScript array assignment does: the gap is filled with rows that encode
    like empty rows. An index at or above 2^32 - 1 is no array index at all:
    assigning to it adds a property and leaves the rows alone. */
module GridEdits {
  import opened RowCodec
  import CodecProperties

  /** The largest length of a JavaScript array, 2^32 - 1; the array indices
      are the numbers below it. */
  const MaxLength: nat := 0xFFFF_FFFF

  function Blanks(n: nat): (g: Grid)
    ensures |g| == n && forall i :: 0 <= i < n ==> g[i] == []
  {
    seq(n, _ => [])
  }

  /** The grid padded with empty rows to at least `len` rows. */
  function Padded(g: Grid, len: nat): Grid {
    if len <= |g| then g else g + Blanks(len - |g|)
  }

  /** deleteRow's grid: row `k` replaced by the empty row. */
  function Blanked(g: Grid, k: nat): Grid {
    if k < MaxLength then Padded(g, k + 1)[k := []] else g
  }

  /** deleteRowAndShift's grid: row `k` removed, the rows after it moved up
      one place, and the last position emptied. Past the array indices only
      the last row is emptied. */
  function Shifted(g: Grid, k: nat): Grid {
    if k < MaxLength then
      var p := Padded(g, k + 1);
      p[..k] + p[k + 1..] + [[]]
    else LastEmptied(g)
  }

  /** `csvArray[csvArray.length - 1] = []`: on an empty array the index is
      -1, a property, and no row changes. */
  function LastEmptied(g: Grid): Grid {
    if g == [] then g else g[|g| - 1 := []]
  }

  /** deleteRow keeps every other row in place and never shortens the grid. */
  lemma {:induction false} BlankedRows(g: Grid, k: nat)
    requires k < MaxLength
    ensures |Blanked(g, k)| == if k < |g| then |g| else k + 1
    ensures Blanked(g, k)[k] == []
    ensures forall i :: 0 <= i < |g| && i != k ==> Blanked(g, k)[i] == g[i]
    ensures forall i :: |g| <= i < |Blanked(g, k)| ==> Blanked(g, k)[i] == []
  {
  }

  /** deleteRowAndShift on an existing row: the length is unchanged, rows
      before it stay, rows after it move up one place, the last row is empty. */
  lemma {:induction false} ShiftedRows(g: Grid, k: nat)
    requires k < |g| <= MaxLength
    ensures |Shifted(g, k)| == |g|
    ensures forall i :: 0 <= i < k ==> Shifted(g, k)[i] == g[i]
    ensures forall i :: k <= i < |g| - 1 ==> Shifted(g, k)[i] == g[i + 1]
    ensures Shifted(g, k)[|g| - 1] == []
  {
  }

  /** Past the end, deleteRowAndShift has nothing to shift and does what
      deleteRow does. */
  lemma {:induction false} ShiftedPastEnd(g: Grid, k: nat)
    requires |g| <= k < MaxLength
    ensures Shifted(g, k) == Blanked(g, k)
  {
    var p := Padded(g, k + 1);
    assert |p| == k + 1;
    assert p[k + 1..] == [];
  }

  /** Reading the file back after deleteRowAndShift: the vacated last row is
      trimmed away, so the parse equals that of the grid with row `k`
      removed and nothing appended. */
  lemma {:induction false} ShiftedReread(g: Grid, k: nat)
    requires k < |g| <= MaxLength
    ensures Decode(EncodeRows(Shifted(g, k))) == Decode(EncodeRows(g[..k] + g[k + 1..]))
  {
    var blank: Grid := [[]];
    assert Padded(g, k + 1) == g;
    assert Shifted(g, k) == g[..k] + g[k + 1..] + blank;
    CodecProperties.TrailingBlankRowDropped(g[..k] + g[k + 1..]);
  }

  /** A row number whose index is no array index: deleteRow rewrites the
      grid as it was, and deleteRowAndShift only empties the last row. */
  lemma {:induction false} PropertyIndex(g: Grid, k: nat)
    requires k >= MaxLength
    ensures Blanked(g, k) == g
    ensures g != [] ==> |Shifted(g, k)| == |g| && Shifted(g, k)[|g| - 1] == []
    ensures forall i :: 0 <= i < |g| - 1 ==> Shifted(g, k)[i] == g[i]
    ensures g == [] ==> Shifted(g, k) == []
  {
  }
}
