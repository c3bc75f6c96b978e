/** The file-backed grid store: a CSVManager is bound to one file, which it
    appends rows to, rewrites, parses and edits row by row. The file itself is
    the `contents` field; every read parses it afresh and every edit rewrites
    it whole. */
module CsvManager {
  import opened Text
  import opened Failures
  import opened RowCodec
  import opened CellReference
  import opened FileBinding
  import opened GridEdits

  /** What a mutating call that can throw ends with. */
  datatype Outcome = Done | Failed(error: Error)

  /** The field a parsed reference names in a parsed grid, or the empty
      string when the row or the field is absent (a row number that is not a
      number names no row). */
  function CellAt(g: Grid, p: Parts): string {
    match RowNumber(p.rowText)
    case None => ""
    case Some(n) =>
      var row, col := n - 1, ColumnNumber(p.letters) - 1;
      if 0 <= row < |g| && 0 <= col < |g[row]| then g[row][col] else ""
  }

  /** getCell's answer for the text of the file: parse first, then split the
      reference, then look it up. */
  function CellValue(text: string, cell: string): Result<string> {
    match Decode(text)
    case Err(e) => Err(e)
    case Ok(g) =>
      match SplitRef(cell)
      case Err(e) => Err(e)
      case Ok(p) => Ok(CellAt(g, p))
  }

  /** getRow's answer: parse first, then reject a row number below 1; a row
      past the end reads as the empty row. */
  function RowValue(text: string, n: int): Result<Row> {
    match Decode(text)
    case Err(e) => Err(e)
    case Ok(g) =>
      if n - 1 < 0 then Err(InvalidRowNumber)
      else if n - 1 < |g| then Ok(g[n - 1]) else Ok([])
  }

  /** The rows writeFile accepts and parseFile gives back unchanged: at least
      one row and no more than an array holds, the first and the last not
      empty, every field plain. */
  predicate Rereadable(rows: Grid) {
    && 1 <= |rows| <= MaxLength && rows[0] != [] && rows[|rows| - 1] != []
    && forall k :: 0 <= k < |rows| ==> CodecProperties.PlainRow(rows[k])
  }

  /** After writeFile(rows), getRow(k + 1) returns row k, and a row number
      past the end returns the empty row. */
  lemma {:induction false} WrittenRowRead(rows: Grid, n: int)
    requires Rereadable(rows)
    ensures n < 1 ==> RowValue(EncodeRows(rows), n) == Err(InvalidRowNumber)
    ensures 1 <= n <= |rows| ==> RowValue(EncodeRows(rows), n) == Ok(rows[n - 1])
    ensures n > |rows| ==> RowValue(EncodeRows(rows), n) == Ok([])
  {
    CodecProperties.RoundTrip(rows);
  }

  /** After writeFile(rows), the reference made of column j's letters and
      row k's number reads field j of row k. */
  lemma {:induction false} WrittenCellRead(rows: Grid, j: nat, k: nat)
    requires Rereadable(rows) && k < |rows| && j < |rows[k]|
    ensures CellValue(EncodeRows(rows), ColumnLetters(j + 1) + DecimalText(k + 1)) == Ok(rows[k][j])
  {
    CodecProperties.RoundTrip(rows);
    CellRead(EncodeRows(rows), rows, j, k);
  }

  /** getCell on a file that parses to `g`, with the reference built from
      column j and row k. */
  lemma {:induction false} CellRead(text: string, g: Grid, j: nat, k: nat)
    requires Decode(text) == Ok(g) && k < |g| && j < |g[k]|
    ensures CellValue(text, ColumnLetters(j + 1) + DecimalText(k + 1)) == Ok(g[k][j])
  {
    var letters, digits := ColumnLetters(j + 1), DecimalText(k + 1);
    ReferenceFor(j, k);
    CellValueOf(text, letters + digits, g, Parts(letters, digits));
    CellAtBuilt(g, j, k);
  }

  lemma {:induction false} CellAtBuilt(g: Grid, j: nat, k: nat)
    requires k < |g| && j < |g[k]|
    ensures CellAt(g, Parts(ColumnLetters(j + 1), DecimalText(k + 1))) == g[k][j]
  {
    ColumnNumberOfLetters(j + 1);
    RowNumberOfDecimal(k + 1);
  }

  lemma {:induction false} CellValueOf(text: string, cell: string, g: Grid, p: Parts)
    requires Decode(text) == Ok(g) && SplitRef(cell) == Ok(p)
    ensures CellValue(text, cell) == Ok(CellAt(g, p))
  {
  }

  /** deleteRow on a row strictly between the first and the last: the file
      reads back with that row empty and every other row in its place. */
  lemma {:induction false} DeleteRowReread(g: Grid, k: nat)
    requires Rereadable(g) && 0 < k < |g| - 1
    ensures Decode(EncodeRows(Blanked(g, k))) == Ok(g[k := []])
  {
    var h := g[k := []];
    assert Blanked(g, k) == h;
    assert CodecProperties.PlainRow(h[k]);
    assert forall i :: 0 <= i < |h| && i != k ==> h[i] == g[i];
    CodecProperties.RoundTrip(h);
  }

  /** deleteRow(1) does not keep the other rows in place: the empty first row
      is leading whitespace of the file, so on the next parse every row has
      moved up one place, as after deleteRowAndShift(1). */
  lemma {:induction false} DeleteFirstRowReread(g: Grid)
    requires |g| >= 1
    ensures Decode(EncodeRows(Blanked(g, 0))) == Decode(EncodeRows(g[1..]))
    ensures Decode(EncodeRows(Blanked(g, 0))) == Decode(EncodeRows(Shifted(g, 0)))
  {
    assert Blanked(g, 0) == [[]] + g[1..];
    CodecProperties.LeadingBlankRowDropped(g[1..]);
    assert Shifted(g, 0) == g[1..] + [[]];
    CodecProperties.TrailingBlankRowDropped(g[1..]);
  }

  /** deleteRowAndShift(k + 1) on a grid that reads back: on the next parse
      the row is gone, the later rows have moved up one place and the
      vacated last row has disappeared. */
  lemma {:induction false} DeleteRowAndShiftReread(g: Grid, k: nat)
    requires Rereadable(g) && k < |g| && Rereadable(g[..k] + g[k + 1..])
    ensures Decode(EncodeRows(Shifted(g, k))) == Ok(g[..k] + g[k + 1..])
  {
    ShiftedReread(g, k);
    RereadableRoundTrip(g[..k] + g[k + 1..]);
  }

  lemma {:induction false} RereadableRoundTrip(rows: Grid)
    requires Rereadable(rows)
    ensures Decode(EncodeRows(rows)) == Ok(rows)
  {
    CodecProperties.RoundTrip(rows);
  }

  lemma {:induction false} DecodeBlocksFails(blocks: seq<string>, i: nat)
    requires i < |blocks| && DecodeBlock(blocks[i]).Err?
    ensures DecodeBlocks(blocks) == Err(MalformedRow)
  {
  }

  lemma {:induction false} DecodeIs(text: string, blocks: seq<string>, r: Result<Grid>)
    requires blocks == Blocks(text) && r == DecodeBlocks(blocks)
    ensures r == Decode(text)
  {
  }

  lemma {:induction false} BlankedIs(g: Grid, index: nat, rows: Grid)
    requires index < MaxLength
    requires |rows| == |Padded(g, index + 1)| && index < |rows| && rows[index] == []
    requires forall j :: 0 <= j < |rows| && j != index ==> rows[j] == Padded(g, index + 1)[j]
    ensures rows == Blanked(g, index)
  {
  }

  lemma {:induction false} ShiftedIs(g: Grid, index: nat, before: Grid, rows: Grid)
    requires index < MaxLength
    requires before == Padded(g, index + 1)[index := []]
    requires |rows| == |before| && rows[..|rows| - 1] == before[..index] + before[index + 1..] && rows[|rows| - 1] == []
    ensures rows == Shifted(g, index)
  {
    assert rows == rows[..|rows| - 1] + [rows[|rows| - 1]];
  }

  class CSVManager {
    /** The bytes of the bound file. */
    var contents: string
    var filename: string
    var filepath: string

    predicate Valid()
      reads this
    {
      Bound(filename, filepath)
    }

    /** Binds to `name.csv`; `existing` is the content of a file already at
        that path, if any. A missing file is created empty; an existing one
        is kept as it is. */
    constructor(name: string, existing: Option<string>)
      ensures Valid()
      ensures filename == FileNameFor(name) && filepath == PathOf(filename)
      ensures contents == existing.GetOr([])
    {
      filename := FileNameFor(name);
      filepath := PathOf(FileNameFor(name));
      NamingBinds(name);
      match existing
      case Some(text) => contents := text;
      case None => contents := [];
    }

    /** `get filename`. */
    function Filename(): (f: string)
      reads this
      requires Valid()
      ensures EndsWith(f, Extension)
    {
      filename
    }

    /** `get filepath`. */
    function Filepath(): (p: string)
      reads this
      requires Valid()
      ensures p == PathOf(Filename()) && EndsWith(p, Filename())
    {
      filepath
    }

    /** `set filename`: rebinds the name and path without touching any file,
        so every later read and append acts on the file at the new path;
        `existing` is that file's content, if there is one, and a missing
        file reads as empty. */
    method SetFilename(name: string, existing: Option<string>)
      modifies this
      ensures Valid()
      ensures filename == FileNameFor(name) && filepath == PathOf(filename)
      ensures contents == existing.GetOr([])
    {
      filename := FileNameFor(name);
      filepath := PathOf(filename);
      NamingBinds(name);
      contents := existing.GetOr([]);
    }

    /** `rename`: `renamed` is whether the operating system's rename
        succeeded. Only then are the name and path updated; on failure the
        error is reported and swallowed, and the binding is left as it was. */
    method Rename(name: string, renamed: bool)
      requires Valid()
      modifies this
      ensures Valid()
      ensures renamed ==> filename == FileNameFor(name) && filepath == PathOf(filename)
      ensures !renamed ==> filename == old(filename) && filepath == old(filepath)
      ensures contents == old(contents)
    {
      var newName := FileNameFor(name);
      var newPath := PathOf(newName);
      if !renamed {
        return;
      }
      filename := newName;
      filepath := newPath;
      NamingBinds(name);
    }

    /** `clear`: truncates the file. */
    method Clear()
      modifies this
      ensures contents == []
      ensures filename == old(filename) && filepath == old(filepath)
    {
      contents := [];
    }

    /** `writeRow`: quotes the fields holding a comma in the caller's array
        itself, then appends the row; a null row appends only the delimiter.
        The file only grows: its old text is a prefix of the new. */
    method WriteRow(data: array?<string>)
      modifies this, data
      ensures data != null ==> data[..] == QuoteAll(old(data[..]))
      ensures contents == old(contents) + EncodeRow(if data == null then [] else old(data[..]))
      ensures filename == old(filename) && filepath == old(filepath)
    {
      var csv: string := [];
      if data != null {
        var i := 0;
        while i < data.Length
          invariant 0 <= i <= data.Length
          invariant forall j :: 0 <= j < i ==> data[j] == QuoteField(old(data[j]))
          invariant forall j :: i <= j < data.Length ==> data[j] == old(data[j])
          invariant contents == old(contents) && filename == old(filename) && filepath == old(filepath)
        {
          if Comma in data[i] {
            data[i] := [Quote] + data[i] + [Quote];
          }
          i := i + 1;
        }
        assert data[..] == QuoteAll(old(data[..]));
        csv := csv + Join(data[..], FieldSeparator) + RowDelimiter;
      } else {
        csv := csv + RowDelimiter;
      }
      contents := contents + csv;
    }

    /** `writeRows`: writeRow on each row in order. */
    method WriteRows(rows: Grid)
      modifies this
      ensures contents == old(contents) + EncodeRows(rows)
      ensures filename == old(filename) && filepath == old(filepath)
    {
      var i := 0;
      while i < |rows|
        invariant 0 <= i <= |rows|
        invariant contents == old(contents) + EncodeRows(rows[..i])
        invariant filename == old(filename) && filepath == old(filepath)
      {
        var row := rows[i];
        var data := new string[|row|](j requires 0 <= j < |row| => row[j]);
        assert data[..] == row;
        WriteRow(data);
        assert rows[..i + 1][..i] == rows[..i];
        i := i + 1;
      }
      assert rows[..|rows|] == rows;
    }

    /** `writeFile`: clear, then writeRows. */
    method WriteFile(rows: Grid)
      modifies this
      ensures contents == EncodeRows(rows)
      ensures filename == old(filename) && filepath == old(filepath)
    {
      Clear();
      WriteRows(rows);
    }

    /** `parseFile`: one row per block of the trimmed text; a non-empty
        block without a token fails. The file is not changed. */
    method ParseFile() returns (r: Result<Grid>)
      ensures r == Decode(contents)
    {
      var blocks := Blocks(contents);
      r := ParseBlocks(blocks);
      DecodeIs(contents, blocks, r);
    }

    /** The `rows.forEach` loop of parseFile: the rows pushed so far decode
        the blocks visited so far; the first failing block ends the parse. */
    static method ParseBlocks(blocks: seq<string>) returns (r: Result<Grid>)
      ensures r == DecodeBlocks(blocks)
    {
      var rowsResult: Grid := [];
      var i := 0;
      while i < |blocks|
        invariant 0 <= i <= |blocks|
        invariant |rowsResult| == i
        invariant forall k :: 0 <= k < i ==> DecodeBlock(blocks[k]) == Ok(rowsResult[k])
      {
        var rowResult := ParseBlock(blocks[i]);
        if rowResult.Err? {
          DecodeBlocksFails(blocks, i);
          return Err(MalformedRow);
        }
        rowsResult := rowsResult + [rowResult.value];
        i := i + 1;
      }
      CodecProperties.DecodeEachBlock(blocks, rowsResult);
      r := Ok(rowsResult);
    }

    /** One block: an empty block is an empty row, otherwise every token is
        trimmed, stripped of quotes and pushed in order. */
    static method ParseBlock(row: string) returns (r: Result<Row>)
      ensures r == DecodeBlock(row)
    {
      var rowResult: Row := [];
      if row != [] {
        var matches := Tokens(row);
        if matches == [] {
          return Err(MalformedRow);
        }
        var j := 0;
        while j < |matches|
          invariant 0 <= j <= |matches|
          invariant rowResult == CleanAll(matches[..j])
        {
          rowResult := rowResult + [CleanToken(matches[j])];
          j := j + 1;
        }
        assert matches[..j] == matches;
      }
      r := Ok(rowResult);
    }

    /** `getCell`. */
    method GetCell(cell: string) returns (r: Result<string>)
      ensures r == CellValue(contents, cell)
    {
      var parsed := ParseFile();
      if parsed.Err? {
        return Err(parsed.error);
      }
      var parts := SplitCellReference(cell);
      if parts.Err? {
        return Err(parts.error);
      }
      SplitRefParts(cell);
      var value := Lookup(parsed.value, parts.value);
      r := Ok(value);
    }

    /** The indexing of getCell once the file is parsed and the reference
        split: a missing row, a missing field and an empty field all read as
        the empty string. */
    static method Lookup(csvArray: Grid, parts: Parts) returns (value: string)
      requires IsColumnLetters(parts.letters) && IsRowText(parts.rowText)
      ensures value == CellAt(csvArray, parts)
    {
      var rowIndex, colIndex := ReferenceToIndices(parts);
      if rowIndex.None? || rowIndex.value >= |csvArray| {
        return "";
      } else if colIndex >= |csvArray[rowIndex.value]| || csvArray[rowIndex.value][colIndex] == "" {
        return "";
      }
      value := csvArray[rowIndex.value][colIndex];
    }

    /** `getRow`. */
    method GetRow(rowNum: int) returns (r: Result<Row>)
      ensures r == RowValue(contents, rowNum)
    {
      var parsed := ParseFile();
      if parsed.Err? {
        return Err(parsed.error);
      }
      var csvArray := parsed.value;
      var index := rowNum - 1;
      if index < 0 {
        return Err(InvalidRowNumber);
      }
      r := Ok(if index < |csvArray| then csvArray[index] else []);
    }

    /** `deleteRow`: the row becomes an empty row and the grid is rewritten;
        nothing changes when parsing fails or the number is below 1. A
        number whose index is no array index only adds a property to the
        array, so the grid is rewritten as it was. */
    method DeleteRow(rowNum: int) returns (outcome: Outcome)
      modifies this
      ensures filename == old(filename) && filepath == old(filepath)
      ensures Decode(old(contents)).Err? ==> outcome == Failed(MalformedRow) && contents == old(contents)
      ensures Decode(old(contents)).Ok? && rowNum < 1 ==> outcome == Failed(InvalidRowNumber) && contents == old(contents)
      ensures Decode(old(contents)).Ok? && rowNum >= 1 ==>
        outcome == Done && contents == EncodeRows(Blanked(Decode(old(contents)).value, rowNum - 1))
    {
      var parsed := ParseFile();
      if parsed.Err? {
        return Failed(parsed.error);
      }
      var index := rowNum - 1;
      if index < 0 {
        return Failed(InvalidRowNumber);
      }
      var rows := parsed.value;
      if index < MaxLength {
        var csvArray := Grown(parsed.value, index);
        csvArray[index] := [];
        rows := csvArray[..];
        BlankedIs(parsed.value, index, rows);
      }
      WriteFile(rows);
      outcome := Done;
    }

    /** `deleteRowAndShift`: the row is removed, the rows after it move up in
        place, the last position is emptied and the grid is rewritten. */
    method DeleteRowAndShift(rowNum: int) returns (outcome: Outcome)
      modifies this
      ensures filename == old(filename) && filepath == old(filepath)
      ensures Decode(old(contents)).Err? ==> outcome == Failed(MalformedRow) && contents == old(contents)
      ensures Decode(old(contents)).Ok? && rowNum < 1 ==> outcome == Failed(InvalidRowNumber) && contents == old(contents)
      ensures Decode(old(contents)).Ok? && rowNum >= 1 ==>
        outcome == Done && contents == EncodeRows(Shifted(Decode(old(contents)).value, rowNum - 1))
    {
      var parsed := ParseFile();
      if parsed.Err? {
        return Failed(parsed.error);
      }
      var index := rowNum - 1;
      if index < 0 {
        return Failed(InvalidRowNumber);
      }
      Clear();
      var rows := ShiftRows(parsed.value, index);
      WriteFile(rows);
      outcome := Done;
    }

    /** The array work of deleteRowAndShift: empty the row (growing the
        array when it is past the end), shift the later rows up in place and
        empty the last position. The source clears the file in between,
        which touches only the file. An index that is no array index adds a
        property instead of emptying a row, and the loop cannot start, as no
        array is that long: only the last position is emptied. */
    static method ShiftRows(g: Grid, index: nat) returns (rows: Grid)
      ensures rows == Shifted(g, index)
    {
      if index >= MaxLength {
        var csvArray := new Row[|g|](j requires 0 <= j < |g| => g[j]);
        assert csvArray[..] == g;
        if csvArray.Length > 0 {
          csvArray[csvArray.Length - 1] := [];
        }
        return csvArray[..];
      }
      var csvArray := Grown(g, index);
      csvArray[index] := [];
      ghost var before := csvArray[..];
      ShiftUp(csvArray, index);
      ghost var moved := csvArray[..csvArray.Length - 1];
      csvArray[csvArray.Length - 1] := [];
      assert csvArray[..csvArray.Length - 1] == moved;
      rows := csvArray[..];
      ShiftedIs(g, index, before, rows);
    }

    /** The loop of deleteRowAndShift: every row from `index` on takes the
        value of the row after it; the last row is left as it was. */
    static method ShiftUp(a: array<Row>, index: nat)
      requires index < a.Length
      modifies a
      ensures a[..a.Length - 1] == old(a[..index]) + old(a[index + 1..])
      ensures a[a.Length - 1] == old(a[a.Length - 1])
    {
      var i := index;
      while i < a.Length - 1
        invariant index <= i <= a.Length - 1
        invariant forall j :: 0 <= j < index ==> a[j] == old(a[j])
        invariant forall j :: index <= j < i ==> a[j] == old(a[j + 1])
        invariant forall j :: i <= j < a.Length ==> a[j] == old(a[j])
      {
        a[i] := a[i + 1];
        i := i + 1;
      }
    }

    /** The array `csvArray` becomes once `csvArray[index]` is assigned, for
        an array index: long enough to hold `index`, the new positions
        empty. */
    static method Grown(g: Grid, index: nat) returns (a: array<Row>)
      requires index < MaxLength
      ensures fresh(a) && a[..] == Padded(g, index + 1)
    {
      var len := if index < |g| then |g| else index + 1;
      a := new Row[len](j requires 0 <= j < len => if j < |g| then g[j] else []);
    }
  }
}
