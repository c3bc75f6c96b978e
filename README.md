# CSV manager — a verified model

This is a Dafny model of the file-backed grid store in `csv-manager.js`
(class `CSVManager`) and of its write-only predecessor in `csv-josh.js`
(class `Csv`). Both classes are bound to one file, `<name>.csv`, in the
program's directory. They write rows in the same format. The fields of a row
are joined with commas, and a field holding a comma is wrapped in double
quotes. Every row ends with two line feeds. `CSVManager` can also read the
file back:

- `parseFile` trims the text, splits it at blank lines and tokenises each
  block with the pattern `"[^"]*"|[^,"]+`.
- `getCell` addresses a field with a spreadsheet reference such as `B3`.
- `getRow` returns one row.
- `deleteRow` and `deleteRowAndShift` rewrite the whole file.

The model is split by concern:

- `Failures`: the errors the source throws (`MalformedRow` when the
  tokeniser finds no match, `InvalidReference`, `InvalidRowNumber`), `Result`
  and `Option`.
- `Text`: JavaScript's `trim` over its whitespace set, and removal of every
  double quote.
- `RowCodec`: the file format as functions. The writer side is `EncodeRow`
  and `EncodeRows`. The reader side is `SplitBlocks`, `Tokens` and `Decode`.
  `Tokens` reimplements the global regular-expression match as a scanner;
  an empty result stands for the `null` the source gets back.
- `CodecProperties`: what the format guarantees and where it loses
  information. This covers the round trip, the failure condition of the
  parser, empty rows and fields that vanish, and quoted fields that keep
  their padding.
- `CellReference`: `_splitCellReference` and `_referenceToIndices`, as
  scanning methods proved against the functions `SplitRef`, `ColumnNumber`
  and `RowNumber`. It also holds the bijective base-26 column numbering
  (`ColumnLetters` is its inverse).
- `FileBinding`: the file name and path pair and its documented invariant
  (the name ends with `.csv`, and the path ends with the name). The path
  is the plain concatenation; see "Left out" for what `path.join` does to
  names with `.` or `..` segments.
- `GridEdits`: the grids `deleteRow` and `deleteRowAndShift` produce, as
  functions. A JavaScript array holds at most 2^32 - 1 elements, so an
  index at or above that adds a property instead of a row; the grids say
  what follows from that.
- `CsvManager`: the class `CSVManager`. The file is its `contents` field.
  Every method that writes the file updates that field, in the same order
  of steps as the source. `writeRow` quotes the caller's array in place.
  `deleteRowAndShift` shifts an array in place.
- `CsvWriter`: the class `Csv`.

Where the documented behaviour of the system and the code disagree, the model
follows the code:

- `_splitCellReference` only checks that the reference *starts* with
  letters followed by a digit 1-9. Trailing text is accepted (`A1B` is
  accepted). The row text passed on is everything up to the next letter,
  and `Number` of it is what is looked up.
- The extension is always appended: `data.csv` names the file
  `data.csv.csv`.
- The parser trims a token before it strips quotes. A quoted field
  therefore keeps the whitespace inside its quotes, and empty fields are
  lost (`a,,b` reads back as two fields).
- An empty row written last, or written first, is trimmed away on the next
  parse. So `deleteRowAndShift` does not keep the row count of the file as
  re-read. `deleteRow(1)` does not keep the other rows in place: on
  re-reading, they have all moved up.

## Model

| member | source | states |
|---|---|---|
| CsvManager.CSVManager.constructor | csv-manager.js:126-136 | binds `name.csv` and its path (invariant established); an existing file is kept, a missing one starts empty |
| CsvManager.CSVManager.Filename | csv-manager.js:294-296 | the name ends with `.csv` |
| CsvManager.CSVManager.Filepath | csv-manager.js:303-305 | the path is the name joined to the base directory and ends with the name |
| CsvManager.CSVManager.SetFilename | csv-manager.js:298-301 | rebinds name and path and keeps the invariant; from then on the object's file is the one at the new path (given as a parameter, empty when missing) |
| CsvManager.CSVManager.Rename | csv-manager.js:241-267 | the binding changes exactly when the file system's rename succeeded; the invariant holds either way |
| CsvManager.CSVManager.Clear | csv-manager.js:237-239 | the file becomes empty |
| CsvManager.CSVManager.WriteRow | csv-manager.js:138-153 | the caller's array ends up with each comma-holding field quoted; the file grows by exactly the encoded row (a null row adds only the delimiter) |
| CsvManager.CSVManager.WriteRows | csv-manager.js:155-159 | the file grows by the encodings of the rows, in order |
| CsvManager.CSVManager.WriteFile | csv-manager.js:161-164 | the file holds exactly the encoding of the rows |
| CsvManager.CSVManager.ParseFile | csv-manager.js:166-183 | the result is the decoding of the file's text (a failure when some non-empty block has no token); the file is unchanged |
| CsvManager.CSVManager.ParseBlocks | csv-manager.js:170-181 | the row loop builds the decoding of every block, or fails at the first block with no token |
| CsvManager.CSVManager.ParseBlock | csv-manager.js:171-178 | one block: empty block gives the empty row, otherwise the cleaned tokens in order |
| CsvManager.CSVManager.GetCell | csv-manager.js:212-225 | parse failure, then invalid reference, then the addressed field, or `""` when the row or field is absent |
| CsvManager.CSVManager.Lookup | csv-manager.js:215-224 | indexing by the translated reference; missing row, missing field and empty field all give `""` |
| CsvManager.CSVManager.GetRow | csv-manager.js:227-235 | parse failure, then `InvalidRowNumber` below 1, else row n or the empty row past the end |
| CsvManager.CSVManager.DeleteRow | csv-manager.js:269-277 | on failure the file is unchanged and the error is the source's; otherwise the file is rewritten with row n emptied (grown if n is past the end), or unchanged when n - 1 is no array index (at least 2^32 - 1) |
| CsvManager.CSVManager.DeleteRowAndShift | csv-manager.js:279-292 | on failure the file is unchanged; otherwise it is rewritten with row n removed, later rows moved up and the last position empty; when n - 1 is no array index only the last position is emptied |
| CsvManager.CSVManager.ShiftRows | csv-manager.js:285-290 | the array work of deleteRowAndShift computes the shifted grid, for array indices and past them |
| CsvManager.CSVManager.ShiftUp | csv-manager.js:287-289 | the shift loop moves every row from the index on up one place and leaves the last in place |
| CsvManager.CSVManager.Grown | csv-manager.js:270-275 | assigning to an array index past the end of the parsed array grows it with empty rows |
| CsvManager.WrittenRowRead | csv-manager.js:161-164 | after writeFile of a grid that reads back, getRow(n) returns row n, the empty row past the end, and fails below 1 |
| CsvManager.WrittenCellRead | csv-manager.js:185-225 | after writeFile, the reference made of column j's letters and row k's number reads field j of row k |
| CsvManager.CellRead | csv-manager.js:212-225 | getCell on any file that parses to a grid reads the field the built reference names |
| CsvManager.DeleteRowReread | csv-manager.js:269-277 | deleting an inner row: the file reads back with that row empty and the others in place |
| CsvManager.DeleteFirstRowReread | csv-manager.js:269-277 | deleting row 1: the file reads back as the remaining rows moved up, the same as after deleteRowAndShift(1) |
| CsvManager.DeleteRowAndShiftReread | csv-manager.js:279-292 | after the shift the file reads back as the grid without the row; the vacated last row disappears |
| CsvWriter.Csv.constructor | csv-josh.js:40-50 | binds `name.csv` and its path; the file is emptied whether or not it existed |
| CsvWriter.Csv.Write | csv-josh.js:52-68 | the caller's array ends up quoted; the file grows by exactly the encoded row |
| CsvWriter.Csv.Clear | csv-josh.js:70-77 | the file becomes empty |
| CsvWriter.Csv.Filename | csv-josh.js:79-81 | the name ends with `.csv` |
| CsvWriter.Csv.SetFilename | csv-josh.js:83-86 | rebinds name and path and keeps the invariant; from then on the object's file is the one at the new path (given as a parameter, empty when missing) |
| CsvWriter.Csv.Filepath | csv-josh.js:88-90 | the path ends with the name |
| FileBinding.NamingBinds | csv-manager.js:298-301 | any base name gives a binding that satisfies the invariant; `data.csv` becomes `data.csv.csv` (names with `.` or `..` segments: see below) |
| CodecProperties.RoundTrip | csv-manager.js:138-183 | rows of plain fields, the first and last not empty, decode back to themselves after encoding |
| CodecProperties.JoinSplit | csv-manager.js:168 | splitting at the delimiter and joining again gives the text back |
| CodecProperties.SplitJoin | csv-manager.js:168 | joining blocks free of line feeds and splitting again gives the blocks back |
| CodecProperties.TokensEmptyIff | csv-manager.js:169-175 | the pattern finds no token exactly when the block holds only commas and at most one double quote |
| CodecProperties.TokensOfJoin | csv-manager.js:146-147 | the tokens of comma-joined quoted fields are those fields |
| CodecProperties.QuoteThenClean | csv-manager.js:143-145 | a plain field, quoted as written, is a single token that cleans back to itself |
| CodecProperties.DecodeFailsIff | csv-manager.js:173-177 | parsing fails exactly when some non-empty block has no token |
| CodecProperties.DecodeShape | csv-manager.js:166-183 | one row per block, an empty row exactly for an empty block, and no field holding a double quote |
| CodecProperties.BlankTextDecodes | csv-manager.js:168 | an all-whitespace file parses as one empty row |
| CodecProperties.TrailingBlankRowDropped | csv-manager.js:168 | an empty row written last is lost on the next parse |
| CodecProperties.LeadingBlankRowDropped | csv-manager.js:168 | an empty row written first is lost on the next parse |
| CodecProperties.EncodeRowsAppend | csv-manager.js:155-159 | writing two grids in turn writes the encoding of both together |
| CodecProperties.QuotedTokenVerbatim | csv-manager.js:175 | a quoted token keeps the whitespace inside its quotes |
| CodecProperties.EmptyFieldDropped | csv-manager.js:169-177 | an empty middle field is lost on the next parse |
| CellReference.SplitCellReference | csv-manager.js:198-210 | the scanner computes `SplitRef`: accept iff letters then a digit 1-9 at the start; upper-case letters; the row text up to the next letter |
| CellReference.ReferenceToIndices | csv-manager.js:185-196 | the column index is the base-26 value minus 1 and is non-negative; the row index is the row number minus 1, or none when `Number` gives NaN |
| CellReference.SplitRefAcceptsIff | csv-manager.js:199-203 | a reference is accepted exactly when it starts with letters followed by a digit 1-9 |
| CellReference.SplitRefParts | csv-manager.js:204-206 | an accepted reference gives upper-case letters and a row text starting 1-9 with no letters |
| CellReference.SplitWellFormed | csv-manager.js:198-210 | letters followed by a row text split back into exactly those two parts |
| CellReference.ReferenceFor | csv-manager.js:198-210 | the reference built from column j and row k splits into its letters and number |
| CellReference.ColumnNumberOfLetters | csv-manager.js:188-193 | the column letters of n are upper-case and have value n |
| CellReference.LettersOfColumnNumber | csv-manager.js:188-193 | upper-case letters are the column letters of their value, so distinct letters address distinct columns |
| CellReference.ColumnNumberPositive | csv-manager.js:188-194 | non-empty column letters have a value of at least 1, so the column index is at least 0 |
| CellReference.RowNumberPositive | csv-manager.js:186 | an accepted row text has a row number of at least 1 |
| CellReference.RowNumberOfDecimal | csv-manager.js:186 | the decimal text of n is a valid row text whose number is n |
| CellReference.AddressExamples | csv-manager.js:185-196 | A, Z, AA and B are columns 0, 25, 26 and 1; rows 1 and 3 are numbered 1 and 3 |
| CellReference.SplitExamples | csv-manager.js:198-210 | `b3` splits to `B`, `3`; `1A` and `A0` are rejected |
| GridEdits.BlankedRows | csv-manager.js:269-277 | deleteRow's grid: row n empty, other rows in place, new positions empty |
| GridEdits.ShiftedRows | csv-manager.js:279-292 | deleteRowAndShift's grid on an existing row: same length, earlier rows kept, later rows moved up, last empty |
| GridEdits.ShiftedPastEnd | csv-manager.js:279-292 | past the end, deleteRowAndShift produces the same grid as deleteRow |
| GridEdits.ShiftedReread | csv-manager.js:279-292 | after the shift, the file reads back as the grid without the row |
| GridEdits.PropertyIndex | csv-manager.js:275-290 | an index of 2^32 - 1 or more adds a property: deleteRow leaves the grid as it was, deleteRowAndShift only empties the last row |
| Text.TrimAppendWhitespace | csv-manager.js:168 | trailing whitespace does not survive `trim` |
| Text.TrimPrependWhitespace | csv-manager.js:168 | leading whitespace does not survive `trim` |

## Left out

- The file system is a `contents` field. `fs` calls, their errors and the
  real directory (`__dirname`, here the constant `.`) are not modelled, and
  neither is `path.join` normalisation.
- The constructor of `CSVManager` and both `SetFilename` setters receive
  the content of the file at the path they bind, if any, as a parameter. `Rename` receives whether the operating system's
  rename succeeded. The error codes it prints to the console are not
  modelled.
- CsvManager.CSVManager.SetFilename: a missing file at the new path is
  modelled as an empty one. In the source, `parseFile` then throws until a
  write creates the file, and the setter creates nothing.
- FileBinding.NamingBinds: `path.join` normalisation is not modelled. In
  the source a name with `.` or `..` segments breaks invariant 2: `../x`
  gives the name `../x.csv` and the path `<parent directory>/x.csv`, which
  does not end with the name (csv-manager.js:109, csv-josh.js:33). In the
  model the path is the plain concatenation, so the invariant always
  holds.
- `csv-josh.js` writes with asynchronous callbacks. The model applies each
  write at once and in call order, so an error thrown from a callback is
  not modelled.
- `copy` (csv-manager.js:307-313) copies one file over another through the
  file system. It is not part of this model, and neither is `main.js`.
- CsvManager.CSVManager.GetRow: the row number is an integer. The `Number`
  coercion of strings and fractions is not modelled. Neither is NaN: the
  `index === NaN` guard is never true, so in the source a non-numeric row
  number reads the empty row.
- CsvManager.CSVManager.DeleteRow: same restriction to integer row
  numbers. In the source a NaN index stores a property rather than a row,
  and the file is rewritten unchanged, as the model does for an index of
  2^32 - 1 or more.
- CsvManager.CSVManager.DeleteRowAndShift: same restriction to integer row
  numbers. A grid longer than an array can hold is not ruled out by the
  model, but no parsed file yields one.
- CellReference.ReferenceToIndices: `Number` of the row text is exact.
  Doubles that round very long digit strings are not modelled, and a row
  text such as `3.5` or `3-` is treated as NaN (no row).
- CsvManager.CSVManager.WriteRows: each row passes through a fresh array.
  Aliasing between the caller's row arrays (the same array twice) is not
  modelled.
- A file written elsewhere with `\r\n` line ends goes through the same
  decoding functions. No property is stated about such files; in the source
  they parse as a single row.
- Several instances bound to the same path, and concurrent access, are
  not modelled.
