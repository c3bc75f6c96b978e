/** The flat-file format: one row is its fields joined by commas, a field that
    holds a comma wrapped in double quotes (nothing is escaped), and every row
    followed by two line feeds. Decoding trims the whole text, splits it into
    blocks at each pair of line feeds and tokenises every non-empty block. */
module RowCodec {
  import opened Text
  import opened Failures

  type Row = seq<string>
  type Grid = seq<Row>

  const FieldSeparator: string := [Comma]
  const RowDelimiter: string := [LineFeed, LineFeed]

  // ---------------------------------------------------------------- encoding

  /** writeRow's per-field step: a field holding a comma is wrapped in double
      quotes; a double quote inside the field is left as it is. */
  function QuoteField(f: string): string {
    if Comma in f then [Quote] + f + [Quote] else f
  }

  function QuoteAll(fields: Row): Row {
    seq(|fields|, i requires 0 <= i < |fields| => QuoteField(fields[i]))
  }

  /** `Array.prototype.join(sep)` over strings. */
  function Join(parts: seq<string>, sep: string): string {
    if |parts| == 0 then []
    else if |parts| == 1 then parts[0]
    else parts[0] + sep + Join(parts[1..], sep)
  }

  /** The text of one row without its delimiter. */
  function EncodeFields(fields: Row): string {
    Join(QuoteAll(fields), FieldSeparator)
  }

  /** What writeRow appends for one row; an absent row is encoded as `[]`. */
  function EncodeRow(fields: Row): string {
    EncodeFields(fields) + RowDelimiter
  }

  /** What writeRows appends for a list of rows, row by row in order. */
  function EncodeRows(rows: Grid): string {
    if rows == [] then []
    else EncodeRows(rows[..|rows| - 1]) + EncodeRow(rows[|rows| - 1])
  }

  // ---------------------------------------------------------------- decoding

  /** `split('\n\n')`: the pieces between successive non-overlapping
      occurrences of two line feeds, scanned from the left. */
  function SplitBlocks(s: string): (r: seq<string>)
    ensures |r| >= 1
    decreases |s|
  {
    if |s| < 2 then [s]
    else if s[0] == LineFeed && s[1] == LineFeed then [[]] + SplitBlocks(s[2..])
    else
      var rest := SplitBlocks(s[1..]);
      [[s[0]] + rest[0]] + rest[1..]
  }

  /** Position of the first double quote in `s`, or `|s|` when there is none. */
  function QuoteIndex(s: string): (k: nat)
    ensures k <= |s| && Quote !in s[..k]
    ensures k < |s| ==> s[k] == Quote
  {
    if s == [] || s[0] == Quote then 0
    else
      var k := 1 + QuoteIndex(s[1..]);
      assert s[..k] == [s[0]] + s[1..][..k - 1];
      k
  }

  /** Length of the longest prefix of `s` holding neither a comma nor a
      double quote. */
  function BareRunLength(s: string): (k: nat)
    ensures k <= |s|
    ensures forall i :: 0 <= i < k ==> s[i] != Comma && s[i] != Quote
    ensures k < |s| ==> s[k] == Comma || s[k] == Quote
  {
    if s == [] || s[0] == Comma || s[0] == Quote then 0
    else 1 + BareRunLength(s[1..])
  }

  /** The strings `match(/("[^"]*"|[^,"]+)/g)` returns for `s`, in order: a
      double-quoted run up to the next double quote, or a maximal run free of
      commas and double quotes; a comma, or a double quote with no closing
      partner, is skipped. The empty sequence stands for `null`. */
  function Tokens(s: string): seq<string>
    decreases |s|
  {
    if s == [] then []
    else if s[0] == Quote then
      var k := QuoteIndex(s[1..]);
      if k == |s| - 1 then Tokens(s[1..])
      else [s[..k + 2]] + Tokens(s[k + 2..])
    else if s[0] == Comma then Tokens(s[1..])
    else
      var k := BareRunLength(s);
      [s[..k]] + Tokens(s[k..])
  }

  /** `value.trim().replace(/"/g, '')`: the whitespace is trimmed before the
      quotes are removed. */
  function CleanToken(t: string): string {
    RemoveQuotes(Trim(t))
  }

  function CleanAll(tokens: seq<string>): Row {
    seq(|tokens|, i requires 0 <= i < |tokens| => CleanToken(tokens[i]))
  }

  /** A block with no token at all: only commas and at most one double quote. */
  predicate Unmatchable(b: string) {
    (forall i :: 0 <= i < |b| ==> b[i] == Comma || b[i] == Quote) && multiset(b)[Quote] <= 1
  }

  /** One row block: an empty block is a row of zero fields; a non-empty block
      without any token makes the source fail. */
  function DecodeBlock(b: string): Result<Row> {
    if b == [] then Ok([])
    else
      var ts := Tokens(b);
      if ts == [] then Err(MalformedRow) else Ok(CleanAll(ts))
  }

  function DecodeBlocks(blocks: seq<string>): Result<Grid> {
    if exists k :: 0 <= k < |blocks| && DecodeBlock(blocks[k]).Err? then Err(MalformedRow)
    else Ok(seq(|blocks|, k requires 0 <= k < |blocks| => DecodeBlock(blocks[k]).value))
  }

  /** The blocks parseFile decodes, one per row. */
  function Blocks(text: string): seq<string> {
    SplitBlocks(Trim(text))
  }

  /** parseFile over the text of the file. */
  function Decode(text: string): Result<Grid> {
    DecodeBlocks(Blocks(text))
  }
}
