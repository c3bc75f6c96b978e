/** What the row format guarantees: splitting and joining blocks are inverse,
    the tokeniser fails exactly on blocks of commas, and text written by
    writeFile parses back to the rows written when the fields are plain. */
module CodecProperties {
  import opened Text
  import opened Failures
  import opened RowCodec

  // ------------------------------------------------------- blocks and split

  /** Splitting on two line feeds loses nothing: joining the blocks again with
      the delimiter gives back the text. */
  lemma {:induction false} JoinSplit(s: string)
    ensures Join(SplitBlocks(s), RowDelimiter) == s
    decreases |s|
  {
    if |s| < 2 {
    } else if s[0] == LineFeed && s[1] == LineFeed {
      var rest := SplitBlocks(s[2..]);
      JoinSplit(s[2..]);
      assert SplitBlocks(s) == [[]] + rest;
      JoinEmptyFirst(rest, RowDelimiter);
      assert s == RowDelimiter + s[2..];
    } else {
      var rest := SplitBlocks(s[1..]);
      JoinSplit(s[1..]);
      assert SplitBlocks(s) == [[s[0]] + rest[0]] + rest[1..];
      JoinExtendFirst(s[0], rest, RowDelimiter);
      assert s == [s[0]] + s[1..];
    }
  }

  lemma {:induction false} JoinEmptyFirst(parts: seq<string>, sep: string)
    requires |parts| >= 1
    ensures Join([[]] + parts, sep) == sep + Join(parts, sep)
  {
    assert ([[]] + parts)[1..] == parts;
  }

  lemma {:induction false} JoinExtendFirst(c: char, parts: seq<string>, sep: string)
    requires |parts| >= 1
    ensures Join([[c] + parts[0]] + parts[1..], sep) == [c] + Join(parts, sep)
  {
    var ext := [[c] + parts[0]] + parts[1..];
    if |parts| > 1 {
      assert ext[1..] == parts[1..];
    }
  }

  /** A piece without a line feed is one block. */
  lemma {:induction false} SplitSingle(b: string)
    requires LineFeed !in b
    ensures SplitBlocks(b) == [b]
    decreases |b|
  {
    if |b| >= 2 {
      SplitSingle(b[1..]);
      assert [b[0]] + b[1..] == b;
    }
  }

  /** A piece without a line feed followed by the delimiter is cut off as the
      first block. */
  lemma {:induction false} SplitPrefix(b: string, t: string)
    requires LineFeed !in b
    ensures SplitBlocks(b + RowDelimiter + t) == [b] + SplitBlocks(t)
    decreases |b|
  {
    var s := b + RowDelimiter + t;
    if b == [] {
      assert s == RowDelimiter + t;
      assert s[2..] == t;
    } else {
      assert s[1..] == b[1..] + RowDelimiter + t;
      SplitPrefix(b[1..], t);
      assert [b[0]] + b[1..] == b;
    }
  }

  /** Blocks free of line feeds come back one for one from the split. */
  lemma {:induction false} SplitJoin(bs: seq<string>)
    requires |bs| >= 1
    requires forall k :: 0 <= k < |bs| ==> LineFeed !in bs[k]
    ensures SplitBlocks(Join(bs, RowDelimiter)) == bs
    decreases |bs|
  {
    if |bs| == 1 {
      SplitSingle(bs[0]);
    } else {
      SplitPrefix(bs[0], Join(bs[1..], RowDelimiter));
      SplitJoin(bs[1..]);
      assert [bs[0]] + bs[1..] == bs;
    }
  }

  // ------------------------------------------------------------ tokeniser

  /** The tokeniser finds nothing in a block exactly when the block holds
      only commas and at most one double quote (for example `,`); on such a
      non-empty block the source's `match` returns null. */
  lemma {:induction false} TokensEmptyIff(s: string)
    ensures Tokens(s) == [] <==> Unmatchable(s)
    decreases |s|
  {
    if s != [] {
      if s[0] == Quote {
        var k := QuoteIndex(s[1..]);
        if k == |s| - 1 {
          TokensEmptyIff(s[1..]);
          assert s[1..][..k] == s[1..];
          UnmatchableAfterLoneQuote(s);
        } else {
          UnmatchableTwoQuotes(s, k + 1);
        }
      } else if s[0] == Comma {
        TokensEmptyIff(s[1..]);
        UnmatchableAfterComma(s);
      } else {
        assert !Unmatchable(s);
      }
    }
  }

  lemma {:induction false} UnmatchableHead(s: string)
    requires s != []
    ensures multiset(s)[Quote] == multiset(s[1..])[Quote] + (if s[0] == Quote then 1 else 0)
    ensures (forall i :: 0 <= i < |s| ==> s[i] == Comma || s[i] == Quote) <==>
      (s[0] == Comma || s[0] == Quote) && (forall i :: 0 <= i < |s[1..]| ==> s[1..][i] == Comma || s[1..][i] == Quote)
  {
    assert s == [s[0]] + s[1..];
    assert multiset(s) == multiset([s[0]]) + multiset(s[1..]);
    if forall i :: 0 <= i < |s[1..]| ==> s[1..][i] == Comma || s[1..][i] == Quote {
      forall i | 0 <= i < |s| && i > 0 ensures s[i] == Comma || s[i] == Quote {
        assert s[i] == s[1..][i - 1];
      }
    }
  }

  /** A leading comma does not change whether a block is unmatchable. */
  lemma {:induction false} UnmatchableAfterComma(s: string)
    requires s != [] && s[0] == Comma
    ensures Unmatchable(s) <==> Unmatchable(s[1..])
  {
    UnmatchableHead(s);
  }

  /** Nor does a double quote with no partner after it. */
  lemma {:induction false} UnmatchableAfterLoneQuote(s: string)
    requires s != [] && s[0] == Quote && Quote !in s[1..]
    ensures Unmatchable(s) <==> Unmatchable(s[1..])
  {
    UnmatchableHead(s);
    assert multiset(s[1..])[Quote] == 0;
  }

  /** Two double quotes always make a token. */
  lemma {:induction false} UnmatchableTwoQuotes(s: string, k: nat)
    requires 0 < k < |s| && s[0] == Quote && s[k] == Quote
    ensures !Unmatchable(s)
  {
    assert s == s[..k] + s[k..];
    assert multiset(s) == multiset(s[..k]) + multiset(s[k..]);
    assert s[..k] == [s[0]] + s[1..k];
    assert multiset(s[..k]) == multiset([s[0]]) + multiset(s[1..k]);
    assert s[k..] == [s[k]] + s[k + 1..];
    assert multiset(s[k..]) == multiset([s[k]]) + multiset(s[k + 1..]);
  }

  /** A string the tokeniser takes as one whole token: a double-quoted run
      with no double quote inside, or a non-empty run free of commas and
      double quotes. */
  predicate IsToken(q: string) {
    || (|q| >= 2 && q[0] == Quote && q[|q| - 1] == Quote && Quote !in q[1..|q| - 1])
    || (q != [] && Comma !in q && Quote !in q)
  }

  lemma {:induction false} QuoteIndexUnique(s: string, k: nat)
    requires k < |s| && s[k] == Quote && Quote !in s[..k]
    ensures QuoteIndex(s) == k
  {
  }

  lemma {:induction false} BareRunUnique(s: string, k: nat)
    requires k <= |s| && (k < |s| ==> s[k] == Comma)
    requires Comma !in s[..k] && Quote !in s[..k]
    ensures BareRunLength(s) == k
  {
  }

  /** A token followed by nothing or by a comma is the first token found. */
  lemma {:induction false} TokensHead(q: string, t: string)
    requires IsToken(q)
    requires t == [] || t[0] == Comma
    ensures Tokens(q + t) == [q] + Tokens(t)
  {
    var s := q + t;
    if |q| >= 2 && q[0] == Quote && q[|q| - 1] == Quote && Quote !in q[1..|q| - 1] {
      assert s[1..][..|q| - 2] == q[1..|q| - 1];
      QuoteIndexUnique(s[1..], |q| - 2);
      assert s[..|q|] == q && s[|q|..] == t;
    } else {
      assert s[..|q|] == q;
      BareRunUnique(s, |q|);
      assert s[|q|..] == t;
    }
  }

  /** Tokens joined by commas are found again, one for one. */
  lemma {:induction false} TokensOfJoin(qs: seq<string>)
    requires forall k :: 0 <= k < |qs| ==> IsToken(qs[k])
    ensures Tokens(Join(qs, FieldSeparator)) == qs
    decreases |qs|
  {
    if |qs| == 1 {
      TokensHead(qs[0], []);
      assert qs[0] + [] == qs[0];
    } else if |qs| > 1 {
      var rest := Join(qs[1..], FieldSeparator);
      assert Join(qs, FieldSeparator) == qs[0] + (FieldSeparator + rest);
      TokensHead(qs[0], FieldSeparator + rest);
      assert (FieldSeparator + rest)[1..] == rest;
      TokensOfJoin(qs[1..]);
      assert [qs[0]] + qs[1..] == qs;
    }
  }

  // ------------------------------------------------------------ round trip

  /** A field that survives writing and reading unchanged: not empty, no
      double quote, no line feed, no whitespace at either end. It may hold
      commas. */
  predicate PlainField(f: string) {
    f != [] && Quote !in f && LineFeed !in f && !IsWhitespace(f[0]) && !IsWhitespace(f[|f| - 1])
  }

  predicate PlainRow(r: Row) {
    forall j :: 0 <= j < |r| ==> PlainField(r[j])
  }

  /** A written field is read back by the cleaning step as itself: quoting
      adds exactly the double quotes the decoder strips. */
  lemma {:induction false} QuoteThenClean(f: string)
    requires PlainField(f)
    ensures IsToken(QuoteField(f))
    ensures CleanToken(QuoteField(f)) == f
  {
    if Comma in f {
      var q := [Quote] + f + [Quote];
      assert q[1..|q| - 1] == f;
      CleanQuoted(f);
    } else {
      TrimPadded(f, []);
      assert f + [] == f;
      RemoveQuotesNoQuote(f);
    }
  }

  lemma {:induction false} JoinFirst(parts: seq<string>, sep: string)
    requires |parts| >= 1 && parts[0] != []
    ensures Join(parts, sep) != [] && Join(parts, sep)[0] == parts[0][0]
  {
  }

  lemma {:induction false} JoinLast(parts: seq<string>, sep: string)
    requires |parts| >= 1 && parts[|parts| - 1] != []
    ensures var j := Join(parts, sep); j != [] && j[|j| - 1] == parts[|parts| - 1][|parts[|parts| - 1]| - 1]
    decreases |parts|
  {
    if |parts| > 1 {
      JoinLast(parts[1..], sep);
    }
  }

  lemma {:induction false} JoinFree(parts: seq<string>, sep: string, c: char)
    requires c !in sep
    requires forall k :: 0 <= k < |parts| ==> c !in parts[k]
    ensures c !in Join(parts, sep)
    decreases |parts|
  {
    if |parts| > 1 {
      JoinFree(parts[1..], sep, c);
    }
  }

  lemma {:induction false} JoinSnoc(parts: seq<string>, x: string, sep: string)
    requires |parts| >= 1
    ensures Join(parts + [x], sep) == Join(parts, sep) + sep + x
    decreases |parts|
  {
    if |parts| > 1 {
      assert (parts + [x])[1..] == parts[1..] + [x];
      JoinSnoc(parts[1..], x, sep);
    }
  }

  /** The encoded text of each row, without delimiters. */
  function EncodedBlocks(rows: Grid): seq<string> {
    seq(|rows|, k requires 0 <= k < |rows| => EncodeFields(rows[k]))
  }

  /** writeRows' output is the row texts joined by the delimiter, plus one
      trailing delimiter. */
  lemma {:induction false} EncodeRowsAsJoin(rows: Grid)
    requires |rows| >= 1
    ensures EncodeRows(rows) == Join(EncodedBlocks(rows), RowDelimiter) + RowDelimiter
    decreases |rows|
  {
    var init := rows[..|rows| - 1];
    if |rows| > 1 {
      EncodeRowsAsJoin(init);
      assert EncodedBlocks(rows) == EncodedBlocks(init) + [EncodeFields(rows[|rows| - 1])];
      JoinSnoc(EncodedBlocks(init), EncodeFields(rows[|rows| - 1]), RowDelimiter);
    } else {
      assert init == [];
    }
  }

  /** The text of a row of plain fields tokenises and cleans back to the row;
      an empty row is an empty block and decodes to zero fields. */
  lemma {:induction false} DecodeEncodedFields(r: Row)
    requires PlainRow(r)
    ensures DecodeBlock(EncodeFields(r)) == Ok(r)
  {
    var qs := QuoteAll(r);
    forall j | 0 <= j < |r| ensures IsToken(qs[j]) && CleanToken(qs[j]) == r[j] {
      QuoteThenClean(r[j]);
    }
    TokensOfJoin(qs);
    if r != [] {
      JoinFirst(qs, FieldSeparator);
      DecodeBlockOf(EncodeFields(r), qs);
      assert CleanAll(qs) == r;
    }
  }

  /** Text written by writeFile(rows) parses back to exactly `rows` when every
      field is plain and the first and last rows are not empty (an empty row
      at either end would be trimmed away with the surrounding line feeds).
      A field such as `a,b` comes back as the single field `a,b`. */
  lemma {:induction false} RoundTrip(rows: Grid)
    requires |rows| >= 1 && rows[0] != [] && rows[|rows| - 1] != []
    requires forall k :: 0 <= k < |rows| ==> PlainRow(rows[k])
    ensures Decode(EncodeRows(rows)) == Ok(rows)
  {
    var bs := EncodedBlocks(rows);
    TrimmedEncoding(rows);
    BlocksFreeOfLineFeed(rows);
    SplitJoin(bs);
    forall k | 0 <= k < |rows| ensures DecodeBlock(bs[k]) == Ok(rows[k]) {
      DecodeEncodedFields(rows[k]);
    }
    DecodeEachBlock(bs, rows);
  }

  lemma {:induction false} DelimiterIsWhitespace()
    ensures AllWhitespace(RowDelimiter)
  {
  }

  /** Trimming writeRows' output removes exactly the final delimiter. */
  lemma {:induction false} TrimmedEncoding(rows: Grid)
    requires |rows| >= 1 && rows[0] != [] && rows[|rows| - 1] != []
    requires forall k :: 0 <= k < |rows| ==> PlainRow(rows[k])
    ensures Trim(EncodeRows(rows)) == Join(EncodedBlocks(rows), RowDelimiter)
  {
    var text := Join(EncodedBlocks(rows), RowDelimiter);
    EncodeRowsAsJoin(rows);
    assert EncodeRows(rows) == text + RowDelimiter;
    JoinedEnds(rows);
    DelimiterIsWhitespace();
    TrimPadded(text, RowDelimiter);
  }

  lemma {:induction false} DecodeEachBlock(bs: seq<string>, rows: Grid)
    requires |bs| == |rows|
    requires forall k :: 0 <= k < |bs| ==> DecodeBlock(bs[k]) == Ok(rows[k])
    ensures DecodeBlocks(bs) == Ok(rows)
  {
    assert !exists k :: 0 <= k < |bs| && DecodeBlock(bs[k]).Err?;
    var g := seq(|bs|, k requires 0 <= k < |bs| => DecodeBlock(bs[k]).value);
    assert g == rows;
  }

  lemma {:induction false} JoinedEnds(rows: Grid)
    requires |rows| >= 1 && rows[0] != [] && rows[|rows| - 1] != []
    requires forall k :: 0 <= k < |rows| ==> PlainRow(rows[k])
    ensures var text := Join(EncodedBlocks(rows), RowDelimiter);
      text != [] && !IsWhitespace(text[0]) && !IsWhitespace(text[|text| - 1])
  {
    var bs := EncodedBlocks(rows);
    RowEnds(rows[0]);
    RowEnds(rows[|rows| - 1]);
    assert bs[0] == EncodeFields(rows[0]);
    assert bs[|bs| - 1] == EncodeFields(rows[|rows| - 1]);
    JoinFirst(bs, RowDelimiter);
    JoinLast(bs, RowDelimiter);
  }

  /** The text of a non-empty row of plain fields neither starts nor ends
      with whitespace. */
  lemma {:induction false} RowEnds(r: Row)
    requires r != [] && PlainRow(r)
    ensures var e := EncodeFields(r); e != [] && !IsWhitespace(e[0]) && !IsWhitespace(e[|e| - 1])
  {
    RowStart(r);
    RowEnd(r);
  }

  lemma {:induction false} RowStart(r: Row)
    requires r != [] && PlainField(r[0])
    ensures var e := EncodeFields(r); e != [] && !IsWhitespace(e[0])
  {
    var qs := QuoteAll(r);
    assert qs[0] == QuoteField(r[0]);
    FieldEnds(r[0]);
    JoinFirst(qs, FieldSeparator);
  }

  lemma {:induction false} RowEnd(r: Row)
    requires r != [] && PlainField(r[|r| - 1])
    ensures var e := EncodeFields(r); e != [] && !IsWhitespace(e[|e| - 1])
  {
    var qs := QuoteAll(r);
    assert qs[|qs| - 1] == QuoteField(r[|r| - 1]);
    FieldEnds(r[|r| - 1]);
    JoinLast(qs, FieldSeparator);
  }

  lemma {:induction false} BlocksFreeOfLineFeed(rows: Grid)
    requires forall k :: 0 <= k < |rows| ==> PlainRow(rows[k])
    ensures forall k :: 0 <= k < |rows| ==> LineFeed !in EncodedBlocks(rows)[k]
  {
    forall k | 0 <= k < |rows| ensures LineFeed !in EncodedBlocks(rows)[k] {
      forall j | 0 <= j < |rows[k]| ensures LineFeed !in QuoteAll(rows[k])[j] {
        FieldEnds(rows[k][j]);
      }
      JoinFree(QuoteAll(rows[k]), FieldSeparator, LineFeed);
    }
  }

  /** A quoted plain field is not empty, keeps its line-feed freedom, and
      neither starts nor ends with whitespace. */
  lemma {:induction false} FieldEnds(f: string)
    requires PlainField(f)
    ensures var q := QuoteField(f);
      q != [] && LineFeed !in q && !IsWhitespace(q[0]) && !IsWhitespace(q[|q| - 1])
  {
  }

  // --------------------------------------------------------- parse results

  /** parseFile fails exactly when some non-empty block holds no token, that
      is, consists of commas and at most one double quote. */
  lemma {:induction false} DecodeFailsIff(text: string)
    ensures Decode(text).Err? <==>
      exists k :: 0 <= k < |Blocks(text)| && Blocks(text)[k] != [] && Unmatchable(Blocks(text)[k])
  {
    var bs := Blocks(text);
    forall k | 0 <= k < |bs|
      ensures DecodeBlock(bs[k]).Err? <==> bs[k] != [] && Unmatchable(bs[k])
    {
      TokensEmptyIff(bs[k]);
    }
  }

  /** A successful parse has one row per block; a row has zero fields exactly
      when its block is empty; no field holds a double quote. */
  lemma {:induction false} DecodeShape(text: string)
    requires Decode(text).Ok?
    ensures var rows := Decode(text).value;
      && |rows| == |Blocks(text)|
      && (forall k :: 0 <= k < |rows| ==> (rows[k] == [] <==> Blocks(text)[k] == []))
      && (forall k, j :: 0 <= k < |rows| && 0 <= j < |rows[k]| ==> Quote !in rows[k][j])
  {
    var bs := Blocks(text);
    var rows := Decode(text).value;
    forall k | 0 <= k < |rows| ensures rows[k] == DecodeBlock(bs[k]).value {
    }
  }

  /** An empty file, or one holding only whitespace, parses to one row of
      zero fields. */
  lemma {:induction false} BlankTextDecodes(text: string)
    requires AllWhitespace(text)
    ensures Decode(text) == Ok([[]])
  {
    TrimAllWhitespace(text);
    assert Blocks(text) == [[]];
    DecodeEachBlock([[]], [[]]);
  }

  /** An empty row written last disappears on the next parse: its line feeds
      are trimmed with the rest of the trailing whitespace. */
  lemma {:induction false} TrailingBlankRowDropped(rows: Grid)
    ensures Decode(EncodeRows(rows + [[]])) == Decode(EncodeRows(rows))
  {
    var g := rows + [[]];
    assert g[..|g| - 1] == rows;
    assert EncodeFields([]) == [];
    assert EncodeRows(g) == EncodeRows(rows) + RowDelimiter;
    DelimiterIsWhitespace();
    TrimAppendWhitespace(EncodeRows(rows), RowDelimiter);
  }
  /** A blank first row is lost the same way: its delimiter is leading
      whitespace, which the decoder trims away, so every row read back moves
      up one place. */
  lemma {:induction false} LeadingBlankRowDropped(rows: Grid)
    ensures Decode(EncodeRows([[]] + rows)) == Decode(EncodeRows(rows))
  {
    EncodeRowsAppend([[]], rows);
    var blank: Grid := [[]];
    assert blank[..0] == [];
    assert EncodeFields([]) == [];
    assert EncodeRows(blank) == RowDelimiter;
    DelimiterIsWhitespace();
    TrimPrependWhitespace(RowDelimiter, EncodeRows(rows));
  }

  /** writeRows of two grids in turn writes what writeRows of the whole does. */
  lemma {:induction false} EncodeRowsAppend(a: Grid, b: Grid)
    ensures EncodeRows(a + b) == EncodeRows(a) + EncodeRows(b)
    decreases |b|
  {
    if b == [] {
      assert a + b == a;
    } else {
      var init, last := b[..|b| - 1], b[|b| - 1];
      assert b == init + [last];
      assert a + b == (a + init) + [last];
      EncodeRowsAppend(a, init);
      EncodeRowsSnoc(a + init, last);
      EncodeRowsSnoc(init, last);
    }
  }

  lemma {:induction false} EncodeRowsSnoc(g: Grid, r: Row)
    ensures EncodeRows(g + [r]) == EncodeRows(g) + EncodeRow(r)
  {
    assert (g + [r])[..|g|] == g;
  }

  /** Trimming happens before the quotes are stripped, so a quoted token
      comes back verbatim, whitespace at its ends included: the row
      `" a "` reads back as the field ` a `. */
  lemma {:induction false} QuotedTokenVerbatim(x: string)
    requires Quote !in x && LineFeed !in x
    ensures Decode([Quote] + x + [Quote]) == Ok([[x]])
  {
    var q := [Quote] + x + [Quote];
    QuotedBlockAlone(x);
    QuotedBlockDecodes(x);
    DecodeSingleBlock(q, [x]);
    DecodeVia(q, [q], [[x]]);
  }

  lemma {:induction false} QuotedBlockAlone(x: string)
    requires LineFeed !in x
    ensures Blocks([Quote] + x + [Quote]) == [[Quote] + x + [Quote]]
  {
    var q := [Quote] + x + [Quote];
    TrimPadded(q, []);
    assert q + [] == q;
    assert LineFeed !in q;
    SplitSingle(q);
  }

  lemma {:induction false} QuotedBlockDecodes(x: string)
    requires Quote !in x
    ensures DecodeBlock([Quote] + x + [Quote]) == Ok([x])
  {
    var q := [Quote] + x + [Quote];
    assert q[1..|q| - 1] == x;
    TokensHead(q, []);
    assert q + [] == q;
    assert Tokens([]) == [];
    DecodeBlockOf(q, [q]);
    CleanQuoted(x);
    assert CleanAll([q]) == [x];
  }

  /** Cleaning a quoted token strips exactly its two quotes; trimming first
      takes nothing, since the quotes are not whitespace. */
  lemma {:induction false} CleanQuoted(x: string)
    requires Quote !in x
    ensures CleanToken([Quote] + x + [Quote]) == x
  {
    var q := [Quote] + x + [Quote];
    TrimPadded(q, []);
    assert q + [] == q;
    RemoveQuotesConcat([Quote] + x, [Quote]);
    RemoveQuotesConcat([Quote], x);
    RemoveQuotesNoQuote(x);
    assert RemoveQuotes([Quote]) == [];
  }

  /** An empty field between two others is lost when the row is read back:
      `a,,b` tokenises to two fields. */
  lemma {:induction false} EmptyFieldDropped(a: string, b: string)
    requires PlainField(a) && PlainField(b)
    ensures Decode(EncodeRows([[a, "", b]])) == Ok([[a, b]])
  {
    var qa, qb := QuoteField(a), QuoteField(b);
    QuoteThenClean(a);
    QuoteThenClean(b);
    FieldEnds(a);
    FieldEnds(b);
    EncodeMiddleEmpty(a, b);
    TwoTokenLine(qa, qb);
  }

  lemma {:induction false} TwoTokenLine(qa: string, qb: string)
    requires IsToken(qa) && IsToken(qb) && LineFeed !in qa && LineFeed !in qb
    requires !IsWhitespace(qa[0]) && !IsWhitespace(qb[|qb| - 1])
    ensures Decode(qa + [Comma, Comma] + qb + RowDelimiter) == Ok([[CleanToken(qa), CleanToken(qb)]])
  {
    var line := qa + [Comma, Comma] + qb;
    var row := [CleanToken(qa), CleanToken(qb)];
    TwoTokenLineAlone(qa, qb);
    TwoTokenBlock(qa, qb);
    DecodeSingleBlock(line, row);
    DecodeVia(line + RowDelimiter, [line], [row]);
  }

  lemma {:induction false} TwoTokenBlock(qa: string, qb: string)
    requires IsToken(qa) && IsToken(qb)
    ensures DecodeBlock(qa + [Comma, Comma] + qb) == Ok([CleanToken(qa), CleanToken(qb)])
  {
    var line := qa + [Comma, Comma] + qb;
    TwoTokens(qa, qb);
    DecodeBlockOf(line, [qa, qb]);
    assert CleanAll([qa, qb]) == [CleanToken(qa), CleanToken(qb)];
  }

  /** A non-empty block whose tokens are known decodes to them, cleaned. */
  lemma {:induction false} DecodeBlockOf(b: string, ts: seq<string>)
    requires b != [] && Tokens(b) == ts && ts != []
    ensures DecodeBlock(b) == Ok(CleanAll(ts))
  {
  }

  lemma {:induction false} TwoTokenLineAlone(qa: string, qb: string)
    requires qa != [] && qb != [] && LineFeed !in qa && LineFeed !in qb
    requires !IsWhitespace(qa[0]) && !IsWhitespace(qb[|qb| - 1])
    ensures Blocks(qa + [Comma, Comma] + qb + RowDelimiter) == [qa + [Comma, Comma] + qb]
  {
    var line := qa + [Comma, Comma] + qb;
    assert line[0] == qa[0] && line[|line| - 1] == qb[|qb| - 1];
    assert LineFeed !in line;
    SingleLine(line);
  }

  lemma {:induction false} DecodeVia(text: string, bs: seq<string>, g: Grid)
    requires Blocks(text) == bs && DecodeBlocks(bs) == Ok(g)
    ensures Decode(text) == Ok(g)
  {
  }

  /** A line with no line feed and no whitespace at its ends, followed by the
      delimiter, is read as one block. */
  lemma {:induction false} SingleLine(line: string)
    requires line != [] && LineFeed !in line
    requires !IsWhitespace(line[0]) && !IsWhitespace(line[|line| - 1])
    ensures Trim(line + RowDelimiter) == line && SplitBlocks(line) == [line]
  {
    DelimiterIsWhitespace();
    TrimPadded(line, RowDelimiter);
    SplitSingle(line);
  }

  lemma {:induction false} DecodeSingleBlock(line: string, row: Row)
    requires DecodeBlock(line) == Ok(row)
    ensures DecodeBlocks([line]) == Ok([row])
  {
    DecodeEachBlock([line], [row]);
  }

  lemma {:induction false} TokensSkipComma(t: string)
    ensures Tokens([Comma] + t) == Tokens(t)
  {
    assert ([Comma] + t)[1..] == t;
  }

  lemma {:induction false} TwoTokens(qa: string, qb: string)
    requires IsToken(qa) && IsToken(qb)
    ensures Tokens(qa + [Comma, Comma] + qb) == [qa, qb]
  {
    TokensHead(qb, []);
    assert qb + [] == qb;
    TokensSkipComma(qb);
    TokensSkipComma([Comma] + qb);
    assert [Comma] + ([Comma] + qb) == [Comma, Comma] + qb;
    TokensHead(qa, [Comma, Comma] + qb);
    assert qa + ([Comma, Comma] + qb) == qa + [Comma, Comma] + qb;
  }

  lemma {:induction false} EncodeMiddleEmpty(a: string, b: string)
    ensures EncodeRows([[a, "", b]]) == QuoteField(a) + [Comma, Comma] + QuoteField(b) + RowDelimiter
  {
    var qa, qb := QuoteField(a), QuoteField(b);
    assert QuoteAll([a, "", b]) == [qa, "", qb];
    assert [[a, "", b]][..0] == [];
    assert [qa, "", qb][1..] == ["", qb] && ["", qb][1..] == [qb];
    assert Join([qb], FieldSeparator) == qb;
    assert Join(["", qb], FieldSeparator) == "" + FieldSeparator + qb;
    assert Join([qa, "", qb], FieldSeparator) == qa + FieldSeparator + ("" + FieldSeparator + qb);
    assert EncodeRows([[a, "", b]]) == EncodeRows([]) + EncodeRow([a, "", b]);
  }
}
