/** The write-only predecessor of the manager: a Csv object owns one file,
    empties it when it is created and appends one row per `write`. It writes
    the same format as the manager. */
module CsvWriter {
  import opened Text
  import opened RowCodec
  import opened FileBinding
  import opened Failures

  class Csv {
    /** The bytes of the bound file. */
    var contents: string
    var filename: string
    var filepath: string

    predicate Valid()
      reads this
    {
      Bound(filename, filepath)
    }

    /** Binds to `name.csv` and empties the file, whether or not it existed. */
    constructor(name: string)
      ensures Valid()
      ensures filename == FileNameFor(name) && filepath == PathOf(filename)
      ensures contents == []
    {
      filename := FileNameFor(name);
      filepath := PathOf(FileNameFor(name));
      contents := [];
      NamingBinds(name);
    }

    /** `write`: quotes the fields holding a comma in the caller's array
        itself, then appends the joined row and the delimiter. */
    method Write(data: array<string>)
      modifies this, data
      ensures data[..] == QuoteAll(old(data[..]))
      ensures contents == old(contents) + EncodeRow(old(data[..]))
      ensures filename == old(filename) && filepath == old(filepath)
    {
      var csv: string := [];
      var i := 0;
      while i < data.Length
        invariant 0 <= i <= data.Length
        invariant forall j :: 0 <= j < i ==> data[j] == QuoteField(old(data[j]))
        invariant forall j :: i <= j < data.Length ==> data[j] == old(data[j])
        invariant contents == old(contents) && filename == old(filename) && filepath == old(filepath)
      {
        if Comma in data[i] {
          data[i] := [Quote] + data[i] + [Quote];
        }
        i := i + 1;
      }
      assert data[..] == QuoteAll(old(data[..]));
      csv := csv + Join(data[..], FieldSeparator) + RowDelimiter;
      contents := contents + csv;
    }

    /** `clear`: truncates the file. */
    method Clear()
      modifies this
      ensures contents == []
      ensures filename == old(filename) && filepath == old(filepath)
    {
      contents := [];
    }

    /** `get filename`. */
    function Filename(): (f: string)
      reads this
      requires Valid()
      ensures EndsWith(f, Extension)
    {
      filename
    }

    /** `set filename`: rebinds the name and path without touching any file,
        so every later read and append acts on the file at the new path;
        `existing` is that file's content, if there is one, and a missing
        file reads as empty. */
    method SetFilename(name: string, existing: Option<string>)
      modifies this
      ensures Valid()
      ensures filename == FileNameFor(name) && filepath == PathOf(filename)
      ensures contents == existing.GetOr([])
    {
      filename := FileNameFor(name);
      filepath := PathOf(filename);
      NamingBinds(name);
      contents := existing.GetOr([]);
    }

    /** `get filepath`. */
    function Filepath(): (p: string)
      reads this
      requires Valid()
      ensures p == PathOf(Filename()) && EndsWith(p, Filename())
    {
      filepath
    }
  }
}
