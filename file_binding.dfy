/** The (filename, filepath) pair both classes keep: the name given plus the
    `.csv` extension, and that name joined to the fixed base directory. */
module FileBinding {

  const Extension: string := ".csv"

  /** The directory the source resolves every file against (`__dirname`);
      its actual value plays no part in what is proved. */
  const BaseDir: string := "."

  /** `path.join(__dirname, filename)`, without path normalisation. */
  function PathOf(filename: string): (p: string)
    ensures |p| >= |filename| && p[|p| - |filename|..] == filename
  {
    BaseDir + "/" + filename
  }

  /** The file name for a base name: the extension is always appended. */
  function FileNameFor(name: string): (f: string)
    ensures |f| == |name| + |Extension|
    ensures f[..|name|] == name && f[|name|..] == Extension
  {
    name + Extension
  }

  predicate EndsWith(s: string, suffix: string) {
    |s| >= |suffix| && s[|s| - |suffix|..] == suffix
  }

  /** The documented invariant: the name ends with `.csv` and the path is the
      base directory joined with the name, so it ends with the name. */
  predicate Bound(filename: string, filepath: string) {
    EndsWith(filename, Extension) && filepath == PathOf(filename) && EndsWith(filepath, filename)
  }

  /** Naming a file with any base name re-establishes the invariant. Nothing
      checks whether the base name already ends with `.csv`: `data.csv`
      becomes `data.csv.csv`. */
  lemma NamingBinds(name: string)
    ensures Bound(FileNameFor(name), PathOf(FileNameFor(name)))
    ensures FileNameFor("data.csv") == "data.csv.csv"
  {
  }
}
