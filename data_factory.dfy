/** Upload format dispatch of `DataFactory.from_bytes`: the file name's
    extension selects one of four tabular readers, or none. */
module DataFactory {
  import opened Wrappers
  import opened PosixPath

  /** The pandas reader `from_bytes` hands the bytes to. */
  datatype Format = Csv | Excel | Json | Parquet

  /** The extensions each reader is chosen for (matched case-sensitively). */
  function Extensions(f: Format): set<string>
  {
    match f
    case Csv => {".csv"}
    case Excel => {".xls", ".xlsx"}
    case Json => {".json"}
    case Parquet => {".parquet"}
  }

  /** The if/elif chain on the extension; `None` is the "unsupported" branch. */
  function FormatOf(extension: string): (r: Option<Format>)
    ensures forall f :: r == Some(f) <==> extension in Extensions(f)
  {
    if extension == ".csv" then Some(Csv)
    else if extension in [".xls", ".xlsx"] then Some(Excel)
    else if extension == ".json" then Some(Json)
    else if extension == ".parquet" then Some(Parquet)
    else None
  }

  /** The reader `from_bytes` selects for `filename`; parsing itself is not modelled. */
  function ReaderFor(filename: string): Option<Format>
  {
    FormatOf(SplitExt(filename).1)
  }

  /** Every supported extension has the shape of an extension. */
  lemma SupportedAreExtensions(f: Format, e: string)
    requires e in Extensions(f)
    ensures ExtensionShaped(e)
  {
    match f
    case Csv =>
    case Excel =>
      if e == ".xlsx" {
        assert e[1] == 'x' && e[2] == 'l' && e[3] == 's' && e[4] == 'x';
      }
    case Json =>
      assert e[1] == 'j' && e[2] == 's' && e[3] == 'o' && e[4] == 'n';
    case Parquet =>
      assert e[1] == 'p' && e[2] == 'a' && e[3] == 'r' && e[4] == 'q';
      assert e[5] == 'u' && e[6] == 'e' && e[7] == 't';
  }

  /** Reader `f` is chosen exactly when the file name has one of `f`'s extensions
      in the sense of `os.path.splitext`. */
  lemma ReaderForIff(filename: string, f: Format)
    ensures ReaderFor(filename) == Some(f) <==> exists e :: e in Extensions(f) && HasExtension(filename, e)
  {
    var ext := SplitExt(filename).1;
    if ReaderFor(filename) == Some(f) {
      assert ext in Extensions(f);
      assert ext != "";
      SplitExtIsExtension(filename, ext);
    }
    if exists e :: e in Extensions(f) && HasExtension(filename, e) {
      var e :| e in Extensions(f) && HasExtension(filename, e);
      SplitExtIsExtension(filename, e);
    }
  }

  /** "Unsupported" exactly when no supported extension ends the name. */
  lemma UnsupportedIff(filename: string)
    ensures ReaderFor(filename) == None <==>
      forall f, e :: e in Extensions(f) ==> !HasExtension(filename, e)
  {
    forall f: Format {
      ReaderForIff(filename, f);
    }
  }

  /** Only the last suffix counts, and a leading dot belongs to the name. */
  lemma ReaderForSuffixExamples()
    ensures ReaderFor("a.tar.csv") == Some(Csv)
    ensures ReaderFor(".csv") == None
  {
    SplitExtLastSuffix();
    SplitExtLeadingDots();
  }

  /** The comparison is case-sensitive: an upper-case extension is unsupported. */
  lemma ReaderForCaseSensitive()
    ensures ReaderFor("DATA.CSV") == None
  {
    var p := "DATA.CSV";
    assert p[4] == '.' && p[5] != '.' && p[6] != '.' && p[7] != '.';
    assert RFind(p, '.') == 4 && RFind(p, '/') == -1;
    assert p[0] != '.';
    assert p[4..] == ".CSV";
  }

  /** A name without a dot is unsupported. */
  lemma ReaderForNoExtension()
    ensures ReaderFor("data") == None
  {
    assert '.' !in "data";
  }
}
