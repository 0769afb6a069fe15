/**
 * The table codec's format dispatch (load_table / write_table): the suffix of
 * a path loses one leading '.' and is matched, case-sensitively, against the
 * three supported formats.  Only the choice of pandas call is modelled, not
 * the encoding itself.
 */
module Formats {
  import opened Wrappers

  datatype Format = Csv | Tsv | Jsonl

  /** The ValueError raised for an unrecognised extension; it names the extension. */
  datatype FormatError = UnrecognizedFormat(extension: string)

  /** The pandas reader chosen by load_table. */
  datatype Reader = ReadCsv(delimiter: char) | ReadJsonLines

  /** The pandas writer chosen by write_table; csv and tsv keep pandas' index column. */
  datatype Writer = ToCsv(sep: char, writesIndex: bool) | ToJsonLines

  /** The extension that selects a format, without its dot. */
  function Extension(f: Format): string {
    match f
    case Csv => "csv"
    case Tsv => "tsv"
    case Jsonl => "jsonl"
  }

  /**
   * Python's str.removeprefix("."): the result is a suffix of the input that
   * is at most one character shorter, and it is shorter exactly when the
   * input starts with a dot.
   */
  function RemoveDot(suffix: string): (e: string)
    ensures |suffix| - 1 <= |e| <= |suffix| && e == suffix[|suffix| - |e|..]
    ensures |e| < |suffix| <==> (|suffix| > 0 && suffix[0] == '.')
  {
    if |suffix| > 0 && suffix[0] == '.' then suffix[1..] else suffix
  }

  /**
   * The three-way switch shared by load_table and write_table: a format is
   * chosen exactly when the dot-stripped suffix is one of the three
   * extensions, and it is the format with that extension.
   */
  function Dispatch(suffix: string): (r: Result<Format, FormatError>)
    ensures r.Success? <==> RemoveDot(suffix) in {"csv", "tsv", "jsonl"}
    ensures r.Success? ==> Extension(r.value) == RemoveDot(suffix)
    ensures r.Failure? ==> r.error == UnrecognizedFormat(RemoveDot(suffix))
  {
    var extension := RemoveDot(suffix);
    if extension == "csv" then Success(Csv)
    else if extension == "tsv" then Success(Tsv)
    else if extension == "jsonl" then Success(Jsonl)
    else Failure(UnrecognizedFormat(extension))
  }

  /** load_table: which reader a path suffix selects. */
  function LoadTable(suffix: string): (r: Result<Reader, FormatError>)
    ensures r.Success? <==> Dispatch(suffix).Success?
    ensures r.Failure? ==> r.error == UnrecognizedFormat(RemoveDot(suffix))
    ensures r.Success? ==> r.value == match Dispatch(suffix).value
      case Csv => ReadCsv(',')
      case Tsv => ReadCsv('\t')
      case Jsonl => ReadJsonLines
  {
    match Dispatch(suffix)
    case Failure(e) => Failure(e)
    case Success(Csv) => Success(ReadCsv(','))
    case Success(Tsv) => Success(ReadCsv('\t'))
    case Success(Jsonl) => Success(ReadJsonLines)
  }

  /** write_table: which writer a path suffix selects. */
  function WriteTable(suffix: string): (r: Result<Writer, FormatError>)
    ensures r.Success? <==> Dispatch(suffix).Success?
    ensures r.Failure? ==> r.error == UnrecognizedFormat(RemoveDot(suffix))
    ensures r.Success? ==> r.value == match Dispatch(suffix).value
      case Csv => ToCsv(',', true)
      case Tsv => ToCsv('\t', true)
      case Jsonl => ToJsonLines
  {
    match Dispatch(suffix)
    case Failure(e) => Failure(e)
    case Success(Csv) => Success(ToCsv(',', true))
    case Success(Tsv) => Success(ToCsv('\t', true))
    case Success(Jsonl) => Success(ToJsonLines)
  }

  /** Exactly csv, tsv and jsonl (after one dot is removed) are accepted. */
  lemma DispatchAcceptsExactly(suffix: string)
    ensures Dispatch(suffix).Success? <==> RemoveDot(suffix) in {"csv", "tsv", "jsonl"}
  {
  }

  /** Every format is selected by its extension, with or without the dot, and by nothing else. */
  lemma {:induction false} DispatchExtension(f: Format, suffix: string)
    ensures Dispatch(Extension(f)) == Success(f)
    ensures Dispatch("." + Extension(f)) == Success(f)
    ensures Dispatch(suffix) == Success(f) <==> RemoveDot(suffix) == Extension(f)
  {
    assert ("." + Extension(f))[1..] == Extension(f);
  }

  /** Load and write agree on which suffixes they accept and on the error they raise. */
  lemma LoadWriteAgree(suffix: string)
    ensures LoadTable(suffix).Success? <==> WriteTable(suffix).Success?
    ensures LoadTable(suffix).Failure? ==> LoadTable(suffix).error == WriteTable(suffix).error
  {
  }

  /**
   * Suffixes that paths such as `data.CSV`, `data` (no suffix), `data.csv.gz`
   * and `data.xlsx` have: the match is case-sensitive, only the last suffix
   * counts, and an empty suffix is rejected.
   */
  lemma RejectedSuffixes()
    ensures Dispatch(".CSV") == Failure(UnrecognizedFormat("CSV"))
    ensures Dispatch("") == Failure(UnrecognizedFormat(""))
    ensures Dispatch(".gz") == Failure(UnrecognizedFormat("gz"))
    ensures Dispatch(".xlsx") == Failure(UnrecognizedFormat("xlsx"))
  {
    assert ".CSV"[1..] == "CSV";
    assert ".gz"[1..] == "gz";
    assert ".xlsx"[1..] == "xlsx";
  }
}
