/**
 * `buildFormat(format, delimiter, with_header, custom_header)`: the CSV
 * dialect the processor parses and prints with.  Only the two presets
 * `DEFAULT` and `EXCEL` are known; any other name leaves the format `null`,
 * and the header or delimiter step that follows then dereferences it.
 */
module Formats {
  import opened Wrappers

  /** The preset whose quoting, escaping and record-separator rules a format keeps. */
  datatype Preset = Default | Excel

  /**
   * A `CSVFormat` as far as this processor configures it.  `header` is
   * `None` when no header is configured, `Some([])` when the first record
   * is to be read as the header, and `Some(names)` for an explicit header.
   */
  datatype CsvFormat = CsvFormat(preset: Preset, delimiter: char, header: Option<seq<string>>, skipHeaderRecord: bool)
  {
    function WithHeader(names: seq<string>): CsvFormat
    {
      this.(header := Some(names))
    }

    function WithSkipHeaderRecord(): CsvFormat
    {
      this.(skipHeaderRecord := true)
    }

    function WithDelimiter(d: char): CsvFormat
    {
      this.(delimiter := d)
    }
  }

  /** Both presets separate values with a comma and configure no header. */
  const DEFAULT: CsvFormat := CsvFormat(Default, ',', None, false)
  const EXCEL: CsvFormat := CsvFormat(Excel, ',', None, false)

  /** What a built format does with the header of the input. */
  datatype HeaderMode =
    | NoHeader                                       // every record is data, no header map
    | FirstRecordIsHeader                            // the first record names the columns
    | Explicit(names: seq<string>, skipFirst: bool)  // the names are given; the first record may be skipped

  function ModeOf(f: CsvFormat): HeaderMode
  {
    match f.header
    case None => NoHeader
    case Some(names) => if names == [] then FirstRecordIsHeader else Explicit(names, f.skipHeaderRecord)
  }

  /** The exception `buildFormat` throws: a `withX` call on the `null` format. */
  datatype BuildError = NullFormatDereference

  /** The preset a format name selects, or `null`. */
  function PresetNamed(format: string): Option<CsvFormat>
  {
    if format == "DEFAULT" then Some(DEFAULT)
    else if format == "EXCEL" then Some(EXCEL)
    else None
  }

  /** `csvFormat.withX(...)`: throws when `csvFormat` is `null`. */
  function Apply(f: Option<CsvFormat>, step: CsvFormat -> CsvFormat): Result<Option<CsvFormat>, BuildError>
  {
    match f
    case None => Err(NullFormatDereference)
    case Some(v) => Ok(Some(step(v)))
  }

  /** The header step: custom header, header from the first record, or nothing. */
  function HeaderStep(f: Option<CsvFormat>, withHeader: bool, customHeader: Option<string>): Result<Option<CsvFormat>, BuildError>
  {
    if withHeader && customHeader.Some? then
      // the whole custom string is one varargs element: one column
      Apply(f, (v: CsvFormat) => v.WithHeader([customHeader.value]).WithSkipHeaderRecord())
    else if withHeader && customHeader.None? then
      Apply(f, (v: CsvFormat) => v.WithHeader([]))
    else
      Ok(f)
  }

  /** The delimiter step, taken whenever the delimiter's code is positive. */
  function DelimiterStep(f: Option<CsvFormat>, delimiter: char): Result<Option<CsvFormat>, BuildError>
  {
    if delimiter as int > 0 then Apply(f, (v: CsvFormat) => v.WithDelimiter(delimiter)) else Ok(f)
  }

  /**
   * `buildFormat`.  `Ok(None)` is the `null` it returns for an unknown
   * preset when neither step applies; `Err` is the dereference of that
   * `null` when a step does.
   */
  function BuildFormat(format: string, delimiter: char, withHeader: bool, customHeader: Option<string>)
    : (r: Result<Option<CsvFormat>, BuildError>)
    ensures (r.Ok? && r.value.Some?) <==> (format == "DEFAULT" || format == "EXCEL")
    ensures r.Err? <==> (format != "DEFAULT" && format != "EXCEL" && (withHeader || delimiter as int > 0))
    ensures r.Ok? && r.value.Some? ==>
              && r.value.value.preset == (if format == "DEFAULT" then Default else Excel)
              && r.value.value.delimiter == (if delimiter as int > 0 then delimiter else ',')
              && ModeOf(r.value.value) ==
                   (if !withHeader then NoHeader
                    else if customHeader.None? then FirstRecordIsHeader
                    else Explicit([customHeader.value], true))
  {
    var base := PresetNamed(format);
    match HeaderStep(base, withHeader, customHeader)
    case Err(e) => Err(e)
    case Ok(headed) => DelimiterStep(headed, delimiter)
  }
}
