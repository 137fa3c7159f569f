/**
 * The body of the processor's stream callback: build the format, take the
 * header and the records from the parser, print the header row, then
 * rebuild every record in header order, masking the columns named in the
 * column-mask list, and optionally record every original value as an
 * attribute `name.recordNumber`.
 */
module ParseCsv {
  import opened Wrappers
  import opened Formats
  import opened ColumnList
  import opened Masking

  /** A parsed record: its values in column order and the parser's record number. */
  datatype Record = Record(values: seq<string>, number: nat)

  /** What the parser yields: its header map's names (`None` when it has no header map) and the records. */
  datatype Parsed = Parsed(headerMap: Option<seq<string>>, records: seq<Record>)

  /** The printed rows (header row first) and the attribute map. */
  datatype Transformed = Transformed(rows: seq<seq<string>>, attributes: map<string, string>)

  /** The exceptions that abort the callback. */
  datatype Failure =
    | FormatFailed                                 // buildFormat dereferenced its null format
    | NullFormat                                   // buildFormat returned null to the parser
    | NoHeaderMap                                  // the parser has no header map to take the names from
    | MissingValue(record: nat, column: nat)       // record.get(column) past the end of a record (record is its 0-based position)

  /** The mask list: `column_mask.split(",")`, or empty when no column mask is configured. */
  function MaskList(columnMask: Option<string>): (r: seq<string>)
    ensures forall name :: name != "" ==> (name in r <==> columnMask.Some? && name in Fields(columnMask.value))
    ensures "" in r <==>
              columnMask.Some? &&
              (columnMask.value == "" ||
               exists j, l :: 0 <= j < l < |Fields(columnMask.value)| &&
                              Fields(columnMask.value)[j] == "" && Fields(columnMask.value)[l] != "")
  {
    match columnMask
    case None => []
    case Some(s) => SplitMembership(s); SplitEmptyName(s); Split(s)
  }

  /** Every record has a value for every header column. */
  predicate Wide(header: seq<string>, records: seq<Record>)
  {
    forall k :: 0 <= k < |records| ==> |records[k].values| >= |header|
  }

  /** Column `i` of a printed row: masked with the column index as seed when its name is in the mask list. */
  function Cell(header: seq<string>, maskList: seq<string>, values: seq<string>, i: nat): string
    requires i < |header| && i < |values|
  {
    if header[i] in maskList then Masked(values[i], i) else values[i]
  }

  // ----- attribute keys -----

  function DigitChar(d: nat): char
    requires d < 10
  {
    ('0' as int + d) as char
  }

  /** The decimal text of a record number, as string concatenation renders a `long`. */
  function DecimalString(n: nat): (s: string)
    ensures |s| > 0
    ensures forall i :: 0 <= i < |s| ==> '0' <= s[i] <= '9'
    decreases n
  {
    if n < 10 then [DigitChar(n)] else DecimalString(n / 10) + [DigitChar(n % 10)]
  }

  /** The number a string of decimal digits denotes. */
  function DecimalValue(s: string): nat
    requires forall i :: 0 <= i < |s| ==> '0' <= s[i] <= '9'
    decreases |s|
  {
    if |s| == 0 then 0
    else
      DecimalValue(s[..|s| - 1]) * 10 + (s[|s| - 1] as int - '0' as int)
  }

  /** The decimal text reads back as the number it was made from. */
  lemma {:induction false} DecimalRoundTrip(n: nat)
    ensures DecimalValue(DecimalString(n)) == n
    decreases n
  {
    if n >= 10 {
      DecimalRoundTrip(n / 10);
      var s := DecimalString(n / 10) + [DigitChar(n % 10)];
      assert s[..|s| - 1] == DecimalString(n / 10);
    }
  }

  /** The attribute key of column `name` in record `number`: `name + "." + number`. */
  function AttributeKey(name: string, number: nat): string
  {
    name + "." + DecimalString(number)
  }

  /** The '.' after the name is the last '.' of a key. */
  lemma KeyShape(name: string, number: nat)
    ensures AttributeKey(name, number)[|name|] == '.'
    ensures forall j :: |name| < j < |AttributeKey(name, number)| ==> AttributeKey(name, number)[j] != '.'
  {
    var digits := DecimalString(number);
    forall j | |name| < j < |AttributeKey(name, number)|
      ensures AttributeKey(name, number)[j] != '.'
    {
      assert AttributeKey(name, number)[j] == digits[j - |name| - 1];
    }
  }

  /**
   * Different columns or records never share a key: the number's digits
   * hold no '.', so the last '.' of a key separates the name from the number.
   */
  lemma AttributeKeyInjective(a: string, n: nat, b: string, m: nat)
    requires AttributeKey(a, n) == AttributeKey(b, m)
    ensures a == b && n == m
  {
    var key := AttributeKey(a, n);
    KeyShape(a, n);
    KeyShape(b, m);
    assert |a| == |b|;
    assert a == key[..|a|] && b == key[..|b|];
    assert DecimalString(n) == key[|a| + 1..] && DecimalString(m) == key[|b| + 1..];
    DecimalRoundTrip(n);
    DecimalRoundTrip(m);
  }

  // ----- the attribute map -----

  /** The map after `attributes.put(header[i] + "." + number, values[i])` for the first `count` columns. */
  function PutColumns(m: map<string, string>, header: seq<string>, values: seq<string>, number: nat, count: nat)
    : map<string, string>
    requires count <= |header| && count <= |values|
  {
    if count == 0 then m
    else PutColumns(m, header, values, number, count - 1)[AttributeKey(header[count - 1], number) := values[count - 1]]
  }

  /** The attribute map after every record has been put, in order, starting from the empty map. */
  function AttributesOf(header: seq<string>, records: seq<Record>): map<string, string>
    requires Wide(header, records)
    decreases |records|
  {
    if |records| == 0 then map[]
    else
      var last := records[|records| - 1];
      assert Wide(header, records[..|records| - 1]);
      PutColumns(AttributesOf(header, records[..|records| - 1]), header, last.values, last.number, |header|)
  }

  predicate DistinctNames(header: seq<string>)
  {
    forall a, b :: 0 <= a < b < |header| ==> header[a] != header[b]
  }

  predicate DistinctNumbers(records: seq<Record>)
  {
    forall a, b :: 0 <= a < b < |records| ==> records[a].number != records[b].number
  }

  /** Putting columns of one record does not touch keys of other records. */
  lemma {:induction false} PutColumnsKeepsOtherRecords(m: map<string, string>, header: seq<string>, values: seq<string>,
                                                     number: nat, count: nat, name: string, other: nat)
    requires count <= |header| && count <= |values|
    requires other != number
    requires AttributeKey(name, other) in m
    ensures AttributeKey(name, other) in PutColumns(m, header, values, number, count)
    ensures PutColumns(m, header, values, number, count)[AttributeKey(name, other)] == m[AttributeKey(name, other)]
    decreases count
  {
    if count > 0 {
      PutColumnsKeepsOtherRecords(m, header, values, number, count - 1, name, other);
      if AttributeKey(header[count - 1], number) == AttributeKey(name, other) {
        AttributeKeyInjective(header[count - 1], number, name, other);
      }
    }
  }

  /** With distinct column names, every put column keeps its own value. */
  lemma {:induction false} PutColumnsAt(m: map<string, string>, header: seq<string>, values: seq<string>,
                                      number: nat, count: nat, i: nat)
    requires count <= |header| && count <= |values|
    requires DistinctNames(header)
    requires i < count
    ensures AttributeKey(header[i], number) in PutColumns(m, header, values, number, count)
    ensures PutColumns(m, header, values, number, count)[AttributeKey(header[i], number)] == values[i]
    decreases count
  {
    if i < count - 1 {
      PutColumnsAt(m, header, values, number, count - 1, i);
      if AttributeKey(header[count - 1], number) == AttributeKey(header[i], number) {
        AttributeKeyInjective(header[count - 1], number, header[i], number);
      }
    }
  }

  /**
   * After all records, the attribute `header[i] + "." + number` of every
   * record holds that record's original, unmasked value of column `i`.
   */
  lemma {:induction false} AttributesHoldOriginalValues(header: seq<string>, records: seq<Record>, k: nat, i: nat)
    requires Wide(header, records)
    requires DistinctNames(header) && DistinctNumbers(records)
    requires k < |records| && i < |header|
    ensures AttributeKey(header[i], records[k].number) in AttributesOf(header, records)
    ensures AttributesOf(header, records)[AttributeKey(header[i], records[k].number)] == records[k].values[i]
    decreases |records|
  {
    var init := records[..|records| - 1];
    var last := records[|records| - 1];
    assert Wide(header, init);
    if k == |records| - 1 {
      PutColumnsAt(AttributesOf(header, init), header, last.values, last.number, |header|, i);
    } else {
      assert init[k] == records[k];
      AttributesHoldOriginalValues(header, init, k, i);
      PutColumnsKeepsOtherRecords(AttributesOf(header, init), header, last.values, last.number, |header|,
                                  header[i], records[k].number);
    }
  }

  // ----- the record loop -----

  /**
   * The attribute loop for one record: puts `header[i] + "." + number` to
   * the original value of every column, in column order; fails where the
   * record runs out of values.
   */
  method PutAttributes(attributes: map<string, string>, header: seq<string>, record: Record)
    returns (r: Option<map<string, string>>)
    ensures r.None? <==> |record.values| < |header|
    ensures r.Some? ==> r.value == PutColumns(attributes, header, record.values, record.number, |header|)
  {
    var m := attributes;
    for i := 0 to |header|
      invariant i <= |record.values|
      invariant m == PutColumns(attributes, header, record.values, record.number, i)
    {
      if i >= |record.values| {
        return None;
      }
      m := m[AttributeKey(header[i], record.number) := record.values[i]];
    }
    r := Some(m);
  }

  /**
   * The row loop for one record: the values in header order, masked with
   * the column index as seed when the column's name is in the mask list;
   * fails where the record runs out of values.
   */
  method BuildRow(header: seq<string>, maskList: seq<string>, values: seq<string>) returns (r: Option<seq<string>>)
    ensures r.None? <==> |values| < |header|
    ensures r.Some? ==> |r.value| == |header|
    ensures r.Some? ==> forall i :: 0 <= i < |header| ==> r.value[i] == Cell(header, maskList, values, i)
  {
    var holder: seq<string> := [];
    for i := 0 to |header|
      invariant i <= |values|
      invariant |holder| == i
      invariant forall c :: 0 <= c < i ==> holder[c] == Cell(header, maskList, values, c)
    {
      if i >= |values| {
        return None;
      }
      if header[i] in maskList {
        var m := Mask(values[i], i);
        holder := holder + [m];
      } else {
        holder := holder + [values[i]];
      }
    }
    r := Some(holder);
  }

  /**
   * Prints the header row, then for every record, in input order, puts its
   * attributes (when asked) and prints its row rebuilt in header order.
   * Fails at the first record with fewer values than the header has columns.
   */
  method TransformRecords(header: seq<string>, records: seq<Record>, maskList: seq<string>, createAttributes: bool)
    returns (r: Result<Transformed, Failure>)
    ensures r.Err? <==> !Wide(header, records)
    ensures r.Err? ==>
              && r.error.MissingValue?
              && r.error.record < |records|
              && r.error.column == |records[r.error.record].values| < |header|
              && Wide(header, records[..r.error.record])
    ensures r.Ok? ==> |r.value.rows| == |records| + 1 && r.value.rows[0] == header
    ensures r.Ok? ==> forall k :: 1 <= k < |r.value.rows| ==> |r.value.rows[k]| == |header|
    ensures r.Ok? ==> forall k, i :: 1 <= k < |r.value.rows| && 0 <= i < |header| ==>
                        r.value.rows[k][i] == Cell(header, maskList, records[k - 1].values, i)
    ensures r.Ok? ==> r.value.attributes == (if createAttributes then AttributesOf(header, records) else map[])
  {
    var rows: seq<seq<string>> := [header];
    var attributes: map<string, string> := map[];
    var k := 0;
    while k < |records|
      invariant 0 <= k <= |records|
      invariant Wide(header, records[..k])
      invariant |rows| == k + 1 && rows[0] == header
      invariant forall j :: 1 <= j < |rows| ==> |rows[j]| == |header|
      invariant forall j, i :: 1 <= j < |rows| && 0 <= i < |header| ==> rows[j][i] == Cell(header, maskList, records[j - 1].values, i)
      invariant attributes == if createAttributes then AttributesOf(header, records[..k]) else map[]
    {
      var record := records[k];
      assert records[..k + 1][..k] == records[..k];
      if createAttributes {
        var put := PutAttributes(attributes, header, record);
        if put.None? {
          return Err(MissingValue(k, |record.values|));
        }
        attributes := put.value;
      }
      var row := BuildRow(header, maskList, record.values);
      if row.None? {
        return Err(MissingValue(k, |record.values|));
      }
      rows := rows + [row.value];
      k := k + 1;
    }
    assert records[..k] == records;
    r := Ok(Transformed(rows, attributes));
  }

  // ----- the stream callback -----

  /**
   * How the parser fills its header map: absent exactly when the format
   * configures no header, and the configured names when they are given
   * explicitly.  The parser is a library; this is what the callback relies on.
   */
  ghost predicate ParserReportsHeader(parse: CsvFormat -> Parsed)
  {
    forall f :: (parse(f).headerMap.Some? <==> f.header.Some?) &&
                (f.header.Some? && f.header.value != [] ==> parse(f).headerMap == f.header)
  }

  /**
   * The steps before the record loop: build the format, open the parser on
   * it and take the names of its header map.  Unknown presets always fail,
   * and so does a configuration without a header.
   */
  function OpenInput(format: string, delimiter: char, withHeader: bool, customHeader: Option<string>,
                     parse: CsvFormat -> Parsed): (r: Result<(seq<string>, seq<Record>), Failure>)
    ensures r.Ok? ==> format == "DEFAULT" || format == "EXCEL"
    ensures ParserReportsHeader(parse) ==> (r.Ok? <==> (format == "DEFAULT" || format == "EXCEL") && withHeader)
    ensures ParserReportsHeader(parse) && r.Ok? && customHeader.Some? ==> r.value.0 == [customHeader.value]
    ensures ParserReportsHeader(parse) && (format == "DEFAULT" || format == "EXCEL") && !withHeader ==>
              r == Err(NoHeaderMap)
  {
    match BuildFormat(format, delimiter, withHeader, customHeader)
    case Err(_) => Err(FormatFailed)
    case Ok(None) => Err(NullFormat)
    case Ok(Some(f)) =>
      var parsed := parse(f);
      if parsed.headerMap.None? then Err(NoHeaderMap) else Ok((parsed.headerMap.value, parsed.records))
  }

  /**
   * The stream callback: opens the input, then runs the record loop with
   * the mask list split from the column-mask property.
   */
  method Process(format: string, delimiter: char, withHeader: bool, customHeader: Option<string>,
                 columnMask: Option<string>, createAttributes: bool, parse: CsvFormat -> Parsed)
    returns (r: Result<Transformed, Failure>)
    ensures var input := OpenInput(format, delimiter, withHeader, customHeader, parse);
            r.Ok? <==> input.Ok? && Wide(input.value.0, input.value.1)
    ensures var input := OpenInput(format, delimiter, withHeader, customHeader, parse);
            r.Err? && input.Err? ==> r.error == input.error
    ensures var input := OpenInput(format, delimiter, withHeader, customHeader, parse);
            r.Ok? ==>
              var (header, records) := input.value;
              && |r.value.rows| == |records| + 1
              && r.value.rows[0] == header
              && (forall k :: 1 <= k < |r.value.rows| ==> |r.value.rows[k]| == |header|)
              && (forall k, i :: 1 <= k < |r.value.rows| && 0 <= i < |header| ==>
                    r.value.rows[k][i] == Cell(header, MaskList(columnMask), records[k - 1].values, i))
              && r.value.attributes == (if createAttributes then AttributesOf(header, records) else map[])
  {
    var input := OpenInput(format, delimiter, withHeader, customHeader, parse);
    if input.Err? {
      return Err(input.error);
    }
    var (header, records) := input.value;
    r := TransformRecords(header, records, MaskList(columnMask), createAttributes);
  }
}
