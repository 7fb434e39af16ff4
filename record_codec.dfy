/**
 * One line of `cart.csv` or `store.csv` and the typed record it stands for.
 * A cart line and a catalog item have the same four fields (id, name,
 * quantity, and the line's outcome or the item's unit price), so both are a
 * `Record`; the `Kind` of file only changes the header and one error label.
 */
module RecordCodec {
  import opened Wrappers
  import opened Text

  /** `Cart { id, name, quantity, outcome }` or `Store { id, name, quantity, price }`. */
  datatype Record = Record(id: int, name: string, quantity: int, value: int)

  datatype Kind = CartFile | StoreFile

  /** The column names written as the first line of a saved file. */
  function ColumnNames(kind: Kind): string {
    match kind
    case CartFile => "id,name,stock,outcome"
    case StoreFile => "id,name,stock,price"
  }

  /** The header line, with its line break, that starts every saved file. */
  function Header(kind: Kind): string {
    ColumnNames(kind) + "\n"
  }

  /** The name the error for a missing fourth field uses. */
  function ValueLabel(kind: Kind): string {
    match kind
    case CartFile => "outcome"
    case StoreFile => "price"
  }

  /**
   * `ParseError`. An integer that does not parse is reported as `InvalidId`
   * with the cause, whichever field it is in; `InvalidInput` and
   * `MissingField` report a field that is not there.
   */
  datatype ParseError =
    | InvalidId(cause: IntErrorKind)
    | InvalidInput(field: string)
    | MissingField(field: string)

  /** A record that can be written as a line and read back: i64 fields and a non-empty, comma-free name. */
  predicate WellFormed(r: Record) {
    && InI64(r.id)
    && InI64(r.quantity)
    && InI64(r.value)
    && r.name != []
    && ',' !in r.name
  }

  /**
   * `parseCart` / `parseStore`: split the line on commas and read id, name,
   * quantity and value left to right, stopping at the first field that is
   * missing or malformed. Only the fourth field is trimmed; fields after the
   * fourth are ignored. Whatever parses can be written back.
   */
  function ParseRecord(kind: Kind, line: string): (r: Result<Record, ParseError>)
    ensures r.Success? ==> WellFormed(r.value)
  {
    var fields := Split(line, ',');
    SplitPieces(line, ',');
    match ParseI64(fields[0])
    case Failure(e) => Failure(InvalidId(e))
    case Success(id) =>
      if |fields| < 2 || fields[1] == [] then Failure(MissingField("name"))
      else if |fields| < 3 then Failure(InvalidInput("quantity"))
      else
        match ParseI64(fields[2])
        case Failure(e) => Failure(InvalidId(e))
        case Success(quantity) =>
          if |fields| < 4 then Failure(InvalidInput(ValueLabel(kind)))
          else
            match ParseI64(Trim(fields[3]))
            case Failure(e) => Failure(InvalidId(e))
            case Success(value) => Success(Record(id, fields[1], quantity, value))
  }

  /** The text `format!("{},{},{},{}", ...)` produces for a record, without the line break. */
  function FormatFields(r: Record): string {
    FormatInt(r.id) + "," + r.name + "," + FormatInt(r.quantity) + "," + FormatInt(r.value)
  }

  /** One saved line: the fields and a line break. */
  function FormatLine(r: Record): string {
    FormatFields(r) + "\n"
  }

  /** Three comma-free fields at the front of a line are split off one by one. */
  lemma SplitThree(a: string, b: string, c: string, tail: string)
    requires ',' !in a && ',' !in b && ',' !in c
    ensures Split(a + "," + b + "," + c + "," + tail, ',') == [a, b, c] + Split(tail, ',')
  {
    assert a + "," + b + "," + c + "," + tail == a + [','] + (b + [','] + (c + [','] + tail));
    SplitFirst(c, ',', tail);
    SplitFirst(b, ',', c + [','] + tail);
    SplitFirst(a, ',', b + [','] + (c + [','] + tail));
  }

  /** The first three fields of a formatted record are split off one by one. */
  lemma SplitFormatted(r: Record, tail: string)
    requires ',' !in r.name
    ensures Split(FormatInt(r.id) + "," + r.name + "," + FormatInt(r.quantity) + "," + tail, ',')
         == [FormatInt(r.id), r.name, FormatInt(r.quantity)] + Split(tail, ',')
  {
    FormatIntHasNoSeparator(r.id);
    FormatIntHasNoSeparator(r.quantity);
    SplitThree(FormatInt(r.id), r.name, FormatInt(r.quantity), tail);
  }

  /**
   * The field rules: a line parses exactly when it has at least four fields,
   * the first and third are i64 literals, the second is not empty and the
   * fourth is an i64 literal once trimmed; the record then holds those values.
   */
  lemma ParseRecordAccepts(kind: Kind, line: string)
    ensures var f := Split(line, ',');
      ParseRecord(kind, line).Success? <==>
        |f| >= 4 && IsI64Literal(f[0]) && f[1] != [] && IsI64Literal(f[2]) && IsI64Literal(Trim(f[3]))
    ensures var f := Split(line, ',');
      ParseRecord(kind, line).Success? ==>
        ParseRecord(kind, line).value == Record(LiteralValue(f[0]), f[1], LiteralValue(f[2]), LiteralValue(Trim(f[3])))
  {
    var f := Split(line, ',');
    ParseI64Accepts(f[0]);
    if ParseI64(f[0]).Success? && |f| >= 4 && f[1] != [] {
      ParseI64Accepts(f[2]);
      if ParseI64(f[2]).Success? {
        var value := Trim(f[3]);
        ParseI64Accepts(value);
      }
    }
  }

  /**
   * Which error a rejected line gets: fields are checked left to right and the
   * first bad one decides. An integer field that is not an i64 literal gives
   * `InvalidId` with the integer parser's own error kind; a missing or empty
   * name gives `MissingField("name")`; a missing quantity or fourth field gives
   * `InvalidInput` with that field's name.
   */
  lemma ParseRecordRejects(kind: Kind, line: string)
    ensures var f := Split(line, ',');
      !IsI64Literal(f[0]) ==>
        ParseI64(f[0]).Failure? && ParseRecord(kind, line) == Failure(InvalidId(ParseI64(f[0]).error))
    ensures var f := Split(line, ',');
      IsI64Literal(f[0]) && (|f| < 2 || f[1] == []) ==> ParseRecord(kind, line) == Failure(MissingField("name"))
    ensures var f := Split(line, ',');
      IsI64Literal(f[0]) && |f| == 2 && f[1] != [] ==> ParseRecord(kind, line) == Failure(InvalidInput("quantity"))
    ensures var f := Split(line, ',');
      IsI64Literal(f[0]) && |f| >= 3 && f[1] != [] && !IsI64Literal(f[2]) ==>
        ParseI64(f[2]).Failure? && ParseRecord(kind, line) == Failure(InvalidId(ParseI64(f[2]).error))
    ensures var f := Split(line, ',');
      IsI64Literal(f[0]) && |f| == 3 && f[1] != [] && IsI64Literal(f[2]) ==>
        ParseRecord(kind, line) == Failure(InvalidInput(ValueLabel(kind)))
    ensures var f := Split(line, ',');
      IsI64Literal(f[0]) && |f| >= 4 && f[1] != [] && IsI64Literal(f[2]) && !IsI64Literal(Trim(f[3])) ==>
        ParseI64(Trim(f[3])).Failure? && ParseRecord(kind, line) == Failure(InvalidId(ParseI64(Trim(f[3])).error))
  {
    var f := Split(line, ',');
    ParseI64Accepts(f[0]);
    if |f| >= 3 {
      ParseI64Accepts(f[2]);
    }
    if |f| >= 4 {
      ParseI64Accepts(Trim(f[3]));
    }
  }

  /** A line whose four fields hold a record's values, read in order, parses to that record. */
  lemma ParseFieldValues(kind: Kind, line: string, r: Record)
    requires |Split(line, ',')| >= 4
    requires ParseI64(Split(line, ',')[0]) == Success(r.id)
    requires Split(line, ',')[1] == r.name && r.name != []
    requires ParseI64(Split(line, ',')[2]) == Success(r.quantity)
    requires ParseI64(Trim(Split(line, ',')[3])) == Success(r.value)
    ensures ParseRecord(kind, line) == Success(r)
  {
  }

  /** A line whose first four fields print the record's values parses back to that record. */
  lemma ParseFields(kind: Kind, r: Record, line: string)
    requires WellFormed(r)
    requires |Split(line, ',')| >= 4
    requires Split(line, ',')[0] == FormatInt(r.id)
    requires Split(line, ',')[1] == r.name
    requires Split(line, ',')[2] == FormatInt(r.quantity)
    requires Split(line, ',')[3] == FormatInt(r.value)
    ensures ParseRecord(kind, line) == Success(r)
  {
    FormatIntTrimmed(r.value);
    ParseFormatInt(r.id);
    ParseFormatInt(r.quantity);
    ParseFormatInt(r.value);
    ParseFieldValues(kind, line, r);
  }

  /** Reading back what was written gives the same record. */
  lemma ParseFormat(kind: Kind, r: Record)
    requires WellFormed(r)
    ensures ParseRecord(kind, FormatFields(r)) == Success(r)
  {
    var c := FormatInt(r.value);
    FormatIntHasNoSeparator(r.value);
    SplitFormatted(r, c);
    SplitWithoutSep(c, ',');
    var f := Split(FormatFields(r), ',');
    assert f == [FormatInt(r.id), r.name, FormatInt(r.quantity), c];
    ParseFields(kind, r, FormatFields(r));
  }

  /** Fields after the fourth do not change the parsed record. */
  lemma ParseIgnoresExtraFields(kind: Kind, r: Record, extra: string)
    requires WellFormed(r)
    ensures ParseRecord(kind, FormatFields(r) + "," + extra) == Success(r)
  {
    var c := FormatInt(r.value);
    FormatIntHasNoSeparator(r.value);
    var line := FormatFields(r) + "," + extra;
    var a, n, b := FormatInt(r.id), r.name, FormatInt(r.quantity);
    assert FormatFields(r) == a + "," + n + "," + b + "," + c;
    assert line == a + "," + n + "," + b + "," + (c + [','] + extra);
    SplitFormatted(r, c + [','] + extra);
    SplitFirst(c, ',', extra);
    var f := Split(line, ',');
    assert f == [a, n, b] + ([c] + Split(extra, ','));
    assert f[0] == a && f[1] == n && f[2] == b && f[3] == c;
    ParseFields(kind, r, line);
  }

  /** Parsing, printing and parsing again gives what the first parse gave. */
  lemma ParseFormatParse(kind: Kind, line: string)
    requires ParseRecord(kind, line).Success?
    ensures ParseRecord(kind, FormatFields(ParseRecord(kind, line).value)) == ParseRecord(kind, line)
  {
    ParseFormat(kind, ParseRecord(kind, line).value);
  }

  /** A line whose first field is not an integer is rejected with that field's parse error. */
  lemma FirstFieldRejected(kind: Kind, line: string)
    requires ParseI64(Split(line, ',')[0]).Failure?
    ensures ParseRecord(kind, line) == Failure(InvalidId(ParseI64(Split(line, ',')[0]).error))
  {
  }

  /** `id` is not an integer: its first character is not a digit. */
  lemma IdNotInteger()
    ensures ParseI64("id") == Failure(InvalidDigit)
  {
    assert DigitRun("id") == 0;
    assert "id"[..0] == [];
  }

  /** The header line never parses as a record: its first field `id` is not an integer. */
  lemma HeaderRejected(kind: Kind, anyKind: Kind)
    ensures ParseRecord(anyKind, ColumnNames(kind)) == Failure(InvalidId(InvalidDigit))
  {
    var line := ColumnNames(kind);
    var rest := if kind == CartFile then "name,stock,outcome" else "name,stock,price";
    assert line == "id" + [','] + rest;
    SplitFirst("id", ',', rest);
    assert Split(line, ',')[0] == "id";
    IdNotInteger();
    FirstFieldRejected(anyKind, line);
  }
}
