/** Rows as bytes: a header, and for each column a type tag, a length and the content. */
module RowCodec {
  import opened Bytes
  import opened Chunks
  import opened RowParsing

  const ROW_MAGIC: nat := 0x3157_4F52
  const ROW_HEADER: nat := 8
  const FIELD_HEADER: nat := 5
  const NULL_TAG: Byte := 0
  const INT_TAG: Byte := 1
  const TEXT_TAG: Byte := 2
  const INT_SIZE: nat := 8

  datatype ColumnType = IntColumn | TextColumn

  /** A column without a bound takes text of any length. */
  datatype Column = Column(columnType: ColumnType, bounded: bool, length: nat, nullable: bool)

  datatype Cell = NullCell | IntCell(integer: int) | TextCell(text: seq<Byte>)

  type Row = seq<Cell>

  // ----- one field -----

  /** The bit pattern of a 64-bit number. */
  function Bits(v: int): (bits: nat)
    ensures bits < Range(8)
  {
    RangesAre();
    v % 0x1_0000_0000_0000_0000
  }

  function Signed(bits: nat): int {
    if bits < 0x8000_0000_0000_0000 then bits else bits - 0x1_0000_0000_0000_0000
  }

  predicate IsInt64(v: int) { -0x8000_0000_0000_0000 <= v < 0x8000_0000_0000_0000 }

  lemma SignedBits(v: int)
    requires IsInt64(v)
    ensures Signed(Bits(v)) == v
  {
  }

  lemma BitsOfSigned(bits: nat)
    requires bits < Range(8)
    ensures IsInt64(Signed(bits)) && Bits(Signed(bits)) == bits
  {
    RangesAre();
  }

  /** The column takes the value. */
  predicate Fits(c: Column, v: Cell) {
    match v
    case NullCell => c.nullable
    case IntCell(integer) => c.columnType.IntColumn? && IsInt64(integer)
    case TextCell(text) =>
      c.columnType.TextColumn? && (c.bounded ==> |text| <= c.length) && |text| < 0x1_0000_0000
  }

  function Tag(v: Cell): Byte {
    match v
    case NullCell => NULL_TAG
    case IntCell(_) => INT_TAG
    case TextCell(_) => TEXT_TAG
  }

  function Content(v: Cell): seq<Byte> {
    match v
    case NullCell => []
    case IntCell(integer) => Store(Bits(integer), INT_SIZE)
    case TextCell(text) => text
  }

  function FieldBytes(v: Cell): (b: seq<Byte>)
    ensures |b| == FIELD_HEADER + |Content(v)|
  {
    [Tag(v)] + Store(|Content(v)|, 4) + Content(v)
  }

  /** The field that the bytes start with, and how long it is. */
  function ParseField(c: Column, b: seq<Byte>): Result<(Cell, nat)> {
    if |b| < FIELD_HEADER then Err(Malformed)
    else
      var length := Field(b, 1, 4);
      if b[0] == NULL_TAG then
        if length != 0 || !c.nullable then Err(Malformed) else Ok((NullCell, FIELD_HEADER))
      else if b[0] != (if c.columnType.IntColumn? then INT_TAG else TEXT_TAG) then Err(WrongType)
      else if c.columnType.IntColumn? then
        if length != INT_SIZE || |b| < FIELD_HEADER + length then Err(Malformed)
        else Ok((IntCell(Signed(Field(b, FIELD_HEADER, INT_SIZE))), FIELD_HEADER + INT_SIZE))
      else if |b| < FIELD_HEADER + length || (c.bounded && c.length < length) then Err(Malformed)
      else Ok((TextCell(b[FIELD_HEADER..FIELD_HEADER + length]), FIELD_HEADER + length))
  }

  /** What is written is read back, whatever follows it. */
  lemma WrittenIsParsed(c: Column, v: Cell, b: seq<Byte>)
    requires Fits(c, v) && StartsWith(b, FieldBytes(v))
    ensures ParseField(c, b) == Ok((v, |FieldBytes(v)|))
  {
    var part := FieldBytes(v);
    RangesAre();
    SliceOfSlice(b, 0, |part|, 1, 5);
    SliceOfSlice(b, 0, |part|, 5, |part|);
    StoreThenLoad(|Content(v)|, 4);
    if v.IntCell? {
      StoreThenLoad(Bits(v.integer), INT_SIZE);
      SignedBits(v.integer);
    }
  }

  /** Only what fits the column is read, and only from the bytes it is written as. */
  lemma ParsedIsWritten(c: Column, b: seq<Byte>)
    ensures var r := ParseField(c, b); r.Ok? ==> IsParsed(CellCodec(), c, b, r.value.0, r.value.1)
  {
    var r := ParseField(c, b);
    RangesAre();
    if r.Ok? {
      LoadThenStore(b[1..5]);
      if r.value.0.IntCell? {
        LoadThenStore(b[5..13]);
        BitsOfSigned(Load(b[5..13]));
      }
      assert b[..r.value.1] == [b[0]] + b[1..5] + b[5..r.value.1];
    }
  }

  function CellCodec(): FieldCodec<Column, Cell> { FieldCodec(Fits, FieldBytes, ParseField) }

  lemma CellsAreLawful()
    ensures Lawful(CellCodec())
  {
    var k := CellCodec();
    forall c, v, b | k.fits(c, v) && StartsWith(b, k.bytes(v)) ensures k.parse(c, b) == Ok((v, |k.bytes(v)|)) {
      WrittenIsParsed(c, v, b);
    }
    forall c, b | k.parse(c, b).Ok? ensures IsParsed(k, c, b, k.parse(c, b).value.0, k.parse(c, b).value.1) {
      ParsedIsWritten(c, b);
    }
  }

  // ----- rows -----

  function Header(columns: nat): (b: seq<Byte>)
    ensures |b| == ROW_HEADER
  {
    Store(ROW_MAGIC, 4) + Store(columns, 4)
  }

  /** The bytes are those of a row that fits the schema. */
  ghost predicate IsRow(schema: seq<Column>, row: Row, b: seq<Byte>) {
    IsRowOf(CellCodec(), schema, Header(|schema|), row, b)
  }

  /** Why the encoder refuses a value. */
  function Misfit(c: Column, v: Cell): RowError {
    match v
    case NullCell => NullNotAllowed
    case IntCell(_) => WrongType
    case TextCell(_) => if c.columnType.TextColumn? then TooLong else WrongType
  }

  /** The row is refused for the first value that does not fit. */
  ghost predicate IsMisfit(schema: seq<Column>, row: Row, error: RowError) {
    if |row| != |schema| then error == WrongCount
    else exists i :: 0 <= i < |row| && !Fits(schema[i], row[i]) && error == Misfit(schema[i], row[i])
                     && forall j :: 0 <= j < i ==> Fits(schema[j], row[j])
  }

  method Encode(schema: seq<Column>, row: Row) returns (r: Result<seq<Byte>>)
    ensures r.Ok? ==> IsRow(schema, row, r.value)
    ensures r.Err? ==> IsMisfit(schema, row, r.error)
  {
    if |row| != |schema| { return Err(WrongCount); }
    var b, at := EncodeFields(CellCodec(), schema, Header(|schema|), row);
    if at < |row| { return Err(Misfit(schema[at], row[at])); }
    return Ok(b);
  }

  /** The decoder accepts exactly the bytes of the rows that fit the schema, and gives the row they are the bytes
      of. */
  method Decode(schema: seq<Column>, b: seq<Byte>) returns (r: Result<Row>)
    requires |schema| < 0x1_0000_0000
    ensures r.Ok? <==> exists row :: IsRow(schema, row, b)
    ensures r.Ok? ==> IsRow(schema, r.value, b)
  {
    RowsHaveHeaders(schema, b);
    AsFields(schema, b);
    if |b| < ROW_HEADER { return Err(Malformed); }
    HeaderIs(|schema|, b);
    if Field(b, 0, 4) != ROW_MAGIC || Field(b, 4, 4) != |schema| { return Err(Malformed); }
    CellsAreLawful();
    assert StartsWith(b, Header(|schema|));
    r := DecodeFields(CellCodec(), schema, Header(|schema|), b);
  }

  lemma AsFields(schema: seq<Column>, b: seq<Byte>)
    ensures forall row :: IsRow(schema, row, b) <==> IsRowOf(CellCodec(), schema, Header(|schema|), row, b)
  {
  }

  lemma RowsHaveHeaders(schema: seq<Column>, b: seq<Byte>)
    ensures forall row :: IsRow(schema, row, b) ==> StartsWith(b, Header(|schema|))
  {
    forall row | IsRow(schema, row, b) ensures StartsWith(b, Header(|schema|)) {
      var chunks := RowChunks(CellCodec(), Header(|schema|), row);
      ChunkLies(chunks, 0);
      assert chunks[..0] == [];
    }
  }

  lemma HeaderIs(columns: nat, b: seq<Byte>)
    requires |b| >= ROW_HEADER && columns < 0x1_0000_0000
    ensures b[..ROW_HEADER] == Header(columns) <==> Field(b, 0, 4) == ROW_MAGIC && Field(b, 4, 4) == columns
  {
    RangesAre();
    StoreThenLoad(ROW_MAGIC, 4);
    StoreThenLoad(columns, 4);
    LoadThenStore(b[0..4]);
    LoadThenStore(b[4..8]);
    assert b[..8] == b[0..4] + b[4..8];
    assert Header(columns)[0..4] == Store(ROW_MAGIC, 4) && Header(columns)[4..8] == Store(columns, 4);
  }

  /** No bytes are those of two rows: what is decoded is what was encoded. */
  lemma RowIsUnique(schema: seq<Column>, row: Row, other: Row, b: seq<Byte>)
    requires IsRow(schema, row, b) && IsRow(schema, other, b)
    ensures row == other
  {
    CellsAreLawful();
    RowBytesDiffer(CellCodec(), schema, Header(|schema|), row, other);
  }
}
