/** Rows of self-delimiting fields behind a header, whatever a field is: where each field lies, and that parsing
    inverts laying out. */
module RowParsing {
  import opened Bytes
  import opened Chunks

  datatype RowError = WrongCount | NullNotAllowed | WrongType | TooLong | Malformed

  datatype Result<+T> = Ok(value: T) | Err(error: RowError)

  /** What a column of type `C` takes, how a value of type `V` is written, and how it is read from the start of some
      bytes, with its length. */
  datatype FieldCodec<!C, !V> = FieldCodec(
    fits: (C, V) -> bool,
    bytes: V -> seq<Byte>,
    parse: (C, seq<Byte>) -> Result<(V, nat)>)

  ghost predicate StartsWith(b: seq<Byte>, part: seq<Byte>) { |part| <= |b| && b[..|part|] == part }

  /** Reading a field finds what fits the column and was written, and nothing else. */
  ghost predicate Lawful<C(!new), V(!new)>(k: FieldCodec<C, V>) {
    && (forall c, v, b :: k.fits(c, v) && StartsWith(b, k.bytes(v)) ==> k.parse(c, b) == Ok((v, |k.bytes(v)|)))
    && (forall c, b :: k.parse(c, b).Ok? ==> IsParsed(k, c, b, k.parse(c, b).value.0, k.parse(c, b).value.1))
  }

  ghost predicate IsParsed<C(!new), V(!new)>(k: FieldCodec<C, V>, c: C, b: seq<Byte>, v: V, length: nat) {
    k.fits(c, v) && length == |k.bytes(v)| && StartsWith(b, k.bytes(v))
  }

  predicate RowFits<C, V>(k: FieldCodec<C, V>, schema: seq<C>, row: seq<V>) {
    |row| == |schema| && forall i :: 0 <= i < |row| ==> k.fits(schema[i], row[i])
  }

  function RowChunks<C, V>(k: FieldCodec<C, V>, header: seq<Byte>, row: seq<V>): (chunks: seq<seq<Byte>>)
    ensures |chunks| == 1 + |row| && chunks[0] == header
    ensures forall i :: 0 <= i < |row| ==> chunks[i + 1] == k.bytes(row[i])
  {
    [header] + seq(|row|, i requires 0 <= i < |row| => k.bytes(row[i]))
  }

  function RowBytes<C, V>(k: FieldCodec<C, V>, header: seq<Byte>,
                          row: seq<V>): seq<Byte> { Join(RowChunks(k, header, row)) }

  ghost predicate IsRowOf<C(!new), V(!new)>(k: FieldCodec<C, V>, schema: seq<C>, header: seq<Byte>, row: seq<V>,
                            b: seq<Byte>) {
    RowFits(k, schema, row) && RowBytes(k, header, row) == b
  }

  lemma RowGrows<C(!new), V(!new)>(k: FieldCodec<C, V>, header: seq<Byte>, row: seq<V>, v: V)
    ensures RowBytes(k, header, row + [v]) == RowBytes(k, header, row) + k.bytes(v)
  {
    var longer, n := RowChunks(k, header, row + [v]), |row| + 1;
    assert longer[..n] == RowChunks(k, header, row);
  }

  lemma NoFields<C(!new), V(!new)>(k: FieldCodec<C, V>, header: seq<Byte>)
    ensures RowBytes(k, header, []) == header
  {
    var chunks := RowChunks(k, header, []);
    assert |chunks| == 1 && chunks[..0] == [] && Join(chunks[..0]) == [];
  }

  /** Writes the fields one after another, up to the first that its column does not take. */
  method EncodeFields<C(!new), V(!new)>(k: FieldCodec<C, V>, schema: seq<C>, header: seq<Byte>, row: seq<V>)
    returns (b: seq<Byte>, at: nat)
    requires |row| == |schema|
    ensures at <= |row| && forall j :: 0 <= j < at ==> k.fits(schema[j], row[j])
    ensures if at == |row| then b == RowBytes(k, header, row) else !k.fits(schema[at], row[at])
  {
    b, at := header, 0;
    NoFields(k, header);
    while at < |row|
      invariant at <= |row| && (forall j :: 0 <= j < at ==> k.fits(schema[j], row[j]))
      invariant b == RowBytes(k, header, row[..at])
    {
      if !k.fits(schema[at], row[at]) { return; }
      RowGrows(k, header, row[..at], row[at]);
      assert row[..at + 1] == row[..at] + [row[at]];
      b := b + k.bytes(row[at]);
      at := at + 1;
    }
    assert row[..at] == row;
  }

  /** The next field of any row that the bytes are. */
  lemma NextIs<C(!new), V(!new)>(k: FieldCodec<C, V>, schema: seq<C>, header: seq<Byte>, b: seq<Byte>, row: seq<V>,
                 i: nat)
    requires Lawful(k) && IsRowOf(k, schema, header, row, b) && i < |row|
    ensures var offset := |RowBytes(k, header, row[..i])|;
            offset <= |b| && k.parse(schema[i], b[offset..]) == Ok((row[i], |k.bytes(row[i])|))
  {
    var chunks, n := RowChunks(k, header, row), i + 1;
    assert chunks[..n] == RowChunks(k, header, row[..i]);
    var offset, part := Start(chunks, n), chunks[n];
    ChunkLies(chunks, n);
    SliceOfSlice(b, offset, |b|, 0, |part|);
  }

  /** The row so far is what the bytes so far are, and any row that all the bytes are begins with it. */
  ghost predicate DecodedUpTo<C(!new), V(!new)>(k: FieldCodec<C, V>, schema: seq<C>, header: seq<Byte>, b: seq<Byte>,
                                row: seq<V>, offset: nat) {
    && |row| <= |schema| && offset <= |b| && RowFits(k, schema[..|row|], row)
    && b[..offset] == RowBytes(k, header, row)
    && forall other :: IsRowOf(k, schema, header, other, b) ==> other[..|row|] == row
  }

  lemma NextIsOnly<C(!new), V(!new)>(k: FieldCodec<C, V>, schema: seq<C>, header: seq<Byte>, b: seq<Byte>, row: seq<V>,
                     offset: nat, other: seq<V>)
    requires Lawful(k) && DecodedUpTo(k, schema, header, b, row, offset) && |row| < |schema|
             && IsRowOf(k, schema, header, other, b)
    ensures k.parse(schema[|row|], b[offset..]) == Ok((other[|row|], |k.bytes(other[|row|])|))
  {
    NextIs(k, schema, header, b, other, |row|);
  }

  lemma FieldIsDecoded<C(!new), V(!new)>(k: FieldCodec<C, V>, schema: seq<C>, header: seq<Byte>, b: seq<Byte>,
                         row: seq<V>, offset: nat, v: V)
    requires DecodedUpTo(k, schema, header, b, row, offset) && |row| < |schema|
    requires IsParsed(k, schema[|row|], b[offset..], v, |k.bytes(v)|)
    requires forall other :: IsRowOf(k, schema, header, other, b) ==> other[|row|] == v
    ensures DecodedUpTo(k, schema, header, b, row + [v], offset + |k.bytes(v)|)
  {
    var i, longer, end := |row|, row + [v], offset + |k.bytes(v)|;
    RowGrows(k, header, row, v);
    assert b[..end] == b[..offset] + b[offset..][..|k.bytes(v)|];
    forall other | IsRowOf(k, schema, header, other, b) ensures other[..i + 1] == longer {
      assert other[..i + 1] == other[..i] + [other[i]];
    }
    assert schema[..i + 1] == schema[..i] + [schema[i]];
  }

  method DecodeFields<C(!new), V(!new)>(k: FieldCodec<C, V>, schema: seq<C>, header: seq<Byte>, b: seq<Byte>)
      returns (r: Result<seq<V>>)
    requires Lawful(k) && StartsWith(b, header)
    ensures r.Ok? <==> exists row :: IsRowOf(k, schema, header, row, b)
    ensures r.Ok? ==> IsRowOf(k, schema, header, r.value, b)
  {
    var row: seq<V>, offset: nat := [], |header|;
    NoFields(k, header);
    while |row| < |schema|
      invariant DecodedUpTo(k, schema, header, b, row, offset)
      decreases |schema| - |row|
    {
      var field := k.parse(schema[|row|], b[offset..]);
      forall other | IsRowOf(k, schema, header, other, b) ensures field == Ok((other[|row|], |k.bytes(other[|row|])|)) {
        NextIsOnly(k, schema, header, b, row, offset, other);
      }
      if field.Err? { return Err(field.error); }
      FieldIsDecoded(k, schema, header, b, row, offset, field.value.0);
      row := row + [field.value.0];
      offset := offset + field.value.1;
    }
    DecodingEnds(k, schema, header, b, row, offset);
    if offset != |b| { return Err(Malformed); }
    return Ok(row);
  }

  lemma DecodingEnds<C(!new), V(!new)>(k: FieldCodec<C, V>, schema: seq<C>, header: seq<Byte>, b: seq<Byte>,
                       row: seq<V>, offset: nat)
    requires DecodedUpTo(k, schema, header, b, row, offset) && |row| == |schema|
    ensures IsRowOf(k, schema, header, row, b) <==> offset == |b|
    ensures offset != |b| ==> forall other :: !IsRowOf(k, schema, header, other, b)
  {
    assert schema[..|row|] == schema && b[..|b|] == b;
    forall other | IsRowOf(k, schema, header, other, b) ensures offset == |b| {
      assert other[..|row|] == other;
    }
  }

  /** Different rows have different bytes. */
  lemma RowBytesDiffer<C(!new), V(!new)>(k: FieldCodec<C, V>, schema: seq<C>, header: seq<Byte>, row: seq<V>,
                         other: seq<V>)
    requires Lawful(k) && RowFits(k, schema, row) && RowFits(k, schema, other)
    requires RowBytes(k, header, row) == RowBytes(k, header, other)
    ensures row == other
  {
    SameUpTo(k, schema, header, row, other, |row|);
    assert row[..|row|] == row && other[..|row|] == other;
  }

  lemma {:induction false} SameUpTo<C(!new), V(!new)>(k: FieldCodec<C, V>, schema: seq<C>, header: seq<Byte>,
                                      row: seq<V>, other: seq<V>, n: nat)
    requires Lawful(k) && RowFits(k, schema, row) && RowFits(k, schema, other)
    requires RowBytes(k, header, row) == RowBytes(k, header, other) && n <= |row|
    ensures row[..n] == other[..n]
  {
    if n > 0 {
      var i := n - 1;
      SameUpTo(k, schema, header, row, other, i);
      SameNext(k, schema, header, row, other, i);
      assert row[..n] == row[..i] + [row[i]] && other[..n] == other[..i] + [other[i]];
    }
  }

  lemma SameNext<C(!new), V(!new)>(k: FieldCodec<C, V>, schema: seq<C>, header: seq<Byte>, row: seq<V>, other: seq<V>,
                   i: nat)
    requires Lawful(k) && RowFits(k, schema, row) && RowFits(k, schema, other)
    requires RowBytes(k, header, row) == RowBytes(k, header, other) && i < |row| && row[..i] == other[..i]
    ensures row[i] == other[i]
  {
    NextIs(k, schema, header, RowBytes(k, header, row), row, i);
    NextIs(k, schema, header, RowBytes(k, header, row), other, i);
  }
}
