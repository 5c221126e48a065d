/** The on-disk container: byte layout, assembly and the bounds-checked parser (fileformat.py). */
module FileFormat {
  import opened Basics
  import opened Aead
  import opened Kdf
  import LE = LittleEndian

  const MAGIC: Bytes := [0x53, 0x56, 0x4C, 0x54]  // "SVLT"
  const FORMAT_VERSION := 1
  const KDF_ARGON2ID := 1
  const AEAD_AES256GCM := 1

  const DEK_LENGTH := 32
  const DEK_BLOB_LENGTH := DEK_LENGTH + TAG_LENGTH

  const KDF_HEADER_LENGTH := 36
  const FULL_HEADER_LENGTH := KDF_HEADER_LENGTH + 8
  const DEK_NONCE_OFFSET := FULL_HEADER_LENGTH
  const DEK_BLOB_OFFSET := DEK_NONCE_OFFSET + NONCE_LENGTH
  const BODY_NONCE_OFFSET := DEK_BLOB_OFFSET + DEK_BLOB_LENGTH
  const BODY_LEN_OFFSET := BODY_NONCE_OFFSET + NONCE_LENGTH
  const BODY_OFFSET := BODY_LEN_OFFSET + 4
  const MIN_FILE_LENGTH := BODY_OFFSET + TAG_LENGTH

  const U32_LIMIT := 0x1_0000_0000
  const U64_LIMIT := 0x1_0000_0000_0000_0000

  /** `struct.pack` of one unsigned field: out-of-range values raise `struct.error`. */
  function Pack(v: int, width: nat): (r: Result<Bytes>)
    ensures r.Ok? <==> 0 <= v < LE.Pow256(width)
    ensures r.Ok? ==> |r.value| == width
  {
    if 0 <= v < LE.Pow256(width) then Ok(LE.Encode(v, width)) else Err(StructError)
  }

  function BuildKdfHeader(params: Argon2Parameters, salt: Bytes): (r: Result<Bytes>)
    ensures r.Ok? ==> |r.value| == KDF_HEADER_LENGTH
  {
    if |salt| != SALT_LENGTH then Err(ValueError) else
    var ids := LE.Encode(FORMAT_VERSION, 2) + LE.Encode(KDF_ARGON2ID, 1) + LE.Encode(AEAD_AES256GCM, 1);
    var m :- Pack(params.memoryKib, 4);
    var t :- Pack(params.timeCost, 4);
    var p :- Pack(params.parallelism, 4);
    Ok(MAGIC + ids + m + t + p + salt)
  }

  function BuildFullHeader(params: Argon2Parameters, salt: Bytes, counter: int): (r: Result<Bytes>)
    ensures r.Ok? ==> |r.value| == FULL_HEADER_LENGTH
  {
    if counter < 0 || counter > 0xFFFF_FFFF_FFFF_FFFF then Err(ValueError) else
    var kdfHeader :- BuildKdfHeader(params, salt);
    var packed :- Pack(counter, 8);
    Ok(kdfHeader + packed)
  }

  function Serialize(kdfHeader: Bytes, counter: int, dekNonce: Bytes, dekBlob: Bytes, bodyNonce: Bytes, bodyBlob: Bytes)
    : (r: Result<Bytes>)
  {
    if |kdfHeader| != KDF_HEADER_LENGTH then Err(ValueError)
    else if |dekNonce| != NONCE_LENGTH || |bodyNonce| != NONCE_LENGTH then Err(ValueError)
    else if |dekBlob| != DEK_BLOB_LENGTH then Err(ValueError)
    else if |bodyBlob| < TAG_LENGTH then Err(ValueError)
    else
      var packedCounter :- Pack(counter, 8);
      var packedLength :- Pack(|bodyBlob|, 4);
      Ok(kdfHeader + packedCounter + dekNonce + dekBlob + bodyNonce + packedLength + bodyBlob)
  }

  datatype ParsedVaultFile = ParsedVaultFile(
    params: Argon2Parameters,
    salt: Bytes,
    counter: nat,
    kdfHeader: Bytes,
    fullHeader: Bytes,
    dekNonce: Bytes,
    dekBlob: Bytes,
    bodyNonce: Bytes,
    bodyBlob: Bytes)

  function Parse(data: Bytes): (r: Result<ParsedVaultFile>)
    ensures r.Err? ==> r.error == FormatError
  {
    if |data| < MIN_FILE_LENGTH then Err(FormatError)
    else if data[..4] != MAGIC then Err(FormatError)
    else if LE.Decode(data[4..6]) != FORMAT_VERSION then Err(FormatError)
    else if LE.Decode(data[6..7]) != KDF_ARGON2ID then Err(FormatError)
    else if LE.Decode(data[7..8]) != AEAD_AES256GCM then Err(FormatError)
    else
      var params := Argon2Parameters(LE.Decode(data[8..12]), LE.Decode(data[12..16]), LE.Decode(data[16..20]));
      if !params.InRange() then Err(FormatError)
      else
        var bodyLen := LE.Decode(data[BODY_LEN_OFFSET..BODY_OFFSET]);
        if bodyLen < TAG_LENGTH then Err(FormatError)
        else if BODY_OFFSET + bodyLen != |data| then Err(FormatError)
        else Ok(ParsedVaultFile(
                  params,
                  data[20..KDF_HEADER_LENGTH],
                  LE.Decode(data[KDF_HEADER_LENGTH..FULL_HEADER_LENGTH]),
                  data[..KDF_HEADER_LENGTH],
                  data[..FULL_HEADER_LENGTH],
                  data[DEK_NONCE_OFFSET..DEK_BLOB_OFFSET],
                  data[DEK_BLOB_OFFSET..BODY_NONCE_OFFSET],
                  data[BODY_NONCE_OFFSET..BODY_LEN_OFFSET],
                  data[BODY_OFFSET..]))
  }

  /** The values that fit the layout: what a vault file may carry. */
  predicate Storable(params: Argon2Parameters, salt: Bytes, counter: int,
                     dekNonce: Bytes, dekBlob: Bytes, bodyNonce: Bytes, bodyBlob: Bytes)
  {
    && params.InRange() && |salt| == SALT_LENGTH && 0 <= counter < U64_LIMIT
    && |dekNonce| == NONCE_LENGTH && |dekBlob| == DEK_BLOB_LENGTH && |bodyNonce| == NONCE_LENGTH
    && TAG_LENGTH <= |bodyBlob| < U32_LIMIT
  }

  lemma KdfHeaderFields(params: Argon2Parameters, salt: Bytes)
    requires params.InRange() && |salt| == SALT_LENGTH
    ensures BuildKdfHeader(params, salt).Ok?
    ensures var h := BuildKdfHeader(params, salt).value;
            && |h| == 36 && h[..4] == [0x53, 0x56, 0x4C, 0x54] && LE.Decode(h[4..6]) == 1
            && LE.Decode(h[6..7]) == 1 && LE.Decode(h[7..8]) == 1
            && LE.Decode(h[8..12]) == params.memoryKib && LE.Decode(h[12..16]) == params.timeCost
            && LE.Decode(h[16..20]) == params.parallelism && h[20..36] == salt
  {
    LE.Widths();
    LE.DecodeEncode(FORMAT_VERSION, 2);
    LE.DecodeEncode(KDF_ARGON2ID, 1);
    LE.DecodeEncode(AEAD_AES256GCM, 1);
    LE.DecodeEncode(params.memoryKib, 4);
    LE.DecodeEncode(params.timeCost, 4);
    LE.DecodeEncode(params.parallelism, 4);
    var h := BuildKdfHeader(params, salt).value;
    assert h[4..6] == LE.Encode(FORMAT_VERSION, 2);
    assert h[6..7] == LE.Encode(KDF_ARGON2ID, 1);
    assert h[7..8] == LE.Encode(AEAD_AES256GCM, 1);
    assert h[8..12] == LE.Encode(params.memoryKib, 4);
    assert h[12..16] == LE.Encode(params.timeCost, 4);
    assert h[16..20] == LE.Encode(params.parallelism, 4);
    assert h[20..36] == salt;
  }

  lemma FullHeaderFields(params: Argon2Parameters, salt: Bytes, counter: int)
    requires params.InRange() && |salt| == SALT_LENGTH
    ensures BuildKdfHeader(params, salt).Ok?
    ensures BuildFullHeader(params, salt, counter).Ok? <==> 0 <= counter < U64_LIMIT
    ensures BuildFullHeader(params, salt, counter).Err? ==> BuildFullHeader(params, salt, counter) == Err(ValueError)
  {
    LE.Widths();
    KdfHeaderFields(params, salt);
  }

  /** Where `Serialize` puts each part. */
  lemma SerializedSlices(h: Bytes, counter: int, dekNonce: Bytes, dekBlob: Bytes, bodyNonce: Bytes, bodyBlob: Bytes)
    requires Serialize(h, counter, dekNonce, dekBlob, bodyNonce, bodyBlob).Ok?
    ensures var d := Serialize(h, counter, dekNonce, dekBlob, bodyNonce, bodyBlob).value;
            && |d| == BODY_OFFSET + |bodyBlob| && d[..36] == h
            && 0 <= counter < LE.Pow256(8) && d[36..44] == LE.Encode(counter, 8)
            && d[44..56] == dekNonce && d[56..104] == dekBlob && d[104..116] == bodyNonce
            && d[116..120] == LE.Encode(|bodyBlob|, 4) && d[120..] == bodyBlob
  {
  }

  /** The parser sees the header fields that the builder wrote. */
  lemma SerializedHeader(params: Argon2Parameters, salt: Bytes, d: Bytes)
    requires params.InRange() && |salt| == SALT_LENGTH && |d| >= MIN_FILE_LENGTH
    requires BuildKdfHeader(params, salt) == Ok(d[..36])
    ensures d[..4] == MAGIC && LE.Decode(d[4..6]) == FORMAT_VERSION
    ensures LE.Decode(d[6..7]) == KDF_ARGON2ID && LE.Decode(d[7..8]) == AEAD_AES256GCM
    ensures Argon2Parameters(LE.Decode(d[8..12]), LE.Decode(d[12..16]), LE.Decode(d[16..20])) == params && d[20..36] == salt
  {
    KdfHeaderFields(params, salt);
    var h := d[..36];
    assert d[..4] == h[..4] && d[4..6] == h[4..6] && d[6..7] == h[6..7] && d[7..8] == h[7..8];
    assert d[8..12] == h[8..12] && d[12..16] == h[12..16] && d[16..20] == h[16..20] && d[20..36] == h[20..36];
  }

  /** Everything storable serializes, and parsing gives back exactly the fields. */
  lemma ParseSerialize(params: Argon2Parameters, salt: Bytes, counter: int,
                       dekNonce: Bytes, dekBlob: Bytes, bodyNonce: Bytes, bodyBlob: Bytes)
    requires Storable(params, salt, counter, dekNonce, dekBlob, bodyNonce, bodyBlob)
    ensures BuildKdfHeader(params, salt).Ok? && BuildFullHeader(params, salt, counter).Ok?
    ensures var h := BuildKdfHeader(params, salt).value;
            var r := Serialize(h, counter, dekNonce, dekBlob, bodyNonce, bodyBlob);
            && r.Ok?
            && Parse(r.value) == Ok(ParsedVaultFile(params, salt, counter, h,
                                                    BuildFullHeader(params, salt, counter).value,
                                                    dekNonce, dekBlob, bodyNonce, bodyBlob))
  {
    LE.Widths();
    KdfHeaderFields(params, salt);
    hide BuildKdfHeader;
    var h := BuildKdfHeader(params, salt).value;
    var d := Serialize(h, counter, dekNonce, dekBlob, bodyNonce, bodyBlob).value;
    SerializedSlices(h, counter, dekNonce, dekBlob, bodyNonce, bodyBlob);
    SerializedHeader(params, salt, d);
    LE.DecodeEncode(counter, 8);
    LE.DecodeEncode(|bodyBlob|, 4);
    assert d[..44] == d[..36] + d[36..44];
  }

  /** With parts of the right sizes, the only way `Serialize` fails is a counter or
      a body length that does not fit its field. */
  lemma SerializeFailsIff(params: Argon2Parameters, salt: Bytes, counter: int,
                          dekNonce: Bytes, dekBlob: Bytes, bodyNonce: Bytes, bodyBlob: Bytes)
    requires params.InRange() && |salt| == SALT_LENGTH && |dekNonce| == NONCE_LENGTH
    requires |dekBlob| == DEK_BLOB_LENGTH && |bodyNonce| == NONCE_LENGTH && TAG_LENGTH <= |bodyBlob|
    ensures BuildKdfHeader(params, salt).Ok?
    ensures Serialize(BuildKdfHeader(params, salt).value, counter, dekNonce, dekBlob, bodyNonce, bodyBlob).Ok?
            <==> 0 <= counter < U64_LIMIT && |bodyBlob| < U32_LIMIT
    ensures var r := Serialize(BuildKdfHeader(params, salt).value, counter, dekNonce, dekBlob, bodyNonce, bodyBlob);
            r.Err? ==> r == Err(StructError)
  {
    LE.Widths();
    KdfHeaderFields(params, salt);
  }

  lemma PackDecoded(b: Bytes)
    ensures Pack(LE.Decode(b), |b|) == Ok(b)
  {
    LE.EncodeDecode(b);
  }

  lemma HeaderTiling(h: Bytes)
    requires |h| == KDF_HEADER_LENGTH
    ensures h == h[..4] + (h[4..6] + h[6..7] + h[7..8]) + h[8..12] + h[12..16] + h[16..20] + h[20..36]
  {
  }

  lemma FileTiling(d: Bytes)
    requires |d| >= MIN_FILE_LENGTH
    ensures d == d[..36] + d[36..44] + d[44..56] + d[56..104] + d[104..116] + d[116..120] + d[120..]
    ensures d[..44] == d[..36] + d[36..44]
  {
  }

  lemma ParsedHeader(data: Bytes)
    requires Parse(data).Ok?
    ensures BuildKdfHeader(Parse(data).value.params, Parse(data).value.salt) == Ok(data[..36])
  {
    LE.Widths();
    var h := data[..36];
    HeaderTiling(h);
    assert h[..4] == data[..4] && h[4..6] == data[4..6] && h[6..7] == data[6..7] && h[7..8] == data[7..8];
    assert h[8..12] == data[8..12] && h[12..16] == data[12..16] && h[16..20] == data[16..20] && h[20..36] == data[20..36];
    LE.EncodeDecode(h[4..6]);
    LE.EncodeDecode(h[6..7]);
    LE.EncodeDecode(h[7..8]);
    PackDecoded(h[8..12]);
    PackDecoded(h[12..16]);
    PackDecoded(h[16..20]);
  }

  /** Every accepted file is the canonical encoding of its fields, and both
      associated-data headers are the ones the builders produce. */
  lemma SerializeParse(data: Bytes)
    requires Parse(data).Ok?
    ensures var f := Parse(data).value;
            && Storable(f.params, f.salt, f.counter, f.dekNonce, f.dekBlob, f.bodyNonce, f.bodyBlob)
            && BuildKdfHeader(f.params, f.salt) == Ok(f.kdfHeader)
            && BuildFullHeader(f.params, f.salt, f.counter) == Ok(f.fullHeader)
            && Serialize(f.kdfHeader, f.counter, f.dekNonce, f.dekBlob, f.bodyNonce, f.bodyBlob) == Ok(data)
  {
    LE.Widths();
    ParsedHeader(data);
    FileTiling(data);
    LE.EncodeDecode(data[36..44]);
    LE.EncodeDecode(data[116..120]);
    assert |data[120..]| == |data| - 120;
  }

  /** A byte string is accepted exactly when it is the serialization of storable fields. */
  lemma AcceptedIffSerialized(data: Bytes)
    ensures Parse(data).Ok? <==>
            exists params, salt, counter, dekNonce, dekBlob, bodyNonce, bodyBlob ::
              && Storable(params, salt, counter, dekNonce, dekBlob, bodyNonce, bodyBlob)
              && BuildKdfHeader(params, salt).Ok?
              && Serialize(BuildKdfHeader(params, salt).value, counter, dekNonce, dekBlob, bodyNonce, bodyBlob) == Ok(data)
  {
    if Parse(data).Ok? {
      SerializeParse(data);
    }
    forall params, salt, counter, dekNonce, dekBlob, bodyNonce, bodyBlob
      | && Storable(params, salt, counter, dekNonce, dekBlob, bodyNonce, bodyBlob)
        && BuildKdfHeader(params, salt).Ok?
        && Serialize(BuildKdfHeader(params, salt).value, counter, dekNonce, dekBlob, bodyNonce, bodyBlob) == Ok(data)
      ensures Parse(data).Ok?
    {
      ParseSerialize(params, salt, counter, dekNonce, dekBlob, bodyNonce, bodyBlob);
    }
  }

  /** Fields determine the file. The two headers are redundant: the full header and
      the four stored blobs already do. */
  lemma ParseInjective(a: Bytes, b: Bytes)
    requires Parse(a).Ok? && Parse(b).Ok?
    requires Parse(a).value.fullHeader == Parse(b).value.fullHeader
    requires Parse(a).value.dekNonce == Parse(b).value.dekNonce && Parse(a).value.dekBlob == Parse(b).value.dekBlob
    requires Parse(a).value.bodyNonce == Parse(b).value.bodyNonce && Parse(a).value.bodyBlob == Parse(b).value.bodyBlob
    ensures a == b
  {
    var f, g := Parse(a).value, Parse(b).value;
    SerializeParse(a);
    SerializeParse(b);
    assert f.kdfHeader == f.fullHeader[..36] && g.kdfHeader == g.fullHeader[..36];
    assert a[36..44] == f.fullHeader[36..44] && b[36..44] == g.fullHeader[36..44];
  }

  /** No accepted file is a proper prefix of another. */
  lemma PrefixFree(a: Bytes, b: Bytes)
    requires Parse(a).Ok? && Parse(b).Ok? && a <= b
    ensures a == b
  {
    assert a[BODY_LEN_OFFSET..BODY_OFFSET] == b[BODY_LEN_OFFSET..BODY_OFFSET];
  }
}
