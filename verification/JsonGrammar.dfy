/** What `json.loads` accepts, independently of how it reads: the grammar of RFC 8259 over ASCII
    text without floating-point numbers, and the proof that the parser reads exactly its texts. */
module JsonGrammar {
  import opened Basics
  import opened JsonText
  import opened Json

  /** One character of a string, as it is written (section 7). */
  datatype Piece =
    | Plain(b: Byte)
    | Short(b: Byte)
    | Code(digits: Bytes)

  predicate IsHex(b: Byte) {
    0x30 <= b <= 0x39 || 0x41 <= b <= 0x46 || 0x61 <= b <= 0x66
  }

  predicate PieceOk(p: Piece) {
    match p
    case Plain(b) => b >= 0x20 && b != 0x22 && b != 0x5C
    case Short(b) => b in {0x22, 0x5C, 0x2F, 0x62, 0x66, 0x6E, 0x72, 0x74}
    case Code(d) => |d| == 4 && IsHex(d[0]) && IsHex(d[1]) && IsHex(d[2]) && IsHex(d[3])
  }

  predicate PiecesOk(ps: seq<Piece>) {
    forall i :: 0 <= i < |ps| ==> PieceOk(ps[i])
  }

  function HexValue(b: Byte): (v: int)
    requires IsHex(b)
    ensures 0 <= v < 16
  {
    if b <= 0x39 then b - 0x30 else if b <= 0x46 then b - 0x37 else b - 0x57
  }

  function PieceValue(p: Piece): CodePoint
    requires PieceOk(p)
  {
    match p
    case Plain(b) => b
    case Short(b) =>
      if b == 0x62 then 0x08 else if b == 0x66 then 0x0C else if b == 0x6E then 0x0A
      else if b == 0x72 then 0x0D else if b == 0x74 then 0x09 else b
    case Code(d) => HexValue(d[0]) * 0x1000 + HexValue(d[1]) * 0x100 + HexValue(d[2]) * 0x10 + HexValue(d[3])
  }

  function Values(ps: seq<Piece>): (r: Text)
    requires PiecesOk(ps)
    ensures |r| == |ps| && forall i :: 0 <= i < |ps| ==> r[i] == PieceValue(ps[i])
  {
    seq(|ps|, i requires 0 <= i < |ps| => PieceValue(ps[i]))
  }

  /** The text of a piece, followed by `rest`; likewise below. */
  function PutPiece(p: Piece, rest: Bytes): Bytes {
    match p
    case Plain(b) => [b] + rest
    case Short(b) => [BACKSLASH, b] + rest
    case Code(d) => [BACKSLASH, 0x75] + (d + rest)
  }

  function PutPieces(ps: seq<Piece>, rest: Bytes): Bytes {
    if ps == [] then rest else PutPiece(ps[0], PutPieces(ps[1..], rest))
  }

  /** The text of a value, with its white space. */
  datatype Tree =
    | NullText
    | TrueText
    | FalseText
    | Number(minus: bool, digits: Bytes)
    | Quoted(pieces: seq<Piece>)
    | Array(gap: Bytes, items: seq<Item>)
    | Object(gap: Bytes, fields: seq<Field>)

  /** An element and the white space around it. */
  datatype Item = Item(before: Bytes, value: Tree, after: Bytes)

  datatype Field = Field(before: Bytes, key: seq<Piece>, beforeColon: Bytes, afterColon: Bytes, value: Tree, after: Bytes)

  predicate AllDigits(d: Bytes) {
    forall i :: 0 <= i < |d| ==> IsDigit(d[i])
  }

  predicate TreeOk(t: Tree) {
    match t
    case Number(_, d) => d != [] && AllDigits(d) && (d[0] == 0x30 ==> |d| == 1) && |d| <= MAX_INT_DIGITS
    case Quoted(ps) => PiecesOk(ps)
    case Array(gap, items) => AllSpace(gap) && ItemsOk(items)
    case Object(gap, fields) => AllSpace(gap) && FieldsOk(fields)
    case _ => true
  }

  predicate ItemsOk(items: seq<Item>) {
    items != [] ==> AllSpace(items[0].before) && TreeOk(items[0].value) && AllSpace(items[0].after) && ItemsOk(items[1..])
  }

  predicate FieldsOk(fields: seq<Field>) {
    fields != [] ==>
      var f := fields[0];
      && AllSpace(f.before) && PiecesOk(f.key) && AllSpace(f.beforeColon) && AllSpace(f.afterColon) && TreeOk(f.value) && AllSpace(f.after)
      && FieldsOk(fields[1..])
  }

  function Put(t: Tree, rest: Bytes): Bytes
    decreases t, 0
  {
    match t
    case NullText => NULL + rest
    case TrueText => TRUE + rest
    case FalseText => FALSE + rest
    case Number(minus, d) => if minus then [MINUS] + (d + rest) else d + rest
    case Quoted(ps) => [QUOTE] + PutPieces(ps, [QUOTE] + rest)
    case Array(gap, items) => [OPEN_ARRAY] + if items == [] then gap + ([CLOSE_ARRAY] + rest) else PutItems(items, rest)
    case Object(gap, fields) => [OPEN_OBJECT] + if fields == [] then gap + ([CLOSE_OBJECT] + rest) else PutFields(fields, rest)
  }

  /** The elements, separated by commas, and the closing bracket. */
  function PutItems(items: seq<Item>, rest: Bytes): Bytes
    requires items != []
    decreases items, 1
  {
    items[0].before + Put(items[0].value, items[0].after + AfterItem(items, rest))
  }

  function AfterItem(items: seq<Item>, rest: Bytes): Bytes
    requires items != []
    decreases items, 0
  {
    if |items| == 1 then [CLOSE_ARRAY] + rest else [COMMA] + PutItems(items[1..], rest)
  }

  function PutFields(fields: seq<Field>, rest: Bytes): Bytes
    requires fields != []
    decreases fields, 1
  {
    fields[0].before + PutField(fields[0], AfterField(fields, rest))
  }

  function PutField(f: Field, rest: Bytes): Bytes
    decreases f, 1
  {
    [QUOTE] + PutPieces(f.key, [QUOTE] + (f.beforeColon + ([COLON] + (f.afterColon + Put(f.value, f.after + rest)))))
  }

  function AfterField(fields: seq<Field>, rest: Bytes): Bytes
    requires fields != []
    decreases fields, 0
  {
    if |fields| == 1 then [CLOSE_OBJECT] + rest else [COMMA] + PutFields(fields[1..], rest)
  }

  /** The value a text denotes: a high surrogate escape directly before a low one is one code point. */
  function Value(t: Tree): Json
    requires TreeOk(t)
  {
    match t
    case NullText => Null
    case TrueText => Bool(true)
    case FalseText => Bool(false)
    case Number(minus, d) =>
      DigitsShortest(d);
      Int(if minus then 0 - DigitsValue(d) else DigitsValue(d))
    case Quoted(ps) => Str(Merge(Values(ps)))
    case Array(_, items) => Arr(ItemValues(items))
    case Object(_, fields) => Obj(FieldValues(fields))
  }

  function ItemValues(items: seq<Item>): seq<Json>
    requires ItemsOk(items)
  {
    if items == [] then [] else [Value(items[0].value)] + ItemValues(items[1..])
  }

  function FieldValues(fields: seq<Field>): seq<Member>
    requires FieldsOk(fields)
  {
    if fields == [] then []
    else [Member(Merge(Values(fields[0].key)), Value(fields[0].value))] + FieldValues(fields[1..])
  }

  /** What may follow a text without being read as part of it. */
  predicate Ends(t: Tree, rest: Bytes) {
    t.Number? && rest != [] ==>
      rest[0] != 0x2E && rest[0] != 0x65 && rest[0] != 0x45 && (t.digits != [0x30] ==> !IsDigit(rest[0]))
  }

  // Strings

  lemma CodeAt(d: Bytes, rest: Bytes)
    requires PieceOk(Code(d))
    ensures UnicodeAt(PutPiece(Code(d), rest)) == Some(PieceValue(Code(d)))
    ensures PutPiece(Code(d), rest)[6..] == rest && |PutPiece(Code(d), rest)| >= 6
  {
    var b := PutPiece(Code(d), rest);
    assert b[2..] == d + rest;
    assert b[6..] == b[2..][4..];
  }

  lemma ScanCode(d: Bytes, rest: Bytes)
    requires PieceOk(Code(d)) && (High(PieceValue(Code(d))) ==> NoLowEscape(rest))
    ensures ScanString(PutPiece(Code(d), rest)) == Prepend(PieceValue(Code(d)), ScanString(rest))
  {
    CodeAt(d, rest);
    hide UnicodeAt;
    var b := PutPiece(Code(d), rest);
    assert |rest| >= 2 ==> b[6] == rest[0] && b[7] == rest[1];
  }

  lemma ScanCodePair(d: Bytes, d': Bytes, rest: Bytes)
    requires PieceOk(Code(d)) && PieceOk(Code(d')) && High(PieceValue(Code(d))) && Low(PieceValue(Code(d')))
    ensures ScanString(PutPiece(Code(d), PutPiece(Code(d'), rest)))
         == Prepend(Combine(PieceValue(Code(d)), PieceValue(Code(d'))), ScanString(rest))
  {
    var low := PutPiece(Code(d'), rest);
    var b := PutPiece(Code(d), low);
    CodeAt(d, low);
    CodeAt(d', rest);
    hide UnicodeAt;
    assert b[6] == low[0] == BACKSLASH && b[7] == low[1] == 0x75;
    assert b[12..] == low[6..];
  }

  lemma ScanOther(p: Piece, rest: Bytes)
    requires PieceOk(p) && !p.Code?
    ensures ScanString(PutPiece(p, rest)) == Prepend(PieceValue(p), ScanString(rest)) && !High(PieceValue(p)) && !Low(PieceValue(p))
  {
    var b := PutPiece(p, rest);
    assert b[if p.Plain? then 1 else 2..] == rest;
  }

  /** What follows a high surrogate escape that is not to be merged. */
  lemma NextPiece(ps: seq<Piece>, rest: Bytes)
    requires PiecesOk(ps) && (ps != [] && ps[0].Code? ==> !Low(PieceValue(ps[0])))
    ensures NoLowEscape(PutPieces(ps, [QUOTE] + rest))
  {
    if ps != [] && ps[0].Code? {
      CodeAt(ps[0].digits, PutPieces(ps[1..], [QUOTE] + rest));
    }
  }

  lemma MergeFirst(ps: seq<Piece>)
    requires ps != [] && PiecesOk(ps)
    ensures PiecesOk(ps[1..]) && Values(ps) == [PieceValue(ps[0])] + Values(ps[1..])
    ensures !(|ps| >= 2 && High(PieceValue(ps[0])) && Low(PieceValue(ps[1]))) ==>
              Merge(Values(ps)) == [PieceValue(ps[0])] + Merge(Values(ps[1..]))
  {
    assert Values(ps)[1..] == Values(ps[1..]);
  }

  /** The scanner reads the text of a string. */
  lemma {:induction false} ScanPieces(ps: seq<Piece>, rest: Bytes)
    requires PiecesOk(ps)
    ensures ScanString(PutPieces(ps, [QUOTE] + rest)) == Ok(Scan(Merge(Values(ps)), rest))
    decreases |ps|
  {
    hide ScanString, PutPiece, PieceOk, PieceValue, NoLowEscape;
    var end := [QUOTE] + rest;
    if ps == [] {
      ScanEnd(rest);
    } else {
      var tail := PutPieces(ps[1..], end);
      MergeFirst(ps);
      if |ps| >= 2 && High(PieceValue(ps[0])) && Low(PieceValue(ps[1])) {
        ScanPair2(ps, end);
        ScanPieces(ps[2..], rest);
        assert Values(ps)[2..] == Values(ps[2..]);
      } else {
        ScanPieces(ps[1..], rest);
        if ps[0].Code? {
          if High(PieceValue(ps[0])) {
            NextPiece(ps[1..], rest);
          }
          ScanCode(ps[0].digits, tail);
        } else {
          ScanOther(ps[0], tail);
        }
      }
    }
  }

  lemma ScanPair2(ps: seq<Piece>, end: Bytes)
    requires PiecesOk(ps) && |ps| >= 2 && High(PieceValue(ps[0])) && Low(PieceValue(ps[1]))
    ensures ScanString(PutPieces(ps, end))
         == Prepend(Combine(PieceValue(ps[0]), PieceValue(ps[1])), ScanString(PutPieces(ps[2..], end)))
  {
    hide ScanString, PutPiece, PieceOk, PieceValue;
    if !ps[0].Code? { ScanOther(ps[0], []); }
    if !ps[1].Code? { ScanOther(ps[1], []); }
    ScanCodePair(ps[0].digits, ps[1].digits, PutPieces(ps[2..], end));
    assert ps[1..][1..] == ps[2..];
  }

  lemma HexRead(b: Byte)
    ensures FromHexDigit(b) == if IsHex(b) then Some(HexValue(b)) else None
  {
  }

  lemma CodeFound(b: Bytes)
    requires UnicodeAt(b).Some?
    ensures |b| >= 6 && PieceOk(Code(b[2..6])) && PutPiece(Code(b[2..6]), b[6..]) == b
  {
    HexRead(b[2]);
    HexRead(b[3]);
    HexRead(b[4]);
    HexRead(b[5]);
    hide FromHexDigit;
    assert b[2..][0] == b[2] && b[2..][1] == b[3] && b[2..][2] == b[4] && b[2..][3] == b[5];
    assert b == b[..2] + (b[2..6] + b[6..]) && b[..2] == [BACKSLASH, 0x75];
  }

  /** Whatever the scanner reads is the text of a string. */
  lemma {:induction false} PiecesRead(b: Bytes) returns (ps: seq<Piece>)
    requires ScanString(b).Ok?
    ensures PiecesOk(ps) && b == PutPieces(ps, [QUOTE] + ScanString(b).value.rest)
    decreases |b|
  {
    if b[0] == QUOTE {
      ps := [];
    } else {
      var p, n := FirstPiece(b);
      var more := PiecesRead(b[n..]);
      ps := [p] + more;
      hide PutPiece, PieceOk;
      assert ps[1..] == more;
    }
  }

  /** The first piece the scanner reads, and where it goes on; a merged pair is read as two pieces. */
  lemma FirstPiece(b: Bytes) returns (p: Piece, n: nat)
    requires ScanString(b).Ok? && b[0] != QUOTE
    ensures 0 < n <= |b| && PieceOk(p) && b == PutPiece(p, b[n..])
    ensures ScanString(b[n..]).Ok? && ScanString(b[n..]).value.rest == ScanString(b).value.rest
  {
    if b[0] != BACKSLASH {
      p, n := Plain(b[0]), 1;
    } else if b[1] != 0x75 {
      p, n := Short(b[1]), 2;
      assert b == [b[0], b[1]] + b[2..];
    } else {
      CodeFound(b);
      p, n := Code(b[2..6]), 6;
      var next := b[6..];
      if High(UnicodeAt(b).value) && |b| >= 8 && b[6] == BACKSLASH && b[7] == 0x75 && Low(UnicodeAt(next).value) {
        assert b[12..] == next[6..];
        LowAlone(next);
      }
    }
  }

  lemma LowAlone(b: Bytes)
    requires UnicodeAt(b).Some? && Low(UnicodeAt(b).value)
    ensures ScanString(b) == Prepend(UnicodeAt(b).value, ScanString(b[6..]))
  {
  }

  // White space and heads

  predicate StartsSolid(b: Bytes) {
    b != [] && !IsSpace(b[0])
  }

  lemma SkipTo(gap: Bytes, rest: Bytes)
    requires AllSpace(gap) && StartsSolid(rest)
    ensures SkipSpace(gap + rest) == rest
  {
    SkipSpaces(gap, rest);
  }

  lemma {:induction false} SkipSplit(b: Bytes) returns (gap: Bytes)
    ensures AllSpace(gap) && b == gap + SkipSpace(b)
  {
    if b != [] && IsSpace(b[0]) {
      var more := SkipSplit(b[1..]);
      gap := [b[0]] + more;
      assert b == [b[0]] + b[1..];
    } else {
      gap := [];
    }
  }

  /** How the text of a value starts. */
  lemma PutHead(t: Tree, rest: Bytes)
    requires TreeOk(t)
    ensures var b := Put(t, rest);
            StartsSolid(b) && b[0] != CLOSE_ARRAY && b[0] != CLOSE_OBJECT && b[0] != COMMA && (t.Number? ==> b[0] == MINUS || IsDigit(b[0]))
  {
    hide PutPieces, PutItems, PutFields;
  }

  /** White space, a comma or a bracket ends every text. */
  lemma GapEnds(t: Tree, gap: Bytes, rest: Bytes)
    requires AllSpace(gap) && (gap == [] ==> rest != [] && (rest[0] == COMMA || rest[0] == CLOSE_ARRAY || rest[0] == CLOSE_OBJECT))
    ensures Ends(t, gap + rest)
  {
    if gap != [] {
      assert (gap + rest)[0] == gap[0];
    } else {
      assert gap + rest == rest;
    }
  }

  // Every text is read

  lemma ReadDigits(d: Bytes, rest: Bytes)
    requires d != [] && AllDigits(d) && (d[0] == 0x30 ==> |d| == 1) && |d| <= MAX_INT_DIGITS
    requires rest != [] ==> rest[0] != 0x2E && rest[0] != 0x65 && rest[0] != 0x45 && (d != [0x30] ==> !IsDigit(rest[0]))
    ensures ParseDigits(d + rest) == Ok(Scan(DigitsValue(d), rest))
  {
    var b := d + rest;
    assert b[0] == d[0];
    if d[0] == 0x30 {
      assert d == [0x30];
    } else {
      DigitRunOf(d, rest);
    }
    hide DigitsValue, DigitRun;
    assert b[..|d|] == d && b[|d|..] == rest;
  }

  lemma ReadNumber(minus: bool, d: Bytes, rest: Bytes)
    requires TreeOk(Number(minus, d)) && Ends(Number(minus, d), rest)
    ensures ParseValue(Put(Number(minus, d), rest)) == Ok(Scan(Value(Number(minus, d)), rest))
  {
    hide ParseDigits, DigitsValue, ParseNumber;
    var b := Put(Number(minus, d), rest);
    ReadSigned(minus, d, rest);
    assert IsDigit(d[0]) && b[0] == if minus then MINUS else d[0];
  }

  lemma ReadSigned(minus: bool, d: Bytes, rest: Bytes)
    requires TreeOk(Number(minus, d)) && Ends(Number(minus, d), rest)
    ensures ParseNumber(if minus then [MINUS] + (d + rest) else d + rest) == Ok(Scan(Value(Number(minus, d)), rest))
  {
    ReadDigits(d, rest);
    hide ParseDigits, DigitsValue;
    var b := d + rest;
    assert IsDigit(d[0]) && b[0] == d[0];
    assert ([MINUS] + b)[1..] == b;
  }

  lemma ReadScalar(t: Tree, rest: Bytes)
    requires TreeOk(t) && Ends(t, rest) && !t.Array? && !t.Object?
    ensures ParseValue(Put(t, rest)) == Ok(Scan(Value(t), rest))
  {
    match t
    case Number(minus, d) => ReadNumber(minus, d, rest);
    case Quoted(ps) =>
      ScanPieces(ps, rest);
      hide ScanString, PutPieces, Merge, Values;
      var b := PutPieces(ps, [QUOTE] + rest);
      assert ([QUOTE] + b)[1..] == b;
    case NullText => assert (NULL + rest)[|NULL|..] == rest;
    case TrueText => assert (TRUE + rest)[|TRUE|..] == rest;
    case FalseText => assert (FALSE + rest)[|FALSE|..] == rest;
  }

  /** The parser reads the text of every value, and stops right behind it. */
  lemma {:induction false} ReadTree(t: Tree, rest: Bytes)
    requires TreeOk(t) && Ends(t, rest)
    ensures ParseValue(Put(t, rest)) == Ok(Scan(Value(t), rest))
    decreases t, 0
  {
    match t
    case Array(gap, items) =>
      hide ParseItems, PutItems, SkipSpace, ItemValues;
      if items == [] {
        ReadEmpty(gap, rest);
        NoValues();
      } else {
        ReadItems(items, rest);
        ItemsStart(items, rest);
        var c := PutItems(items, rest);
        assert ([OPEN_ARRAY] + c)[1..] == c;
      }
    case Object(gap, fields) =>
      hide ParseMembers, PutFields, SkipSpace, FieldValues;
      if fields == [] {
        ReadEmpty(gap, rest);
        NoValues();
      } else {
        ReadFields(fields, rest);
        FieldsStart(fields, rest);
        var c := PutFields(fields, rest);
        assert ([OPEN_OBJECT] + c)[1..] == c;
      }
    case _ => ReadScalar(t, rest);
  }

  lemma NoValues()
    ensures ItemValues([]) == [] && FieldValues([]) == []
  {
  }

  lemma ReadEmpty(gap: Bytes, rest: Bytes)
    requires AllSpace(gap)
    ensures ParseValue([OPEN_ARRAY] + (gap + ([CLOSE_ARRAY] + rest))) == Ok(Scan(Arr([]), rest))
    ensures ParseValue([OPEN_OBJECT] + (gap + ([CLOSE_OBJECT] + rest))) == Ok(Scan(Obj([]), rest))
  {
    SkipTo(gap, [CLOSE_ARRAY] + rest);
    SkipTo(gap, [CLOSE_OBJECT] + rest);
    hide SkipSpace;
    var c, d := gap + ([CLOSE_ARRAY] + rest), gap + ([CLOSE_OBJECT] + rest);
    assert ([OPEN_ARRAY] + c)[1..] == c && ([OPEN_OBJECT] + d)[1..] == d;
    assert ([CLOSE_ARRAY] + rest)[1..] == rest && ([CLOSE_OBJECT] + rest)[1..] == rest;
  }

  lemma ItemsStart(items: seq<Item>, rest: Bytes)
    requires items != [] && ItemsOk(items)
    ensures var c := SkipSpace(PutItems(items, rest));
            c == Put(items[0].value, items[0].after + AfterItem(items, rest)) && !StartsWith(c, CLOSE_ARRAY)
  {
    hide Put, AfterItem;
    PutHead(items[0].value, items[0].after + AfterItem(items, rest));
    SkipTo(items[0].before, Put(items[0].value, items[0].after + AfterItem(items, rest)));
  }

  lemma AfterItemHead(items: seq<Item>, rest: Bytes)
    requires items != []
    ensures var b := AfterItem(items, rest);
            StartsSolid(b) && (b[0] == COMMA || b[0] == CLOSE_ARRAY)
            && (|items| == 1 <==> b[0] == CLOSE_ARRAY) && b[1..] == if |items| == 1 then rest else PutItems(items[1..], rest)
  {
    hide PutItems;
  }

  lemma {:induction false} ReadItems(items: seq<Item>, rest: Bytes)
    requires items != [] && ItemsOk(items)
    ensures ParseItems(SkipSpace(PutItems(items, rest))) == Ok(Scan(ItemValues(items), rest))
    decreases items, 1
  {
    hide ParseValue, SkipSpace, Put, PutItems, AfterItem, Value, Ends;
    var i := items[0];
    var tail := AfterItem(items, rest);
    ItemsStart(items, rest);
    AfterItemHead(items, rest);
    GapEnds(i.value, i.after, tail);
    ReadTree(i.value, i.after + tail);
    SkipTo(i.after, tail);
    if |items| == 1 {
      assert items[1..] == [];
      NoValues();
      assert ItemValues(items) == [Value(i.value)];
    } else {
      ReadItems(items[1..], rest);
    }
  }

  lemma FieldsStart(fields: seq<Field>, rest: Bytes)
    requires fields != [] && FieldsOk(fields)
    ensures var c := SkipSpace(PutFields(fields, rest));
            c == PutField(fields[0], AfterField(fields, rest)) && StartsWith(c, QUOTE)
  {
    hide PutPieces, Put, AfterField;
    SkipTo(fields[0].before, PutField(fields[0], AfterField(fields, rest)));
  }

  lemma AfterFieldHead(fields: seq<Field>, rest: Bytes)
    requires fields != []
    ensures var b := AfterField(fields, rest);
            StartsSolid(b) && (b[0] == COMMA || b[0] == CLOSE_OBJECT)
            && (|fields| == 1 <==> b[0] == CLOSE_OBJECT) && b[1..] == if |fields| == 1 then rest else PutFields(fields[1..], rest)
  {
    hide PutFields;
  }

  lemma {:induction false} ReadField(f: Field, tail: Bytes)
    requires PiecesOk(f.key) && AllSpace(f.beforeColon) && AllSpace(f.afterColon) && TreeOk(f.value) && AllSpace(f.after)
    requires tail != [] && (tail[0] == COMMA || tail[0] == CLOSE_OBJECT)
    ensures ParseMember(PutField(f, tail)) == Ok(Scan(Member(Merge(Values(f.key)), Value(f.value)), f.after + tail))
    decreases f, 1
  {
    hide ParseValue, SkipSpace, ScanString, Put, PutPieces, Value, Merge, Values, Ends;
    var value := Put(f.value, f.after + tail);
    var colon := [COLON] + (f.afterColon + value);
    var key := PutPieces(f.key, [QUOTE] + (f.beforeColon + colon));
    GapEnds(f.value, f.after, tail);
    ReadTree(f.value, f.after + tail);
    PutHead(f.value, f.after + tail);
    ScanPieces(f.key, f.beforeColon + colon);
    SkipTo(f.beforeColon, colon);
    SkipTo(f.afterColon, value);
    assert ([QUOTE] + key)[1..] == key && colon[1..] == f.afterColon + value;
  }

  lemma {:induction false} ReadFields(fields: seq<Field>, rest: Bytes)
    requires fields != [] && FieldsOk(fields)
    ensures ParseMembers(SkipSpace(PutFields(fields, rest))) == Ok(Scan(FieldValues(fields), rest))
    decreases fields, 2
  {
    hide ParseMember, SkipSpace, PutField, PutFields, AfterField, Value, Merge, Values;
    var f := fields[0];
    var tail := AfterField(fields, rest);
    FieldsStart(fields, rest);
    AfterFieldHead(fields, rest);
    ReadField(f, tail);
    SkipTo(f.after, tail);
    if |fields| == 1 {
      assert fields[1..] == [];
      NoValues();
      assert FieldValues(fields) == [Member(Merge(Values(f.key)), Value(f.value))];
    } else {
      ReadFields(fields[1..], rest);
    }
  }

  // Whatever is read is a text

  lemma DigitsRead(b: Bytes) returns (d: Bytes)
    requires ParseDigits(b).Ok?
    ensures var rest := ParseDigits(b).value.rest;
            && b == d + rest && TreeOk(Number(false, d)) && Ends(Number(false, d), rest)
  {
    var n := if StartsWith(b, 0x30) then 1 else DigitRun(b);
    d := b[..n];
    assert b == d + b[n..];
    hide DigitRun, DigitsValue;
  }

  lemma NumberRead(b: Bytes) returns (t: Tree)
    requires ParseNumber(b).Ok?
    ensures var rest := ParseNumber(b).value.rest;
            TreeOk(t) && Ends(t, rest) && b == Put(t, rest)
  {
    hide ParseDigits, DigitsValue;
    if StartsWith(b, MINUS) {
      var d := DigitsRead(b[1..]);
      t := Number(true, d);
      assert b == [MINUS] + b[1..];
    } else {
      var d := DigitsRead(b);
      t := Number(false, d);
    }
  }

  lemma ScalarRead(b: Bytes) returns (t: Tree)
    requires ParseValue(b).Ok? && b[0] != OPEN_ARRAY && b[0] != OPEN_OBJECT
    ensures var rest := ParseValue(b).value.rest;
            TreeOk(t) && Ends(t, rest) && b == Put(t, rest)
  {
    hide ParseNumber, ScanString, PutPieces;
    if b[0] == QUOTE {
      var ps := PiecesRead(b[1..]);
      t := Quoted(ps);
      assert b == [QUOTE] + b[1..];
    } else if b[0] == NULL[0] {
      t := NullText;
    } else if b[0] == TRUE[0] {
      t := TrueText;
    } else if b[0] == FALSE[0] {
      t := FalseText;
    } else {
      t := NumberRead(b);
    }
  }

  /** Whatever the parser reads is the text of a value. */
  lemma {:induction false} TreeRead(b: Bytes) returns (t: Tree)
    requires ParseValue(b).Ok?
    ensures var rest := ParseValue(b).value.rest;
            TreeOk(t) && Ends(t, rest) && b == Put(t, rest)
    decreases |b|, 0
  {
    hide ParseItems, ParseMembers, SkipSpace, PutItems, PutFields;
    if b[0] == OPEN_ARRAY {
      var gap := SkipSplit(b[1..]);
      var c := SkipSpace(b[1..]);
      assert b == [OPEN_ARRAY] + b[1..];
      if StartsWith(c, CLOSE_ARRAY) {
        t := Array(gap, []);
        assert c == [CLOSE_ARRAY] + c[1..];
      } else {
        var items := ItemsRead(gap, c);
        t := Array([], items);
      }
    } else if b[0] == OPEN_OBJECT {
      var gap := SkipSplit(b[1..]);
      var c := SkipSpace(b[1..]);
      assert b == [OPEN_OBJECT] + b[1..];
      if StartsWith(c, CLOSE_OBJECT) {
        t := Object(gap, []);
        assert c == [CLOSE_OBJECT] + c[1..];
      } else {
        var fields := FieldsRead(gap, c);
        t := Object([], fields);
      }
    } else {
      t := ScalarRead(b);
    }
  }

  lemma {:induction false} ItemsRead(gap: Bytes, b: Bytes) returns (items: seq<Item>)
    requires AllSpace(gap) && ParseItems(b).Ok?
    ensures items != [] && ItemsOk(items) && gap + b == PutItems(items, ParseItems(b).value.rest)
    decreases |b|, 1
  {
    hide ParseValue, SkipSpace, Put, TreeOk;
    var s := ParseValue(b).value;
    var rest := ParseItems(b).value.rest;
    var t := TreeRead(b);
    var after := SkipSplit(s.rest);
    var c := SkipSpace(s.rest);
    if StartsWith(c, CLOSE_ARRAY) {
      items := [Item(gap, t, after)];
      assert c == [CLOSE_ARRAY] + rest;
      assert items[1..] == [];
    } else {
      var next := SkipSplit(c[1..]);
      var more := ItemsRead(next, SkipSpace(c[1..]));
      items := [Item(gap, t, after)] + more;
      assert items[1..] == more;
      assert c == [COMMA] + c[1..];
    }
  }

  lemma {:induction false} FieldRead(b: Bytes) returns (f: Field)
    requires ParseMember(b).Ok?
    ensures f.before == [] && f.after == [] && PiecesOk(f.key) && AllSpace(f.beforeColon) && AllSpace(f.afterColon) && TreeOk(f.value)
    ensures b == PutField(f, ParseMember(b).value.rest)
    decreases |b|, 0
  {
    hide ParseValue, SkipSpace, ScanString, Put, PutPieces, TreeOk, PieceOk;
    var k := ScanString(b[1..]).value;
    var key := PiecesRead(b[1..]);
    var beforeColon := SkipSplit(k.rest);
    var c := SkipSpace(k.rest);
    var afterColon := SkipSplit(c[1..]);
    var v := TreeRead(SkipSpace(c[1..]));
    f := Field([], key, beforeColon, afterColon, v, []);
    var rest := ParseMember(b).value.rest;
    assert b == [QUOTE] + b[1..] && c == [COLON] + c[1..] && [] + rest == rest;
  }

  lemma {:induction false} FieldsRead(gap: Bytes, b: Bytes) returns (fields: seq<Field>)
    requires AllSpace(gap) && ParseMembers(b).Ok?
    ensures fields != [] && FieldsOk(fields) && gap + b == PutFields(fields, ParseMembers(b).value.rest)
    decreases |b|, 1
  {
    hide ParseMember, SkipSpace, PutField, TreeOk, PieceOk;
    var s := ParseMember(b).value;
    var rest := ParseMembers(b).value.rest;
    var f := FieldRead(b);
    var after := SkipSplit(s.rest);
    var c := SkipSpace(s.rest);
    FieldAfter(f, after, c);
    var first := f.(before := gap, after := after);
    if StartsWith(c, CLOSE_OBJECT) {
      fields := [first];
      assert c == [CLOSE_OBJECT] + rest;
      assert fields[1..] == [];
    } else {
      var next := SkipSplit(c[1..]);
      var more := FieldsRead(next, SkipSpace(c[1..]));
      fields := [first] + more;
      assert fields[1..] == more;
      assert c == [COMMA] + c[1..];
    }
  }

  lemma FieldAfter(f: Field, after: Bytes, c: Bytes)
    requires f.after == []
    ensures forall before :: PutField(f.(before := before, after := after), c) == PutField(f, after + c)
  {
    assert [] + (after + c) == after + c;
    hide Put, PutPieces;
  }

  /** `json.loads` accepts exactly the documents of the grammar, and gives the value they denote. */
  lemma LoadsIff(b: Bytes, v: Json)
    ensures Loads(b) == Ok(v) <==>
            exists before: Bytes, t: Tree, after: Bytes ::
              AllSpace(before) && TreeOk(t) && AllSpace(after) && b == before + Put(t, after) && Value(t) == v
  {
    hide ParseValue, SkipSpace, Put, Value, TreeOk, Ends;
    if Loads(b) == Ok(v) {
      var before := SkipSplit(b);
      var t := TreeRead(SkipSpace(b));
      var after := ParseValue(SkipSpace(b)).value.rest;
      SkippedSpaces(after);
      ReadTree(t, after);
      assert b == before + Put(t, after) && Value(t) == v;
    }
    forall before: Bytes, t: Tree, after: Bytes
      | AllSpace(before) && TreeOk(t) && AllSpace(after) && b == before + Put(t, after) && Value(t) == v
      ensures Loads(b) == Ok(v)
    {
      PutHead(t, after);
      SkipTo(before, Put(t, after));
      SpaceEnds(t, after);
      ReadTree(t, after);
      SkippedSpaces(after);
    }
  }

  lemma SpaceEnds(t: Tree, after: Bytes)
    requires AllSpace(after)
    ensures Ends(t, after)
  {
    if after != [] {
      assert after[0] in {0x20, 0x09, 0x0A, 0x0D};
    }
  }
}
