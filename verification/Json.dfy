/** JSON values: `json.dumps` with compact separators, and `json.loads` on ASCII text without
    floating-point numbers (RFC 8259). */
module Json {
  import opened Basics
  import opened JsonText

  /** An integer short enough for Python to print and to read back. */
  type PyInt = n: int | |Digits(if n < 0 then -n else n)| <= MAX_INT_DIGITS witness 0

  datatype Member = Member(key: Text, value: Json)

  datatype Json =
    | Null
    | Bool(b: bool)
    | Int(n: PyInt)
    | Str(s: Text)
    | Arr(items: seq<Json>)
    | Obj(members: seq<Member>)

  const COMMA: Byte := 0x2C
  const COLON: Byte := 0x3A
  const OPEN_ARRAY: Byte := 0x5B
  const CLOSE_ARRAY: Byte := 0x5D
  const OPEN_OBJECT: Byte := 0x7B
  const CLOSE_OBJECT: Byte := 0x7D
  const MINUS: Byte := 0x2D
  const NULL: Bytes := [0x6E, 0x75, 0x6C, 0x6C]
  const TRUE: Bytes := [0x74, 0x72, 0x75, 0x65]
  const FALSE: Bytes := [0x66, 0x61, 0x6C, 0x73, 0x65]

  function DumpString(s: Text): Bytes {
    [QUOTE] + EscapeAll(s) + [QUOTE]
  }

  function DumpInt(n: PyInt): Bytes {
    if n < 0 then [MINUS] + Digits(-n) else Digits(n)
  }

  function Dump(v: Json): Bytes {
    match v
    case Null => NULL
    case Bool(b) => if b then TRUE else FALSE
    case Int(n) => DumpInt(n)
    case Str(s) => DumpString(s)
    case Arr(items) => [OPEN_ARRAY] + DumpItems(items) + [CLOSE_ARRAY]
    case Obj(members) => [OPEN_OBJECT] + DumpMembers(members) + [CLOSE_OBJECT]
  }

  function DumpItems(items: seq<Json>): Bytes {
    if items == [] then []
    else if |items| == 1 then Dump(items[0])
    else Dump(items[0]) + [COMMA] + DumpItems(items[1..])
  }

  function DumpMember(m: Member): Bytes {
    DumpString(m.key) + [COLON] + Dump(m.value)
  }

  function DumpMembers(members: seq<Member>): Bytes {
    if members == [] then []
    else if |members| == 1 then DumpMember(members[0])
    else DumpMember(members[0]) + [COMMA] + DumpMembers(members[1..])
  }

  predicate IsSpace(b: Byte) {
    b == 0x20 || b == 0x09 || b == 0x0A || b == 0x0D
  }

  function SkipSpace(b: Bytes): (r: Bytes)
    ensures |r| <= |b|
  {
    if b != [] && IsSpace(b[0]) then SkipSpace(b[1..]) else b
  }

  predicate StartsWith(b: Bytes, c: Byte) {
    b != [] && b[0] == c
  }

  /** A number may not be followed by these: it would go on. */
  predicate ContinuesNumber(b: Bytes) {
    b != [] && (IsDigit(b[0]) || b[0] == 0x2E || b[0] == 0x65 || b[0] == 0x45)
  }

  /** How parsing can fail. */
  predicate ParseError(e: Error) {
    e == FormatError || e == Unmodelled
  }

  function ParseDigits(d: Bytes): (r: Result<Scan<nat>>)
    ensures r.Ok? ==> |r.value.rest| < |d|
    ensures r.Ok? ==> |Digits(r.value.value)| <= MAX_INT_DIGITS
    ensures r.Err? ==> ParseError(r.error)
  {
    var n := if StartsWith(d, 0x30) then 1 else DigitRun(d);
    if n == 0 then Err(if StartsWith(d, 0x49) then Unmodelled else FormatError)
    else if n < |d| && (d[n] == 0x2E || d[n] == 0x65 || d[n] == 0x45) then Err(Unmodelled)
    else if n > MAX_INT_DIGITS then Err(Unmodelled)
    else
      DigitsShortest(d[..n]);
      Ok(Scan(DigitsValue(d[..n]), d[n..]))
  }

  function ParseNumber(b: Bytes): (r: Result<Scan<Json>>)
    ensures r.Ok? ==> |r.value.rest| < |b|
    ensures r.Err? ==> ParseError(r.error)
  {
    if StartsWith(b, MINUS) then
      var d :- ParseDigits(b[1..]);
      Ok(Scan(Int(0 - d.value), d.rest))
    else
      var d :- ParseDigits(b);
      Ok(Scan(Int(d.value), d.rest))
  }

  function ParseLiteral(b: Bytes, text: Bytes, v: Json): (r: Result<Scan<Json>>)
    requires text != []
    ensures r.Ok? ==> |r.value.rest| < |b|
    ensures r.Err? ==> ParseError(r.error)
  {
    if text <= b then Ok(Scan(v, b[|text|..])) else Err(FormatError)
  }

  function ParseValue(b: Bytes): (r: Result<Scan<Json>>)
    ensures r.Ok? ==> |r.value.rest| < |b|
    ensures r.Err? ==> ParseError(r.error)
    decreases |b|, 0
  {
    if b == [] then Err(FormatError)
    else if b[0] == QUOTE then
      var s :- ScanString(b[1..]);
      Ok(Scan(Str(s.value), s.rest))
    else if b[0] == OPEN_ARRAY then
      var c := SkipSpace(b[1..]);
      if StartsWith(c, CLOSE_ARRAY) then Ok(Scan(Arr([]), c[1..]))
      else
        var s :- ParseItems(c);
        Ok(Scan(Arr(s.value), s.rest))
    else if b[0] == OPEN_OBJECT then
      var c := SkipSpace(b[1..]);
      if StartsWith(c, CLOSE_OBJECT) then Ok(Scan(Obj([]), c[1..]))
      else
        var s :- ParseMembers(c);
        Ok(Scan(Obj(s.value), s.rest))
    else if b[0] == NULL[0] then ParseLiteral(b, NULL, Null)
    else if b[0] == TRUE[0] then ParseLiteral(b, TRUE, Bool(true))
    else if b[0] == FALSE[0] then ParseLiteral(b, FALSE, Bool(false))
    else if b[0] == 0x4E || b[0] == 0x49 then Err(Unmodelled)
    else ParseNumber(b)
  }

  /** The rest of an array, from its first element on. */
  function ParseItems(b: Bytes): (r: Result<Scan<seq<Json>>>)
    ensures r.Ok? ==> |r.value.rest| < |b|
    ensures r.Err? ==> ParseError(r.error)
    decreases |b|, 1
  {
    var s :- ParseValue(b);
    var c := SkipSpace(s.rest);
    if StartsWith(c, CLOSE_ARRAY) then Ok(Scan([s.value], c[1..]))
    else if StartsWith(c, COMMA) then
      var t :- ParseItems(SkipSpace(c[1..]));
      Ok(Scan([s.value] + t.value, t.rest))
    else Err(FormatError)
  }

  function ParseMember(b: Bytes): (r: Result<Scan<Member>>)
    ensures r.Ok? ==> |r.value.rest| < |b|
    ensures r.Err? ==> ParseError(r.error)
    decreases |b|, 0
  {
    if !StartsWith(b, QUOTE) then Err(FormatError)
    else
      var k :- ScanString(b[1..]);
      var c := SkipSpace(k.rest);
      if !StartsWith(c, COLON) then Err(FormatError)
      else
        var s :- ParseValue(SkipSpace(c[1..]));
        Ok(Scan(Member(k.value, s.value), s.rest))
  }

  /** The rest of an object, from its first key on. */
  function ParseMembers(b: Bytes): (r: Result<Scan<seq<Member>>>)
    ensures r.Ok? ==> |r.value.rest| < |b|
    ensures r.Err? ==> ParseError(r.error)
    decreases |b|, 1
  {
    var s :- ParseMember(b);
    var c := SkipSpace(s.rest);
    if StartsWith(c, CLOSE_OBJECT) then Ok(Scan([s.value], c[1..]))
    else if StartsWith(c, COMMA) then
      var t :- ParseMembers(SkipSpace(c[1..]));
      Ok(Scan([s.value] + t.value, t.rest))
    else Err(FormatError)
  }

  function Loads(b: Bytes): (r: Result<Json>)
    ensures r.Err? ==> ParseError(r.error)
  {
    var s :- ParseValue(SkipSpace(b));
    if SkipSpace(s.rest) == [] then Ok(s.value) else Err(FormatError)
  }

  /** The value with every string's surrogate pairs merged. */
  function MergeJson(v: Json): Json {
    match v
    case Str(s) => Str(Merge(s))
    case Arr(items) => Arr(MergeItems(items))
    case Obj(members) => Obj(MergeMembers(members))
    case _ => v
  }

  function MergeItems(items: seq<Json>): seq<Json> {
    if items == [] then [] else [MergeJson(items[0])] + MergeItems(items[1..])
  }

  function MergeMembers(members: seq<Member>): seq<Member> {
    if members == [] then []
    else [Member(Merge(members[0].key), MergeJson(members[0].value))] + MergeMembers(members[1..])
  }

  lemma {:induction false} DigitRunOf(digits: Bytes, rest: Bytes)
    requires forall i :: 0 <= i < |digits| ==> IsDigit(digits[i])
    requires rest == [] || !IsDigit(rest[0])
    ensures DigitRun(digits + rest) == |digits|
  {
    if digits == [] {
      assert digits + rest == rest;
    } else {
      assert IsDigit(digits[0]);
      assert (digits + rest)[1..] == digits[1..] + rest;
      DigitRunOf(digits[1..], rest);
    }
  }

  lemma ParseDumpNat(n: nat, rest: Bytes)
    requires !ContinuesNumber(rest) && |Digits(n)| <= MAX_INT_DIGITS
    ensures ParseDigits(Digits(n) + rest) == Ok(Scan(n, rest)) && !StartsWith(Digits(n) + rest, MINUS)
  {
    var d := Digits(n) + rest;
    DigitRunOf(Digits(n), rest);
    DigitsRoundTrip(n);
    hide Digits, DigitRun, DigitsValue;
    assert IsDigit(Digits(n)[0]);
    assert d[..|Digits(n)|] == Digits(n) && d[|Digits(n)|..] == rest;
  }

  lemma ParseDumpInt(n: PyInt, rest: Bytes)
    requires !ContinuesNumber(rest)
    ensures ParseNumber(DumpInt(n) + rest) == Ok(Scan(Int(n), rest))
  {
    hide Digits, ParseDigits;
    if n < 0 {
      var m: int := n;
      ParseDumpNat(-m, rest);
      assert DumpInt(n) + rest == [MINUS] + (Digits(-m) + rest);
      assert (DumpInt(n) + rest)[1..] == Digits(-m) + rest;
    } else {
      ParseDumpNat(n, rest);
    }
  }

  /** The first byte of a dumped value tells which kind it is. */
  predicate HeadOf(v: Json, c: Byte) {
    match v
    case Null => c == NULL[0]
    case Bool(b) => c == if b then TRUE[0] else FALSE[0]
    case Int(_) => c == MINUS || IsDigit(c)
    case Str(_) => c == QUOTE
    case Arr(_) => c == OPEN_ARRAY
    case Obj(_) => c == OPEN_OBJECT
  }

  lemma DumpHead(v: Json)
    ensures Dump(v) != [] && HeadOf(v, Dump(v)[0])
  {
    if v.Int? && v.n >= 0 {
      assert IsDigit(Digits(v.n)[0]);
    }
  }

  lemma DumpItemsHead(items: seq<Json>, rest: Bytes)
    requires items != []
    ensures SkipSpace(DumpItems(items) + rest) == DumpItems(items) + rest
    ensures !StartsWith(DumpItems(items) + rest, CLOSE_ARRAY)
  {
    DumpHead(items[0]);
  }

  lemma DumpMembersHead(members: seq<Member>, rest: Bytes)
    requires members != []
    ensures SkipSpace(DumpMembers(members) + rest) == DumpMembers(members) + rest
    ensures StartsWith(DumpMembers(members) + rest, QUOTE)
  {
  }

  lemma ParseScalar(v: Json, rest: Bytes)
    requires !ContinuesNumber(rest) && !v.Arr? && !v.Obj?
    ensures ParseValue(Dump(v) + rest) == Ok(Scan(MergeJson(v), rest))
  {
    hide Digits, ParseNumber, DumpInt, ScanString, EscapeAll;
    DumpHead(v);
    var b := Dump(v) + rest;
    match v
    case Null => assert b[|NULL|..] == rest;
    case Bool(t) => assert b[|(if t then TRUE else FALSE)|..] == rest;
    case Int(n) => ParseDumpInt(n, rest);
    case Str(s) =>
      assert b[1..] == EscapeAll(s) + ([QUOTE] + rest);
      ScanEscaped(s, rest);
  }

  lemma ParseArray(c: Bytes, items: seq<Json>, rest: Bytes)
    requires SkipSpace(c) == c && !StartsWith(c, CLOSE_ARRAY) && ParseItems(c) == Ok(Scan(items, rest))
    ensures ParseValue([OPEN_ARRAY] + c) == Ok(Scan(Arr(items), rest))
  {
    hide ParseItems, SkipSpace;
    assert ([OPEN_ARRAY] + c)[1..] == c;
  }

  lemma ParseObject(c: Bytes, members: seq<Member>, rest: Bytes)
    requires SkipSpace(c) == c && !StartsWith(c, CLOSE_OBJECT) && ParseMembers(c) == Ok(Scan(members, rest))
    ensures ParseValue([OPEN_OBJECT] + c) == Ok(Scan(Obj(members), rest))
  {
    hide ParseMembers, SkipSpace;
    assert ([OPEN_OBJECT] + c)[1..] == c;
  }

  lemma ParseEmpty(rest: Bytes)
    ensures ParseValue([OPEN_ARRAY, CLOSE_ARRAY] + rest) == Ok(Scan(Arr([]), rest))
    ensures ParseValue([OPEN_OBJECT, CLOSE_OBJECT] + rest) == Ok(Scan(Obj([]), rest))
  {
    assert ([OPEN_ARRAY, CLOSE_ARRAY] + rest)[1..] == [CLOSE_ARRAY] + rest && ([CLOSE_ARRAY] + rest)[1..] == rest;
    assert ([OPEN_OBJECT, CLOSE_OBJECT] + rest)[1..] == [CLOSE_OBJECT] + rest && ([CLOSE_OBJECT] + rest)[1..] == rest;
  }

  /** Parsing what was dumped gives the value back, with surrogate pairs merged, and leaves
      what follows. */
  lemma {:induction false} ParseDump(v: Json, rest: Bytes)
    requires !ContinuesNumber(rest)
    ensures ParseValue(Dump(v) + rest) == Ok(Scan(MergeJson(v), rest))
    decreases v, 0
  {
    hide ParseValue, ParseItems, ParseMembers, SkipSpace, DumpItems, DumpMembers;
    match v
    case Arr(items) =>
      if items == [] {
        ParseEmpty(rest);
        DumpEmpty();
        assert Dump(v) == [OPEN_ARRAY, CLOSE_ARRAY];
      } else {
        DumpItemsHead(items, [CLOSE_ARRAY] + rest);
        ParseDumpItems(items, rest);
        ParseArray(DumpItems(items) + ([CLOSE_ARRAY] + rest), MergeItems(items), rest);
        assert Dump(v) + rest == [OPEN_ARRAY] + (DumpItems(items) + ([CLOSE_ARRAY] + rest));
      }
    case Obj(members) =>
      if members == [] {
        ParseEmpty(rest);
        DumpEmpty();
        assert Dump(v) == [OPEN_OBJECT, CLOSE_OBJECT];
      } else {
        DumpMembersHead(members, [CLOSE_OBJECT] + rest);
        ParseDumpMembers(members, rest);
        ParseObject(DumpMembers(members) + ([CLOSE_OBJECT] + rest), MergeMembers(members), rest);
        assert Dump(v) + rest == [OPEN_OBJECT] + (DumpMembers(members) + ([CLOSE_OBJECT] + rest));
      }
    case _ => ParseScalar(v, rest);
  }

  lemma DumpEmpty()
    ensures DumpItems([]) == [] && DumpMembers([]) == []
  {
  }

  lemma LastItem(b: Bytes, v: Json, rest: Bytes)
    requires ParseValue(b) == Ok(Scan(v, [CLOSE_ARRAY] + rest))
    ensures ParseItems(b) == Ok(Scan([v], rest))
  {
    assert ([CLOSE_ARRAY] + rest)[1..] == rest;
  }

  lemma MoreItems(b: Bytes, v: Json, more: Bytes, items: seq<Json>, rest: Bytes)
    requires ParseValue(b) == Ok(Scan(v, [COMMA] + more)) && SkipSpace(more) == more
    requires ParseItems(more) == Ok(Scan(items, rest))
    ensures ParseItems(b) == Ok(Scan([v] + items, rest))
  {
    hide ParseValue;
    assert ([COMMA] + more)[1..] == more;
  }

  lemma {:induction false} ParseDumpItems(items: seq<Json>, rest: Bytes)
    requires items != []
    ensures ParseItems(DumpItems(items) + ([CLOSE_ARRAY] + rest)) == Ok(Scan(MergeItems(items), rest))
    decreases items, 1
  {
    hide ParseValue, ParseItems, SkipSpace, Dump, MergeJson;
    var tail := [CLOSE_ARRAY] + rest;
    if |items| == 1 {
      ParseDump(items[0], tail);
      assert MergeItems(items[1..]) == [];
      assert MergeItems(items) == [MergeJson(items[0])];
      LastItem(Dump(items[0]) + tail, MergeJson(items[0]), rest);
    } else {
      var more := DumpItems(items[1..]) + tail;
      ParseDump(items[0], [COMMA] + more);
      DumpItemsHead(items[1..], tail);
      ParseDumpItems(items[1..], rest);
      MoreItems(Dump(items[0]) + ([COMMA] + more), MergeJson(items[0]), more, MergeItems(items[1..]), rest);
      assert DumpItems(items) + tail == Dump(items[0]) + ([COMMA] + more);
    }
  }

  lemma OneMember(key: Text, b: Bytes, v: Json, rest: Bytes)
    requires SkipSpace(b) == b && ParseValue(b) == Ok(Scan(v, rest))
    ensures ParseMember([QUOTE] + (EscapeAll(key) + ([QUOTE] + ([COLON] + b)))) == Ok(Scan(Member(Merge(key), v), rest))
  {
    ScanEscaped(key, [COLON] + b);
    hide ParseValue, ScanString;
    var t := EscapeAll(key) + ([QUOTE] + ([COLON] + b));
    assert ([QUOTE] + t)[1..] == t;
    assert ([COLON] + b)[1..] == b;
  }

  lemma {:induction false} ParseDumpMember(m: Member, rest: Bytes)
    requires !ContinuesNumber(rest)
    ensures ParseMember(DumpMember(m) + rest) == Ok(Scan(Member(Merge(m.key), MergeJson(m.value)), rest))
    decreases m, 0
  {
    hide ParseValue, ParseMember, EscapeAll, Dump, MergeJson;
    var value := Dump(m.value) + rest;
    DumpHead(m.value);
    ParseDump(m.value, rest);
    OneMember(m.key, value, MergeJson(m.value), rest);
    assert DumpMember(m) + rest == [QUOTE] + (EscapeAll(m.key) + ([QUOTE] + ([COLON] + value)));
  }

  lemma LastMember(b: Bytes, m: Member, rest: Bytes)
    requires ParseMember(b) == Ok(Scan(m, [CLOSE_OBJECT] + rest))
    ensures ParseMembers(b) == Ok(Scan([m], rest))
  {
    assert ([CLOSE_OBJECT] + rest)[1..] == rest;
  }

  lemma MoreMembers(b: Bytes, m: Member, more: Bytes, members: seq<Member>, rest: Bytes)
    requires ParseMember(b) == Ok(Scan(m, [COMMA] + more)) && SkipSpace(more) == more
    requires ParseMembers(more) == Ok(Scan(members, rest))
    ensures ParseMembers(b) == Ok(Scan([m] + members, rest))
  {
    hide ParseMember;
    assert ([COMMA] + more)[1..] == more;
  }

  lemma Regroup(a: Bytes, comma: Bytes, b: Bytes, tail: Bytes)
    ensures a + comma + b + tail == a + (comma + (b + tail))
  {
  }

  lemma {:induction false} ParseDumpMembers(members: seq<Member>, rest: Bytes)
    requires members != []
    ensures ParseMembers(DumpMembers(members) + ([CLOSE_OBJECT] + rest)) == Ok(Scan(MergeMembers(members), rest))
    decreases members, 1
  {
    hide ParseMember, ParseMembers, SkipSpace, DumpMember, DumpMembers, MergeJson, Merge;
    var tail := [CLOSE_OBJECT] + rest;
    var m := Member(Merge(members[0].key), MergeJson(members[0].value));
    if |members| == 1 {
      ParseDumpMember(members[0], tail);
      assert MergeMembers(members[1..]) == [];
      assert MergeMembers(members) == [m];
      LastMember(DumpMember(members[0]) + tail, m, rest);
      OneDumped(members);
    } else {
      var more := DumpMembers(members[1..]) + tail;
      ParseDumpMember(members[0], [COMMA] + more);
      DumpMembersHead(members[1..], tail);
      ParseDumpMembers(members[1..], rest);
      MoreMembers(DumpMember(members[0]) + ([COMMA] + more), m, more, MergeMembers(members[1..]), rest);
      MoreDumped(members);
      Regroup(DumpMember(members[0]), [COMMA], DumpMembers(members[1..]), tail);
    }
  }

  lemma OneDumped(members: seq<Member>)
    requires |members| == 1
    ensures DumpMembers(members) == DumpMember(members[0])
  {
    hide DumpMember;
  }

  lemma MoreDumped(members: seq<Member>)
    requires |members| > 1
    ensures DumpMembers(members) == DumpMember(members[0]) + [COMMA] + DumpMembers(members[1..])
  {
    hide DumpMember;
  }

  /** `json.loads(json.dumps(v))`, for every value without floating-point numbers. */
  lemma LoadsDump(v: Json)
    ensures Loads(Dump(v)) == Ok(MergeJson(v))
  {
    DumpHead(v);
    ParseDump(v, []);
    assert Dump(v) + [] == Dump(v);
  }

  lemma DumpLiterals()
    ensures Dump(Null) == [0x6E, 0x75, 0x6C, 0x6C] && Dump(Bool(true)) == [0x74, 0x72, 0x75, 0x65]
    ensures Dump(Bool(false)) == [0x66, 0x61, 0x6C, 0x73, 0x65] && Dump(Arr([])) == [0x5B, 0x5D] && Dump(Obj([])) == [0x7B, 0x7D]
  {
  }

  /** Compact separators, byte for byte. */
  lemma DumpCompact(v: Json, w: Json, key: Text, key': Text)
    ensures Dump(Arr([v, w])) == [0x5B] + (Dump(v) + [0x2C] + Dump(w)) + [0x5D]
    ensures Dump(Obj([Member(key, v), Member(key', w)]))
         == [0x7B] + ([0x22] + EscapeAll(key) + [0x22] + [0x3A] + Dump(v)
                      + [0x2C]
                      + ([0x22] + EscapeAll(key') + [0x22] + [0x3A] + Dump(w))) + [0x7D]
  {
    DumpPair(v, w);
    DumpMemberPair(Member(key, v), Member(key', w));
    DumpBrackets([v, w], [Member(key, v), Member(key', w)]);
    hide Dump, DumpItems, DumpMembers, EscapeAll;
  }

  lemma DumpBrackets(items: seq<Json>, members: seq<Member>)
    ensures Dump(Arr(items)) == [OPEN_ARRAY] + DumpItems(items) + [CLOSE_ARRAY]
    ensures Dump(Obj(members)) == [OPEN_OBJECT] + DumpMembers(members) + [CLOSE_OBJECT]
  {
  }

  lemma DumpPair(v: Json, w: Json)
    ensures DumpItems([v, w]) == Dump(v) + [COMMA] + Dump(w)
  {
    hide Dump;
    assert [v, w][1..] == [w];
  }

  lemma DumpMemberPair(m: Member, m': Member)
    ensures DumpMembers([m, m']) == DumpMember(m) + [COMMA] + DumpMember(m')
  {
    hide DumpMember;
    assert [m, m'][1..] == [m'];
  }

  predicate AllSpace(b: Bytes) {
    forall i :: 0 <= i < |b| ==> b[i] in {0x20, 0x09, 0x0A, 0x0D}
  }

  lemma {:induction false} SkipSpaces(space: Bytes, rest: Bytes)
    requires AllSpace(space)
    ensures SkipSpace(space + rest) == SkipSpace(rest)
  {
    if space == [] {
      assert space + rest == rest;
    } else {
      assert (space + rest)[1..] == space[1..] + rest;
      SkipSpaces(space[1..], rest);
    }
  }

  lemma {:induction false} SkippedSpaces(b: Bytes)
    ensures SkipSpace(b) == [] <==> AllSpace(b)
  {
    if b != [] {
      SkippedSpaces(b[1..]);
      assert forall i :: 1 <= i < |b| ==> b[i] == b[1..][i - 1];
    }
  }

  lemma {:induction false} DumpAscii(v: Json)
    ensures Ascii(Dump(v))
    decreases v, 0
  {
    match v
    case Null =>
    case Bool(_) =>
    case Int(n) =>
      var digits := Digits(if n < 0 then -n else n);
      assert forall i :: 0 <= i < |digits| ==> IsDigit(digits[i]);
    case Str(s) => EscapeAllAscii(s);
    case Arr(items) => DumpItemsAscii(items);
    case Obj(members) => DumpMembersAscii(members);
  }

  lemma {:induction false} DumpItemsAscii(items: seq<Json>)
    ensures Ascii(DumpItems(items))
    decreases items, 1
  {
    if items != [] {
      DumpAscii(items[0]);
      if |items| > 1 {
        DumpItemsAscii(items[1..]);
      }
    }
  }

  lemma {:induction false} DumpMembersAscii(members: seq<Member>)
    ensures Ascii(DumpMembers(members))
    decreases members, 1
  {
    if members != [] {
      EscapeAllAscii(members[0].key);
      DumpAscii(members[0].value);
      if |members| > 1 {
        DumpMembersAscii(members[1..]);
      }
    }
  }
}
