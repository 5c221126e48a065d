/** The entry model and its JSON body (entries.py). */
module Entries {
  import opened Basics
  import opened JsonText
  import opened Json

  datatype Entry = Entry(
    id: Text,
    service: Text,
    username: Text,
    password: Text,
    notes: Text,
    createdAt: Text,
    updatedAt: Text)

  const SCHEMA_VERSION: PyInt := 1

  /** The code points of an ASCII literal. */
  function Chars(s: string): (r: Text)
    ensures |r| == |s| && forall i :: 0 <= i < |s| ==> r[i] == s[i] as int
  {
    seq(|s|, i requires 0 <= i < |s| => s[i] as int)
  }

  function ToDict(e: Entry): Json {
    Obj([
          Member(Chars("id"), Str(e.id)),
          Member(Chars("service"), Str(e.service)),
          Member(Chars("username"), Str(e.username)),
          Member(Chars("password"), Str(e.password)),
          Member(Chars("notes"), Str(e.notes)),
          Member(Chars("created_at"), Str(e.createdAt)),
          Member(Chars("updated_at"), Str(e.updatedAt))])
  }

  /** Dictionary lookup: of equal keys the last one counts. */
  function Get(members: seq<Member>, key: Text): Option<Json> {
    if members == [] then None
    else if members[|members| - 1].key == key then Some(members[|members| - 1].value)
    else Get(members[..|members| - 1], key)
  }

  /** Python's `str` of a parsed value; of containers it is left open. */
  function StrOf(v: Json): Result<Text> {
    match v
    case Str(s) => Ok(s)
    case Null => Ok(Chars("None"))
    case Bool(b) => Ok(if b then Chars("True") else Chars("False"))
    case Int(n) => Ok(DumpInt(n))
    case _ => Err(Unmodelled)
  }

  function Field(members: seq<Member>, key: Text): Result<Text> {
    match Get(members, key)
    case None => Err(FormatError)
    case Some(v) => StrOf(v)
  }

  function FromDict(v: Json): Result<Entry> {
    if !v.Obj? then Err(TypeError)
    else
      var id :- Field(v.members, Chars("id"));
      var service :- Field(v.members, Chars("service"));
      var username :- Field(v.members, Chars("username"));
      var password :- Field(v.members, Chars("password"));
      var notes :- if Get(v.members, Chars("notes")).None? then Ok([]) else Field(v.members, Chars("notes"));
      var createdAt :- Field(v.members, Chars("created_at"));
      var updatedAt :- Field(v.members, Chars("updated_at"));
      Ok(Entry(id, service, username, password, notes, createdAt, updatedAt))
  }

  function ToDicts(entries: seq<Entry>): (r: seq<Json>)
    ensures |r| == |entries| && forall i :: 0 <= i < |entries| ==> r[i] == ToDict(entries[i])
  {
    seq(|entries|, i requires 0 <= i < |entries| => ToDict(entries[i]))
  }

  /** The payload with any version and any list elements. */
  function VersionedBody(version: PyInt, items: seq<Json>): Json {
    Obj([Member(Chars("schema_version"), Int(version)), Member(Chars("entries"), Arr(items))])
  }

  function BodyWith(items: seq<Json>): Json {
    VersionedBody(SCHEMA_VERSION, items)
  }

  function Payload(entries: seq<Entry>): Json {
    BodyWith(ToDicts(entries))
  }

  function SerializeEntries(entries: seq<Entry>): Bytes {
    Dump(Payload(entries))
  }

  lemma DumpObjectPair(a: Member, b: Member)
    ensures Dump(Obj([a, b])) == [OPEN_OBJECT] + (DumpMember(a) + [COMMA] + DumpMember(b)) + [CLOSE_OBJECT]
  {
    hide DumpMember, DumpMembers;
    DumpMemberPair(a, b);
  }

  lemma EmptyBodyMembers()
    ensures DumpMember(Member(Chars("schema_version"), Int(SCHEMA_VERSION))) == [QUOTE] + Chars("schema_version") + [QUOTE] + [COLON] + [0x31]
    ensures DumpMember(Member(Chars("entries"), Arr([]))) == [QUOTE] + Chars("entries") + [QUOTE] + [COLON] + [OPEN_ARRAY, CLOSE_ARRAY]
  {
    PlainEscape("schema_version");
    PlainEscape("entries");
    hide EscapeAll, Chars;
    assert Dump(Int(SCHEMA_VERSION)) == [0x31] && Dump(Arr([])) == [OPEN_ARRAY, CLOSE_ARRAY];
  }

  /** The body of an empty vault, byte for byte: {"schema_version":1,"entries":[]}. */
  lemma EmptyBody()
    ensures SerializeEntries([])
         == Chars("{\"") + Chars("schema_version") + Chars("\":1,\"") + Chars("entries") + Chars("\":[]}")
  {
    hide *;
    EmptyPayload();
    DumpObjectPair(Member(Chars("schema_version"), Int(SCHEMA_VERSION)), Member(Chars("entries"), Arr([])));
    EmptyBodyMembers();
    Punctuation();
    Assemble(Chars("schema_version"), Chars("entries"));
  }

  lemma EmptyPayload()
    ensures SerializeEntries([]) == Dump(Obj([Member(Chars("schema_version"), Int(SCHEMA_VERSION)), Member(Chars("entries"), Arr([]))]))
  {
    hide Dump, Chars;
    assert ToDicts([]) == [];
  }

  lemma Assemble(k: Bytes, l: Bytes)
    ensures [OPEN_OBJECT] + (([QUOTE] + k + [QUOTE] + [COLON] + [0x31]) + [COMMA]
                             + ([QUOTE] + l + [QUOTE] + [COLON] + [OPEN_ARRAY, CLOSE_ARRAY])) + [CLOSE_OBJECT]
         == [OPEN_OBJECT, QUOTE] + k + [QUOTE, COLON, 0x31, COMMA, QUOTE] + l + [QUOTE, COLON, OPEN_ARRAY, CLOSE_ARRAY, CLOSE_OBJECT]
  {
  }

  lemma Punctuation()
    ensures Chars("{\"") == [OPEN_OBJECT, QUOTE] && Chars("\":1,\"") == [QUOTE, COLON, 0x31, COMMA, QUOTE]
    ensures Chars("\":[]}") == [QUOTE, COLON, OPEN_ARRAY, CLOSE_ARRAY, CLOSE_OBJECT]
  {
  }

  lemma {:induction false} PlainEscape(s: string)
    requires forall i :: 0 <= i < |s| ==> ' ' <= s[i] <= '~' && s[i] != '"' && s[i] != '\\'
    ensures EscapeAll(Chars(s)) == Chars(s)
  {
    if s != "" {
      PlainEscape(s[1..]);
      assert Chars(s)[1..] == Chars(s[1..]);
    }
  }

  function FromDicts(items: seq<Json>): (r: Result<seq<Entry>>)
    ensures r.Ok? ==> |r.value| == |items| && forall i :: 0 <= i < |items| ==> FromDict(items[i]) == Ok(r.value[i])
  {
    if items == [] then Ok([])
    else
      var e :- FromDict(items[0]);
      var rest :- FromDicts(items[1..]);
      Ok([e] + rest)
  }

  /** Python's `payload.get("schema_version") != 1` is false of `1` and of `True`. */
  predicate IsSchemaVersion(v: Option<Json>) {
    v == Some(Int(SCHEMA_VERSION)) || v == Some(Bool(true))
  }

  function DeserializeEntries(data: Bytes): Result<seq<Entry>> {
    if !Ascii(data) then Err(Unmodelled)
    else
      var payload :- Loads(data);
      if !payload.Obj? || Get(payload.members, Chars("entries")).None? then Err(FormatError)
      else if !IsSchemaVersion(Get(payload.members, Chars("schema_version"))) then Err(FormatError)
      else
        var raw := Get(payload.members, Chars("entries")).value;
        if !raw.Arr? then Err(FormatError) else FromDicts(raw.items)
  }

  function MergeEntry(e: Entry): Entry {
    Entry(Merge(e.id), Merge(e.service), Merge(e.username), Merge(e.password), Merge(e.notes), Merge(e.createdAt), Merge(e.updatedAt))
  }

  function MergeEntries(entries: seq<Entry>): (r: seq<Entry>)
    ensures |r| == |entries| && forall i :: 0 <= i < |entries| ==> r[i] == MergeEntry(entries[i])
  {
    seq(|entries|, i requires 0 <= i < |entries| => MergeEntry(entries[i]))
  }

  predicate WellPairedEntry(e: Entry) {
    && WellPaired(e.id) && WellPaired(e.service) && WellPaired(e.username) && WellPaired(e.password)
    && WellPaired(e.notes) && WellPaired(e.createdAt) && WellPaired(e.updatedAt)
  }

  lemma MergeChars(s: string)
    requires forall i :: 0 <= i < |s| ==> s[i] < 0x80 as char
    ensures Merge(Chars(s)) == Chars(s)
  {
    MergeFixesIffWellPaired(Chars(s));
  }

  lemma KeysMerge()
    ensures Merge(Chars("id")) == Chars("id") && Merge(Chars("service")) == Chars("service")
    ensures Merge(Chars("username")) == Chars("username") && Merge(Chars("password")) == Chars("password")
    ensures Merge(Chars("notes")) == Chars("notes") && Merge(Chars("created_at")) == Chars("created_at")
    ensures Merge(Chars("updated_at")) == Chars("updated_at")
    ensures Merge(Chars("schema_version")) == Chars("schema_version") && Merge(Chars("entries")) == Chars("entries")
  {
    hide Merge;
    MergeChars("id");
    MergeChars("service");
    MergeChars("username");
    MergeChars("password");
    MergeChars("notes");
    MergeChars("created_at");
    MergeChars("updated_at");
    MergeChars("schema_version");
    MergeChars("entries");
  }

  lemma {:induction false} GetAt(members: seq<Member>, i: nat)
    requires i < |members| && forall j :: i < j < |members| ==> members[j].key != members[i].key
    ensures Get(members, members[i].key) == Some(members[i].value)
  {
    if i < |members| - 1 {
      GetAt(members[..|members| - 1], i);
    }
  }

  lemma KeysDistinct()
    ensures Chars("username") != Chars("password") && Chars("created_at") != Chars("updated_at")
  {
    assert Chars("username")[0] != Chars("password")[0];
    assert Chars("created_at")[0] != Chars("updated_at")[0];
  }

  /** The dictionary of an entry holds each field under its own key, so reading it back is exact. */
  lemma FromToDict(e: Entry)
    ensures FromDict(ToDict(e)) == Ok(e)
    ensures var ms := ToDict(e).members;
            && Get(ms, Chars("id")) == Some(Str(e.id)) && Get(ms, Chars("service")) == Some(Str(e.service))
            && Get(ms, Chars("username")) == Some(Str(e.username)) && Get(ms, Chars("password")) == Some(Str(e.password))
            && Get(ms, Chars("notes")) == Some(Str(e.notes)) && Get(ms, Chars("created_at")) == Some(Str(e.createdAt))
            && Get(ms, Chars("updated_at")) == Some(Str(e.updatedAt))
  {
    var ms := ToDict(e).members;
    KeysDistinct();
    hide Get, Chars;
    GetAt(ms, 0);
    GetAt(ms, 1);
    GetAt(ms, 2);
    GetAt(ms, 3);
    GetAt(ms, 4);
    GetAt(ms, 5);
    GetAt(ms, 6);
  }

  lemma MergeToDict(e: Entry)
    ensures MergeJson(ToDict(e)) == ToDict(MergeEntry(e))
  {
    hide MergeMembers, Merge, Chars;
    var ms := ToDict(e).members;
    KeysMerge();
    MergeMembersAt(ms);
    assert MergeMembers(ms) == ToDict(MergeEntry(e)).members;
  }

  lemma {:induction false} MergeMembersAt(ms: seq<Member>)
    ensures |MergeMembers(ms)| == |ms|
    ensures forall i :: 0 <= i < |ms| ==> MergeMembers(ms)[i] == Member(Merge(ms[i].key), MergeJson(ms[i].value))
  {
    if ms != [] {
      MergeMembersAt(ms[1..]);
    }
  }

  lemma {:induction false} MergeItemsAt(items: seq<Json>)
    ensures |MergeItems(items)| == |items|
    ensures forall i :: 0 <= i < |items| ==> MergeItems(items)[i] == MergeJson(items[i])
  {
    if items != [] {
      MergeItemsAt(items[1..]);
    }
  }

  lemma MergeDicts(entries: seq<Entry>)
    ensures MergeItems(ToDicts(entries)) == ToDicts(MergeEntries(entries))
  {
    hide MergeItems, ToDict, MergeEntry, MergeJson;
    MergeItemsAt(ToDicts(entries));
    forall i | 0 <= i < |entries| ensures MergeJson(ToDict(entries[i])) == ToDict(MergeEntry(entries[i])) {
      MergeToDict(entries[i]);
    }
  }

  lemma MergeBody(version: PyInt, items: seq<Json>)
    ensures MergeJson(VersionedBody(version, items)) == VersionedBody(version, MergeItems(items))
  {
    hide MergeMembers, MergeItems, Merge, Chars;
    var ms := VersionedBody(version, items).members;
    KeysMerge();
    MergeMembersAt(ms);
    assert MergeMembers(ms) == VersionedBody(version, MergeItems(items)).members;
  }

  /** What `json.loads` makes of a dumped body. */
  lemma LoadedBody(version: PyInt, items: seq<Json>)
    ensures var data := Dump(VersionedBody(version, items));
            && Ascii(data) && Loads(data) == Ok(VersionedBody(version, MergeItems(items)))
    ensures var ms := VersionedBody(version, MergeItems(items)).members;
            && Get(ms, Chars("schema_version")) == Some(Int(version))
            && Get(ms, Chars("entries")) == Some(Arr(MergeItems(items)))
  {
    DumpAscii(VersionedBody(version, items));
    LoadsDump(VersionedBody(version, items));
    MergeBody(version, items);
    var ms := VersionedBody(version, MergeItems(items)).members;
    assert |"schema_version"| == 14 && |"entries"| == 7;
    hide Chars, Loads, Dump, MergeJson, MergeItems, Ascii, Get;
    GetAt(ms, 1);
    GetAt(ms, 0);
  }

  lemma {:induction false} FromDictsOf(items: seq<Json>, entries: seq<Entry>)
    requires |items| == |entries| && forall i :: 0 <= i < |items| ==> FromDict(items[i]) == Ok(entries[i])
    ensures FromDicts(items) == Ok(entries)
  {
    hide FromDict;
    if items != [] {
      FromDictsOf(items[1..], entries[1..]);
      assert entries == [entries[0]] + entries[1..];
    }
  }

  /** Reading a dumped body reads its list elements, with surrogate pairs merged. */
  lemma DeserializeBody(items: seq<Json>)
    ensures DeserializeEntries(Dump(BodyWith(items))) == FromDicts(MergeItems(items))
  {
    hide Chars, Loads, Dump, MergeItems, Ascii, Get, FromDicts;
    LoadedBody(SCHEMA_VERSION, items);
  }

  /** Reading a serialized body gives every entry, in order, with surrogate pairs merged. */
  lemma DeserializeSerialize(entries: seq<Entry>)
    ensures DeserializeEntries(SerializeEntries(entries)) == Ok(MergeEntries(entries))
  {
    hide DeserializeEntries, Dump, BodyWith, ToDicts, MergeItems, MergeEntries, FromDict, ToDict;
    var es := MergeEntries(entries);
    DeserializeBody(ToDicts(entries));
    MergeDicts(entries);
    forall i | 0 <= i < |es| ensures FromDict(ToDict(es[i])) == Ok(es[i]) {
      FromToDict(es[i]);
    }
    FromDictsOf(ToDicts(es), es);
  }

  /** The body round trip is exact for precisely the entries none of whose strings has a high
      surrogate directly before a low one; in particular for all Unicode scalar strings. */
  lemma RoundTripIff(entries: seq<Entry>)
    ensures DeserializeEntries(SerializeEntries(entries)) == Ok(entries)
            <==> forall e :: e in entries ==> WellPairedEntry(e)
  {
    DeserializeSerialize(entries);
    MergeEntriesFixesIff(entries);
  }

  lemma MergeEntriesFixesIff(entries: seq<Entry>)
    ensures MergeEntries(entries) == entries <==> forall e :: e in entries ==> WellPairedEntry(e)
  {
    forall e: Entry ensures MergeEntry(e) == e <==> WellPairedEntry(e) {
      MergeEntryFixesIff(e);
    }
    hide MergeEntry, WellPairedEntry;
    if forall e :: e in entries ==> WellPairedEntry(e) {
      assert MergeEntries(entries) == entries;
    }
  }

  lemma MergeEntryFixesIff(e: Entry)
    ensures MergeEntry(e) == e <==> WellPairedEntry(e)
  {
    MergeFixesIffWellPaired(e.id);
    MergeFixesIffWellPaired(e.service);
    MergeFixesIffWellPaired(e.username);
    MergeFixesIffWellPaired(e.password);
    MergeFixesIffWellPaired(e.notes);
    MergeFixesIffWellPaired(e.createdAt);
    MergeFixesIffWellPaired(e.updatedAt);
  }

  /** A service name of two lone surrogates that does not survive: it comes back as one code point. */
  lemma SplitPairIsLost(e: Entry)
    requires e.service == [0xD83D, 0xDE00]
    ensures DeserializeEntries(SerializeEntries([e])) == Ok(MergeEntries([e]))
    ensures MergeEntries([e])[0].service == [0x1F600]
  {
    DeserializeSerialize([e]);
  }

  /** An object of schema version 1, for which Python also takes `true`, with this list of entries. */
  predicate HoldsItems(payload: Json, items: seq<Json>) {
    && payload.Obj?
    && Get(payload.members, Chars("entries")) == Some(Arr(items))
    && match Get(payload.members, Chars("schema_version"))
       case Some(Int(n)) => n == 1
       case Some(Bool(b)) => b
       case _ => false
  }

  /** A dictionary with the keys that have no default. */
  predicate HasRequiredKeys(v: Json) {
    && v.Obj?
    && Get(v.members, Chars("id")).Some? && Get(v.members, Chars("service")).Some?
    && Get(v.members, Chars("username")).Some? && Get(v.members, Chars("password")).Some?
    && Get(v.members, Chars("created_at")).Some? && Get(v.members, Chars("updated_at")).Some?
  }

  /** The first element that is no dictionary or lacks a required key is no dictionary. */
  ghost predicate FirstBadIsNoDict(items: seq<Json>) {
    exists i :: 0 <= i < |items| && !items[i].Obj? && forall j :: 0 <= j < i ==> HasRequiredKeys(items[j])
  }

  lemma FromDictErrors(v: Json)
    ensures FromDict(v) == Err(TypeError) <==> !v.Obj?
    ensures FromDict(v).Ok? ==> HasRequiredKeys(v)
    ensures FromDict(v) == Err(FormatError) ==> v.Obj? && !HasRequiredKeys(v)
    ensures FromDict(v).Err? ==> FromDict(v).error in {TypeError, FormatError, Unmodelled}
  {
    hide Get, Chars;
  }

  lemma FirstBadLater(items: seq<Json>)
    requires items != [] && HasRequiredKeys(items[0])
    ensures FirstBadIsNoDict(items) <==> FirstBadIsNoDict(items[1..])
  {
    assert items[0].Obj?;
    hide HasRequiredKeys;
    if i :| 0 <= i < |items| && !items[i].Obj? && forall j :: 0 <= j < i ==> HasRequiredKeys(items[j]) {
      assert !items[1..][i - 1].Obj? && forall j :: 0 <= j < i - 1 ==> HasRequiredKeys(items[1..][j]);
    }
    if i :| 0 <= i < |items[1..]| && !items[1..][i].Obj? && forall j :: 0 <= j < i ==> HasRequiredKeys(items[1..][j]) {
      assert forall j :: 0 < j < i + 1 ==> items[j] == items[1..][j - 1];
      assert !items[i + 1].Obj? && forall j :: 0 <= j < i + 1 ==> HasRequiredKeys(items[j]);
    }
  }

  lemma {:induction false} FromDictsErrors(items: seq<Json>)
    ensures FromDicts(items) != Err(Unmodelled) ==> (FromDicts(items) == Err(TypeError) <==> FirstBadIsNoDict(items))
    ensures FromDicts(items) == Err(TypeError) ==> FirstBadIsNoDict(items)
    ensures FromDicts(items).Err? ==> FromDicts(items).error in {TypeError, FormatError, Unmodelled}
  {
    hide FromDict, HasRequiredKeys;
    if items != [] {
      FromDictErrors(items[0]);
      FromDictsErrors(items[1..]);
      if FromDict(items[0]).Ok? {
        FirstBadLater(items);
      } else if !items[0].Obj? {
        assert FirstBadIsNoDict(items);
      }
    }
  }

  /** Whatever parses but is not such an object is refused with the format error: a missing or
      different schema version, a missing list of entries, or no object at all. */
  lemma MalformedBody(data: Bytes)
    requires Ascii(data) && Loads(data).Ok? && forall items :: !HoldsItems(Loads(data).value, items)
    ensures DeserializeEntries(data) == Err(FormatError)
  {
    hide Loads, Get, Chars, FromDicts, Ascii;
    var payload := Loads(data).value;
    if payload.Obj? && Get(payload.members, Chars("entries")).Some? && Get(payload.members, Chars("entries")).value.Arr? {
      assert !HoldsItems(payload, Get(payload.members, Chars("entries")).value.items);
    }
  }

  /** And such an object is read element by element. */
  lemma WellFormedBody(data: Bytes, items: seq<Json>)
    requires Ascii(data) && Loads(data).Ok? && HoldsItems(Loads(data).value, items)
    ensures DeserializeEntries(data) == FromDicts(items)
  {
    hide Loads, Get, Chars, FromDicts, Ascii;
  }

  /** A body that does not parse raises the format error, or the parser leaves it open. */
  lemma UnparsedBody(data: Bytes)
    requires !Ascii(data) || Loads(data).Err?
    ensures DeserializeEntries(data) == if Ascii(data) then Err(Loads(data).error) else Err(Unmodelled)
    ensures DeserializeEntries(data) in {Err(FormatError), Err(Unmodelled)}
  {
    hide Loads, Ascii;
  }

  /** Bodies of other schema versions: only version 1 is read. */
  lemma OtherVersionRefused(version: PyInt, items: seq<Json>)
    ensures DeserializeEntries(Dump(VersionedBody(version, items)))
         == if version == 1 then FromDicts(MergeItems(items)) else Err(FormatError)
  {
    hide Chars, Loads, Dump, MergeItems, Ascii, Get, FromDicts, DeserializeEntries;
    LoadedBody(version, items);
    var data := Dump(VersionedBody(version, items));
    if version == 1 {
      WellFormedBody(data, MergeItems(items));
    } else {
      MalformedBody(data);
    }
  }

  /** A dictionary whose seven values Python's `str` renders in a way the model follows. */
  predicate Readable(v: Json) {
    && HasRequiredKeys(v)
    && forall k :: k in FIELD_NAMES && Get(v.members, Chars(k)).Some? ==>
         !Get(v.members, Chars(k)).value.Arr? && !Get(v.members, Chars(k)).value.Obj?
  }

  const FIELD_NAMES := {"id", "service", "username", "password", "notes", "created_at", "updated_at"}

  /** What an accepted body is, and what an element reads as: missing notes are empty. */
  lemma FromDictIs(v: Json)
    ensures FromDict(v).Ok? <==> Readable(v)
    ensures FromDict(v).Ok? ==>
              var e, ms := FromDict(v).value, v.members;
              && StrOf(Get(ms, Chars("id")).value) == Ok(e.id)
              && StrOf(Get(ms, Chars("service")).value) == Ok(e.service)
              && StrOf(Get(ms, Chars("username")).value) == Ok(e.username)
              && StrOf(Get(ms, Chars("password")).value) == Ok(e.password)
              && StrOf(Get(ms, Chars("created_at")).value) == Ok(e.createdAt)
              && StrOf(Get(ms, Chars("updated_at")).value) == Ok(e.updatedAt)
              && (if Get(ms, Chars("notes")).None? then e.notes == [] else StrOf(Get(ms, Chars("notes")).value) == Ok(e.notes))
  {
    hide Get, Chars;
    assert "id" in FIELD_NAMES && "service" in FIELD_NAMES && "username" in FIELD_NAMES && "password" in FIELD_NAMES;
    assert "notes" in FIELD_NAMES && "created_at" in FIELD_NAMES && "updated_at" in FIELD_NAMES;
  }

  /** Python's `str` of the scalars, in code points. */
  lemma StrOfKnown(s: Text)
    ensures StrOf(Str(s)) == Ok(s)
    ensures StrOf(Null) == Ok([0x4E, 0x6F, 0x6E, 0x65])
    ensures StrOf(Bool(true)) == Ok([0x54, 0x72, 0x75, 0x65]) && StrOf(Bool(false)) == Ok([0x46, 0x61, 0x6C, 0x73, 0x65])
    ensures StrOf(Int(SCHEMA_VERSION)) == Ok([0x31])
  {
    assert Chars("None") == [0x4E, 0x6F, 0x6E, 0x65];
    assert Chars("True") == [0x54, 0x72, 0x75, 0x65] && Chars("False") == [0x46, 0x61, 0x6C, 0x73, 0x65];
  }

  lemma {:induction false} FromDictsOk(items: seq<Json>)
    ensures FromDicts(items).Ok? <==> forall i :: 0 <= i < |items| ==> Readable(items[i])
  {
    hide FromDict, Readable;
    if items != [] {
      FromDictIs(items[0]);
      FromDictsOk(items[1..]);
      assert items == [items[0]] + items[1..];
    }
  }

  /** A body is accepted exactly if it parses to an object of schema version 1 with a list of
      dictionaries that have the required keys. */
  lemma AcceptedIff(data: Bytes)
    ensures DeserializeEntries(data).Ok? <==>
            && Ascii(data) && Loads(data).Ok?
            && exists items :: HoldsItems(Loads(data).value, items) && forall i :: 0 <= i < |items| ==> Readable(items[i])
  {
    hide Loads, FromDicts, FirstBadIsNoDict, Ascii, HoldsItems, DeserializeEntries, Readable;
    if !Ascii(data) || Loads(data).Err? {
      UnparsedBody(data);
    } else if items :| HoldsItems(Loads(data).value, items) {
      OneList(Loads(data).value, items);
      WellFormedBody(data, items);
      FromDictsOk(items);
    } else {
      MalformedBody(data);
    }
  }

  lemma OneList(payload: Json, items: seq<Json>)
    requires HoldsItems(payload, items)
    ensures forall other :: HoldsItems(payload, other) ==> other == items
  {
  }

  /** The documented format error is the only one raised, except exactly when the body parses to
      an object of schema version 1 whose "entries" is a list, and the first element of that list
      that is no dictionary or lacks a required key is no dictionary: then it is `TypeError`. */
  lemma TypeErrorIff(data: Bytes)
    ensures var r := DeserializeEntries(data);
            && (r.Err? ==> r.error in {TypeError, FormatError, Unmodelled})
            && (r != Err(Unmodelled) ==>
                  (r == Err(TypeError) <==>
                   && Loads(data).Ok?
                   && exists items :: HoldsItems(Loads(data).value, items) && FirstBadIsNoDict(items)))
  {
    hide Loads, FromDicts, FirstBadIsNoDict, Ascii, HoldsItems, DeserializeEntries;
    if !Ascii(data) || Loads(data).Err? {
      UnparsedBody(data);
    } else if items :| HoldsItems(Loads(data).value, items) {
      OneList(Loads(data).value, items);
      WellFormedBody(data, items);
      FromDictsErrors(items);
    } else {
      MalformedBody(data);
    }
  }

  /** A body whose one entry is `null`: the documented format error is not what is raised. */
  lemma NullEntryRaisesTypeError()
    ensures DeserializeEntries(Dump(BodyWith([Null]))) == Err(TypeError)
  {
    DeserializeBody([Null]);
    MergeItemsAt([Null]);
    assert MergeItems([Null]) == [Null];
    hide DeserializeEntries, Dump, BodyWith, MergeItems;
  }
}
