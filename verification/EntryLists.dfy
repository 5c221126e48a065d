/** What the list operations of the repository mean: an insertion-ordered map, distinct ids,
    and folds of mutations that do not depend on how a string's surrogates are spelled. */
module EntryLists {
  import opened Basics
  import opened JsonText
  import opened Entries
  import opened Repository

  predicate DistinctIds(entries: seq<Entry>) {
    forall i, j :: 0 <= i < j < |entries| ==> entries[i].id != entries[j].id
  }

  /** Ids in order of insertion, and the entry under each id. */
  datatype OrderedMap = OrderedMap(order: seq<Text>, values: map<Text, Entry>)

  function Ids(entries: seq<Entry>): (r: seq<Text>)
    ensures |r| == |entries| && forall i :: 0 <= i < |r| ==> r[i] == entries[i].id
  {
    seq(|entries|, i requires 0 <= i < |entries| => entries[i].id)
  }

  function AsMap(entries: seq<Entry>): OrderedMap {
    OrderedMap(Ids(entries), map id | id in Ids(entries) && Position(entries, id).Some? :: entries[Position(entries, id).value])
  }

  function Without(order: seq<Text>, id: Text): seq<Text> {
    if order == [] then []
    else if order[0] == id then Without(order[1..], id)
    else [order[0]] + Without(order[1..], id)
  }

  /** The same mutations on the map. */
  function ApplyToMap(m: OrderedMap, mu: Mutation): Result<OrderedMap> {
    match mu
    case Add(e) => Ok(OrderedMap(m.order + [e.id], m.values[e.id := e]))
    case Update(id, c, now) =>
      if id !in m.values then Err(EntryNotFoundError)
      else Ok(m.(values := m.values[id := Updated(m.values[id], c, now)]))
    case Delete(id) =>
      if id !in m.values then Err(EntryNotFoundError)
      else Ok(OrderedMap(Without(m.order, id), m.values - {id}))
  }

  /** `values` has the right answer for one id. */
  predicate Shows(values: map<Text, Entry>, entries: seq<Entry>, id: Text) {
    match Position(entries, id)
    case None => id !in values
    case Some(i) => id in values && values[id] == entries[i]
  }

  lemma SameValues(values: map<Text, Entry>, values': map<Text, Entry>)
    requires forall id :: id in values <==> id in values'
    requires forall id :: id in values ==> values[id] == values'[id]
    ensures values == values'
  {
  }

  lemma AsMapIs(entries: seq<Entry>, values: map<Text, Entry>)
    requires forall id :: Shows(values, entries, id)
    ensures AsMap(entries) == OrderedMap(Ids(entries), values)
  {
    var shown := AsMap(entries).values;
    assert AsMap(entries) == OrderedMap(Ids(entries), shown);
    forall id ensures (id in shown <==> id in values) && (id in shown ==> shown[id] == values[id]) {
      hide Shows, AsMap, Position;
      assert Shows(values, entries, id);
      SameShown(shown, values, entries, id);
    }
    hide Shows, AsMap, Position;
    SameValues(shown, values);
  }

  lemma SameShown(values: map<Text, Entry>, values': map<Text, Entry>, entries: seq<Entry>, id: Text)
    requires values == AsMap(entries).values && Shows(values', entries, id)
    ensures id in values <==> id in values'
    ensures id in values' ==> values[id] == values'[id]
  {
    AsMapShows(entries, id);
  }

  lemma AsMapShows(entries: seq<Entry>, id: Text)
    ensures Shows(AsMap(entries).values, entries, id)
  {
    hide Position;
    if Position(entries, id).Some? {
      assert Ids(entries)[Position(entries, id).value] == id;
    }
  }

  lemma PositionIs(entries: seq<Entry>, id: Text, i: nat)
    requires i < |entries| && entries[i].id == id && forall j :: 0 <= j < i ==> entries[j].id != id
    ensures Position(entries, id) == Some(i)
  {
    hide Position;
    if Position(entries, id).Some? {
      assert Position(entries, id).value == i;
    }
  }

  lemma {:induction false} WithoutAbsent(order: seq<Text>, id: Text)
    requires id !in order
    ensures Without(order, id) == order
  {
    if order != [] {
      WithoutAbsent(order[1..], id);
      assert order == [order[0]] + order[1..];
    }
  }

  lemma {:induction false} WithoutAt(order: seq<Text>, i: nat)
    requires i < |order| && order[i] !in order[..i] && order[i] !in order[i + 1..]
    ensures Without(order, order[i]) == order[..i] + order[i + 1..]
  {
    if i == 0 {
      WithoutAbsent(order[1..], order[0]);
    } else {
      assert order[1..][..i - 1] == order[1..i] && order[1..][i..] == order[i + 1..];
      assert order[0] in order[..i];
      assert forall x :: x in order[1..i] ==> x in order[..i];
      WithoutAt(order[1..], i - 1);
      assert order[..i] == [order[0]] + order[1..i];
    }
  }

  lemma AddShows(entries: seq<Entry>, e: Entry, values: map<Text, Entry>, id: Text)
    requires Shows(values, entries, id) && Position(entries, e.id).None?
    ensures Shows(values[e.id := e], entries + [e], id)
  {
    hide Position;
    if id == e.id {
      PositionIs(entries + [e], id, |entries|);
    } else if Position(entries, id).Some? {
      PositionIs(entries + [e], id, Position(entries, id).value);
    }
  }

  lemma AddRefines(entries: seq<Entry>, e: Entry)
    requires Position(entries, e.id).None?
    ensures AsMap(entries + [e]) == ApplyToMap(AsMap(entries), Add(e)).value
  {
    assert AsMap(entries).order == Ids(entries);
    hide AsMap, Position, Shows;
    var es := entries + [e];
    var values := AsMap(entries).values;
    var values' := values[e.id := e];
    forall id ensures Shows(values', es, id) {
      AsMapShows(entries, id);
      AddShows(entries, e, values, id);
    }
    AsMapIs(es, values');
    assert Ids(es) == Ids(entries) + [e.id];
  }

  lemma UpdateShows(entries: seq<Entry>, k: nat, u: Entry, values: map<Text, Entry>, id: Text)
    requires Shows(values, entries, id) && k < |entries| && Position(entries, u.id) == Some(k)
    ensures Shows(values[u.id := u], entries[k := u], id)
  {
    hide Position;
    if Position(entries, id).Some? {
      PositionIs(entries[k := u], id, Position(entries, id).value);
    }
  }

  lemma UpdateRefines(entries: seq<Entry>, id: Text, c: Changes, now: Text)
    requires Position(entries, id).Some?
    ensures Ok(AsMap(Apply(entries, Update(id, c, now)).value)) == ApplyToMap(AsMap(entries), Update(id, c, now))
  {
    assert AsMap(entries).order == Ids(entries);
    AsMapShows(entries, id);
    hide AsMap, Position, Shows;
    var k := Position(entries, id).value;
    var u := Updated(entries[k], c, now);
    var es := entries[k := u];
    var values := AsMap(entries).values;
    var values' := values[id := u];
    assert Apply(entries, Update(id, c, now)) == Ok(es);
    assert ApplyToMap(AsMap(entries), Update(id, c, now)) == Ok(OrderedMap(Ids(entries), values'));
    hide Apply, ApplyToMap, Updated;
    forall x ensures Shows(values', es, x) {
      AsMapShows(entries, x);
      UpdateShows(entries, k, u, values, x);
    }
    AsMapIs(es, values');
    assert Ids(es) == Ids(entries);
  }

  lemma AfterDelete(entries: seq<Entry>, k: nat)
    requires k < |entries|
    ensures var es := entries[..k] + entries[k + 1..];
            |es| == |entries| - 1 && forall i :: 0 <= i < |es| ==> es[i] == entries[if i < k then i else i + 1]
  {
  }

  lemma DeletedAbsent(entries: seq<Entry>, k: nat, x: Text)
    requires DistinctIds(entries) && k < |entries| && (x == entries[k].id || Position(entries, x).None?)
    ensures Position(entries[..k] + entries[k + 1..], x).None?
  {
    hide Position;
    AfterDelete(entries, k);
  }

  lemma DeletedPresent(entries: seq<Entry>, k: nat, x: Text)
    requires k < |entries| && x != entries[k].id && Position(entries, x).Some?
    ensures var v := Position(entries, x).value;
            Position(entries[..k] + entries[k + 1..], x) == Some(if v < k then v else v - 1)
  {
    hide Position;
    var v := Position(entries, x).value;
    FirstAfterDelete(entries, k, x, v);
    PositionIs(entries[..k] + entries[k + 1..], x, if v < k then v else v - 1);
  }

  lemma FirstAfterDelete(entries: seq<Entry>, k: nat, x: Text, v: nat)
    requires k < |entries| && v < |entries| && v != k && entries[v].id == x && forall i :: 0 <= i < v ==> entries[i].id != x
    ensures var es, w := entries[..k] + entries[k + 1..], if v < k then v else v - 1;
            w < |es| && es[w].id == x && forall i :: 0 <= i < w ==> es[i].id != x
  {
    var es, w := entries[..k] + entries[k + 1..], if v < k then v else v - 1;
    AfterDelete(entries, k);
    forall i | 0 <= i < w ensures es[i].id != x {
      assert es[i] == entries[if i < k then i else i + 1];
    }
  }

  lemma DeleteShows(entries: seq<Entry>, k: nat, values: map<Text, Entry>, x: Text)
    requires DistinctIds(entries) && k < |entries| && Shows(values, entries, x)
    ensures Shows(values - {entries[k].id}, entries[..k] + entries[k + 1..], x)
  {
    hide Position;
    AfterDelete(entries, k);
    if x == entries[k].id || Position(entries, x).None? {
      DeletedAbsent(entries, k, x);
    } else {
      DeletedPresent(entries, k, x);
    }
  }

  lemma DeleteRefines(entries: seq<Entry>, id: Text)
    requires DistinctIds(entries) && Position(entries, id).Some?
    ensures Ok(AsMap(Apply(entries, Delete(id)).value)) == ApplyToMap(AsMap(entries), Delete(id))
  {
    assert AsMap(entries).order == Ids(entries);
    AsMapShows(entries, id);
    hide AsMap, Position, Shows, Without, DistinctIds;
    var k := Position(entries, id).value;
    var es := entries[..k] + entries[k + 1..];
    var values := AsMap(entries).values;
    var values' := values - {id};
    assert Apply(entries, Delete(id)) == Ok(es);
    assert ApplyToMap(AsMap(entries), Delete(id)) == Ok(OrderedMap(Without(Ids(entries), id), values'));
    hide Apply, ApplyToMap;
    forall x ensures Shows(values', es, x) {
      AsMapShows(entries, x);
      DeleteShows(entries, k, values, x);
    }
    AsMapIs(es, values');
    DeleteOrder(entries, k);
  }

  lemma DeleteOrder(entries: seq<Entry>, k: nat)
    requires DistinctIds(entries) && k < |entries|
    ensures Ids(entries[..k] + entries[k + 1..]) == Without(Ids(entries), entries[k].id)
  {
    var ids := Ids(entries);
    assert forall i :: 0 <= i < |ids| && i != k ==> ids[i] != ids[k];
    WithoutAt(ids, k);
    assert Ids(entries[..k] + entries[k + 1..]) == ids[..k] + ids[k + 1..];
  }

  lemma ApplyDistinct(entries: seq<Entry>, m: Mutation)
    requires DistinctIds(entries) && (m.Add? ==> Position(entries, m.entry.id).None?) && Apply(entries, m).Ok?
    ensures DistinctIds(Apply(entries, m).value)
  {
    hide Position;
    var es := Apply(entries, m).value;
    if m.Delete? {
      var k := Position(entries, m.deleteId).value;
      assert forall i :: 0 <= i < |es| ==> es[i] == if i < k then entries[i] else entries[i + 1];
    }
  }

  /** The list refines the insertion-ordered map: every mutation succeeds on both or on neither,
      gives the same map, and keeps ids distinct. */
  lemma ApplyRefinesMap(entries: seq<Entry>, m: Mutation)
    requires DistinctIds(entries) && (m.Add? ==> Position(entries, m.entry.id).None?)
    ensures match Apply(entries, m)
            case Ok(es) => DistinctIds(es) && ApplyToMap(AsMap(entries), m) == Ok(AsMap(es))
            case Err(e) => ApplyToMap(AsMap(entries), m) == Err(e)
  {
    hide AsMap, Position, DistinctIds;
    if Apply(entries, m).Ok? {
      ApplyDistinct(entries, m);
    }
    match m
    case Add(e) => AddRefines(entries, e);
    case Update(id, c, now) =>
      AsMapShows(entries, id);
      if Position(entries, id).Some? { UpdateRefines(entries, id, c, now); }
    case Delete(id) =>
      AsMapShows(entries, id);
      if Position(entries, id).Some? { DeleteRefines(entries, id); }
  }

  const ID_COUNT := 0x1_0000_0000

  /** The ids `uuid4().hex[:8]` can give: eight lower-case hexadecimal digits. */
  function HexId(n: nat): (id: Text)
    requires n < ID_COUNT
  {
    Hex4(n / 0x1_0000) + Hex4(n % 0x1_0000)
  }

  lemma HexIdInjective(m: nat, n: nat)
    requires m < ID_COUNT && n < ID_COUNT && HexId(m) == HexId(n)
    ensures m == n
  {
    hide Hex4;
    assert HexId(m)[..4] == Hex4(m / 0x1_0000) && HexId(m)[4..] == Hex4(m % 0x1_0000);
    assert HexId(n)[..4] == Hex4(n / 0x1_0000) && HexId(n)[4..] == Hex4(n % 0x1_0000);
    HexInjective(m / 0x1_0000, n / 0x1_0000);
    HexInjective(m % 0x1_0000, n % 0x1_0000);
  }

  lemma HexInjective(v: int, w: int)
    requires 0 <= v < 0x10000 && 0 <= w < 0x10000 && Hex4(v) == Hex4(w)
    ensures v == w
  {
    HexRoundTrip(v, []);
    HexRoundTrip(w, []);
    assert Hex4(v) + [] == Hex4(w) + [];
  }

  /** Generated ids have nothing to merge. */
  lemma HexIdNormal(n: nat)
    requires n < ID_COUNT
    ensures Merge(HexId(n)) == HexId(n)
  {
    MergeFixesIffWellPaired(HexId(n));
  }

  predicate LowerHex(c: int) {
    0x30 <= c <= 0x39 || 0x61 <= c <= 0x66
  }

  /** The ids that can be generated are exactly the strings of eight lower-case hexadecimal digits. */
  lemma HexIds(id: Text)
    ensures (exists n :: 0 <= n < ID_COUNT && HexId(n) == id) <==> |id| == 8 && forall i :: 0 <= i < 8 ==> LowerHex(id[i])
  {
    if |id| == 8 && forall i :: 0 <= i < 8 ==> LowerHex(id[i]) {
      var high := HexReaches(id[..4]);
      var low := HexReaches(id[4..]);
      hide Hex4;
      var n := high * 0x1_0000 + low;
      assert n / 0x1_0000 == high && n % 0x1_0000 == low;
      assert id == id[..4] + id[4..];
      assert 0 <= n < ID_COUNT && HexId(n) == id;
    }
  }

  lemma HexReaches(b: Text) returns (v: int)
    requires |b| == 4 && forall i :: 0 <= i < 4 ==> LowerHex(b[i])
    ensures 0 <= v < 0x1_0000 && Hex4(v) == b
  {
    var d0, d1, d2, d3 := LowerHexValue(b[0]), LowerHexValue(b[1]), LowerHexValue(b[2]), LowerHexValue(b[3]);
    v := ((d0 * 16 + d1) * 16 + d2) * 16 + d3;
    hide LowerHexValue, HexDigit;
    assert v / 16 == (d0 * 16 + d1) * 16 + d2 && v / 16 / 16 == d0 * 16 + d1 && v / 16 / 16 / 16 == d0;
    assert Hex4(v) == [HexDigit(d0), HexDigit(d1), HexDigit(d2), HexDigit(d3)];
  }

  function LowerHexValue(c: int): (v: int)
    requires LowerHex(c)
    ensures 0 <= v < 16 && HexDigit(v) == c
  {
    if c <= 0x39 then c - 0x30 else c - 0x57
  }

  /** Of more candidate ids than entries one is unused. */
  lemma {:induction false} UnusedIn(entries: seq<Entry>, candidates: set<nat>) returns (n: nat)
    requires |entries| < |candidates| && forall c :: c in candidates ==> c < ID_COUNT
    ensures n in candidates && n < ID_COUNT && Position(entries, HexId(n)).None?
  {
    hide HexId;
    if entries == [] {
      n :| n in candidates;
    } else {
      var rest := candidates;
      if c :| c in candidates && HexId(c) == entries[0].id {
        rest := candidates - {c};
        forall c' | c' in rest ensures HexId(c') != entries[0].id {
          if HexId(c') == HexId(c) { HexIdInjective(c', c); }
        }
      }
      n := UnusedIn(entries[1..], rest);
    }
  }

  ghost function Below(count: nat): (r: set<nat>)
    ensures |r| == count && forall x: nat :: x in r <==> x < count
  {
    if count == 0 then {} else Below(count - 1) + {count - 1}
  }

  /** Pigeonhole: while there are fewer than 16^8 entries some id that `new_entry_id` can draw is
      unused, so the retry loop of `add_entry` can end. */
  lemma UnusedIdExists(entries: seq<Entry>)
    requires |entries| < ID_COUNT
    ensures exists n :: 0 <= n < ID_COUNT && Position(entries, HexId(n)).None?
  {
    var n := UnusedIn(entries, Below(ID_COUNT));
  }

  /** Merging surrogate pairs is final. */
  lemma {:induction false} MergeWellPaired(s: Text)
    ensures WellPaired(Merge(s))
    ensures s != [] ==> Merge(s) != [] && (Low(Merge(s)[0]) ==> Low(s[0]))
    decreases |s|
  {
    if s == [] {
    } else {
      var pair := |s| >= 2 && High(s[0]) && Low(s[1]);
      var t := if pair then s[2..] else s[1..];
      MergeWellPaired(t);
      var r := Merge(s);
      assert r[1..] == Merge(t);
      forall i | 0 <= i < |r| - 1 ensures !(High(r[i]) && Low(r[i + 1])) {
        if i > 0 {
          assert r[i] == Merge(t)[i - 1] && r[i + 1] == Merge(t)[i];
        } else {
          assert r[1] == Merge(t)[0];
        }
      }
    }
  }

  lemma MergeTwice(s: Text)
    ensures Merge(Merge(s)) == Merge(s)
  {
    MergeWellPaired(s);
    MergeFixesIffWellPaired(Merge(s));
  }

  lemma MergeEntriesTwice(entries: seq<Entry>)
    ensures MergeEntries(MergeEntries(entries)) == MergeEntries(entries)
    ensures NormalIds(MergeEntries(entries))
  {
    hide Merge;
    forall e: Entry ensures MergeEntry(MergeEntry(e)) == MergeEntry(e) {
      MergeTwice(e.id);
      MergeTwice(e.service);
      MergeTwice(e.username);
      MergeTwice(e.password);
      MergeTwice(e.notes);
      MergeTwice(e.createdAt);
      MergeTwice(e.updatedAt);
    }
    forall i | 0 <= i < |entries| ensures Merge(MergeEntries(entries)[i].id) == MergeEntries(entries)[i].id {
      MergeTwice(entries[i].id);
    }
  }

  /** Ids without a surrogate pair to merge, as all generated and all reloaded ids are. */
  predicate NormalIds(entries: seq<Entry>) {
    forall i :: 0 <= i < |entries| ==> Merge(entries[i].id) == entries[i].id
  }

  predicate NormalAdd(m: Mutation) {
    m.Add? ==> Merge(m.entry.id) == m.entry.id
  }

  predicate NormalAdds(ms: seq<Mutation>) {
    forall m :: m in ms ==> NormalAdd(m)
  }

  /** Two lists that are saved as the same body. */
  predicate Alike(a: seq<Entry>, b: seq<Entry>) {
    MergeEntries(a) == MergeEntries(b) && NormalIds(a) && NormalIds(b)
  }

  lemma AlikeAt(a: seq<Entry>, b: seq<Entry>)
    requires Alike(a, b)
    ensures |a| == |b| && forall i :: 0 <= i < |a| ==> MergeEntry(a[i]) == MergeEntry(b[i]) && a[i].id == b[i].id
    ensures forall id :: Position(a, id) == Position(b, id)
  {
    hide Merge;
    assert |MergeEntries(a)| == |MergeEntries(b)|;
    forall i | 0 <= i < |a| ensures MergeEntry(a[i]) == MergeEntry(b[i]) && a[i].id == b[i].id {
      assert MergeEntries(a)[i] == MergeEntries(b)[i];
    }
    forall id ensures Position(a, id) == Position(b, id) {
      hide Position;
    }
  }

  lemma AlikeIf(a: seq<Entry>, b: seq<Entry>)
    requires |a| == |b|
    requires forall i :: 0 <= i < |a| ==> MergeEntry(a[i]) == MergeEntry(b[i]) && Merge(a[i].id) == a[i].id && Merge(b[i].id) == b[i].id
    ensures Alike(a, b)
  {
    hide Merge, MergeEntry;
    assert MergeEntries(a) == MergeEntries(b);
  }

  lemma UpdateAlike(a: seq<Entry>, b: seq<Entry>, k: nat, c: Changes, now: Text)
    requires Alike(a, b) && k < |a| == |b|
    ensures Alike(a[k := Updated(a[k], c, now)], b[k := Updated(b[k], c, now)])
  {
    AlikeAt(a, b);
    hide Merge, Position, MergeEntries;
    AlikeIf(a[k := Updated(a[k], c, now)], b[k := Updated(b[k], c, now)]);
  }

  lemma DeleteAlike(a: seq<Entry>, b: seq<Entry>, k: nat)
    requires Alike(a, b) && k < |a| == |b|
    ensures Alike(a[..k] + a[k + 1..], b[..k] + b[k + 1..])
  {
    AlikeAt(a, b);
    AfterDelete(a, k);
    AfterDelete(b, k);
    hide Merge, Position, MergeEntries, MergeEntry;
    AlikeIf(a[..k] + a[k + 1..], b[..k] + b[k + 1..]);
  }

  lemma AddAlike(a: seq<Entry>, b: seq<Entry>, e: Entry)
    requires Alike(a, b) && Merge(e.id) == e.id
    ensures Alike(a + [e], b + [e])
  {
    AlikeAt(a, b);
    hide Merge, Position, MergeEntries, MergeEntry;
    AlikeIf(a + [e], b + [e]);
  }

  /** Such lists have the same ids. */
  lemma AlikeDistinct(a: seq<Entry>, b: seq<Entry>)
    requires Alike(a, b) && DistinctIds(a)
    ensures DistinctIds(b)
  {
    AlikeAt(a, b);
    hide Merge, MergeEntries, MergeEntry, Position;
  }

  /** Mutations do not tell such lists apart. */
  lemma ApplyAlike(a: seq<Entry>, b: seq<Entry>, m: Mutation)
    requires Alike(a, b) && NormalAdd(m)
    ensures match (Apply(a, m), Apply(b, m))
            case (Ok(x), Ok(y)) => Alike(x, y)
            case (Err(e), Err(f)) => e == f
            case _ => false
  {
    hide Merge, Position, Alike, Updated;
    AlikeAt(a, b);
    match m
    case Add(e) => AddAlike(a, b, e);
    case Update(id, c, now) => if Position(a, id).Some? { UpdateAlike(a, b, Position(a, id).value, c, now); }
    case Delete(id) => if Position(a, id).Some? { DeleteAlike(a, b, Position(a, id).value); }
  }

  /** The list after a history of mutations; one that does not apply changes nothing. */
  function Fold(base: seq<Entry>, ms: seq<Mutation>): seq<Entry> {
    if ms == [] then base
    else
      var before := Fold(base, ms[..|ms| - 1]);
      match Apply(before, ms[|ms| - 1])
      case Ok(es) => es
      case Err(_) => before
  }

  lemma FoldMore(base: seq<Entry>, ms: seq<Mutation>, m: Mutation)
    ensures Fold(base, ms + [m]) == match Apply(Fold(base, ms), m)
                                    case Ok(es) => es
                                    case Err(_) => Fold(base, ms)
  {
    assert (ms + [m])[..|ms|] == ms;
  }

  lemma {:induction false} FoldNormal(base: seq<Entry>, ms: seq<Mutation>)
    requires NormalIds(base) && NormalAdds(ms)
    ensures NormalIds(Fold(base, ms))
  {
    if ms != [] {
      FoldNormal(base, ms[..|ms| - 1]);
      var before := Fold(base, ms[..|ms| - 1]);
      ApplyAlike(before, before, ms[|ms| - 1]);
    }
  }

  /** Every addition uses an id that is unused at that point, as `add_entry` sees to. */
  ghost predicate FreshAdds(base: seq<Entry>, ms: seq<Mutation>) {
    forall i :: 0 <= i < |ms| && ms[i].Add? ==> Position(Fold(base, ms[..i]), ms[i].entry.id).None?
  }

  function FoldMap(base: OrderedMap, ms: seq<Mutation>): OrderedMap {
    if ms == [] then base
    else
      var before := FoldMap(base, ms[..|ms| - 1]);
      match ApplyToMap(before, ms[|ms| - 1])
      case Ok(m) => m
      case Err(_) => before
  }

  /** Over every history ids stay pairwise distinct, and the list stays the presentation of the
      insertion-ordered map that the same mutations give. */
  lemma {:induction false} FoldRefinesMap(base: seq<Entry>, ms: seq<Mutation>)
    requires DistinctIds(base) && FreshAdds(base, ms)
    ensures DistinctIds(Fold(base, ms))
    ensures AsMap(Fold(base, ms)) == FoldMap(AsMap(base), ms)
  {
    hide AsMap, DistinctIds, Position, Apply, ApplyToMap;
    if ms != [] {
      var n := |ms| - 1;
      assert FreshAdds(base, ms[..n]) by {
        forall i | 0 <= i < n && ms[..n][i].Add? ensures Position(Fold(base, ms[..n][..i]), ms[..n][i].entry.id).None? {
          assert ms[..n][i] == ms[i] && ms[..n][..i] == ms[..i];
        }
      }
      FoldRefinesMap(base, ms[..n]);
      ApplyRefinesMap(Fold(base, ms[..n]), ms[n]);
    }
  }
}
