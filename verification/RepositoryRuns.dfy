/** One session's calls, end to end: through JSON, AEAD, container and storage, and back. */
module RepositoryRuns {
  import opened Basics
  import opened Kdf
  import opened Aead
  import opened Vault
  import opened VaultSessions
  import opened FileFormat
  import opened Entries
  import opened Storage
  import opened Repository
  import opened EntryLists

  datatype Call =
    | Mutating(mutation: Mutation, nonce: Nonce, weather: Weather)
    | Rekeying(password: Bytes, params: Option<Argon2Parameters>, draw: ChangeDraw, weather: Weather)

  /** An open repository, the file and log it works on, and the master password in force. */
  datatype Client = Client(repo: Repo, store: Store, password: Bytes)

  datatype Outcome = Outcome(client: Client, result: Result<()>)

  function Do(p: Primitives, s: Client, c: Call): Outcome {
    match c
    case Mutating(m, nonce, w) =>
      var r := Mutate(p, s.store, s.repo, m, nonce, w);
      Outcome(Client(r.repo, r.store, s.password), r.result)
    case Rekeying(password, params, d, w) =>
      var r := ChangeMaster(p, s.store, s.repo, password, params, d, w);
      Outcome(Client(r.repo, r.store, if r.result.Ok? then password else s.password), r.result)
  }

  function Run(p: Primitives, s: Client, calls: seq<Call>): Client {
    if calls == [] then s else Do(p, Run(p, s, calls[..|calls| - 1]), calls[|calls| - 1]).client
  }

  predicate AllSucceed(p: Primitives, s: Client, calls: seq<Call>) {
    calls == [] || (AllSucceed(p, s, calls[..|calls| - 1]) && Do(p, Run(p, s, calls[..|calls| - 1]), calls[|calls| - 1]).result.Ok?)
  }

  function Mutations(calls: seq<Call>): seq<Mutation> {
    if calls == [] then []
    else Mutations(calls[..|calls| - 1]) + if calls[|calls| - 1].Mutating? then [calls[|calls| - 1].mutation] else []
  }

  function SaltOf(c: Call): set<Bytes> {
    if c.Rekeying? then {c.draw.salt} else {}
  }

  function Salts(calls: seq<Call>): set<Bytes> {
    if calls == [] then {} else Salts(calls[..|calls| - 1]) + SaltOf(calls[|calls| - 1])
  }

  /** No salt is drawn twice. */
  predicate FreshSalts(salts: set<Bytes>, calls: seq<Call>) {
    calls == [] ||
    (FreshSalts(salts, calls[..|calls| - 1]) && SaltOf(calls[|calls| - 1]) !! salts + Salts(calls[..|calls| - 1]))
  }

  /** Call by call. */
  lemma {:induction false} AllSucceedIff(p: Primitives, s: Client, calls: seq<Call>)
    ensures AllSucceed(p, s, calls) <==> forall k :: 0 <= k < |calls| ==> Do(p, Run(p, s, calls[..k]), calls[k]).result.Ok?
  {
    hide Do, Run;
    if calls != [] {
      var n := |calls| - 1;
      AllSucceedIff(p, s, calls[..n]);
      forall k | 0 <= k < n ensures calls[..n][..k] == calls[..k] && calls[..n][k] == calls[k] {
      }
      var ok := forall k :: 0 <= k < n ==> Do(p, Run(p, s, calls[..k]), calls[k]).result.Ok?;
      assert AllSucceed(p, s, calls[..n]) <==> ok;
      assert AllSucceed(p, s, calls) <==> ok && Do(p, Run(p, s, calls[..n]), calls[n]).result.Ok?;
    }
  }

  lemma {:induction false} FreshSaltsIff(salts: set<Bytes>, calls: seq<Call>)
    ensures forall x :: x in Salts(calls) <==> exists k :: 0 <= k < |calls| && x in SaltOf(calls[k])
    ensures FreshSalts(salts, calls) <==>
            && (forall k :: 0 <= k < |calls| ==> SaltOf(calls[k]) !! salts)
            && (forall j, k :: 0 <= j < k < |calls| ==> SaltOf(calls[j]) !! SaltOf(calls[k]))
  {
    if calls != [] {
      var n := |calls| - 1;
      FreshSaltsIff(salts, calls[..n]);
      assert forall k :: 0 <= k < n ==> calls[..n][k] == calls[k];
    }
  }

  /** The file reopens to the session, and its body encodes the list. */
  ghost predicate Synced(p: Primitives, s: Client) {
    && !s.repo.closed && s.store.disk.Some?
    && Reopens(p, s.store.log, s.password, s.store.disk.value, s.repo.session)
    && DeserializeEntries(s.repo.session.plaintext) == Ok(MergeEntries(s.repo.entries))
  }

  lemma DoSynced(p: Primitives, s: Client, salts: set<Bytes>, c: Call)
    requires p.Sound() && LogInv(p, s.store.log, salts) && Synced(p, s)
    requires (c.Rekeying? ==> c.draw.salt !in salts) && Do(p, s, c).result.Ok?
    ensures var s' := Do(p, s, c).client;
            && Synced(p, s') && LogInv(p, s'.store.log, salts + SaltOf(c))
            && s'.repo.entries == (if c.Mutating? then Apply(s.repo.entries, c.mutation).value else s.repo.entries)
    ensures c.Mutating? ==> Apply(s.repo.entries, c.mutation).Ok?
  {
    hide OpenSession, DeserializeEntries, SerializeEntries, MergeEntries, Apply, LogInv, SaveSession, ChangeSession;
    match c
    case Mutating(m, nonce, w) =>
      assert salts + {} == salts;
      if Apply(s.repo.entries, m).Ok? {
        var entries := Apply(s.repo.entries, m).value;
        SaveOpens(p, s.store.log, salts, s.password, s.store.disk.value, s.repo.session, SerializeEntries(entries), nonce);
        DeserializeSerialize(entries);
      }
    case Rekeying(password, params, d, w) =>
      ChangeOpens(p, s.store.log, salts, s.password, s.store.disk.value, s.repo.session, password, params, d);
  }

  lemma {:induction false} RunSynced(p: Primitives, s: Client, salts: set<Bytes>, calls: seq<Call>)
    requires p.Sound() && LogInv(p, s.store.log, salts) && Synced(p, s)
    requires AllSucceed(p, s, calls) && FreshSalts(salts, calls)
    ensures var s' := Run(p, s, calls);
            && Synced(p, s') && LogInv(p, s'.store.log, salts + Salts(calls))
            && s'.repo.entries == Fold(s.repo.entries, Mutations(calls))
  {
    hide Synced, LogInv, Do, Apply;
    if calls == [] {
      assert salts + Salts(calls) == salts;
    } else {
      var n := |calls| - 1;
      var before, c := calls[..n], calls[n];
      RunSynced(p, s, salts, before);
      DoSynced(p, Run(p, s, before), salts + Salts(before), c);
      assert salts + Salts(calls) == salts + Salts(before) + SaltOf(c);
      if c.Mutating? {
        FoldMore(s.repo.entries, Mutations(before), c.mutation);
      } else {
        assert Mutations(calls) == Mutations(before);
      }
    }
  }

  /** After any successful mutations and password changes, closing and reopening with the current
      password gives the list those mutations make of the starting one: exactly, when no string
      has surrogates to merge. */
  lemma ReopenedList(p: Primitives, s: Client, salts: set<Bytes>, calls: seq<Call>)
    requires p.Sound() && LogInv(p, s.store.log, salts) && Synced(p, s)
    requires AllSucceed(p, s, calls) && FreshSalts(salts, calls)
    ensures var s' := Run(p, s, calls);
            var entries := Fold(s.repo.entries, Mutations(calls));
            && LoadStore(p, s'.store, s'.password) == Ok(Repo(s'.repo.session, MergeEntries(entries), false))
            && ((forall e :: e in entries ==> WellPairedEntry(e)) ==>
                  LoadStore(p, s'.store, s'.password) == Ok(s'.repo) && s'.repo.entries == entries)
  {
    RunSynced(p, s, salts, calls);
    var s' := Run(p, s, calls);
    MergeEntriesFixesIff(s'.repo.entries);
    OpenFacts(p, s'.store.log, salts + Salts(calls), s'.password, s'.store.disk.value);
    hide OpenSession, DeserializeEntries, Run, AllSucceed, Fold, Mutations, FreshSalts, MergeEntries;
  }

  /** The reopened repository is in step with its file again, so the next series of calls may
      start from it. */
  lemma ReopenedIsSynced(p: Primitives, s: Client, salts: set<Bytes>, calls: seq<Call>)
    requires p.Sound() && LogInv(p, s.store.log, salts) && Synced(p, s)
    requires AllSucceed(p, s, calls) && FreshSalts(salts, calls)
    ensures var s' := Run(p, s, calls);
            var reopened := LoadStore(p, s'.store, s'.password);
            && LogInv(p, s'.store.log, salts + Salts(calls))
            && reopened.Ok? && Synced(p, Client(reopened.value, s'.store, s'.password))
  {
    RunSynced(p, s, salts, calls);
    ReopenedList(p, s, salts, calls);
    MergeEntriesTwice(Run(p, s, calls).repo.entries);
    hide OpenSession, DeserializeEntries, Run, AllSucceed, Fold, Mutations, FreshSalts, MergeEntries, LogInv, LoadStore, Salts;
  }

  lemma EmptyBodyFits()
    ensures |SerializeEntries([])| <= MAX_PLAINTEXT
  {
    EmptyBody();
    assert |"schema_version"| == 14 && |"entries"| == 7 && |"{\""| == 2 && |"\":1,\""| == 5 && |"\":[]}"| == 5;
    hide SerializeEntries;
  }

  /** Creating a vault at a new path: it fails exactly on costs out of range or a failed write, and
      otherwise gives an empty repository under the costs asked for, or the default ones, with the
      drawn salt and data key. */
  lemma CreateOutcome(p: Primitives, store: Store, salts: set<Bytes>, password: Bytes,
                      params: Option<Argon2Parameters>, d: CreateDraw, w: Weather)
    requires p.Sound() && LogInv(p, store.log, salts) && d.salt !in salts
    ensures var costs := if params.Some? then params.value else Argon2Parameters(65_536, 3, 4);
            var c := CreateRepo(p, store, password, params, d, w);
            if !costs.InRange() then c.result == Err(FormatError) && c.store.disk == store.disk
            else if !w.fault.NoFault? then c.result == Err(OSError) && (!w.Replaces() ==> c.store.disk == store.disk)
            else
              && c.result.Ok? && c.result.value.entries == [] && !c.result.value.closed
              && c.result.value.session == CreatedSession(p, password, SerializeEntries([]), params, d)
              && c.result.value.session.params == costs && c.result.value.session.salt == d.salt
              && c.result.value.session.dek == d.dek && c.result.value.session.counter == 0
  {
    assert MergeEntries([]) == [];
    assert CostsOrDefault(params) == if params.Some? then params.value else Argon2Parameters(65_536, 3, 4);
    EmptyBodyFits();
    hide OpenSession, DeserializeEntries, MergeEntries, SerializeEntries, LogInv, WrapKey, SealFile, BuildKdfHeader, CostsOrDefault;
    CreateOpens(p, store.log, salts, password, SerializeEntries([]), params, d);
    DeserializeSerialize([]);
  }

  /** A password change of an open repository: exactly when it succeeds and what it gives. The costs
      are the ones asked for, or stay. */
  lemma RekeyOutcome(p: Primitives, s: Client, salts: set<Bytes>, password: Bytes,
                     params: Option<Argon2Parameters>, d: ChangeDraw, w: Weather)
    requires p.Sound() && LogInv(p, s.store.log, salts) && Synced(p, s) && d.salt !in salts
    ensures var before := s.repo.session;
            var costs := if params.Some? then params.value else before.params;
            var fits := costs.InRange() && before.counter + 1 < U64_LIMIT && |before.plaintext| <= MAX_PLAINTEXT;
            var c := ChangeMaster(p, s.store, s.repo, password, params, d, w);
            var session := c.repo.session;
            && c.repo.entries == s.repo.entries
            && (!costs.InRange() ==> c.result == Err(FormatError))
            && (!fits ==> c.result.Err? && session == before && c.store.disk == s.store.disk)
            && (fits ==>
                  && c.result == (if w.fault.NoFault? then Ok(()) else Err(OSError))
                  && session.params == costs && session.salt == d.salt && session.dek == before.dek
                  && session.plaintext == before.plaintext && session.counter == before.counter + 1
                  && (!w.Replaces() ==> c.store.disk == s.store.disk)
                  && (w.Replaces() ==>
                        c.store.disk.Some? && Reopens(p, c.store.log, password, c.store.disk.value, session)))
  {
    hide OpenSession, DeserializeEntries, LogInv, WrapKey, SealFile;
    OpenFacts(p, s.store.log, salts, s.password, s.store.disk.value);
    ChangeOpens(p, s.store.log, salts, s.password, s.store.disk.value, s.repo.session, password, params, d);
  }

  /** A mutation of an open repository: exactly when it succeeds, which error it raises, and what it
      leaves in memory and on disk. */
  lemma MutateOutcome(p: Primitives, s: Client, salts: set<Bytes>, m: Mutation, nonce: Nonce, w: Weather)
    requires p.Sound() && LogInv(p, s.store.log, salts) && Synced(p, s)
    ensures var c := Mutate(p, s.store, s.repo, m, nonce, w);
            var session := c.repo.session;
            match Apply(s.repo.entries, m)
            case Err(e) => c == RepoStep(s.repo, s.store, Err(e))
            case Ok(entries) =>
              var fits := s.repo.session.counter + 1 < U64_LIMIT && |SerializeEntries(entries)| <= MAX_PLAINTEXT;
              && c.repo.entries == entries
              && (!fits ==> c.result.Err? && session == s.repo.session && c.store.disk == s.store.disk)
              && (fits ==>
                    && c.result == (if w.fault.NoFault? then Ok(()) else Err(OSError))
                    && session == s.repo.session.(plaintext := SerializeEntries(entries), counter := s.repo.session.counter + 1)
                    && (!w.Replaces() ==> c.store.disk == s.store.disk)
                    && (w.Replaces() ==>
                          c.store.disk.Some? && Reopens(p, c.store.log, s.password, c.store.disk.value, session)))
  {
    hide OpenSession, DeserializeEntries, SerializeEntries, LogInv, Apply, SealFile;
    if Apply(s.repo.entries, m).Ok? {
      SaveOpens(p, s.store.log, salts, s.password, s.store.disk.value, s.repo.session,
                SerializeEntries(Apply(s.repo.entries, m).value), nonce);
    }
  }

  /** What opening raises: no file, a malformed file, a wrong password, an unreadable body. */
  lemma OpenOutcome(p: Primitives, store: Store, salts: set<Bytes>, password: Bytes)
    requires p.Sound() && LogInv(p, store.log, salts)
    ensures var r := LoadStore(p, store, password);
            if store.disk.None? then r == Err(FileNotFoundError)
            else if Parse(store.disk.value).Err? then r == Err(FormatError)
            else
              match OpenSession(p, store.log, password, store.disk.value)
              case Err(_) => r == Err(AuthenticationError)
              case Ok(session) =>
                match DeserializeEntries(session.plaintext)
                case Err(e) => r == Err(e)
                case Ok(entries) => r == Ok(Repo(session, entries, false))
  {
    hide DeserializeEntries, Parse, OpenSession;
    if store.disk.Some? {
      OpenErrors(p, store.log, salts, password, password, store.disk.value);
      if OpenSession(p, store.log, password, store.disk.value).Ok? {
        OpenFacts(p, store.log, salts, password, store.disk.value);
      }
    }
  }

  /** A repository just created is in step with its file. */
  lemma CreatedIsSynced(p: Primitives, store: Store, salts: set<Bytes>, password: Bytes,
                        params: Option<Argon2Parameters>, d: CreateDraw, w: Weather)
    requires p.Sound() && LogInv(p, store.log, salts) && d.salt !in salts
    requires CreateRepo(p, store, password, params, d, w).result.Ok?
    ensures var c := CreateRepo(p, store, password, params, d, w);
            && Synced(p, Client(c.result.value, c.store, password)) && LogInv(p, c.store.log, salts + {d.salt})
            && c.result.value.entries == [] && c.result.value.session.counter == 0
  {
    assert MergeEntries([]) == [];
    hide OpenSession, DeserializeEntries, MergeEntries, CreateFile, SerializeEntries, LogInv;
    CreateOpens(p, store.log, salts, password, SerializeEntries([]), params, d);
    DeserializeSerialize([]);
  }

  /** No call on a closed repository changes the file or succeeds, and closing again changes nothing. */
  lemma ClosedIsInert(p: Primitives, s: Client, c: Call)
    requires s.repo == CloseRepo(s.repo) && s.repo.session.closed
    ensures Do(p, s, c).client.store == s.store && Do(p, s, c).result.Err?
    ensures Do(p, s, c).client.repo.session == s.repo.session
  {
  }
}
