# Secure-vault: a verified model

A Dafny 4.11 model of the `securevault` stack, from bytes on disk up to the list of entries, and proofs of
what its layers promise each other. `dafny verify dfyconfig.toml` checks everything.

| file | models |
|---|---|
| `LittleEndian.dfy`, `FileFormat.dfy`, `Kdf.dfy` | the container layout, its parser, the Argon2id bounds |
| `Aead.dfy` | AES-256-GCM as an ideal AEAD with a log of everything ever sealed |
| `Vault.dfy` | create, open, save, change password, close: functions, and class `UnlockedVault` proved against them |
| `VaultSessions.dfy`, `VaultHistory.dfy` | what one operation guarantees; what holds over every history of operations |
| `JsonText.dfy`, `Json.dfy`, `JsonGrammar.dfy`, `Entries.dfy` | JSON strings and values, the grammar they are read by, the entry list as a JSON body |
| `Storage.dfy`, `Locking.dfy` | crash-atomic replacement over volatile and durable file-system state; the sidecar lock |
| `Repository.dfy`, `EntryLists.dfy`, `RepositoryRuns.dfy` | class `VaultRepository`; the list as an insertion-ordered map; whole series of calls |
| `Protocol.dfy` | any number of processes, interleaved, with failed writes, deaths and machine crashes |
| `PasswordGen.dfy` | the password generator and its exact output language |

## Main results

- **No splicing** (`VaultHistory.HistoryTheorem`). After any history, including sessions branched from old files, a byte
  string opens under a password if and only if some call emitted exactly those bytes and the password derives the same
  key; it then opens to the state in which it was emitted. So every byte of a file is bound.
- **Reopening is unobservable**; **a password change rotates access**: later files open under precisely the passwords that
  derive the new one's key (`VaultHistory`).
- **Canonical container** (`FileFormat`): parse and serialize undo each other in both directions, the parser accepts
  exactly the image of the serializer, and accepted files are prefix-free.
- **Body round trip** (`Entries.RoundTripIff`): exact precisely when no string has a high surrogate directly before a low one.
- **The parser reads exactly the grammar** (`JsonGrammar.LoadsIff`), and exactly the bodies of schema version 1 with readable
  entries are accepted (`Entries.AcceptedIff`).
- **No nonce repeats** (`VaultHistory.NoncesNeverRepeat`): every sealing of every history uses its own draw.
- **Crash atomicity** (`Storage.FileSystem.WriteAtomic`): at every intermediate state, what a crash may leave at the path
  is what it might have left before the call, or the complete new file; a call that fails before the rename adds nothing.
- **No lost update** (`Protocol.NoLostUpdate`): over every interleaving of any number of processes on one file system,
  call by call, with failed writes, deaths and machine crashes anywhere; what was stored with a working directory sync is
  never lost (`Protocol.SyncedReplacesSurvive`). A crash in a run is the crash of the file-system model; the
  recorded history of contents steers no run (`Protocol.RecordsUnread`). Whenever the lock is free, an undisturbed
  session stores its mutation on top of all others and frees the lock (`Protocol.SessionStores`).
- **When a save counter repeats** (`VaultHistory.CounterReusedIff`): exactly when an emitted file is ahead of the session.
- **End-to-end refinement** (`RepositoryRuns.ReopenedList`, `EntryLists.FoldRefinesMap`).
- **Output language** (`PasswordGen.OutputLanguage`): the possible passwords, character by character, sound and complete.

## Assumptions

- Argon2id is an arbitrary function with 32-byte results. It cannot be injective in the password, so access is stated by the
  derived key: passwords that derive the same key are interchangeable. Sound primitives that tell two given passwords apart
  under every salt exist (`VaultHistory.DistinctKeysPossible`).
- AES-256-GCM is an arbitrary function that adds 16 bytes and is injective in the plaintext for a fixed key, nonce and
  associated data; decryption succeeds exactly on tuples that were sealed (RFC 5116).
- The random source never repeats a salt (`Fresh`; `VaultHistory.FreshRunIff` and `Protocol.FreshRunIff` spell it out). Nonces
  may repeat: only `VaultHistory.NoncesNeverRepeat` asks for draws that differ.
- A Python string is a sequence of code points, surrogates included. Entries are immutable values.
- Random draws, clock readings, generated ids, and the faults of the file system are parameters.

## Where the code and its documentation differ

- DESIGN.md (section 3.1) says a counter is never used for two bodies in a vault's lifetime. Two sessions on one file, or a
  save after a lost write and a reopen, do that (`VaultSessions.BranchesShareCounters`). A save or password change repeats a
  counter of its data key if and only if an emitted file with that key is ahead of the session
  (`VaultHistory.CounterReusedIff`). The counters of the successive contents of the vault file do strictly increase
  (`Protocol.NoLostUpdate`).
- `deserialize_entries` documents one error type for every structural problem. A list element that is not a dictionary
  raises `TypeError` instead (`Entries.NullEntryRaisesTypeError`): exactly when it comes before every dictionary that lacks
  a required key (`Entries.TypeErrorIff`, over every body). An integer of more than 4300 digits raises CPython's plain
  `ValueError`, which the model leaves open.
- A string holding a split surrogate pair comes back as one code point (`Entries.SplitPairIsLost`).

## Model

| member | source | states |
|---|---|---|
| LittleEndian.DecodeEncode | src/securevault/fileformat.py:48-51 | a packed unsigned integer that fits its width unpacks to itself |
| LittleEndian.EncodeDecode | src/securevault/fileformat.py:148-169 | unpacked bytes pack to themselves |
| LittleEndian.DecodeLast | src/securevault/fileformat.py:48-51 | the last byte is the most significant: the order is little-endian |
| Kdf.DeriveKey | src/securevault/kdf.py:73-97 | derivation runs exactly on a 16-byte salt with 19456-1048576 KiB, 1-16 passes and 1-8 lanes, and otherwise gives the format error |
| FileFormat.KdfHeaderFields | src/securevault/fileformat.py:63-76 | in-range costs and a 16-byte salt give a 36-byte header with each field at its documented offset |
| FileFormat.FullHeaderFields | src/securevault/fileformat.py:79-83 | the full header is built exactly for counters below 2^64, and otherwise gives `ValueError` |
| FileFormat.SerializeFailsIff | src/securevault/fileformat.py:86-113 | with parts of the right sizes, assembling fails, with `struct.error`, exactly for a counter of 2^64 or more or a blob of 2^32 bytes or more |
| FileFormat.ParseSerialize | src/securevault/fileformat.py:86-189 | everything storable serializes, and parsing gives back exactly the fields and both headers |
| FileFormat.SerializeParse | src/securevault/fileformat.py:136-189 | an accepted file is the canonical encoding of its fields, and its associated-data headers are the ones the builders give |
| FileFormat.AcceptedIffSerialized | src/securevault/fileformat.py:136-189 | the parser accepts exactly the serializations of storable fields |
| FileFormat.ParseInjective | src/securevault/fileformat.py:179-189 | the full header and the four blobs determine the file |
| FileFormat.PrefixFree | src/securevault/fileformat.py:171-177 | no accepted file is a proper prefix of another: truncation and trailing bytes are refused |
| Aead.Encrypt | src/securevault/aead.py:43-53 | sealing fails exactly for a key that is not 32 bytes, and never forgets an earlier sealing |
| Aead.Find | src/securevault/aead.py:70-77 | a tuple is recognised exactly when it was sealed |
| Aead.DecryptIffSealed | src/securevault/aead.py:56-77 | opening gives a plaintext exactly if it was sealed under the same key, nonce and associated data; a wrong key length is a `ValueError`, all else the authentication error |
| Aead.DecryptEncrypt | src/securevault/aead.py:43-77 | what was just sealed opens to its plaintext, and the blob is 16 bytes longer |
| Aead.DecryptExtended | src/securevault/aead.py:56-77 | a decryption that succeeded keeps succeeding with the same result, whatever is sealed later |
| Vault.Engine.WrapWith | src/securevault/vault.py:42-45 | derives the key, builds the header and wraps the data key, with the error of the first step that fails |
| Vault.Engine.SealFileWith | src/securevault/vault.py:159-169 | seals the body under the full header and assembles the file |
| Vault.Wipe | src/securevault/memory.py:20-36 | every byte of the buffer becomes zero |
| Vault.Create | src/securevault/vault.py:25-61 | computes `CreateFile` with the costs given or the defaults |
| Vault.OpenVault | src/securevault/vault.py:64-98 | returns a fresh session in exactly the state `OpenSession` gives, or its error, leaving the log alone |
| Vault.UnlockedVault.constructor | src/securevault/vault.py:111-131 | a new session is open and holds its arguments |
| Vault.UnlockedVault.Read | src/securevault/vault.py:143-146 | the bytes of the plaintext buffer, or `ValueError` once closed |
| Vault.UnlockedVault.Save | src/securevault/vault.py:150-174 | the whole new state, log and result are those of `SaveSession`; the old plaintext buffer is zeroed on success; a save that raises, in any state, leaves every field and buffer as it was; once closed it raises `ValueError` |
| Vault.UnlockedVault.ChangePassword | src/securevault/vault.py:176-220 | the whole new state, log and result are those of `ChangeSession`; key and plaintext buffers stay; a change that raises, in any state, leaves every field as it was; once closed it raises `ValueError` |
| Vault.UnlockedVault.Close | src/securevault/vault.py:224-230 | every byte of key and plaintext is zero, the session is closed, the other fields stay; closing again changes nothing |
| VaultSessions.WrapKeyOpens | src/securevault/vault.py:193-199 | wrapping under a fresh salt succeeds, keeps the log invariant, and the wrap opens to the data key |
| VaultSessions.SealFileOpens | src/securevault/vault.py:201-212 | a file is produced exactly when counter and body fit, opens under the password to what was sealed, and is the only usable body added to the log |
| VaultSessions.OpenFacts | src/securevault/vault.py:89-98 | an opened session is open, has in-range costs, and its wrap is unlocked by the password |
| VaultSessions.OpenExtended | src/securevault/vault.py:64-98 | a file that opens keeps opening to the same session |
| VaultSessions.CreateOpens | src/securevault/vault.py:37-61 | creation fails exactly for out-of-range costs or an oversized body; the file opens to precisely the state the arguments and draws describe, at counter 0 |
| VaultSessions.SaveOpens | src/securevault/vault.py:150-174 | a save fails exactly on counter or size overflow, leaving the session as it was; otherwise only plaintext and counter change and the file reopens to the new state |
| VaultSessions.ChangeOpens | src/securevault/vault.py:189-220 | a change fails exactly on bad costs, counter or size, leaving the session as it was; otherwise the file reopens under the new password to the new state with the old data key |
| VaultSessions.OpenAgree | src/securevault/vault.py:75-87 | two passwords that open a file derive the same key and give the same session |
| VaultSessions.OpenErrors | src/securevault/vault.py:67-87 | format errors do not depend on the password, every other failure is the one authentication error, and key-length and salt errors are unreachable |
| VaultSessions.BranchesShareCounters | src/securevault/vault.py:157-174 | two sessions on one file seal different bodies under one counter |
| VaultHistory.StepInv | src/securevault/vault.py:25-230 | every create, open, save, change and close keeps: emitted files and open sessions reopen, and every sealed body belongs to an emitted file |
| VaultHistory.CreateEffect | src/securevault/vault.py:25-61 | in a history a create emits a file exactly if costs and body are in range, and it opens to the state the arguments describe |
| VaultHistory.OpenEffect | src/securevault/vault.py:64-98 | opening adds a session in exactly the state opened, and seals nothing |
| VaultHistory.SaveEffect | src/securevault/vault.py:150-174 | a save of an open session emits a file exactly if counter and body fit; the file and the session are in the new state |
| VaultHistory.ChangeEffect | src/securevault/vault.py:176-220 | the same for a password change, with the costs, salt, key and counter it leaves |
| VaultHistory.CloseEffect | src/securevault/vault.py:224-230 | closing zeroes one session and touches no other |
| VaultHistory.StepNonces | src/securevault/aead.py:43-53 | every sealing uses the next nonce drawn for it |
| VaultHistory.NoncesNeverRepeat | src/securevault/aead.py:43-53 | while draws differ, no two sealings of a history share a nonce, across vaults, sessions and branches |
| VaultHistory.AcceptedWasEmitted | src/securevault/vault.py:73-98 | an accepted file is one emitted file byte for byte, with what was sealed in it |
| VaultHistory.HistoryTheorem | src/securevault/vault.py:44-58 | acceptance is exactly emission under the same derived key, over every history; every open session is what its last file reopens to |
| VaultHistory.TamperingDetected | src/securevault/fileformat.py:23-27 | bytes nobody emitted fail, with the format error or the authentication error, under every password |
| VaultHistory.OnlyItsPassword | src/securevault/vault.py:75-80 | an emitted file opens under precisely the passwords that derive its key, and fails authentication under every other |
| VaultHistory.PasswordChangeRotatesAccess | src/securevault/vault.py:189-220 | all files a session emits after a change carry the old data key, open under the new password, and fail authentication under every password that does not derive its key |
| VaultHistory.OutputsIgnoreLog | src/securevault/vault.py:150-220 | the files a session emits depend only on its state and the draws |
| VaultHistory.OutputsAreEmitted | src/securevault/vault.py:150-220 | the results of a series of operations are the files a history emits for them, in order |
| VaultHistory.ReopeningUnobservable | src/securevault/vault.py:89-98 | a reopened session, at any later time, emits the same bytes as the original for the same operations and draws |
| VaultHistory.StepNoGaps | src/securevault/vault.py:157-215 | every step keeps: the counters used with a data key go down to 0 without a gap |
| VaultHistory.CounterReusedIff | src/securevault/vault.py:157-215 | after any history, a save or change writes a counter already used with its data key if and only if an emitted file with that key is ahead of the session |
| JsonText.MergeFixesIffWellPaired | src/securevault/entries.py:61-66 | merging surrogate pairs changes a string exactly when it has one |
| JsonText.EscapeKnown | src/securevault/entries.py:66 | escapes of a line feed, an astral character and a lone surrogate, byte for byte (section 7 of RFC 8259) |
| JsonText.EscapeAsciiIs | src/securevault/entries.py:66 | the escape of every character below 128, byte for byte |
| JsonText.ScanEscaped | src/securevault/entries.py:66-79 | scanning an escaped string gives the string with its surrogate pairs merged, and leaves what follows |
| JsonText.DigitsRoundTrip | src/securevault/entries.py:64-66 | the decimal digits of a number read back as the number |
| Json.ParseDump | src/securevault/entries.py:66-79 | parsing a dumped value (integers up to 4300 digits), followed by anything, gives the value with pairs merged and leaves the rest |
| Json.LoadsDump | src/securevault/entries.py:66-79 | the same for a whole document |
| Json.DumpAscii | src/securevault/entries.py:66 | the output is ASCII, so UTF-8 encoding and decoding are the identity on it |
| Json.DumpCompact | src/securevault/entries.py:66 | lists and objects are printed with bare commas and colons, byte for byte |
| Json.DumpLiterals | src/securevault/entries.py:66 | the literals and the empty containers, byte for byte |
| JsonGrammar.ReadTree | src/securevault/entries.py:78-79 | the text of every value of the grammar (RFC 8259, ASCII, no floats) is read to the value it denotes, whatever follows |
| JsonGrammar.TreeRead | src/securevault/entries.py:78-79 | whatever is read is such a text |
| JsonGrammar.LoadsIff | src/securevault/entries.py:78-79 | a document is accepted with a value exactly if it is, up to white space around it, a text that denotes the value |
| Entries.EmptyBody | src/securevault/entries.py:61-66 | the body of an empty vault, byte for byte: compact separators, schema version first |
| Entries.FromToDict | src/securevault/entries.py:42-58 | each field is under its documented key, and reading the dictionary gives the entry back |
| Entries.DeserializeSerialize | src/securevault/entries.py:61-92 | a serialized list reads back entry by entry in order, pairs merged |
| Entries.RoundTripIff | src/securevault/entries.py:61-92 | the round trip is exact if and only if every string is free of split pairs |
| Entries.AcceptedIff | src/securevault/entries.py:69-92 | a body is accepted exactly if it parses to an object with schema version 1 (or `true`) and a list of dictionaries with the required keys and no nested values |
| Entries.MalformedBody | src/securevault/entries.py:83-91 | whatever parses to anything else than an object of version 1 with a list raises the format error |
| Entries.OtherVersionRefused | src/securevault/entries.py:85-88 | of the bodies with an integer version exactly version 1 is read, and the others raise the format error |
| Entries.FromDictIs | src/securevault/entries.py:45-58 | an element is read exactly if it has the required keys and no nested values; each field is Python's `str` of the value under its key, and missing notes are empty |
| Entries.StrOfKnown | src/securevault/entries.py:49-55 | Python's `str` of strings, `None`, booleans and 1 |
| Entries.SplitPairIsLost | src/securevault/entries.py:61-92 | an input for which it is not |
| Entries.TypeErrorIff | src/securevault/entries.py:45-92 | for every body: only the format error is raised, except `TypeError` exactly when it is an object of schema version 1 with a list of entries whose first element that is no dictionary or lacks a required key is no dictionary |
| Entries.NullEntryRaisesTypeError | src/securevault/entries.py:89-92 | a body for which the documented format error is not what is raised |
| Storage.Fs.Rename | src/securevault/storage.py:52 | the target points to the source's file, the source is gone, and both old and new links may survive a crash |
| Storage.CrashLeavesAfterCrash | src/securevault/storage.py:3-7 | whatever a crash leaves at a name is one of its possible values, and is synced and the only possible one from then on |
| Storage.CrashReaches | src/securevault/storage.py:3-7 | every possible value is left by some crash |
| Storage.RenameSafe | src/securevault/storage.py:48-52 | renaming a synced file over the path leaves the old possibilities or the complete new data |
| Storage.RenameUnsyncedUnsafe | src/securevault/storage.py:51-52 | without the sync before it, a crash after the rename could leave any bytes |
| Storage.SyncDirectoryPins | src/securevault/storage.py:63-74 | after a directory sync a crash leaves exactly what was visible |
| Storage.RefinesRename | src/securevault/storage.py:52 | renaming a synced file over the path adds its data to the history of contents, of which a crash leaves one since the last directory sync |
| Storage.RefinesSync | src/securevault/storage.py:63-74 | a directory sync makes the present content the only possible one |
| Storage.RefinesCrash | src/securevault/storage.py:3-7 | a crash leaves one of the contents since the last directory sync, durable from then on |
| Storage.AttemptRefines | src/securevault/storage.py:32-60 | one whole write with any fault adds its data to the history exactly if the rename happened, and makes it durable with a directory sync |
| Storage.FileSystem.FillTemporary | src/securevault/storage.py:43-51 | filling the temporary file touches neither the path nor what a crash may leave there, at every step and failure |
| Storage.FileSystem.FillAndReplace | src/securevault/storage.py:42-53 | every intermediate state is crash-safe; the file is replaced exactly when the rename is reached, and otherwise a crash may leave exactly what it might before |
| Storage.FileSystem.WriteAtomic | src/securevault/storage.py:32-60 | passes exactly the states between its file-system calls, each of them crash-safe; replaced exactly if the rename happened, also when the call then raises; a failure before it changes no possibility; other files untouched; no temporary file left; with a directory sync only the new data survives |
| Locking.FileLock.Acquire | src/securevault/locking.py:38-49 | takes a free lock; a held one gives the locked error and changes neither locks nor open descriptors |
| Locking.FileLock.Release | src/securevault/locking.py:51-59 | gives back exactly its own lock and descriptor; again is a no-op |
| Repository.Position | src/securevault/repository.py:83-87 | the first position with the id, or none exactly when no entry has it |
| Repository.Updated | src/securevault/repository.py:110-117 | only given fields and the update time change |
| Repository.FirstEqualIsPosition | src/securevault/repository.py:118-124 | lookup and removal by equality hit the very position found by id, also among duplicate ids |
| Repository.VaultRepository.GetEntry | src/securevault/repository.py:83-87 | the first entry with the id, or the not-found error |
| Repository.VaultRepository.PersistEntries | src/securevault/repository.py:152-154 | seals the list and hands the file to the atomic write; a failed write leaves the session ahead of the disk |
| Repository.VaultRepository.AddEntry | src/securevault/repository.py:91-97 | appends an entry under the first drawn id no entry has, and persists |
| Repository.VaultRepository.UpdateEntry | src/securevault/repository.py:99-120 | replaces the first entry with the id in place, and persists; not found changes nothing |
| Repository.VaultRepository.DeleteEntry | src/securevault/repository.py:122-125 | removes the first entry with the id, and persists; not found changes nothing |
| Repository.VaultRepository.ChangeMasterPassword | src/securevault/repository.py:127-129 | rewraps and writes the file; the list stays |
| Repository.VaultRepository.Close | src/securevault/repository.py:133-142 | zeroes key and plaintext, empties the list, releases exactly its lock; again is a no-op |
| Repository.OpenRepository | src/securevault/repository.py:66-76 | the lock is held afterwards exactly when a repository is returned, on every error path; the repository is what the file loads to |
| Repository.CreateRepository | src/securevault/repository.py:40-64 | refuses an existing file or a held lock untouched; the lock is held afterwards exactly when a repository is returned |
| EntryLists.ApplyRefinesMap | src/securevault/repository.py:91-125 | each mutation does on the list what it does on an insertion-ordered map, fails on both or on neither, and keeps ids distinct |
| EntryLists.FoldRefinesMap | src/securevault/repository.py:91-125 | the same over every history |
| EntryLists.UnusedIdExists | src/securevault/repository.py:93-94 | below 16^8 entries an unused id exists, so the retry loop can end |
| EntryLists.HexIds | src/securevault/entries.py:26-29 | the ids that can be generated are exactly the strings of eight lower-case hexadecimal digits |
| EntryLists.HexIdNormal | src/securevault/entries.py:26-29 | generated ids have no surrogates to merge |
| EntryLists.ApplyAlike | src/securevault/repository.py:91-125 | lists that save alike stay alike under every mutation |
| RepositoryRuns.RunSynced | src/securevault/repository.py:91-129 | after successful calls the file reopens to the session, and the list is the fold of the mutations |
| RepositoryRuns.ReopenedList | src/securevault/repository.py:66-76 | closing and reopening with the current password gives exactly that list |
| RepositoryRuns.ReopenedIsSynced | src/securevault/repository.py:66-76 | the reopened repository is in step with its file again |
| RepositoryRuns.CreateOutcome | src/securevault/repository.py:57-61 | creating fails exactly on costs out of range (format error) or a failed write; the new repository has the costs asked for, or 65536 KiB, 3 passes, 4 lanes, and the drawn salt and key |
| RepositoryRuns.MutateOutcome | src/securevault/repository.py:91-125 | exactly when a mutation succeeds, which error it raises, and what it leaves in memory and on disk |
| RepositoryRuns.RekeyOutcome | src/securevault/repository.py:127-129 | the same for a password change, whose costs are those asked for or stay |
| RepositoryRuns.OpenOutcome | src/securevault/repository.py:66-76 | which error opening raises: no file, malformed file, wrong password, unreadable body |
| RepositoryRuns.CreatedIsSynced | src/securevault/repository.py:57-61 | a created repository is empty, at counter 0, and in step with its file |
| RepositoryRuns.ClosedIsInert | src/securevault/repository.py:152-154 | calls on a closed repository fail and leave the file alone |
| Protocol.StepInv | src/securevault/repository.py:40-154 | every step of every process, file-system call, failed write, death or crash keeps the system invariant |
| Protocol.LockLifecycle | src/securevault/locking.py:38-59 | a free lock is taken by who asks and a held one refuses everybody; a failed load, closing, dying and a crash give it back; a load yields the repository in the file; nothing else changes |
| Protocol.SessionStores | src/securevault/repository.py:66-154 | whenever the lock is free, an undisturbed session of lock, load, mutation, write and close stores its mutation after all earlier ones, the vault opens to the new list, and the lock is free again |
| Protocol.TwoSessionsStoreBoth | src/securevault/locking.py:1-12 | two processes one after another, at any point of any history, both store their mutations |
| Protocol.NoLostUpdate | src/securevault/locking.py:1-12 | over every interleaving the file read at the path opens to the fold of the stored mutations, a crash would leave a content since the last directory sync, at most one process is past the lock, ids stay distinct, counters strictly increase |
| Protocol.CrashFinds | src/securevault/storage.py:3-7 | what a crash of the file system leaves is a recorded content, not before the last synced one |
| Protocol.SyncedReplacesSurvive | src/securevault/storage.py:52-53 | once a write has synced the directory after its rename, what is stored stays in the committed history through every later step and crash |
| Protocol.CreatedIsInitial | src/securevault/repository.py:57-61 | a vault created by a write with a working directory sync is a valid starting point, with counter 0 |
| Protocol.FailedWriteCoherence | src/securevault/repository.py:95-96 | after a failed write the sealed body encodes the list while the path still holds the earlier history |
| Protocol.NextReplaceStoresAll | src/securevault/repository.py:118-119 | the next mutation that reaches the disk stores all pending ones |
| Protocol.NextRekeyStoresSaved | src/securevault/repository.py:127-129 | the next password change that reaches the disk stores all saved ones, under the new password |
| Protocol.WriteRuns | src/securevault/storage.py:32-60 | the protocol's file-system calls of one write, with any fault, end where the atomic write ends |
| Protocol.MutateIsRun | src/securevault/repository.py:152-154 | a repository call, with any fault, is a run of the in-memory step and the calls of its write |
| Protocol.RekeyIsRun | src/securevault/repository.py:127-129 | the same for a password change |
| PasswordGen.PoolFacts | src/securevault/passwordgen.py:38-61 | stripping ambiguous characters empties no pool, and pools share no character |
| PasswordGen.AllowedInPools | src/securevault/passwordgen.py:18-22 | the pools hold exactly A-Z, a-z, 0-9 and the 26 symbols of the enabled categories, without Il1O0 if those are excluded |
| PasswordGen.SelectPools | src/securevault/passwordgen.py:38-61 | the enabled pools, which hold exactly the allowed characters, or an error exactly when no category is enabled |
| PasswordGen.Validate | src/securevault/passwordgen.py:63-71 | a policy is refused exactly for a length outside 8-256 or for enabling no category |
| PasswordGen.ShuffleInPlace | src/securevault/passwordgen.py:90 | the in-place shuffle computes `Shuffle` of the drawn positions |
| PasswordGen.GeneratePassword | src/securevault/passwordgen.py:74-91 | computes `Generate` of the draws, or fails exactly for an unacceptable policy |
| PasswordGen.GenerateSound | src/securevault/passwordgen.py:77-91 | every output has the length, no foreign character, and one character of each category |
| PasswordGen.GenerateComplete | src/securevault/passwordgen.py:82-91 | every such string is the output of some draws |
| PasswordGen.OutputLanguage | src/securevault/passwordgen.py:74-91 | a string is some output exactly if it has the length, only allowed characters, and one of every enabled category, all said by characters |

## Left out

- `cli.py` and `clipboard.py`: prompts, option parsing, signals and the foreign clipboard would only add easy members.
- `estimate_entropy_bits`: a floating-point heuristic with no exact meaning to prove.
- The insides of AES-GCM and Argon2id, timing, entropy, collision probability, and the size limits of the cryptography library itself.
- JSON beyond what `serialize_entries` prints: floating-point numbers, non-ASCII bytes, integers of more than 4300 digits, and Python's `str` of containers give the error `Unmodelled`, about which `Entries.TypeErrorIff` says nothing; Python's recursion limit is not modelled.
- Vault.Create: wipes its own key buffer, which no caller sees, so its contract does not mention it.
- Real memory erasure: immutable copies, garbage collection and swap. Wiping is only that the buffer is zero afterwards.
- File permissions, temporary-file naming, descriptor leaks in `write_atomic`, and platforms without `fcntl`.
- Protocol.NoLostUpdate: starts from an existing vault whose directory entry is durable, because `create` tests for existence before it locks, and a file created without a working directory sync may be gone after a crash.
- Repository.VaultRepository.AddEntry: takes the list of ids the generator will draw and needs one unused id in it, which is when the retry loop ends.
- Replacing the vault file by an older one, or deleting it, from outside: SECURITY_REVIEW.md puts this out of scope.
- Clock values and their order: timestamps are opaque strings.
