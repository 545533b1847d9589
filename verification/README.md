# A verified model of a Matrix homeserver's core

This project models, in Dafny, the parts of the Merovingian homeserver whose correctness rests on more than one function:
canonical JSON and event signing, the schema migrations and the protocol that runs them, and the persistent store with its
in-memory mirror. `dafny verify dfyconfig.toml` checks all of it.

| part | files |
|---|---|
| shared types and list lemmas | `Basics.dfy` |
| canonical JSON | `Utf8.dfy`, `Decimal.dfy`, `MemberOrder.dfy`, `JsonValue.dfy`, `Serializer.dfy`, `CanonicalDecoder.dfy`, `JsonReader.dfy`, `ReaderLaws.dfy` |
| event signing | `Signing.dfy`, `SigningLaws.dfy`, `PayloadLaws.dfy` |
| schema migrations | `Migration.dfy`, `MigrationProtocol.dfy` |
| events and room state | `EventMirror.dfy`, `Backend.dfy`, `WriteProtocol.dfy`, `WriteLaws.dfy`, `WriteOrder.dfy`, `CommitOrder.dfy`, `RoomOrder.dfy`, `Predecessor.dfy`, `Statements.dfy`, `RoomReload.dfy`, `RoomSnapshot.dfy`, `ReloadProtocol.dfy`, `EventStore.dfy`, `StateRepair.dfy`, `RepairLaws.dfy` |
| sync stream and to-device messages | `SyncStream.dfy`, `SyncRuns.dfy`, `Delivery.dfy`, `DrainLaws.dfy` |
| tokens | `LoginTokens.dfy`, `TokenSweep.dfy`, `Revocation.dfy`, `TokenLaws.dfy` |
| notifications | `Notifications.dfy` |

How the model is built:

- Operations that the source performs by updating an object are methods of a class. Each is proved equal to a function on a
  value (`View()`), and the laws are proved about those functions. The files named `...Laws` say what those functions do to
  the fields of their arguments: which bytes, rows and tokens there are afterwards, and exactly when an operation succeeds.
- A database is a set of tables, each a map from primary key to row. A transaction does all of its statements or none. Whether
  a write reaches the database, and what a clock reads, are parameters, so every law holds for every pattern of failures.
- Concurrency and restarts are state machines. A run is any sequence of actions; the theorems quantify over all of them.

What the proofs found about the code:

- The validator of migration plans accepts a downgrade to version 0 that repeats its last step
  (`Migration.RepeatedFinalStep`); `Migration.ValidPlanVersionsAreDistinct` gives the exact condition.
- Attaching two signatures in either order does not always give the same bytes: an event that is refused as it stands becomes
  acceptable when the offending entry is the one replaced. `SigningLaws.AttachedIff` says which events take a signature,
  `SigningLaws.AttachInEitherOrder` when the order does not matter, and `SigningLaws.OrderCanMatter` gives, for any two keys,
  an event where it does.
- Reloading a room from PostgreSQL fails exactly when the database does not answer or the room has more than 128 events: the relation
  queries bind one parameter for each event, and the validator refuses a statement with more than 128
  (`RoomSnapshot.ReloadWorksUpTo128Events`, `RoomSnapshot.RoomOf129Events`).
- To-device messages are delivered at least once as long as no restart takes the stream counter back below a bound a device was
  given (`Delivery.DeliveredUnlessRolledBack`). Any restart that does can lose a message (`Delivery.LostAfterRollback`), and one
  failed watermark write, whose result the code ignores, is enough to get there (`Delivery.LostWhenWatermarkFails`).
- An event once replaced as current state can never be made current again, because its transition key is taken
  (`WriteProtocol.ReplacedStaysReplaced`, `WriteProtocol.StoreStateSucceedsIff`).
- The sweep of login tokens erases the first row with a stale hash. It removes exactly the stale rows if and only if, of rows with one
  hash, the stale ones come first (`TokenSweep.SweepIsExactIff`). A database keeps hashes apart, so there it always is
  (`TokenSweep.DatabaseSweepIsExact`); a memory store can reach the other order and drop a live token (`TokenSweep.SweepCanDropLive`).
- A swept login token stays out of use exactly while redemptions read a time at which the row a failed prune left behind is
  used or expired (`TokenSweep.SweptIsNeverRedeemed`, `TokenSweep.LeftoverIsRedeemed`); a clock that runs back redeems it
  (`TokenSweep.ClockBackRedeemsSwept`).
- Stream ids are new at every allocation exactly while none is made with the 64-bit counter at its maximum
  (`SyncRuns.NewIdsAreNew`). One client token gets it there: `/sync` raises the counter to any number a token carries, and the
  next id is 0 (`SyncRuns.TokenEndsStream`, `SyncRuns.TokenEndsStreamAtOnce`).
- The server does not read back everything it strictly serializes: its reader takes an output exactly when no value is more than
  64 levels down, no object has more than 65536 members and no integer is beyond 2^53-1 (`JsonReader.ReadBackOfCanon`;
  `JsonReader.FirstUnsafeInteger`, `JsonReader.DeepestArray` and `JsonReader.WidestObject` stand on the borders).
- Committed updates may be applied in any order as far as events, relations and transitions go
  (`WriteProtocol.RowsAreCurrentIffApplied`), but not for current state: the mirror shows the database's current event for a
  tuple exactly when the tuple's newest commit was the last one applied (`WriteProtocol.CurrentIffNewestAppliedLast`,
  `WriteOrder.MirrorIsCurrentIff`). Ingestion of foreign events holds a lock of the room from commit to apply; other writers do not take it,
  so the wrong order can be reached, and then mirror and database disagree with nothing pending
  (`WriteOrder.WrongOrderDiverges`, `WriteOrder.WrongOrderIsReached`). The mirror as a whole is the database as of one earlier
  commit when updates are applied in commit order (`CommitOrder.MirrorIsAnEarlierCommit`), and of no commit once one overtakes
  another (`CommitOrder.OvertakingShowsNoCommit`).
- A room reload brings no transitions: a mirror that listed the database lists it after the reload exactly when no transition was
  added since (`ReloadProtocol.ReloadKeepsListsIff`), and a reload that overtakes a pending state event keeps its transition out
  of the mirror (`ReloadProtocol.ReloadDropsPendingTransition`).

## Model

| member | source | states |
|---|---|---|
| `Utf8.Utf8IsValid` | src/canonicaljson/parser.cpp:343-402 | accepts exactly the byte strings that are concatenations of shortest-form encodings of Unicode scalar values |
| `Utf8.MultiByteAt` | src/canonicaljson/parser.cpp:355-398 | the parser's decoder measures exactly the well-formed multi-byte sequences |
| `Utf8.EncodeAllInjective` | src/canonicaljson/parser.cpp:343-402 | a byte string has at most one reading as scalar values |
| `Utf8.AcceptedIffReading` | src/canonicaljson/parser.cpp:343-402 | the byte-by-byte acceptance test holds exactly of the texts that have a reading |
| `Utf8.DecodeAt` | src/auth/identity.cpp:89-160 | the localpart decoder measures exactly the well-formed sequences |
| `Utf8.IsValidFederatedLocalpart` | src/auth/identity.cpp:76-164 | accepts exactly well-formed UTF-8 without NUL and without colon |
| `Decimal.IsCanonicalInt64Token` | src/canonicaljson/parser.cpp:86-128 | accepts exactly the decimal printings of integers, so no leading zeros, plus sign, negative zero, fraction or exponent |
| `Decimal.RawNumberAsInt64` | src/canonicaljson/parser.cpp:130-156 | gives n exactly on the printing of an n within 2^53-1, out-of-range exactly on printings of other integers, and invalid on everything else |
| `Decimal.PrintOfIntValue` | src/canonicaljson/serializer.cpp:238-241 | printing an accepted integer token's value gives the token back |
| `Decimal.IntValueOfPrint` | src/canonicaljson/serializer.cpp:238-241 | reading a printed integer gives the integer back |
| `Serializer.AppendEscapedCharacter` | src/canonicaljson/serializer.cpp:49-82 | the appended bytes are the escape that the decoder inverts |
| `Serializer.AppendEscapedString` | src/canonicaljson/serializer.cpp:44-86 | appends the quoted, escaped string |
| `Serializer.ObjectHasDuplicateKeys` | src/canonicaljson/serializer.cpp:307-326 | reports exactly whether two members share a key |
| `Serializer.SerializeArray` | src/canonicaljson/serializer.cpp:155-176 | the canonical text of the items, or the first error among them |
| `Serializer.SerializeObject` | src/canonicaljson/serializer.cpp:180-223 | the canonical text, or the first error; the order of the members in that text is bytewise by `MemberOrder.LessIsBytewise` and `CanonicalDecoder.CanonIsOrdered` |
| `Serializer.SerializeValue` | src/canonicaljson/serializer.cpp:227-281 | the canonical text of any tree, or its first error |
| `Serializer.SerializeCanonicalStrict` | src/canonicaljson/serializer.cpp:333-336 | succeeds exactly on trees with valid strings, no floats and no duplicate keys |
| `Serializer.NoErrorIffClean` | src/canonicaljson/serializer.cpp:227-281 | the first error exists exactly when the tree is not clean |
| `Serializer.FirstErrorIsFirstFault` | src/canonicaljson/serializer.cpp:155-281 | the error a tree is refused with is the first of all the things wrong with it in document order, a repeated key of an object counting before what is inside it |
| `Serializer.GrammarCharacters` | src/canonicaljson/serializer.cpp:44-281 | quotes, brackets, separators and the literal names are those of JSON |
| `MemberOrder.AnySortIsSort` | src/canonicaljson/serializer.cpp:180-223 | whatever sort is used, members with distinct keys have one ascending arrangement |
| `MemberOrder.LessIsBytewise` | src/canonicaljson/serializer.cpp:200-206 | one key comes before another exactly when it is a proper prefix of it or has the smaller byte at the first place where they differ |
| `JsonValue.NormalIffSame` | src/canonicaljson/serializer.cpp:180-223 | two clean trees have the same sorted form exactly when they are equal up to member order at every level |
| `CanonicalDecoder.DecodeOfCanon` | src/canonicaljson/serializer.cpp:155-281 | decoding the canonical bytes with the specification's grammar gives the value with every object sorted |
| `CanonicalDecoder.CanonOfDecode` | src/canonicaljson/serializer.cpp:155-281 | every text the grammar accepts is the serialization of the value it decodes to |
| `CanonicalDecoder.CanonicalTexts` | src/canonicaljson/serializer.cpp:333-336 | a text decodes exactly when it is the serialization of some clean tree |
| `CanonicalDecoder.SameBytesIffSameValue` | src/canonicaljson/serializer.cpp:333-336 | two clean trees serialize to the same bytes if and only if they are equal up to member order |
| `CanonicalDecoder.CanonIsOrdered` | src/canonicaljson/serializer.cpp:180-223 | read back, the members of every object at every level of a serialization come in that order |
| `CanonicalDecoder.ReadByteOfEscape` | src/canonicaljson/serializer.cpp:49-82 | reading the escape of a byte by the table of section 7 of RFC 8259 gives the byte, and its length |
| `CanonicalDecoder.EscapeOfReadByte` | src/canonicaljson/serializer.cpp:49-82 | what that table reads as a byte is exactly the escape written for it |
| `JsonReader.ConvertValue` | src/canonicaljson/parser.cpp:161-304 | the conversion of a document node at a depth: the tree, or the first error in the source's order |
| `JsonReader.ConvertArray` | src/canonicaljson/parser.cpp:200-231 | items converted one level down, in order, up to the first error |
| `JsonReader.ConvertObject` | src/canonicaljson/parser.cpp:232-297 | the member cap first, then members in order, a repeated key refused ahead of its value |
| `JsonReader.ConvertIff` | src/canonicaljson/parser.cpp:161-304 | lossless: a document converts to v exactly when it shows v and v is within the limits on depth, members and integers and repeats no key |
| `ReaderLaws.RefusedWithFirstFault` | src/canonicaljson/parser.cpp:161-304 | a document is refused with the first of all the things wrong with it in document order: depth before contents, an object's size before its members, a repeated key before the value under it; and converted exactly when there is none |
| `JsonReader.ParseLossless` | src/canonicaljson/parser.cpp:404-437 | takes a text as v exactly when it is not blank, valid UTF-8, read to its end by the library, and its document shows a v within the limits |
| `JsonReader.CanonIsText` | src/canonicaljson/serializer.cpp:227-281 | every strict output is valid UTF-8 and not blank |
| `JsonReader.ReadBackOfCanon` | src/canonicaljson/parser.cpp:161-304 | the server takes back a strict output exactly when its tree fits the limits, and then as the tree with every object sorted |
| `JsonReader.IntegerReadBack` | src/canonicaljson/parser.cpp:130-156 | every 64-bit integer is written; it is read back exactly within 2^53-1 and is out of range otherwise |
| `JsonReader.FirstUnsafeInteger` | src/canonicaljson/parser.cpp:151-154 | 2^53 is written and refused as out of range |
| `JsonReader.DeepestArray` | src/canonicaljson/parser.cpp:163-166 | an array 64 levels down is read back, any deeper one is written and refused as nested too deep |
| `JsonReader.WidestObject` | src/canonicaljson/parser.cpp:238-241 | an object of 65536 members is read back, any wider one is written and refused |
| `Signing.UpsertServerSignature` | src/events/event_signer.cpp:168-182 | replaces the key's signature where it stands or adds it at the end |
| `Signing.UpsertSignature` | src/events/event_signer.cpp:184-203 | replaces or adds one server's entry, keeping the others in place |
| `Signing.CloneWithout` | src/events/event_signer.cpp:51-64 | keeps exactly the members outside the named fields, in order |
| `Signing.AttachEventSignature` | src/events/event_signer.cpp:324-354 | the signed event's canonical text, or the error that refuses it |
| `Signing.VerifyEventSignaturePresence` | src/events/event_signer.cpp:424-472 | true exactly when the event carries a well-formed signature for the key |
| `Signing.MakeEventSigningPayload` | src/events/event_signer.cpp:272-282 | the canonical text that `PayloadLaws.PayloadIs` describes |
| `Signing.MakeContentHash` | src/events/event_id.cpp:117-126 | the hash of the text that `PayloadLaws.ContentHashIs` describes |
| `PayloadLaws.PayloadIs` | src/events/event_signer.cpp:272-282 | the payload exists exactly for objects that are clean besides "signatures" and "unsigned"; read back it has exactly the other members |
| `PayloadLaws.PayloadsAgree` | src/events/event_signer.cpp:272-282 | events that differ in those two members only are signed alike |
| `PayloadLaws.ContentHashIs` | src/events/event_id.cpp:117-126 | what is hashed, whatever the hash function, has exactly the members other than "signatures", "unsigned" and "hashes"; it exists exactly when those are clean |
| `PayloadLaws.ContentHashesAgree` | src/events/event_id.cpp:117-126 | events that differ in those three members only have one content hash |
| `PayloadLaws.PresentIff` | src/events/event_signer.cpp:424-472 | present exactly when, under "signatures", the server and the key, the first such members hold a text of 1 to 4096 bytes without blanks or control characters that the shape check takes, under a valid key |
| `PayloadLaws.AttachSucceedsIff` | src/events/event_signer.cpp:324-354 | the same conditions on key and signature, and an object that is clean apart from what is replaced |
| `PayloadLaws.AttachKeepsOtherMembers` | src/events/event_signer.cpp:324-354 | read back, the signed event has exactly the members of the event beside "signatures" |
| `PayloadLaws.AttachKeepsOtherEntries` | src/events/event_signer.cpp:130-203 | under "signatures", every other server's entry and every other key of the server is kept, whatever it is, and the key holds the signature |
| `Signing.MakeSignableObjectView` | src/canonicaljson/signable.cpp:13-31 | agrees with the signing payload on every object |
| `SigningLaws.AttachedIsClean` | src/events/event_signer.cpp:324-354 | an attached text decodes to the signed event in key order |
| `SigningLaws.AttachKeepsOtherSignatures` | src/events/event_signer.cpp:168-203 | read back, the new key is present with its signature and every other key is as it was |
| `SigningLaws.AttachKeepsPayload` | src/events/event_signer.cpp:324-354 | attaching changes neither the signing payload nor the content hash |
| `SigningLaws.AttachedIff` | src/events/event_signer.cpp:324-354 | a signature is attached exactly when key and signature are acceptable and the event is an object, clean apart from the entry the signature replaces |
| `SigningLaws.AttachTwoIff` | src/events/event_signer.cpp:324-354 | a second signature succeeds exactly when the first one does and both are acceptable |
| `SigningLaws.AttachInEitherOrder` | src/events/event_signer.cpp:324-354 | two different keys in either order give the same outcome exactly when the event is clean apart from what one replaces if and only if it is clean apart from what the other does |
| `SigningLaws.OrderCanMatter` | src/events/event_signer.cpp:168-203 | for any two different acceptable keys, of one server or of two, there is an event where the order matters |
| `Migration.MigrationPlanIsValid` | src/database/migration.cpp:191-237 | accepts exactly plans whose steps count from the current to the target version in the plan's direction; each other verdict names what is wrong: steps without a change, none for one, the wrong direction, the first step that does not follow, the first that is itself invalid, or a last step short of the target |
| `Migration.RepeatedFinalStep` | src/database/migration.cpp:191-237 | a downgrade that drops the schema twice is accepted |
| `Migration.ValidPlanVersionsAreDistinct` | src/database/migration.cpp:191-237 | a valid plan visits each version once, unless it goes down to 0 with more steps than versions |
| `Migration.MigrationPlanBetween` | src/database/migration.cpp:594-642 | the plan between two versions, built from the catalogues |
| `Migration.PlanBetweenIsValid` | src/database/migration.cpp:594-642 | the plan is valid exactly when nothing is to do or both versions are known |
| `Migration.UpStepTables` | src/database/migration.cpp:451-466 | each upgrade step leads from one version's tables to the next version's |
| `Migration.DownStepTables` | src/database/migration.cpp:576-592 | each downgrade step leads back |
| `Migration.ApplyStatements` | src/database/migration.cpp:137-158 | the tables after the statements, or failure exactly at one that is not understood |
| `Migration.ApplyMigrationPlan` | src/database/migration.cpp:649-707 | the schema state after the plan |
| `Migration.PlanReachesTarget` | src/database/migration.cpp:594-707 | from a state with its version's tables, the plan to any known version is applied and arrives there, record included |
| `MigrationProtocol.LoadSchemaState` | src/database/postgresql_store.cpp:1247-1286 | the schema state the ledger and tables stand for |
| `MigrationProtocol.MigrationSession.ApplyPendingMigrations` | src/database/postgresql_store.cpp:1343-1400 | under the lock it runs a prefix of the pending plan, one transaction each, every one of them taken by the server, stops at the first that is not, succeeds only after all of it, and plans from the ledger it reads |
| `MigrationProtocol.MigrationSession.RunSteps` | src/database/postgresql_store.cpp:1343-1400 | the database is advanced by exactly the steps before the first that the server refuses or that fails |
| `MigrationProtocol.DoKeepsInv` | src/database/postgresql_store.cpp:1301-1400 | every step of any process keeps the protocol's invariant |
| `MigrationProtocol.MigrationsRunOnceInOrder` | src/database/postgresql_store.cpp:1301-1400 | over every run with crashes and failures, the numbered migrations that commit count up from the first version, none twice |
| `MigrationProtocol.StepRunsOnPredecessor` | src/database/postgresql_store.cpp:1343-1400 | version v commits only when the ledger stands at v-1 |
| `MigrationProtocol.ServingMeansCurrent` | src/database/postgresql_store.cpp:1534-1680 | a process that opened the store leaves the ledger and its schema at the current version and, from a consistent start, the database with exactly that version's tables and columns |
| `MigrationProtocol.OneMigrator` | src/database/postgresql_store.cpp:1301-1341 | at most one process is between taking the lock and finishing |
| `MigrationProtocol.LoserFindsNothingToDo` | src/database/postgresql_store.cpp:1343-1400 | who gets the lock after a winner reads the winner's ledger and has an empty plan |
| `MigrationProtocol.StepIsAccepted` | src/database/migration.cpp:277-466 | on a consistent database the next migration executes and leaves it consistent |
| `MigrationProtocol.BootstrapIsConsistent` | src/database/postgresql_store.cpp:1467-1487 | bootstrap makes, or leaves, a consistent database |
| `MigrationProtocol.TablesMakeCompatible` | src/database/migration.cpp:709-727 | a state at the current version with its tables and record passes the compatibility check |
| `MigrationProtocol.LockHolderCanFinish` | src/database/postgresql_store.cpp:1343-1400 | from every reachable state of a consistent database, whoever holds the lock, before or after reading the ledger, opens the store if left alone |
| `EventMirror.AddEventKeepsRelations` | src/database/persistent_store.cpp:372-408 | storing a new event keeps every event's embedded lists equal to the relation rows filtered by its id, in order, with no orphans |
| `EventMirror.ReconstructionIsIdentity` | src/database/persistent_store.cpp:1143-1180 | on relations in step, reconstruction changes nothing |
| `EventMirror.ReconstructionEstablishes` | src/database/persistent_store.cpp:1143-1180 | reconstruction brings relations in step from any start without orphans |
| `EventMirror.CurrentOfSet` | src/database/persistent_store.cpp:1689-1696 | making an event current changes that tuple's entry and no other |
| `EventMirror.IndexKeyInjective` | src/database/persistent_store.cpp:246-259 | the NUL-separated key tells tuples and events apart on NUL-free parts |
| `EventMirror.IndexRefinesScan` | src/database/persistent_store.cpp:1580-1604 | lookup through the index finds what a scan for the first matching row finds |
| `EventMirror.AddTransitionKeepsIndex` | src/database/persistent_store.cpp:1697-1701 | maintained row by row, the index equals the one a rebuild makes |
| `EventMirror.StoreEventKeepsMirror` | src/database/persistent_store.cpp:1606-1630 | `store_event` keeps relations and index in step, accepted or not |
| `EventMirror.StoreStateKeepsMirror` | src/database/persistent_store.cpp:1632-1703 | so does `store_state` |
| `EventMirror.ApplyKeepsMirror` | src/database/persistent_store.cpp:1788-1830 | so does applying a prepared update, a duplicate included |
| `EventMirror.StoreStateMovesCurrent` | src/database/persistent_store.cpp:1648-1702 | an accepted change makes the event current for its tuple alone and records the event it replaced |
| `EventMirror.ApplyMovesCurrent` | src/database/persistent_store.cpp:1809-1829 | applying a state event makes it current for its tuple alone and records the predecessor found for it; other updates leave state alone |
| `Backend.ListsOneTable` | src/database/persistent_store.cpp:1705-1853 | a list shows exactly one table, so showing two commits means they are equal |
| `Backend.RowsListed` | src/database/persistent_store.cpp:372-408 | committed rows of any one relation table, appended to a list of the table, list the new table and touch no other |
| `Backend.AddEventLists` | src/database/persistent_store.cpp:1606-1630 | if the event's transaction commits, the event was new and the mirror's rows are again the tables' rows, each once |
| `Backend.MakeCurrentLists` | src/database/persistent_store.cpp:1632-1703 | the same for current state and transitions |
| `Backend.ApplyLists` | src/database/persistent_store.cpp:1788-1830 | applying a committed update to a mirror that shows the tables before gives one that shows the tables after |
| `WriteProtocol.StoreStateLists` | src/database/persistent_store.cpp:1632-1703 | a successful `store_state` leaves mirror and tables showing the same rows |
| `WriteProtocol.LoadedLists` | src/database/persistent_store.cpp:1143-1180 | loading the tables in any row order gives a mirror that shows them, with relations and index in step |
| `WriteProtocol.DoKeepsInv` | src/database/persistent_store.cpp:1705-1853 | every prepare, commit, apply in any order, direct write and restart keeps the protocol's invariant |
| `WriteProtocol.RowsAreConserved` | src/database/persistent_store.cpp:1788-1830 | over every run, each committed row is in the mirror or in one pending update, once: together they are a listing of the tables |
| `WriteProtocol.RowsAreCurrentIffApplied` | src/database/persistent_store.cpp:1788-1853 | in whatever order updates are applied, events, relations and transitions are the database's if and only if none is pending |
| `WriteProtocol.CurrentIffNewestAppliedLast` | src/database/persistent_store.cpp:1809-1822 | over every run, the mirror shows the database's current event for a tuple exactly when the tuple's newest commit was applied last |
| `WriteProtocol.SameTuplesOnceApplied` | src/database/persistent_store.cpp:1809-1822 | once nothing is pending, the mirror has state for exactly the tuples the database has |
| `WriteOrder.MirrorIsCurrentIff` | src/database/persistent_store.cpp:1788-1853 | over every run, the mirror lists the database exactly when nothing is pending and each tuple's newest commit was applied last |
| `WriteOrder.WrongOrderDiverges` | src/homeserver/local_http_router.cpp:2058-2073 | whenever two updates of one tuple are pending, applying the newer first leaves the mirror on the older while the database has the newer |
| `WriteOrder.WrongOrderIsReached` | src/homeserver/room_service.cpp:1493-1508 | for every tuple a run of three writers that ends with nothing pending and the mirror one event behind the database |
| `WriteOrder.MirrorIsCurrentIffApplied` | src/homeserver/local_http_router.cpp:1999-2073 | if each tuple's commits are applied in order, the mirror lists the database if and only if nothing is pending |
| `WriteOrder.ApplyingCatchesUp` | src/database/persistent_store.cpp:1788-1830 | in such runs, applying what is pending, oldest first, brings the mirror to the present database |
| `CommitOrder.MirrorIsAnEarlierCommit` | src/database/persistent_store.cpp:1705-1853 | if updates are applied in commit order, the mirror lists the whole database, every table, exactly as it was so many commits ago as are pending |
| `CommitOrder.OvertakingShowsNoCommit` | src/database/persistent_store.cpp:1788-1853 | in any run, once an update is applied ahead of an older one, the mirror's events are those of no commit there ever was |
| `RoomOrder.RoomIsAnEarlierCommit` | include/merovingian/homeserver/runtime.hpp:355-359 | if each room's commits are applied in order, every room of the mirror, its events, state, transitions and the relation rows of its events, is that room of the tables before its first pending commit, or as it is now |
| `RoomOrder.RoomOrderIsCurrentIffApplied` | src/homeserver/local_http_router.cpp:1999-2073 | and the whole mirror lists the database if and only if nothing is pending |
| `WriteProtocol.EventsCommitOnce` | src/database/persistent_store.cpp:1705-1853 | no event commits twice, however many writers race on it |
| `WriteProtocol.NothingTwice` | src/database/persistent_store.cpp:1788-1830 | no event, edge, auth edge, signature, state entry or transition is ever in the mirror twice |
| `WriteProtocol.MirrorStaysInStep` | src/database/persistent_store.cpp:1705-1853 | relations and index stay in step through every run |
| `WriteProtocol.StoreStateSucceedsIff` | src/database/persistent_store.cpp:1632-1703 | on a mirror that lists the tables, a state write succeeds exactly when its event is stored and either it is current already, or the database is reached, the current event id is not the empty string and the tuple's transition key is free |
| `WriteLaws.StoreEventSucceedsIff` | src/database/persistent_store.cpp:1606-1630 | on a mirror that lists the tables with relations in step, an event is stored exactly when the database is reached, the id is new, no parent and no auth event is repeated and no two signatures are by one key of one server; then the mirror gains the event at the end with one row for each value, the tables the bare event and those rows, and nothing else changes; otherwise nothing does |
| `WriteLaws.WriteEventSucceedsIff` | src/database/persistent_store.cpp:1606-1630 | the same in every run, whatever is still waiting to be applied |
| `WriteLaws.EventRunsIff` | src/database/persistent_store.cpp:372-390 | the transaction of an event goes through exactly when the id is new and nothing in it is repeated, and writes exactly its rows |
| `WriteLaws.StoreStateOnFields` | src/database/persistent_store.cpp:1632-1703 | when a state write succeeds, in terms of the stored event's room, type and state key and of the tables, and what it leaves in mirror and tables |
| `WriteLaws.PrepareIs` | src/database/persistent_store.cpp:1705-1786 | refused exactly for an id in the mirror or a state entry whose event, room, type or state key is not the event's; otherwise the update carries the event, the tuple and whether it had an entry |
| `WriteLaws.CommitSucceedsIff` | src/database/persistent_store.cpp:1832-1853 | in every run a prepared update commits exactly when the database is reached, the id is still new, nothing in the event is repeated and no other writer made something current for a tuple that had nothing when it was prepared; then the event is stored and current for its tuple |
| `WriteLaws.CurrentIsStateOfItsEvent` | src/database/persistent_store.cpp:1632-1853 | in every run, what is or ever was current for a tuple is a stored event of that room with that type and state key |
| `WriteProtocol.ReplacedStaysReplaced` | src/database/persistent_store.cpp:1632-1853 | an event once replaced as current for a tuple is never current for it again, in any later run |
| `WriteProtocol.TransitionsHaveState` | src/database/persistent_store.cpp:1632-1853 | over every run, a tuple that ever had a current event has one |
| `Predecessor.FindPredecessor` | src/database/persistent_store.cpp:269-327 | the first auth event applied for the tuple; otherwise, of the applied events at the least distance back through stored events, below the depth bound, the first in the order of the queue; empty only if there is none; the ids queued, each once, are those up to the level reached and at most some of the next |
| `Predecessor.AppliedIffRow` | src/database/persistent_store.cpp:275-281 | with the index as a rebuild makes it and parts without NUL, an event counts as applied for a tuple exactly when some transition row has that tuple and event |
| `Predecessor.SearchLevel` | src/database/persistent_store.cpp:301-325 | one level finds its first applied id, or leaves queued exactly the unseen ids one step further back, in the order of the level and of each event's own list |
| `Predecessor.EnqueueUnseen` | src/database/persistent_store.cpp:291-299 | adds exactly the ids not seen, once each, where they first come up |
| `Predecessor.UnseenInOrder` | src/database/persistent_store.cpp:291-299 | of two ids queued together, the one that comes up first is queued first |
| `Predecessor.LevelAre` | src/database/persistent_store.cpp:301-325 | the queue of a level holds exactly the ids at that distance, each once |
| `Predecessor.ParentsAre` | src/database/persistent_store.cpp:301-325 | where ids are unique, the search goes on to the previous events of the stored event, and nowhere from an id that is not stored |
| `Predecessor.NextLevel` | src/database/persistent_store.cpp:301-325 | expanding only the ids first seen at a level reaches everything one step further |
| `Predecessor.WithinIffPath` | src/database/persistent_store.cpp:301-325 | the levels are the path lengths in the graph of stored events |
| `RoomReload.ReloadReplacesOneRoom` | src/database/persistent_store.cpp:1182-1277 | the room's rows become the snapshot and every other room's rows stay as they were, in order |
| `RoomReload.ReloadKeepsOtherRelations` | src/database/persistent_store.cpp:1237-1245 | events of other rooms keep their embedded lists equal to their relation rows |
| `RoomReload.ReloadKeepsOtherRows` | src/database/persistent_store.cpp:1237-1245 | in all three relation tables, the rows of other rooms' events are the same sequence |
| `RoomReload.ReloadKeepsRelations` | src/database/persistent_store.cpp:1259-1275 | reloading keeps relations in step |
| `RoomReload.ReloadTwiceIsOnce` | src/database/persistent_store.cpp:1182-1277 | reloading the same snapshot again leaves the identical mirror |
| `Statements.ReadNumber` | src/database/statement.cpp:64-69 | the number after a dollar sign, in 64-bit arithmetic, and where it ends |
| `Statements.PlaceholderArityMatches` | src/database/statement.cpp:46-92 | true exactly when every dollar sign has a number and the numbers are those from 1 to the parameter count |
| `Statements.PreparedStatementIsValid` | src/database/statement.cpp:110-131 | name, shape, at most 128 parameters and matching placeholders |
| `Statements.ShapeIff` | src/database/statement.cpp:104-108 | SQL is allowed exactly up to 16384 characters, after one of the verbs and without a semicolon or a comment mark anywhere |
| `RoomSnapshot.InClausePlaceholders` | src/database/postgresql_store.cpp:1763-1776 | the list of placeholders from 1 to the count |
| `RoomSnapshot.ListedPlaceholders` | src/database/postgresql_store.cpp:1763-1776 | scanned by the validator, the list names each number from 1 to the count once |
| `RoomSnapshot.RoomQueriesAreValid` | src/database/postgresql_store.cpp:1778-1862 | the five queries by room id always pass the validator |
| `RoomSnapshot.ByEventsIsValidIff` | src/database/postgresql_store.cpp:1864-1925 | a query that binds one parameter for each event passes exactly up to 128 events |
| `RoomSnapshot.LoadRoomSnapshot` | src/database/postgresql_store.cpp:1778-1931 | no snapshot if any query is refused or unanswered, and otherwise the room's rows |
| `RoomSnapshot.SnapshotIsFaithful` | src/database/postgresql_store.cpp:1778-1931 | a snapshot holds only the room's rows, and its events are the database's with their relations |
| `RoomSnapshot.ReloadWorksUpTo128Events` | src/database/postgresql_store.cpp:1864-1925 | derived from the validator: a reload succeeds exactly when the database answers and the room has at most 128 events; a failed one changes nothing |
| `RoomSnapshot.RoomOfSize` | src/database/postgresql_store.cpp:1864-1925 | for every room and size there is a database in step, which reloads into any mirror up to 128 events and never beyond |
| `RoomSnapshot.RoomOf129Events` | src/database/statement.cpp:120-123 | a room of 129 events cannot be reloaded, whatever the database answers |
| `RoomSnapshot.ReloadMatchesDatabase` | src/database/postgresql_store.cpp:1778-1931 | after a successful reload mirror and database agree on the room: its row, members, invites, state and events, and the relation rows of its events |
| `RoomSnapshot.ReloadOnFields` | src/database/persistent_store.cpp:1182-1277 | row by row: afterwards the mirror has the database's memberships, invites, state and events of the room and its own of every other room |
| `ReloadProtocol.ReloadKeepsListsIff` | src/database/persistent_store.cpp:1182-1277 | a mirror that listed the tables lists them after the room was written and reloaded exactly when no transition was added |
| `ReloadProtocol.ReloadOfCurrentIsCurrent` | src/database/persistent_store.cpp:1182-1277 | a reload of a mirror in step with the database leaves it in step |
| `ReloadProtocol.ReloadBetweenWrites` | src/database/persistent_store.cpp:1182-1277 | the same over every run with commits applied in order, while nothing is pending |
| `ReloadProtocol.ReloadDropsPendingTransition` | src/database/persistent_store.cpp:1788-1796 | in every run, a reload ahead of any pending state event makes its apply a dropped duplicate; whatever is applied later, its transition stays out of the mirror, which so fails to list the database |
| `EventStore.PersistentStore.CommitTransaction` | src/database/persistent_store.cpp:530-553 | all statements or none |
| `EventStore.PersistentStore.RebuildStateTransitionIndex` | src/database/persistent_store.cpp:1580-1591 | the index of first positions |
| `EventStore.PersistentStore.FindStateTransition` | src/database/persistent_store.cpp:1593-1604 | the first row for tuple and event, on NUL-free parts |
| `EventStore.PersistentStore.AppendEventGraphRows` | src/database/persistent_store.cpp:392-408 | the event's rows, in order, at the end of each relation table |
| `EventStore.PersistentStore.StoreEvent` | src/database/persistent_store.cpp:1606-1630 | mirror and tables both take the event, or neither changes, as `WriteLaws.StoreEventSucceedsIff` says field by field |
| `EventStore.PersistentStore.StoreState` | src/database/persistent_store.cpp:1632-1703 | refuses state without its event, does nothing for state already current, and otherwise changes mirror and tables together |
| `EventStore.PersistentStore.PrepareStoreEventWithState` | src/database/persistent_store.cpp:1705-1786 | refuses exactly duplicates and mismatched state; the update names a predecessor as the search promises and carries the statements that store it |
| `EventStore.PersistentStore.ApplyStoreEventWithState` | src/database/persistent_store.cpp:1788-1830 | the update's effect on the mirror, none for a duplicate |
| `EventStore.PersistentStore.StoreEventWithState` | src/database/persistent_store.cpp:1832-1853 | succeeds exactly when prepared and committed, and then both sides changed; otherwise neither |
| `EventStore.PersistentStore.ReconstructEventRelations` | src/database/persistent_store.cpp:1143-1180 | every first event of an id gets its relation rows in order, a repeated id gets none |
| `EventStore.PersistentStore.ReloadRoom` | src/database/persistent_store.cpp:1182-1277 | the slice replaced, nothing on a failed load, nothing on a memory store |
| `EventStore.EventGraphStatements` | src/database/persistent_store.cpp:372-390 | one statement for the event and one for each relation row |
| `StateRepair.CollectCandidates` | src/database/persistent_store.cpp:3343-3376 | exactly one candidate, of highest stream ordering, for each named tuple without an entry |
| `StateRepair.StoredInTurnIs` | src/database/persistent_store.cpp:3378-3386 | storing the candidates in turn adds exactly the entries the database takes, judged before the repair began |
| `StateRepair.CompleteHasNoCandidates` | src/database/persistent_store.cpp:3317-3388 | there is nothing to repair exactly when every named tuple has an entry |
| `StateRepair.RepairIsExact` | src/database/persistent_store.cpp:3317-3388 | existing entries stay; one entry to a latest event is added for exactly the missing tuples whose write is taken, and their number is returned; every named tuple has an entry afterwards exactly when all were taken |
| `StateRepair.SecondRepairDoesNothing` | src/database/persistent_store.cpp:3317-3388 | after a repair that was taken in full, a second one returns 0 and changes nothing |
| `StateRepair.RepairCompletesWhenWritesSucceed` | src/database/persistent_store.cpp:3317-3388 | on any store written only through this protocol, with nothing pending, the repair is complete exactly when every write gets through; mirror and database stay in step if commits were applied in order |
| `StateRepair.RepairMissingStateEntries` | src/database/persistent_store.cpp:3317-3388 | the loops compute that repair, on mirror and tables; `RepairLaws` says what it is in terms of the events' fields |
| `RepairLaws.NamedIff` | src/database/persistent_store.cpp:3343-3360 | an event counts as state for a tuple exactly when it has its room, its type, which is not empty, and its state key |
| `RepairLaws.CandidatesAreFirst` | src/database/persistent_store.cpp:3343-3376 | the candidate for a tuple is the first among its events of greatest stream ordering |
| `RepairLaws.RepairAdds` | src/database/persistent_store.cpp:3317-3388 | every entry stays; each added one is for a tuple that had none, free in the database, points to the first of the tuple's latest events, and comes once; their number is returned |
| `RepairLaws.RepairReachesAll` | src/database/persistent_store.cpp:3317-3388 | if every write reaches a database that has nothing for the missing tuples, every tuple some stored event is state for has an entry afterwards; if none does, nothing changes |
| `RepairLaws.RepairReachesAllInRuns` | src/database/persistent_store.cpp:3317-3388 | on a store written only through this protocol, with nothing pending, reaching the database is enough |
| `SyncStream.SyncQueue.Allocate` | src/database/persistent_store.cpp:2671-2679 | the counter's successor in 64 bits, and an attempt to persist it |
| `SyncStream.SyncQueue.EnsureAheadOf` | src/database/persistent_store.cpp:2693-2706 | the counter moves up to the token even when that is not persisted, and the answer says whether it was |
| `SyncStream.SyncQueue.Restore` | src/database/persistent_store.cpp:2636-2669 | the largest of the watermark and the ids on durable rows |
| `SyncStream.RestoredIsUnique` | src/database/persistent_store.cpp:2636-2669 | there is one such largest value |
| `SyncStream.SyncQueue.Enqueue` | src/database/persistent_store.cpp:2450-2471 | an id is used up even for a refused row; an accepted one is in mirror and database |
| `SyncStream.SyncQueue.Drain` | src/database/persistent_store.cpp:2473-2540 | returns exactly the user's messages for this device or for all devices, past the token and up to the bound, and drops from the mirror exactly those for this device alone that the token acknowledges; the database deletes as it answers each delete |
| `SyncStream.Partition` | src/database/persistent_store.cpp:2491-2512 | splits what is for the device, up to the bound, by the token |
| `SyncStream.DrainDeletesOnlyAcknowledged` | src/database/persistent_store.cpp:2513-2538 | whatever disappears from mirror or database was for this device alone and acknowledged |
| `SyncStream.DrainRespectsTokenAndDevice` | src/database/persistent_store.cpp:2473-2540 | a token at or past a message never returns it again, and another device's drain never removes it |
| `DrainLaws.DrainReturnsExactly` | src/database/persistent_store.cpp:2480-2512 | a message is returned exactly when it is in the queue, for the user, for this device, no device or "*", after the token and at or before the bound |
| `DrainLaws.DrainPurgesExactly` | src/database/persistent_store.cpp:2513-2538 | a message leaves the mirror exactly when it is for this one real device and at or before both token and bound |
| `DrainLaws.DrainDeletesExactly` | src/database/persistent_store.cpp:2513-2538 | only such rows leave the database, and all of those in the mirror when it obeys |
| `DrainLaws.AllocateOnFields` | src/database/persistent_store.cpp:2671-2679 | the next id, zero after the largest 64-bit number, and the watermark if it is written |
| `DrainLaws.CatchUpOnFields` | src/database/persistent_store.cpp:2693-2706 | the larger of counter and token, persisted only if the counter moves |
| `DrainLaws.EnqueueSucceedsIff` | src/database/persistent_store.cpp:2450-2471 | in every well-behaved run a message is accepted exactly when it has sender, user, type and content and its row is written; it is then last in the queue under the next id |
| `DrainLaws.BoundedWasReturned` | src/database/persistent_store.cpp:2450-2540 | in every well-behaved run without a rollback, each real device that was given a bound at or past the id of a message for it, or for all devices of its user, has been returned that message |
| `DrainLaws.BroadcastsStay` | src/database/persistent_store.cpp:2513-2538 | in such runs a message for all devices stays in the queue and in the database |
| `SyncRuns.NewIdsAreNew` | src/database/persistent_store.cpp:2625-2706 | over every run with failed watermark writes and restarts, each id taken is greater than the counter, every id on a durable row and every watermark persisted, exactly when none is taken with the counter at its maximum; then watermarks never decrease |
| `SyncRuns.TokenEndsStream` | src/homeserver/client_server.cpp:3728-3744 | one client token brings the counter to its maximum from anywhere, and the next id is 0 |
| `SyncRuns.TokenEndsStreamAtOnce` | src/homeserver/client_server.cpp:3728-3744 | from the start, one token and one allocation leave watermarks that went back from the maximum to 0 |
| `Delivery.DoKeepsDelivery` | src/database/persistent_store.cpp:2450-2540 | every well-behaved step without a rollback keeps: what a response bounded has been delivered to its device |
| `Delivery.DeliveredUnlessRolledBack` | src/database/persistent_store.cpp:2450-2706 | when tokens come from responses, bounds stay within the counter and no restart takes the counter back below a bound given, no message for one device is gone before that device got it, and no broadcast is gone at all |
| `Delivery.LostAfterRollback` | src/database/persistent_store.cpp:2636-2669 | if a restart, in any state, takes the counter back below a bound given to a real device, some well-behaved continuation loses a message |
| `Delivery.DeliveredAtLeastOnce` | src/database/persistent_store.cpp:2450-2540 | written watermarks rule such a restart out, so nothing is lost when they all succeed |
| `Delivery.AcceptedIdsAreDistinct` | src/database/persistent_store.cpp:2450-2471 | in such runs no two accepted messages share an id |
| `Delivery.LostWhenWatermarkFails` | src/database/persistent_store.cpp:2671-2679 | a well-behaved run that loses a message and in which one watermark write is the only write to fail |
| `LoginTokens.LoginTokenStore.StoreLoginToken` | src/database/persistent_store.cpp:3088-3135 | insert, then a sweep of every expired or used row, whatever the database answers to prunes |
| `LoginTokens.LoginTokenStore.ConsumeLoginToken` | src/database/persistent_store.cpp:3137-3168 | redeems the first matching, unused, unexpired row, in the database first |
| `LoginTokens.RedeemedAtMostIssued` | src/database/persistent_store.cpp:3088-3168 | over every run, on any store, successful redemptions of a hash never exceed its successful issues |
| `LoginTokens.RedeemedBeforeExpiry` | src/database/persistent_store.cpp:3137-3168 | every redemption is of a token issued to that user and not yet expired |
| `TokenLaws.IssueSucceedsIff` | src/database/persistent_store.cpp:3088-3110 | issued exactly for a named user and a hash of version 2, 3 or 4 that the database, if there is one, has no row for |
| `TokenLaws.IssueLeavesLive` | src/database/persistent_store.cpp:3111-3135 | on a database, the mirror afterwards has exactly the rows before and the new one that are unused and expire later |
| `TokenLaws.RedeemOnFields` | src/database/persistent_store.cpp:3137-3168 | succeeds exactly when the mark is taken and some token is unused, unexpired and named by a candidate; the first such is returned and marked, with its row, and nothing else |
| `TokenSweep.SweepIsExactIff` | src/database/persistent_store.cpp:3107-3133 | the sweep leaves exactly the rows neither expired nor used, in order, if and only if of rows with one hash the stale ones come first |
| `TokenSweep.DatabaseSweepIsExact` | src/database/persistent_store.cpp:3088-3135 | over every run on a database, every sweep is exact |
| `TokenSweep.SweepCanDropLive` | src/database/persistent_store.cpp:3107-3133 | a run on a memory store that sweeps a live token, unredeemed and unexpired, and keeps an expired one |
| `TokenSweep.SweptIsGone` | src/database/persistent_store.cpp:3107-3133 | what a sweep takes for stale is gone from the mirror, and a row the database keeps expires no later and is used if the token was |
| `TokenSweep.SweptIsNeverRedeemed` | src/database/persistent_store.cpp:3088-3168 | a swept token is not redeemed again, after failed prunes and restarts, while it is not issued again and redemptions read times at which the row left in the database, if any, is stale |
| `TokenSweep.LeftoverIsRedeemed` | src/database/persistent_store.cpp:3136-3168 | and otherwise it can be: a row left unused is redeemed after a restart at any time before its expiry |
| `TokenSweep.ClockBackRedeemsSwept` | src/database/persistent_store.cpp:3107-3168 | a run from the start: swept, prune failed, restart, redeemed by an earlier clock |
| `Revocation.TokenStore.StoreAccessToken` | src/database/persistent_store.cpp:668-692 | stored in mirror and database, or refused and nothing changes |
| `Revocation.TokenStore.StoreRefreshToken` | src/database/persistent_store.cpp:694-714 | the same for refresh tokens |
| `Revocation.TokenStore.StoreDeviceAndAccessToken` | src/database/persistent_store.cpp:716-757 | device and token go in together or not at all |
| `Revocation.TokenStore.RevokeAccessTokens` | src/database/persistent_store.cpp:759-847 | flips the matching rows on both sides and returns the number of live ones, nothing if the database refuses |
| `Revocation.TokenStore.RevokeRefreshTokens` | src/database/persistent_store.cpp:781-902 | the same for refresh tokens |
| `Revocation.TokenStore.RevokeTokensForUserExceptDevice` | src/database/persistent_store.cpp:918-965 | both tables, each on its own answer, and the sum of both numbers |
| `Revocation.FlipMatching` | src/database/persistent_store.cpp:759-965 | the loop marks exactly the matching tokens and counts those that were live |
| `Revocation.CountsChanges` | src/database/persistent_store.cpp:759-965 | the number returned is the number of rows that changed |
| `Revocation.RevokeIsExact` | src/database/persistent_store.cpp:759-965 | every matching token is revoked in mirror and database, every other is untouched |
| `Revocation.ExceptDeviceSpares` | src/database/persistent_store.cpp:918-965 | exactly the kept device's tokens, other users' and those already revoked are unchanged |
| `TokenLaws.RevokesExactly` | src/database/persistent_store.cpp:759-965 | for each kind of revocation, token and row are revoked exactly if hash, user, user and device, or user and another device are the named ones, and are otherwise unchanged |
| `TokenLaws.StoreSucceedsIff` | src/database/persistent_store.cpp:668-714 | stored exactly if the hash is of version 2, 3 or 4 and has no row, with the expiry cut to milliseconds in the row |
| `TokenLaws.StoreDeviceSucceedsIff` | src/database/persistent_store.cpp:716-757 | with a new device, exactly if the device is new too; both go in |
| `Revocation.RevocationIsOneWay` | src/database/persistent_store.cpp:668-965 | a token revoked in mirror and database stays so through every run of stores, revocations, failed writes and restarts |
| `Revocation.RevokedForever` | src/database/persistent_store.cpp:668-965 | an access token matched by any revocation the database took is revoked ever after, and its hash cannot be stored again, alone or with a device |
| `Revocation.RefreshRevokedForever` | src/database/persistent_store.cpp:694-965 | the same for refresh tokens |
| `Revocation.RunKeepsInStep` | src/database/persistent_store.cpp:668-965 | over every run the mirror lists the rows, each once |
| `Notifications.NotificationStore.StoreNotification` | src/database/persistent_store.cpp:2935-3024 | the user keeps the smaller of 200 and all rows, no dropped row is newer than a kept one, other users' rows and the order of what is kept are untouched, the rows pruned are the user's own in the mirror, the database loses exactly those of obeyed prunes, and every row of the mirror stays the database's; the new row is shown and replaces only the one of its user and event; it, or another row of the user, is missing only if 200 rows of the user are shown that are no older |
| `Notifications.PrunedRowsAre` | src/database/persistent_store.cpp:3007-3013 | exactly the rows of obeyed prunes are gone from the database |
| `Notifications.Retain` | src/database/persistent_store.cpp:2964-3022 | the same for the retention pass alone, from any over-full list with unique keys |
| `Notifications.EraseAll` | src/database/persistent_store.cpp:3007-3021 | erasing the oldest one by one leaves exactly the others |
| `Notifications.RetainedByAge` | src/database/persistent_store.cpp:2986-3006 | whatever sort is used, what is dropped is no newer than what is kept |

## Left out

- The yyjson library itself: its document is a parameter of the reader. For a canonical text it is taken to be the document of the value that the grammar of canonical JSON gives it, read to the end of the text.
- The general parser, `parse_json`, which shares the conversion and takes floats.
- The non-strict serialization and the formatting of doubles, which the strict path refuses.
- A null member pointer and a valueless variant in a JSON tree are one constructor, since the serializer gives both the same error. Signing copies members by dereferencing their pointers without a check (event_signer.cpp:60, 146, 163, 345; value.cpp:22), so non-null members are an assumption of the signing part.
- Policy-aware signing payloads, redaction and reference hashes; the model's payload is the policy-free one.
- Base64, Ed25519, SHA-256: uninterpreted, as fields of a `Crypto` value.
- SQL text outside the room reload: statements are a datatype and tables are maps with primary keys.
- Commits whose outcome is reported wrongly: a transaction either commits and reports success or does neither.
- Locks: the order in which updates are applied is a property of a run, free in `WriteProtocol` and restricted in `WriteOrder`, `CommitOrder` and `RoomOrder`; rooms that share a lock stripe are ordered more than the model needs.
- Reloads are steps of their own beside the runs, not actions in them.
- The SQLite reading of a room snapshot: `RoomSnapshot` is PostgreSQL's.
- Invites keep their ids and signed JSON only, and events their JSON as text with the two fields the store reads.
- The classes for events, access and refresh tokens, to-device messages and notifications are stores on a database; a memory store, which accepts every write and survives no restart, is modelled for login tokens and reloads only.
- Access and refresh tokens share one `Token` type; expiry plays no part in revocation and is only carried along.
- Event stream watermark, account data, presence and device lists: only the stream ids on their rows.
- The store's other upserts (profiles, filters, pushers, third-party ids, backups), which repeat one easy pattern.
- Configuration, small codecs, appservice delivery, the HTTP layer, logging, key storage and process start-up.
