# LinuxCamPAM: a verified model of the authentication daemon

This Dafny project models the daemon `linuxcampamd`, the code that feeds it requests
and the PAM module that reads its answers, and proves what holds of them over every
input and every run. Cameras, face detection, scoring and clocks are arbitrary inputs:
`Domain.Settings` carries the uninterpreted `score` and `blend` of the recognition
library, and `Domain.Env` is what the world contributes to one request.

`dafny verify dfyconfig.toml` checks everything.

| file | what it models |
|---|---|
| `Text.dfy` | character searches, trimming, C strings, 64-bit `size_t` arithmetic, string order |
| `Utf8.dfy` | well-formed UTF-8, and the decoder with which the JSON library checks it |
| `Domain.dfy` | configuration, frames, user documents and files, document keys, user names and file names, exceptions |
| `EmbeddingStore.dfy` | what enrolment, labelling, training, removal and listing do to a document, per camera type |
| `Verification.dfy` | the verification decision over the shots as a whole, and the documented policies beside it |
| `Lockout.dfy` | failure counters and deadlines, histories of attempts, the rate bound |
| `EngineSpec.dfy` | every engine operation as a function on the daemon's state |
| `Engine.dfy` | the class `AuthEngine`: the camera loops over mutable state, proved against `EngineSpec` |
| `StoreProperties.dfy`, `Encoding.dfy`, `EngineProperties.dfy` | what the operations mean, alone and together; which documents can be written |
| `Protocol.dfy`, `Daemon.dfy` | the request line, `handle_client`, the server loop |
| `DaemonProperties.dfy` | properties of every run: any sequence of connections, with any bytes that leave a NUL in the read buffer |
| `Requirements.dfy`, `StoreRequirements.dfy` | what one engine call promises, said a second time in terms of files, frames, faces, entries and clocks, without the definitions of `EngineSpec` |
| `Replies.dfy`, `LoginRequirements.dfy`, `ConfigRequirements.dfy`, `Dictionary.dfy` | the same for the daemon's replies, the results of a login, the lines and numbers of the configuration file, and the order of strings |
| `UserTotals.dfy`, `Isolation.dfy` | the cap read as a limit per user; what one user's requests can tell about other users |
| `ConfigLines.dfy`, `PamConfig.dfy`, `IniConfig.dfy`, `MinUidAgreement.dfy`, `MinUidFiles.dfy` | the two configuration readers, when they agree on `min_uid`, and files to compare them on |
| `CameraDetection.dfy` | camera classification, enumeration and auto-detection |
| `PamModule.dfy` | `pam_sm_authenticate`, end to end |

## Main results

- Operations from the outside. Exactly when verification accepts, which score it reports
  and what it records (`VerifyMeaning`, `VerifyScore`, `VerifyRecords`); exactly when each
  store operation succeeds or throws and what the document holds entry by entry
  (`EnrollOutcome` and `EnrollEffect`, `LabelOutcome` and `LabelEffect`, `TrainOutcome` and
  `TrainEffect`, `RemoveOutcome` and `RemoveEffect`, `ListMeaning`); every reply of the
  daemon (`ServeMeaning`, `AuthReply` and the others of `Replies.dfy`) and every result of
  a login (`LoginMeaning`). None of these names the definition it pins down.
- Lockout. In every run from a fresh start a user is locked exactly when the recorded
  history says so (`LockedByHistory`), and of m failures in a row the last comes at
  least (m - N) lockout durations after the N-th (`FailuresAreRateBound`).
- Decision. The camera loop with its early exits computes a decision stated without
  order or counters; each policy has an exact meaning for every threshold
  (`StrictMeaning`, `LenientMeaning`, `AdaptiveMeaning`), camera order is irrelevant
  (`CameraOrderIrrelevant`), and storing more never turns an accept into a reject
  (`TrainingNeverLocksOut`, `RemovalNeverAdmits`).
- Store. The two storage formats behave as one labelled list (`LabelledIsUpsert`,
  `TrainedNewAppends`, `TrainedRefines`, `RemovedIsFilter`). Over every run a list stays
  within the cap exactly as long as no refinement crowds it (`CapOverRunsExactly`), a
  user's total exactly as long as no request stores more than there is room for
  (`TotalOverRunsExactly`), distinct labels stay distinct (`DistinctOverRuns`), and what
  becomes of a user depends on the requests naming that user alone (`RunSeesOwnExchanges`,
  `OthersAreInvisible`).
- Files. A call is all or nothing exactly when what it stores is UTF-8
  (`LabellingAllOrNothing`, `TrainingAllOrNothing`, `EnrolmentAllOrNothing`,
  `RemovalAllOrNothing`): the code empties the file first and then serializes, which
  throws on other bytes. After a run a file is broken exactly when it was so before or
  some request stored such bytes, no request repairs it, and its user is never accepted
  (`BrokenOverRuns`, `BrokenIsLockedOut`, `LabelBreaksFile`).
- Request path. Requests round-trip exactly when every argument is one word
  (`RoundTrip`); a login succeeds exactly when account, `min_uid` and engine say so
  (`EndToEnd`), and an enrolled and labelled user logs in (`EnrolledUserLogsIn`,
  `NewUserLogsIn`).
- Configuration. Both readers of `min_uid` meet a declarative specification, and it is
  stated exactly when they agree: for every file (`ReadersAgreeExactly`), for those without
  CR and NUL by their settings (`CleanFilesAgreeExactly`, `AgreeWithoutSecurity`), for
  decimal numerals and a plus sign (`DecimalFilesAgreeExactly`, `PlusFilesAgreeExactly`),
  and for CR LF line ends (`CrlfParts`). There are files on which they part, with CR LF
  line ends (`CrlfFileParts`) and with a NUL (`NulFileParts`).

## Where code and documentation differ

The model follows the code.

- `docs/CONFIGURATION.md:71-73` says that under the strict policy a dark camera fails
  the attempt; the code skips it (`StrictVersusDocumented` gives the exact difference,
  `DocumentationIsStricter` an input).
- `docs/CONFIGURATION.md:45-48` says that a mandatory camera must capture, be bright and
  match under the adaptive policy; in the code it must only capture a bright frame, and
  one match anywhere suffices. The code accepts more exactly when a mandatory camera
  takes part without a match (`AdaptiveVersusDocumented`, `DocumentationIsStricter`).
- `docs/CONFIGURATION.md:67-70` describes the adaptive policy by camera type instead:
  `ir` cameras must match, all others must match if they take part. The code looks at
  `mandatory` and not at types (`AdaptiveVersusTypes` states the difference in both
  directions, `DocumentationIsStricter` and `CodeIsStricter` give an input for each).
- `docs/CONFIGURATION.md:57` says of the threshold "lower = stricter"; a lower threshold
  keeps every accept and adds more (`LowerThresholdAdmitsMore`, `LowerIsLaxer`).
- `docs/CONFIGURATION.md:112` describes a generic fallback camera; the code's "cam0"
  branch is unreachable (`ChoiceIsSmallest`).
- `docs/CONFIGURATION.md:60` calls `max_embeddings` the maximum per user; the code counts
  per camera type (`CapIsPerType`), and refining an unknown label is not counted
  (`CapIsExceeded`). Exactly when one type's list stays within it: `RefinedWithinCap`,
  `CapOverRunsExactly`; exactly when the user's total does: `LabelledTotal`,
  `TrainedNewTotal`, `RefinedTotal`, `ServeTotal`, `TotalOverRunsExactly`.
- Asking to remove "default" leaves an old single embedding, which the listing and the
  labelled list show under that name (`LegacyIsNotRemoved`, `LabelSurvivesRemoval`).
- A numeric threshold of 0 or below accepts any detected face of an enrolled user
  (`ZeroThresholdAcceptsAnyFace`).

## Model

| member | source | states |
|---|---|---|
| Domain.KeyTextInjective | src/service/auth_engine.cpp:714-725 | the document keys of different families and camera types never collide, whatever the types are called |
| Domain.KeyTextIsUtf8 | src/service/auth_engine.cpp:714-725 | a document key is UTF-8 exactly when the camera type in it is |
| Utf8.Dumps | include/json.hpp:18399-18942 | the strict serializer accepts exactly the strings that are well-formed UTF-8 |
| Domain.IsValidUsername | src/service/utils.cpp:141-162 | the checks accept exactly the names of 1 to 32 allowed characters without leading or doubled dot |
| Domain.UserFileInjective | src/service/auth_engine.cpp:702-703 | two users never share a file |
| Domain.UserFileStaysInside | src/service/utils.cpp:141-162 | a valid name adds one path component below the users directory, never "." or ".." |
| Verification.BestMatchIsMaximum | src/service/auth_engine.cpp:427-438 | the camera score is the maximum over the stored embeddings, floored at 0 |
| Verification.BestScoreIsMaximum | src/service/auth_engine.cpp:440-441 | the reported score is the maximum of the camera scores, floored at 0 |
| Verification.MatchMeaning | src/service/auth_engine.cpp:405-448 | a participating camera counts as success iff a face was found and some stored embedding reaches the threshold |
| Verification.StrictMeaning | src/service/auth_engine.cpp:345-477 | STRICT_ALL accepts iff every camera captured, some frame was bright enough and every bright frame is recognised |
| Verification.LenientMeaning | src/service/auth_engine.cpp:345-477 | LENIENT_ANY accepts iff some bright frame is recognised |
| Verification.AdaptiveMeaning | src/service/auth_engine.cpp:354-386 | ADAPTIVE accepts iff every mandatory camera captured a bright frame and some bright frame is recognised |
| Verification.AnyCameraMeaning | src/service/auth_engine.cpp:462-477 | without an aborting camera LENIENT_ANY and ADAPTIVE accept iff the reported score reaches the threshold, given a positive threshold or a compared face |
| Verification.StrictVersusDocumented | src/service/auth_engine.cpp:368-386 | the documented strict policy implies acceptance, and differs exactly where a dark frame is skipped |
| Verification.AdaptiveVersusDocumented | src/service/auth_engine.cpp:358-386 | the documented meaning of `mandatory` implies acceptance, and differs exactly where a mandatory camera participates without a match |
| Verification.AdaptiveVersusTypes | src/service/auth_engine.cpp:358-386 | the documented meaning of camera types against the code: exactly where an accepted attempt violates it, and where the code rejects one that meets it |
| Verification.DocumentationIsStricter | src/service/auth_engine.cpp:345-477 | a concrete pair of cameras that each policy accepts and its documentation rejects |
| Verification.CodeIsStricter | src/service/auth_engine.cpp:368-386 | a recognised "ir" camera beside a dark mandatory one: accepted by camera type, rejected by the code |
| Verification.ZeroThresholdAcceptsAnyFace | src/service/auth_engine.cpp:443-445 | at a threshold of 0 or below every compared face matches |
| Verification.PolicyComparison | src/service/auth_engine.cpp:354-386 | strict and adaptive acceptance imply lenient acceptance; strict implies adaptive exactly when no mandatory camera is dark |
| Verification.LowerThresholdAdmitsMore | src/service/auth_engine.cpp:443-450 | lowering the threshold keeps every accept, under all three policies |
| Verification.LowerIsLaxer | src/service/auth_engine.cpp:443-450 | a face rejected at the default threshold and accepted at a lower one |
| Verification.OrderIrrelevant | src/service/auth_engine.cpp:345-495 | the decision is the same for any rearrangement of the shots |
| Verification.DecideIgnoresCameraList | src/service/auth_engine.cpp:345-495 | the decision depends on the shots, not on the configured list |
| Verification.DecisionMonotone | src/service/auth_engine.cpp:390-448 | storing more embeddings keeps every accept, under all three policies |
| Verification.DecisionSeesViews | src/service/auth_engine.cpp:390-403 | the decision depends on the labelled lists only, not on pending embeddings or the format |
| Requirements.ValidIsGoodName | src/service/utils.cpp:141-162 | accepted names by length, character codes and dots |
| Requirements.LoadMeaning | src/service/auth_engine.cpp:698-709 | opening a user's file yields nothing, a document all of whose JSON strings are UTF-8, or an exception |
| Requirements.VerifyMeaning | src/service/auth_engine.cpp:305-496 | verification throws exactly on a broken file it opens, and succeeds exactly when models, document, lock and what the cameras see meet the policy |
| Requirements.VerifyScore | src/service/auth_engine.cpp:427-462 | the returned score is the largest score of any comparison, floored at 0, and 0 for an attempt that ended early |
| Requirements.VerifyRecords | src/service/auth_engine.cpp:462-496 | exactly which attempts are entered for lockout, with the very success that is returned, and with which count and deadline |
| EmbeddingStore.MigrationKeepsViews | src/service/auth_engine.cpp:720-734 | creating the array and moving the old single embedding leaves every labelled list as it was |
| EmbeddingStore.UpsertIsUpsert | src/service/auth_engine.cpp:740-776 | find-or-append replaces the first entry with the label, or appends, and keeps all others in place |
| StoreProperties.EnrolledKeepsViews | src/service/auth_engine.cpp:682-684 | enrolment changes no labelled list |
| StoreProperties.EnrolledPending | src/service/auth_engine.cpp:607-685 | each camera type's pending embedding is that of its last camera; other pending embeddings stay |
| StoreProperties.LabelledIsUpsert | src/service/auth_engine.cpp:712-782 | a successful setLabel upserts and consumes the pending embedding of each active type that had one, also with repeated types, and touches no other type |
| StoreProperties.LabelledEntries | src/service/auth_engine.cpp:725-776 | the stored entry carries time and model version, a migrated one the document's creation time; all other entries stay whole |
| StoreProperties.LabellingFails | src/service/auth_engine.cpp:736-756 | setLabel gives up iff nothing active is pending or a pending active type is full and lacks the label |
| StoreProperties.TrainedNewAppends | src/service/auth_engine.cpp:836-866 | training a new embedding appends, per type, what the usable cameras saw, in order, under the label |
| StoreProperties.TrainedRefines | src/service/auth_engine.cpp:867-903 | refining averages the first entry with the label with every new embedding, or appends one entry, and changes nothing else |
| StoreProperties.WithoutIsKeep | src/service/auth_engine.cpp:969-976 | the erase loop is a filter on labels |
| StoreProperties.RemovedIsFilter | src/service/auth_engine.cpp:964-978 | removal filters the arrays of active types; arrays stay, old single embeddings are neither removed nor uncovered |
| StoreProperties.LegacyIsNotRemoved | src/service/auth_engine.cpp:965-978 | removing "default" leaves an old single embedding in place |
| StoreProperties.LabelSurvivesRemoval | src/service/auth_engine.cpp:964-978 | after a removal an active type has the label exactly if it is the "default" of an old single embedding |
| StoreProperties.TrainedNewStoresMore | src/service/auth_engine.cpp:849-866 | training a new embedding keeps every stored embedding |
| StoreProperties.RemovedStoresLess | src/service/auth_engine.cpp:964-978 | removal adds no stored embedding |
| StoreProperties.LabelledKeepsDistinct | src/service/auth_engine.cpp:720-777 | labelling keeps labels distinct |
| StoreProperties.RefinedKeepsDistinct | src/service/auth_engine.cpp:867-903 | refining keeps labels distinct |
| StoreProperties.RemovedKeepsDistinct | src/service/auth_engine.cpp:968-977 | removal keeps labels distinct |
| StoreProperties.TrainedNewKeepsDistinct | src/service/auth_engine.cpp:849-866 | training a new embedding keeps labels distinct exactly when each type learns once and lacks the label |
| StoreProperties.LabelledWithinCap | src/service/auth_engine.cpp:736-777 | labelling never pushes a list beyond the cap |
| StoreProperties.TrainedNewWithinCap | src/service/auth_engine.cpp:849-866 | training a new embedding never pushes a list beyond the cap |
| StoreProperties.RefinedGrowth | src/service/auth_engine.cpp:867-903 | refining adds one entry to a list exactly when its type learned something and lacks the label |
| StoreProperties.RefinedWithinCap | src/service/auth_engine.cpp:892-902 | refining keeps all lists within the cap exactly when every type that learned and lacks the label has room |
| StoreProperties.TotalCounts | src/service/auth_engine.cpp:391-403 | the total over a list of distinct types is the number of stored embeddings |
| StoreProperties.LabelledTotal | src/service/auth_engine.cpp:712-782 | labelling adds one embedding per pending type that lacks the label |
| StoreProperties.TrainedNewTotal | src/service/auth_engine.cpp:849-866 | training new embeddings adds all that was learned |
| StoreProperties.RefinedTotal | src/service/auth_engine.cpp:867-903 | refining adds one embedding per type that learned something and lacks the label |
| StoreProperties.ListingIsComplete | src/service/auth_engine.cpp:931-946 | the listing is sorted, free of repetition, and holds exactly the array labels and a fixed text per old single embedding |
| Dictionary.LexIsDictionaryOrder | src/service/auth_engine.cpp:918 | the order of `std::set<std::string>` is that of a dictionary |
| StoreRequirements.LearnedIsFaces | src/service/auth_engine.cpp:815-833 | a type learns, in camera order, what its cameras see of exactly one face each, and nothing from other frames |
| StoreRequirements.EnrollOutcome | src/service/auth_engine.cpp:582-695 | enrolment succeeds iff the models load, the name is good, the file is not broken, every camera sees exactly one face and the camera types are UTF-8; exactly when it throws |
| StoreRequirements.EnrollEffect | src/service/auth_engine.cpp:592-685 | every type's pending embedding is what its last camera saw, nothing else changes, and a new document starts at the calendar time |
| StoreRequirements.LabelOutcome | src/service/auth_engine.cpp:697-793 | setLabel succeeds iff the user has a document, some active type is pending, each of those has room, and label and model version are UTF-8; exactly when it throws |
| StoreRequirements.LabelEffect | src/service/auth_engine.cpp:712-782 | the arrays of the pending types, entry by entry with time and model version; all else unchanged |
| StoreRequirements.TrainOutcome | src/service/auth_engine.cpp:795-914 | trainUser succeeds iff models load, the user has a document, some camera sees exactly one face, new embeddings fit the cap, and all is UTF-8; exactly when it throws |
| StoreRequirements.TrainEffect | src/service/auth_engine.cpp:836-903 | the arrays of the types that saw single faces, entry by entry: appended under the label or under the time, or averaged into the first entry with the label; all else unchanged |
| StoreRequirements.RemoveOutcome | src/service/auth_engine.cpp:949-990 | removeEmbedding succeeds iff the user has a document and the array of some active type has the label; it throws iff the file is broken |
| StoreRequirements.RemoveEffect | src/service/auth_engine.cpp:964-978 | the arrays of active types keep exactly the entries with other labels, in order; all else unchanged |
| StoreRequirements.RemoveViews | src/service/auth_engine.cpp:964-978 | the same in terms of the user's labelled lists |
| StoreRequirements.ListMeaning | src/service/auth_engine.cpp:916-947 | the listing of a user: empty without a document, else the labels and notes in dictionary order |
| StoreRequirements.StoreOperationsSpareTheRest | src/service/auth_engine.cpp:582-990 | no store operation changes a lockout or another path; failure changes nothing; an exception leaves a broken file |
| Encoding.EncodableIsUtf8 | src/service/auth_engine.cpp:714-776 | a user's document can be serialized iff the user name, all keys, labels and model versions in its JSON text are UTF-8 |
| Encoding.DumpDocument | include/json.hpp:18399-18942 | serializing string by string through the decoder reaches exactly that verdict |
| Encoding.EnrolledEncodable | src/service/auth_engine.cpp:682-690 | an enrolment can be serialized iff the camera types are UTF-8 |
| Encoding.LabelledEncodable | src/service/auth_engine.cpp:740-786 | a labelling can be serialized iff label and model version are UTF-8 |
| Encoding.TrainedEncodable | src/service/auth_engine.cpp:836-908 | a training can be serialized iff the label and the types that learned are UTF-8 |
| Encoding.RemovedEncodable | src/service/auth_engine.cpp:964-982 | a removal can always be serialized |
| Lockout.RecordExplained | src/service/auth_engine.cpp:1061-1079 | recording an attempt keeps the lockout map a function of the history |
| Lockout.LockedIsHistory | src/service/auth_engine.cpp:1050-1059 | locked iff N failures since the last success and the last failure is recent |
| Lockout.RateBound | src/service/auth_engine.cpp:1050-1079 | of m failures in a row the last is at least (m - N) durations after the N-th |
| Engine.AuthEngine.constructor | src/service/auth_engine.hpp:140-145 | a new engine has no lockouts |
| Engine.AuthEngine.IsUserLockedOut | src/service/auth_engine.cpp:1050-1059 | reads the lock state of the map |
| Engine.AuthEngine.RecordAuthAttempt | src/service/auth_engine.cpp:1061-1079 | the new lockout map, nothing else |
| Engine.AuthEngine.BestCameraScore | src/service/auth_engine.cpp:427-438 | the loop computes the floored maximum |
| Engine.AuthEngine.AllEmbeddings | src/service/auth_engine.cpp:391-403 | the embeddings compared are those of the labelled list |
| Engine.AuthEngine.LoadDocument | src/service/auth_engine.cpp:698-709 | a refused name or absent file, a document, or the parser's exception |
| Engine.AuthEngine.VerifyUserCore | src/service/auth_engine.cpp:305-496 | verdict, score and lockout map of the order-free decision, or an exception on a broken file; user files untouched |
| Engine.AuthEngine.SaveDocument | src/service/auth_engine.cpp:784-788 | the file holds the document, or is empty because serializing threw |
| Engine.AuthEngine.EnrollUser | src/service/auth_engine.cpp:582-695 | every type's last embedding becomes pending and the document is saved, or nothing is written |
| Engine.AuthEngine.FindLabel | src/service/auth_engine.cpp:742-744 | the first entry with the label |
| Engine.AuthEngine.StoreLabel | src/service/auth_engine.cpp:717-781 | one camera's step advances the labelling, or proves that it must fail |
| Engine.AuthEngine.LabelPending | src/service/auth_engine.cpp:712-782 | the camera loop computes the per-type labelling or gives up |
| Engine.AuthEngine.SetLabelOf | src/service/auth_engine.cpp:697-793 | the labelled document is saved, which may throw, or nothing is written |
| Engine.AuthEngine.AbsorbFace | src/service/auth_engine.cpp:835-903 | one usable camera's step: migrate, then append or refine, or stop at the cap |
| Engine.AuthEngine.Learn | src/service/auth_engine.cpp:815-904 | the camera loop computes the per-type training, or gives up at the cap |
| Engine.AuthEngine.TrainUser | src/service/auth_engine.cpp:795-914 | the trained document is saved, which may throw, or nothing is written |
| Engine.AuthEngine.ListEmbeddings | src/service/auth_engine.cpp:916-947 | the listing of the user's document, or an exception on a broken file |
| Engine.AuthEngine.TestCameraAndAuth | src/service/auth_engine.cpp:992-1048 | true iff some camera captured |
| Engine.AuthEngine.EraseLabel | src/service/auth_engine.cpp:969-976 | erase-while-iterating leaves exactly the entries without the label and says whether any went |
| Engine.AuthEngine.RemoveEmbedding | src/service/auth_engine.cpp:949-990 | the filtered document is saved, or nothing is written |
| Engine.LabelStep | src/service/auth_engine.cpp:717-781 | labelling one more type turns the in-memory document for a set of types into that for the larger set |
| Engine.TrainStep | src/service/auth_engine.cpp:815-904 | one more shot turns the in-memory document for a prefix into that for the longer prefix |
| Engine.CapStep | src/service/auth_engine.cpp:851-856 | the size test before an append decides whether the whole call overflows |
| EngineProperties.StoreOperationsContained | src/service/auth_engine.cpp:582-990 | every store operation reports failure and changes nothing, or leaves a readable document in the named user's file, or throws and leaves that file broken; no other file and no lockout changes |
| EngineProperties.LabellingAllOrNothing | src/service/auth_engine.cpp:784-788 | setLabel throws half-way exactly when it has something to store and label or model version is not UTF-8 |
| EngineProperties.TrainingAllOrNothing | src/service/auth_engine.cpp:906-910 | trainUser throws half-way exactly when it has something to store and the label or a type that learned is not UTF-8 |
| EngineProperties.EnrolmentAllOrNothing | src/service/auth_engine.cpp:687-691 | enrollUser throws half-way exactly when the enrolment succeeds and a camera type is not UTF-8 |
| EngineProperties.RemovalAllOrNothing | src/service/auth_engine.cpp:980-984 | removeEmbedding never does |
| EngineProperties.ContainedLeavesOthers | src/service/auth_engine.cpp:702-703 | so every other user's document and lockout state stay |
| EngineProperties.VerifyLeavesOthers | src/service/auth_engine.cpp:494-495 | verification writes no file and touches no other user's lockout |
| EngineProperties.RecordedAttempts | src/service/auth_engine.cpp:311-386 | an attempt is recorded iff the name was valid, its file readable, the user not locked, no camera aborted and one joined; otherwise nothing changes |
| EngineProperties.CameraOrderIrrelevant | src/service/auth_engine.cpp:345-495 | any rearrangement of the cameras gives the same verdict, score and lockout map |
| EngineProperties.TrainingNeverLocksOut | src/service/auth_engine.cpp:836-866 | a successful trainUser(create_new) keeps every accept |
| EngineProperties.RemovalNeverAdmits | src/service/auth_engine.cpp:964-978 | a successful removal keeps every reject |
| EngineProperties.PendingIsInvisible | src/service/auth_engine.cpp:682-690 | a pending embedding alone changes no verdict |
| EngineProperties.EnrolmentReachesVerification | src/service/auth_engine.cpp:607-792 | enrolment and labelling make cameras that recognise the enrolled face accept, under every policy |
| EngineProperties.NewUserIsLabelled | src/service/auth_engine.cpp:582-793 | a new user in front of working cameras is enrolled and labelled |
| EngineProperties.NewUserViews | src/service/auth_engine.cpp:712-792 | and then has one entry per camera type, under that label |
| EngineProperties.EnrolmentExample | src/service/auth_engine.cpp:607-792 | the premises of the previous theorem can be met, under every policy |
| Protocol.CommandNames | src/common/ipc_protocol.hpp:27-84 | every command name is one word and reads back as its command |
| Protocol.Serialize | src/common/ipc_protocol.hpp:90-96 | the loop appends every argument behind one blank |
| Protocol.Deserialize | src/common/ipc_protocol.hpp:98-108 | the loop reads the first word as command and the rest as arguments |
| Protocol.RoundTrip | src/common/ipc_protocol.hpp:90-108 | a request survives the wire iff every argument is one non-empty word |
| Protocol.WireInjective | src/common/ipc_protocol.hpp:90-96 | serialization is injective on such requests |
| Protocol.NormalForm | src/common/ipc_protocol.hpp:90-108 | for every text, serializing what was read reads the same again |
| Daemon.HandleClient | src/service/main.cpp:40-209 | state and reply after one connection; no reply to an empty one |
| Daemon.Answer | src/service/main.cpp:64-205 | state and reply of every command, with missing arguments and with exceptions |
| Daemon.RenderListing | src/service/main.cpp:140-149 | the rendered listing |
| Daemon.ServeAll | src/service/main.cpp:302-335 | the sequential loop runs the connections one after the other |
| Replies.ReceivedMeaning | src/service/main.cpp:41-48 | what the daemon reads: at most 1024 bytes, up to the first NUL |
| Replies.WordsMeaning | src/common/ipc_protocol.hpp:98-108 | a request is cut into the stretches between white space |
| Replies.WordsUnique | src/common/ipc_protocol.hpp:98-108 | which can be done in one way only |
| Replies.CommandTexts | src/common/ipc_protocol.hpp:57-84 | how the commands are spelled, and that any other word is unknown |
| Replies.ServeMeaning | src/service/main.cpp:40-64 | the first word names the command, the others are its arguments |
| Replies.AuthReply | src/service/main.cpp:66-72 | the reply to AUTH_REQUEST, and when which |
| Replies.TestReply | src/service/main.cpp:101-115 | the reply to TEST_AUTH, with and without a user |
| Replies.AddReply | src/service/main.cpp:73-80 | the reply to ADD_USER |
| Replies.TrainReply | src/service/main.cpp:81-135 | the replies to TRAIN_USER and TRAIN_NEW, with the label they use when none is given |
| Replies.LabelReply | src/service/main.cpp:116-124 | the reply to SET_LABEL |
| Replies.RemoveReply | src/service/main.cpp:151-159 | the reply to REMOVE_EMBEDDING |
| Replies.ListReply | src/service/main.cpp:136-150 | the reply to LIST_EMBEDDINGS |
| Replies.OtherReplies | src/service/main.cpp:160-198 | the replies to the remaining commands, which change nothing |
| DaemonProperties.RunLeavesOthers | src/service/main.cpp:302-335 | a user nobody names keeps document and lockout state through every run |
| Isolation.ServeAgrees | src/service/main.cpp:64-198 | reply and effect of a request depend on the record of the user it names alone |
| Isolation.RunSeesOwnExchanges | src/service/main.cpp:302-335 | after any run a user's record is what the requests naming that user alone would have made of it |
| Isolation.OthersAreInvisible | src/service/main.cpp:302-335 | no later verification of a user and no reply to a request for that user tells whether others were served in between |
| DaemonProperties.CapOverRuns | src/service/auth_engine.cpp:736-903 | over every run a list stays within the larger of cap and initial size, plus one per refinement request |
| DaemonProperties.CapOverRunsExactly | src/service/auth_engine.cpp:736-903 | a list within the cap stays within it throughout a run exactly when no refinement adds an entry to it while it is full |
| DaemonProperties.CapIsExceeded | src/service/auth_engine.cpp:892-902 | a cap of 1 and three requests from a fresh start: two embeddings under one type |
| DaemonProperties.CapIsPerType | src/service/auth_engine.cpp:736-738 | a cap of 1, two camera types and one enrolment: two embeddings |
| UserTotals.LabellingTotal | src/service/auth_engine.cpp:697-793 | when a labelling changes the user's total, and by how much |
| UserTotals.TrainingTotal | src/service/auth_engine.cpp:795-914 | when a training changes the user's total, and by how much |
| UserTotals.ServeTotal | src/service/auth_engine.cpp:736-903 | a user's total within the cap stays within it exactly when the request does not store more than there is room for |
| UserTotals.TotalOverRunsExactly | src/service/auth_engine.cpp:736-903 | and over every run exactly when no request of the run does |
| DaemonProperties.DistinctOverRuns | src/service/auth_engine.cpp:720-977 | over every run without TRAIN_NEW for the user, distinct labels stay distinct |
| DaemonProperties.BrokenOverRuns | src/service/auth_engine.cpp:784-788 | over every run a file ends up broken exactly when it was, or some request stored what is not UTF-8; nothing repairs it |
| DaemonProperties.BrokenIsLockedOut | src/service/auth_engine.cpp:332-334 | the user of a broken file is never accepted, and no attempt is recorded |
| DaemonProperties.Utf8NeverBreaks | src/service/auth_engine.cpp:784-788 | requests with UTF-8 labels break no file, given UTF-8 settings |
| DaemonProperties.LabelBreaksFile | src/service/main.cpp:115-204 | ADD_USER and then SET_LABEL with the byte 0xFF: the reply is an exception and the file is broken |
| DaemonProperties.ServeLockout | src/service/auth_engine.cpp:494-495 | the lockout map changes only by recording an attempt whose gate was open |
| DaemonProperties.LockedByHistory | src/service/auth_engine.cpp:1050-1079 | in every reachable state, locked iff the run's history says so |
| DaemonProperties.FailuresAreRateBound | src/service/auth_engine.cpp:321-324 | the rate bound over every run from a fresh start |
| ConfigLines.LastInIsLast | src/service/config.cpp:43 | the last value stored under a key wins |
| PamConfig.Trim | src/pam/pam_config.hpp:32-37 | with wrapping `size_t` arithmetic, the stripped text |
| PamConfig.TrimMeaning | src/pam/pam_config.hpp:32-37 | the stripped text is the maximal one, empty iff the text is blank |
| PamConfig.ReadLine | src/pam/pam_config.hpp:42-56 | how a line is taken apart |
| PamConfig.PamConfigState.constructor | src/pam/pam_config.hpp:19-25 | the initial state summarises no lines |
| PamConfig.PamConfigState.ProcessLine | src/pam/pam_config.hpp:40-86 | the state stays the summary of the lines read |
| PamConfig.PamConfigState.AcceptMinUid | src/pam/pam_config.hpp:58-83 | which values are stored, and when |
| PamConfig.PamConfigState.Resolve | src/pam/pam_config.hpp:88-97 | the id of the summarised lines |
| PamConfig.LoadPamConfig | src/pam/pam_config.hpp:101-129 | the fold over all buffers, read as C strings |
| PamConfig.MinUidMeaning | src/pam/pam_config.hpp:58-97 | for every list of lines: the last valid value under [Security], else the first valid one anywhere, else 1000 |
| ConfigRequirements.PamLineMeaning | src/pam/pam_config.hpp:40-56 | what a line says to the PAM module, by its characters |
| ConfigRequirements.PamValueMeaning | src/pam/pam_config.hpp:58-71 | which user id a value means to the PAM module, by its characters |
| ConfigRequirements.AssignmentsMeaning | src/pam/pam_config.hpp:47-58 | one setting for every line that sets `min_uid`, with its value and the last heading before it |
| IniConfig.TrimLeft | src/service/config.cpp:24 | erases exactly the leading blanks |
| IniConfig.TrimRight | src/service/config.cpp:37 | erases exactly the trailing blanks, also when `npos + 1` wraps |
| IniConfig.ReadLine | src/service/config.cpp:24-41 | how a line is taken apart |
| IniConfig.ParseIniStream | src/service/config.cpp:18-48 | the map holds the last value of every full key, and no other key |
| IniConfig.LoadMinUid | src/service/config.cpp:285-309 | the id taken from the map |
| IniConfig.FullKeySplits | src/service/config.cpp:40-43 | a full key with one dot comes from one section and key only |
| IniConfig.MinUidMeaning | src/service/config.cpp:293-309 | the last value under [Security] if not empty, else the last under [General], else 1000 |
| ConfigRequirements.IniLineMeaning | src/service/config.cpp:22-46 | what a line says to the daemon, by its characters |
| ConfigRequirements.IniValueMeaning | src/service/config.cpp:51-56 | which user id a value means to the daemon, by its characters |
| ConfigRequirements.NothingConfigured | src/service/config.cpp:299-301 | a file without such a setting means 1000 to both |
| MinUidAgreement.SameLine | src/pam/pam_config.hpp:42-56 | without CR and LF both readers take a line apart alike, comments apart |
| MinUidAgreement.SameSettings | src/service/config.cpp:22-46 | both readers see the same `min_uid` settings in the same sections |
| MinUidAgreement.PlainValue | src/service/config.cpp:51-56 | a value starting with a number below 2^31 is that number to both |
| MinUidAgreement.LastSecurityCounts | src/pam/pam_config.hpp:72-76 | the PAM module takes the last [Security] value if it is valid, whatever came before |
| MinUidAgreement.RejectedMeansDefault | src/service/config.cpp:51-56 | a value the PAM module rejects means the default to the daemon, and a negative zero means 0 |
| MinUidAgreement.ReadersAgreeExactly | src/pam/pam_config.hpp:58-97 | for every file, exactly when both readers agree: the daemon's value is the last valid [Security] id of the PAM module, or else its first valid id, or else the default |
| MinUidAgreement.CleanFilesAgreeExactly | src/service/config.cpp:285-309 | for files without CR and NUL, the same by the last [Security] value: valid, rejected, or empty or absent |
| MinUidAgreement.ReadersAgree | src/service/config.cpp:285-309 | both agree when the last [Security] value is plain, and when nothing sets `min_uid` |
| MinUidAgreement.AgreeWithoutSecurity | src/pam/pam_config.hpp:77-96 | without a [Security] value they agree exactly when the first valid value anywhere is the daemon's [General] id |
| MinUidAgreement.NumberOfDecimal | src/pam/pam_config.hpp:68 | a decimal numeral is read back as its number |
| MinUidAgreement.PamReadsDecimal | src/pam/pam_config.hpp:67-71 | numerals saturate at 64 bits and are cut to 32 |
| MinUidAgreement.DaemonReadsDecimal | src/service/config.cpp:51-56 | numerals beyond `int` mean the default |
| MinUidAgreement.DecimalsAgreeExactly | src/pam/pam_config.hpp:67-71 | for which numerals both readings agree |
| MinUidAgreement.DecimalFilesAgreeExactly | src/pam/pam_config.hpp:67-76 | for which numerals as last [Security] value both readers agree on the file |
| MinUidAgreement.PlusSignParts | src/pam/pam_config.hpp:68 | a plus sign is accepted by the PAM module and not by the daemon |
| MinUidAgreement.PlusFilesAgreeExactly | src/pam/pam_config.hpp:68-76 | with a plus sign in the last [Security] value they agree on a file exactly for the default |
| MinUidAgreement.CrlfParts | src/service/config.cpp:24-31 | with CR LF line ends the daemon finds no section and the PAM module is unaffected, so they agree exactly when the PAM module reads the default |
| MinUidFiles.CrlfFileParts | src/pam/pam_config.hpp:32-37 | a file with CR LF line ends: the daemon takes 1000, the PAM module 5 |
| MinUidAgreement.NulParts | src/pam/pam_config.hpp:124-126 | a NUL in a heading hides the section from the PAM module only |
| MinUidFiles.SecurityFile | src/service/config.cpp:293-298 | for every sound value a file whose last [Security] value it is |
| MinUidFiles.DecimalFile | src/pam/pam_config.hpp:67-76 | for every numeral a file of two lines, and whether the readers agree on it |
| MinUidFiles.NulFileParts | src/pam/pam_config.hpp:124-126 | a file with a NUL in a heading: the daemon takes 1000, the PAM module 5 |
| CameraDetection.ClassifyCameraType | src/service/utils.cpp:64-90 | by the formats offered: "" iff no capture device, "rgb" iff some color format, "ir" iff grey formats only, "generic" otherwise |
| CameraDetection.Sort | src/service/utils.cpp:103 | a sorted rearrangement |
| CameraDetection.SortedUnique | src/service/utils.cpp:103 | there is only one sorted rearrangement |
| CameraDetection.EnumerateCameras | src/service/utils.cpp:92-105 | the sorted list of exactly the devices that are cameras |
| CameraDetection.EnumerationMeaning | src/service/utils.cpp:92-105 | every camera as often as its path is listed, in dictionary order |
| CameraDetection.CamerasCount | src/service/utils.cpp:97-102 | a camera is found as often as its path is listed |
| CameraDetection.ListingOrderIrrelevant | src/service/utils.cpp:92-105 | the enumeration does not depend on the listing order |
| CameraDetection.FirstPaths | src/service/config.cpp:230-236 | the scan finds the first infrared and the first visible camera with a path |
| CameraDetection.ChooseCameras | src/service/config.cpp:229-251 | the definitions follow from the first infrared and the first visible camera |
| CameraDetection.ChoiceIsSmallest | src/service/config.cpp:230-248 | these are the smallest paths of their kinds, "cam0" never occurs, and the first definition is mandatory |
| CameraDetection.ChoiceMeaning | src/service/config.cpp:229-251 | the definitions by what the devices offer: the least infrared and the least other path, with brightness check and mandatory flag |
| CameraDetection.LeastExists | src/service/config.cpp:230-236 | which exist whenever there is a device of the sort |
| PamModule.Authenticate | src/pam/pam_linuxcampam.cpp:263-394 | result code of every early exit and of the reply, and the state of the daemon behind it |
| PamModule.FindText | src/pam/pam_linuxcampam.cpp:344 | substring search |
| PamModule.OnlySuccessSaysSuccess | src/service/main.cpp:66-204 | of all replies to an authentication request, those of the exception handlers included, only the accepting one contains the word looked for |
| PamModule.DaemonVerifiesFirstWord | src/service/main.cpp:59-72 | the daemon verifies the first word of the name it was sent, for names that fit one read |
| PamModule.EndToEnd | src/pam/pam_linuxcampam.cpp:270-394 | for every name that fits one read of the daemon: success iff the account exists, `min_uid` admits it and the engine accepts the first word of the name |
| PamModule.VerifiedNameIsLoginName | src/common/ipc_protocol.hpp:98-108 | the verified name is the login name iff the login name is one word |
| PamModule.FirstWordLogsIn | src/common/ipc_protocol.hpp:98-108 | a name of several words logs in iff the engine accepts the first, although it would never accept the name |
| PamModule.AliceSmithLogsIn | src/common/ipc_protocol.hpp:98-108 | "alice smith" logs in iff the engine accepts "alice" |
| PamModule.EndToEndForWords | src/pam/pam_linuxcampam.cpp:270-394 | for such names of one word the engine accepts that same name |
| PamModule.EnrolledUserLogsIn | src/service/main.cpp:66-124 | after ENROLL_SUCCESS and LABEL_SET a recognised user logs in, under every policy |
| PamModule.NewUserLogsIn | src/service/main.cpp:66-124 | for every valid name and sound UTF-8 label the premises can be met: both replies come, and the login succeeds |
| PamModule.LoginExample | src/pam/pam_linuxcampam.cpp:270-394 | an instance with one camera and an ordinary account |
| LoginRequirements.LoginMeaning | src/pam/pam_linuxcampam.cpp:263-394 | every result code of a login, each exactly when: name prompt, account, configured user id, link, and what the daemon recognises |
| LoginRequirements.AskedMeaning | src/pam/pam_linuxcampam.cpp:276-339 | exactly which logins reach the daemon |
| LoginRequirements.SystemAccountsIgnored | src/pam/pam_linuxcampam.cpp:276-280 | without configuration exactly the accounts below 1000 are ignored |
| LoginRequirements.RootIsIgnored | src/pam/pam_linuxcampam.cpp:276-280 | an instance: user id 0 |

## Left out

- Capture, HDR, averaging, alignment, embedding and cosine numerics, NaN and rounding: library code; scores are real numbers from an uninterpreted function.
- Exceptions other than those of parsing and serializing a user's file: of the camera and recognition libraries, of the file system, and of JSON that parses but has other members than the daemon writes.
- Loading and unloading of models is one input per request; maintenance between requests changes nothing in the model.
- The calendar time is one value per request, where the code reads the clock at each entry it writes.
- Integer widths of the failure counter (32 bits) and of the nanosecond clock (64 bits): unbounded in the model.
- Reason strings, log output, saved images and the texts of GET_CONFIG, GET_VERSION and GET_LOG_LEVEL are inputs; the logger's level is not part of the state.
- Sockets deliver each message whole, in one read; `fgets` buffers are whole lines.
- Engine.AuthEngine.TestCameraAndAuth: takes a captured frame for success, because detector exceptions, which keep the result false in the code, are not part of the model.
- Daemon.HandleClient: requires a NUL within the read buffer, because without one the code reads past it.
- Daemon.ServeAll: requires the same of every connection, for the same reason.
- MinUidAgreement.CleanFilesAgreeExactly: requires lines without CR and NUL, because the readers see other settings in such lines (`CrlfFileParts`, `NulFileParts`); so do the results that follow from it. `ReadersAgreeExactly` covers every file.
- PamModule.Authenticate: requires a request shorter than the daemon's buffer, for the same reason.
- PamModule.EndToEnd: requires the same, and so do `DaemonVerifiesFirstWord`, `EndToEndForWords`, `LoginMeaning` and the results that follow from them.
- Runs with a read that fills the buffer without a NUL: the results of `DaemonProperties`, `UserTotals` and `Isolation` also cover them, but there they say nothing about the code.
- Configured camera lists, `Hardware.camera_path_*` and every setting but `min_uid` and auto-detection: lookups with defaults that would add easy members.
- The real camera backend, the IR emitter, keyring unlocking, the command line client, packaging and scripts.
