# rsntr: a verified model of its decider, protocols and scanners

rsntr is a peer-to-peer node kept in one SQLite directory. Peers send it SQL, knocks and
mod requests; a chain of deciders answers them, an owner answers what is left, and small
command-line protocols wake agents, publish pages, split scripts and hand the directory from
one process to the next. This project models that logic in Dafny and proves what its
documentation promises of it, for every input, every run or every interleaving.

| file | what it models |
|---|---|
| `AuthTypes.dfy`, `AuthTables.dfy` | footprints, decisions, the `_inbox`, `_decisions`, `_policy` and `_peers` tables |
| `Policy.dfy` | the policy tier: the best-so-far fold against an order-free meaning of a rule table |
| `Normalize.dfy`, `Fingerprint.dfy` | statement normal forms and the hash input of the cache key |
| `Tiers.dfy`, `Chain.dfy` | the cache and human tiers, the chain with masks and broken settings |
| `Answers.dfy`, `AnswerEffects.dfy` | the two implementations of answering a parked row, what an answer leaves in each table, and how far they agree |
| `Runs.dfy` | runs of requests, knocks and interleaved answer statements under `["cache", "human"]` |
| `AnswerRaces.dfy`, `SerialAnswers.dfy` | exactly when such runs keep the inbox and the cache in step, and what changes when answers do not race |
| `PeerRemoval.dfy` | removing a peer, interrupted and resumed, and what it does to policy |
| `Calendar.dfy`, `Timestamps.dfy` | the closed-form calendar, and timestamp strings that sort as time |
| `Feeds.dfy`, `Await.dfy`, `AwaitRuns.dfy`, `Replay.dfy` | the event scans, the two-stream drain, the at-least-once wake protocol, whole runs of it, and what the next run emits after a crash |
| `Packer.dfy` | the greedy `INSERT DATA` packer, lossless and optimal |
| `SqlSplit.dfy` | cutting SQL at its top-level semicolons |
| `OwnerChannel.dfy` | frames then raw bytes under any read segmentation, and the proxy tunnel |
| `PagePublish.dfy`, `PageFetch.dfy` | chunked publishing on UTF-8 boundaries, order-free reassembly |
| `Serving.dfy` | the serving lease, the resources it guards, and the owner record |

Loops and table updates of the source are methods (on classes where the source updates an
object or a connection); each is proved against a specification function, and the properties
are lemmas about that function. `dafny verify dfyconfig.toml` checks everything.

## How the model reads the source

- SQL statements are atomic steps and tables are sequences or maps of rows, scanned in insertion
  order. Row timestamps that nothing compares are dropped; `received_at` is a number ordered as its
  text is.
- An answer is the read that may reject it, then one statement at a time, with any other event in
  between and a stop possible after each; a request is decided in one step, as the node decides it in
  one call on its connection.
- SHA-256 is identified with its input, JSON with its parsed value or a parse failure, base64
  with its decoded bytes or a failure. The envelope parser is an arbitrary predicate on a payload.
- The clock, fresh request ids, script answers, failing SQL calls, crashes, failed writes and
  the sizes of reads are parameters of the steps, so the theorems hold for all of them.
- `BTreeMap` and `BTreeSet` contents are sequences in iteration order; no theorem needs them sorted.

## Where the code and its documentation part

- `crates/cli/src/awaitcmd.rs` (lines 17-19) says a crash between printing and saving re-emits the same
  event next run. It does so exactly when its request was not decided meanwhile, it is not a chat
  message found before any cursor was saved (a first run starts chat at now), and no row of the other
  stream that arrived or waited goes first (a knock of the same second does):
  `Replay.NextRunReplaysExactly`. Overtaken, it still waits, first of its stream:
  `Replay.FoundStillWaits`.
- `crates/cli/src/awaitcmd.rs` (lines 20-22) says open requests are never lost to a late start. One
  is when it is the first to wait and arrives between two reads of `initial_cursor`:
  `Feeds.InitialCursorCovers` is an equivalence.
- `crates/cli/src/inboxcmd.rs` (lines 5-10) says its answers mirror the direct path. They leave the same
  inbox, cache and admissions and the same rules exactly when neither path acts, or when the grants are
  well formed and the answer is not a first denial of the peer's knocks:
  `Answers.AnswerPathsAgreeExactly`.
- `answer_inbox` checks parameters before it writes, so that a rejected row stays intact; a malformed
  grant on an allow is still found only afterwards. `Answers.DirectRejectsIntactUnlessBadGrant` says
  exactly when a rejected answer leaves a trace.
- `crates/authenticator/src/human.rs` (lines 5-9) says an answered shape is served from the cache and the
  owner only asked novel questions. A shape is asked again exactly when its row is decided, none is
  pending, and the cache lacks the answer or cannot be read: `AnswerRaces.AskedAgainInEveryRun`,
  `Runs.AskedOnceExactly`. While inbox and cache are in step, it lacks the answer only between the
  statement that marks the row and the one that caches the answer: `AnswerRaces.AskedAgainMeans`.
- Marking a row does not check that it is still pending, so of two answers that read it as pending the
  later overwrites the earlier: `SerialAnswers.RacingAnswersOverwrite`. Inbox and cache stay in step
  exactly while no request is asked again, no answer overwrites or is lost halfway, and the cache is
  not cleared: `AnswerRaces.EveryRunStaysInStep`.
- `crates/cli/src/peercmd.rs` (lines 68-71) says an interrupted removal is finished by re-running it
  with the id. Queued messages addressed by petname are the exception, since the first step forgets
  the petname: `PeerRemoval.InterruptedRemovalConverges` is an equivalence.
- "Removing a peer must never unblock one" (`crates/cli/src/peercmd.rs`, lines 18-21) holds of tables
  whose effects are allow and deny. A rule with any other effect blocks and is deleted, so in general a
  denial survives exactly when a deny rule of the peer's own matches or the rules for everyone deny:
  `PeerRemoval.DenialSurvives`, and for whole requests `PeerRemoval.RequestDeniedAfterRemoval`.
- A normal form with characters above 127 is re-encoded as two bytes each, so normalizing it again
  gives something else: `Normalize.SecondPassIsIdentityIffAscii` is an equivalence.
- After `recv` has reported a connection closed mid-frame, the next call reports a clean end:
  `OwnerChannel.AfterWholeFrames`.

## Model

| member | source | states |
|---|---|---|
| Calendar.CivilStepsByOneDay | crates/authenticator/src/human.rs:329-341 | for every integer day the closed form of the next day is the Gregorian next day |
| Calendar.Epoch | crates/authenticator/src/human.rs:329-341 | day 0 is 1970-01-01 |
| Calendar.CivilHasOrdinal | crates/authenticator/src/human.rs:329-341 | every day, negative ones included, gets a valid date whose table-driven ordinal is that day |
| Calendar.CivilIsMonotonic | crates/authenticator/src/human.rs:329-341 | days compare exactly as their dates do, year then month then day |
| Calendar.CivilIsOnto | crates/authenticator/src/human.rs:329-341 | every valid Gregorian date is the date of some day: with the above, a bijection |
| Timestamps.TimestampsSortAsTime | crates/authenticator/src/human.rs:311-327 | up to year 9999 timestamp strings compare as strings exactly as their instants do (RFC 3339 section 5.1) |
| Timestamps.SortsAsTimeExactly | crates/authenticator/src/human.rs:311-327 | whatever the years, two instants in order sort in order if and only if the earlier year is at most the later one's leading digits |
| Timestamps.FiveDigitYearSortsEarly | crates/authenticator/src/human.rs:320-326 | so the limit is real: years 10000 to 19999 sort before 2000 to 9999 |
| Timestamps.TurnOfYear10000 | crates/authenticator/src/human.rs:320-326 | the first second past the limit |
| Timestamps.TimestampReadsBack | crates/authenticator/src/human.rs:311-327 | up to year 9999 a timestamp is twenty characters with `-`, `-`, `T`, `:`, `:`, `Z` between its numbers, which read back as a valid date and time give the second |
| Policy.Resolve | crates/authenticator/src/policy.rs:49-92 | the row-by-row fold computes the order-free meaning: allowed when some row matches and all rows of the highest matching specificity allow |
| Policy.MeaningIgnoresNotesAndCopies | crates/authenticator/src/policy.rs:72-91 | neither order, copies nor notes of rows matter, only which rules are present |
| Policy.Decide | crates/authenticator/src/policy.rs:100-150 | the tier with its early returns and its query failure gives the specified answer, reason text included |
| Policy.FootprintMeaning | crates/authenticator/src/policy.rs:100-150 | deny if any construct or any table is denied, else escalate if any table is unmatched, else allow |
| Policy.RulesDetermineAnswer | crates/authenticator/src/policy.rs:100-150 | tables with the same rules answer every request alike |
| Policy.SpecificityOrder | crates/authenticator/src/policy.rs:49-92 | rules for the peer on the table go before rules for the peer on `*`, those before rules for everyone on the table, and those before rules for everyone on `*`; among rules of one layer anything but allow denies |
| Policy.TableByTable | crates/authenticator/src/policy.rs:108-149 | a request is allowed exactly when each of its tables is, and denied exactly when one of them is |
| Policy.NoTablesMeansAny | crates/authenticator/src/policy.rs:108-149 | a request without tables is decided as `*` is |
| Policy.WithoutRules | crates/authenticator/src/policy.rs:100-130 | denied constructs deny whatever the table holds or whether it can be read, and are listed; a table that cannot be read makes the tier abstain |
| Policy.FirstDenialIsNamed | crates/authenticator/src/policy.rs:120-140 | the denial names the first denied table |
| Normalize.NormalizeStatement | crates/authenticator/src/fingerprint.rs:15-89 | the byte scanner computes the normal form defined by a character automaton |
| Normalize.NormalizeIdempotent | crates/authenticator/src/fingerprint.rs:15-89 | normalizing the characters of a normal form changes nothing more, and it is never longer |
| Normalize.SecondPassIsIdentityIffAscii | crates/authenticator/src/fingerprint.rs:18-20 | normalizing the bytes of a normal form gives it back exactly when it is ASCII |
| Normalize.NormalizeIgnoresCase | crates/authenticator/src/fingerprint.rs:15-17 | texts equal up to ASCII case have one normal form |
| Normalize.NormalizeIgnoresRunLength | crates/authenticator/src/fingerprint.rs:68-76 | outside quotes any two whitespace runs are interchangeable |
| Normalize.NormalizeIgnoresTrailing | crates/authenticator/src/fingerprint.rs:85-87 | appended semicolons and spaces never matter |
| Normalize.NormalizeIgnoresLiterals | crates/authenticator/src/fingerprint.rs:28-66 | one literal token for another at the same token boundary leaves the normal form alone |
| Normalize.LiteralBecomesMark | crates/authenticator/src/fingerprint.rs:28-66 | a whole literal token, escapes included, becomes exactly one mark |
| Normalize.WordKept | crates/authenticator/src/fingerprint.rs:77-82 | a word is kept with its digits, case folded |
| Normalize.QuotedIdentifierKept | crates/authenticator/src/fingerprint.rs:45-58 | a quoted identifier is kept whole, case folded |
| Normalize.PunctuationKept | crates/authenticator/src/fingerprint.rs:77-82 | every other character stands for itself |
| Normalize.QuotedNameKept | crates/authenticator/src/fingerprint.rs:45-58 | a name in double quotes, or in backticks, is kept whole with its digits and spaces |
| Normalize.OneCharacter | crates/authenticator/src/fingerprint.rs:24-83 | what each character code begins outside quotes, words and literals |
| Normalize.GoesOn | crates/authenticator/src/fingerprint.rs:28-82 | which codes continue a word, a number or a string |
| Normalize.TrimmedExactly | crates/authenticator/src/fingerprint.rs:85-87 | trailing semicolons and spaces go, and nothing else does |
| Fingerprint.StatementFingerprint | crates/authenticator/src/fingerprint.rs:95-117 | the hasher's updates add up to the separator-joined shape |
| Fingerprint.HashInputDecodes | crates/authenticator/src/fingerprint.rs:95-110 | the hashed bytes can be read back into action, normal form, kind and tables |
| Fingerprint.SameKeyIffSameShape | crates/authenticator/src/fingerprint.rs:91-117 | two requests share a key exactly when action, normal form, kind and table/column map agree |
| Fingerprint.SeparatorInNameCollides | crates/authenticator/src/fingerprint.rs:103-110 | names with separator bytes would collide |
| Fingerprint.HashInputSpelledOut | crates/authenticator/src/fingerprint.rs:95-110 | the hashed bytes of a one-table request, separators included |
| Fingerprint.KindNames | crates/authenticator/src/fingerprint.rs:97-110 | the names of the three statement kinds |
| Tiers.CacheDecide | crates/authenticator/src/cache.rs:93-150 | abstains on denied constructs, knocks, failures, misses and expiry; otherwise the stored decision |
| Tiers.CacheSpeaksExactly | crates/authenticator/src/cache.rs:93-150 | the tier answers if and only if the cache can be read, the request is no knock and has no denied construct, and its entry says allow or deny and expires later than now, if ever |
| Tiers.CacheServes | crates/authenticator/src/cache.rs:93-150 | an entry expiring now or earlier is not served; a later one is, with its reason |
| Tiers.LookUp | crates/authenticator/src/human.rs:66-88 | the query for a pending row finds one, finds none, or fails on params that are not JSON |
| Tiers.HumanDecide | crates/authenticator/src/human.rs:44-122 | parks a statement once while it is pending and denies as pending; abstains on what it does not park, on a failing lookup and on a failing insert |
| Tiers.NotParked | crates/authenticator/src/human.rs:44-62 | knocks, empty statements and denied constructs are neither parked nor answered |
| Tiers.ParkedInFull | crates/authenticator/src/human.rs:66-122 | with nothing pending for the peer the row is parked, undecided, with its action, fingerprint and footprint, and the request is denied as pending |
| Tiers.HumanByFirstStop | crates/authenticator/src/human.rs:66-122 | otherwise the first row that is pending for the shape, or that the lookup fails on, decides; a failing lookup or insert makes the tier abstain |
| Chain.WithBuiltinTiers | crates/authenticator/src/chain.rs:107-123 | registering one after another gives the built-in registry |
| Chain.UnnamedTierIsNotAsked | crates/authenticator/src/chain.rs:125-182 | registering a tier changes the answers of chains that name it, and of no other |
| Chain.ScriptFeature | crates/authenticator/src/chain.rs:107-123 | so the script feature matters only to chains that name it |
| Chain.Chain.Decide | crates/authenticator/src/chain.rs:131-182 | the loop over tiers, masks, panics and table writes gives the specified answer and tables |
| Chain.FirstSpeakerDecides | crates/authenticator/src/chain.rs:131-182 | the first tier that speaks within its authority decides, the tail denies otherwise, and the answer is never an abstention |
| Chain.BrokenConfigDenies | crates/authenticator/src/chain.rs:192-218 | a missing chain or any unparseable setting denies everything and writes nothing |
| Chain.SpeaksExactly | crates/authenticator/src/chain.rs:45-75 | from the settings as read: a tier speaks exactly when it is registered, does not abstain, and its own mask, if it has one, lists the action or `*` for that kind of answer |
| Chain.AnswersWithAuthority | crates/authenticator/src/chain.rs:131-182 | every answer but the tail's was said by a configured tier whose mask lists the action for it |
| Chain.OneTier | crates/authenticator/src/chain.rs:131-182 | and a tier that speaks alone is believed exactly then, the tail denying otherwise |
| Chain.BuiltinAnswers | crates/authenticator/src/chain.rs:107-123 | which tier answers under which name |
| Answers.AnswerInbox | crates/authenticator/src/human.rs:172-278 | the direct path: its statements in order, its result, and its failure halfway through the grants |
| Answers.WriteGrants | crates/authenticator/src/human.rs:281-309 | rules are inserted if absent, up to the first malformed grant |
| Answers.InboxAnswerWith | crates/cli/src/inboxcmd.rs:93-262 | the owner-channel path: its statements in order and its result, with everything checked before the first |
| Answers.ApplyGrants | crates/cli/src/inboxcmd.rs:296-321 | parsed grants become allow rules, inserted if absent |
| Answers.PlanIsAnswer | crates/cli/src/inboxcmd.rs:93-262 | the statements of an answer, executed without a break, do what the answer does as a whole, on either path |
| Answers.AnswerPathsAgreeExactly | crates/cli/src/inboxcmd.rs:93-262 | both paths leave the same inbox, cache, admissions and rules if and only if neither acts, or the grants are well formed and the answer is not a first denial of the peer's knocks |
| Answers.AnswerPathsAgree | crates/cli/src/inboxcmd.rs:93-262 | for parked statements and admitted knocks with well-formed grants the results are the same too, and no request can tell the policy tables apart |
| Answers.RowCountsMayDiffer | crates/cli/src/inboxcmd.rs:198-249 | the rows themselves may differ: one against two |
| Answers.KnockDenyDiffers | crates/cli/src/inboxcmd.rs:153-171 | a denied knock adds one durable rule on the owner channel and none on the direct path, which differ unless the rule was there |
| Answers.ChannelRejectsIntact | crates/cli/src/inboxcmd.rs:108-137 | the owner channel rejects exactly unanswerable rows and malformed grants, and leaves no trace |
| Answers.DirectRejectsIntactUnlessBadGrant | crates/authenticator/src/human.rs:172-309 | a rejected direct answer leaves a trace exactly on an allow with a malformed grant |
| Answers.RememberedAnswerGoverns | crates/authenticator/src/human.rs:243-266 | a remembered denial denies every footprint table; a remembered allowance allows it unless a sibling rule does not |
| Answers.RememberedAnswerGovernsRequests | crates/authenticator/src/human.rs:5-9 | after it, by either path, every request of that peer and action on those tables is answered by policy without asking |
| Answers.SplitGrantAtFirst | crates/cli/src/inboxcmd.rs:267-281 | only the first '=' separates table from action |
| AnswerEffects.AnswerMarksRow | crates/authenticator/src/human.rs:207-210 | by either path the answered row is decided as answered, and no other row changes |
| AnswerEffects.KnockAdmission | crates/authenticator/src/human.rs:212-226 | an allowed knock puts the peer among the peers, once, under this row's note; a known peer's entry, every other entry, and the peers after a denial or a statement's answer stay as they were |
| AnswerEffects.AnswerIsCached | crates/authenticator/src/human.rs:233-243 | a statement's answer is cached under peer and fingerprint for good, in place of any before; a knock's is not |
| AnswerEffects.RememberedTablesGetRules | crates/authenticator/src/human.rs:244-266 | remembering writes a rule of the answer's effect for every table of the footprint, or for `*` when it has none |
| AnswerEffects.PlainAnswerWritesNoRule | crates/authenticator/src/human.rs:243-278 | without remembering and grants no rule is written |
| AnswerEffects.GrantsBecomeRules | crates/authenticator/src/human.rs:281-309 | each grant `table=action` of an allowing answer becomes an allow rule of the peer |
| AnswerEffects.RulesAfterAnswer | crates/cli/src/inboxcmd.rs:137-262 | exactly these rules are added and none is dropped, on the owner channel with the denial of a denied knock |
| AnswerEffects.AnswerReports | crates/cli/src/inboxcmd.rs:93-262 | what a finished answer reports as remembered, granted and written |
| AnswerEffects.RejectionSays | crates/cli/src/inboxcmd.rs:108-137 | why an answer is rejected, and which fault each path names when there are several |
| AnswerEffects.AnsweredRequestIsServed | crates/authenticator/src/human.rs:5-9 | a request is parked and its row answered: the same request then gets that answer from the cache |
| AnswerEffects.RememberedRequestIsDecided | crates/authenticator/src/human.rs:5-9 | when the answer is remembered the policy tier gives it too, for every table the request uses |
| Runs.AskedOnceExactly | crates/authenticator/src/human.rs:66-88 | over every run, whatever answers race or stop halfway, a shape has two rows at the end exactly when some request was asked again |
| Runs.ReplyParks | crates/authenticator/src/human.rs:44-122 | all a request can do to the tables is to park, and exactly when |
| Runs.KnockParks | crates/node/src/pipeline.rs:3785-3814 | a knock is parked with its message exactly when none of the peer's is pending |
| Runs.EveryRunKeepsOneKnock | crates/node/src/pipeline.rs:3785-3789 | over every run at most one knock of a peer is pending |
| AnswerRaces.EveryRunStaysInStep | crates/cli/src/inboxcmd.rs:93-262 | over every interleaving inbox and cache stay in step, each row decided once and each entry written once, exactly while no event disturbs them |
| AnswerRaces.StepStaysInStep | crates/cli/src/inboxcmd.rs:93-262 | event by event: the disturbances are a request asked again, an overwriting mark, an answer lost halfway, a cleared cache |
| AnswerRaces.LosesAnswerMeans | crates/cli/src/inboxcmd.rs:137-225 | an answer is lost with its session exactly between its mark and its cache entry, with nothing cached and no other session about to cache the same |
| AnswerRaces.QuietMeansCoherent | crates/authenticator/src/human.rs:172-243 | between answers, in step means one row a shape, pending exactly while the cache lacks its key, and cached as decided |
| AnswerRaces.InStepMeansCoherentExceptOnTheWay | crates/authenticator/src/human.rs:207-243 | while answers are in progress the tables fall short of that exactly in decided rows not cached yet |
| AnswerRaces.UndisturbedRunIsCoherent | crates/authenticator/src/human.rs:172-243 | so every undisturbed run ends that way, however its answers interleaved |
| SerialAnswers.EverySerialRunIsCoherentExactly | crates/authenticator/src/human.rs:172-243 | with answers begun one at a time on a row, a run ends that way if and only if no request was asked again and no answer stopped between mark and entry |
| SerialAnswers.SerialAnswersNeverOverwrite | crates/cli/src/inboxcmd.rs:137-145 | where no answer begins on a row another is answering, none overwrites another |
| SerialAnswers.RacingAnswersOverwrite | crates/cli/src/inboxcmd.rs:137-145 | two answers that both read the row as pending: the later overwrites the earlier |
| AnswerRaces.AskedAgainInEveryRun | crates/authenticator/src/cache.rs:93-150 | in every run a request is asked again exactly when its row is decided, none is pending, and the cache lacks the answer or cannot be read |
| AnswerRaces.AskedAgainMeans | crates/authenticator/src/cache.rs:93-150 | in step, the cache lacks it only while the answer is on its way |
| SerialAnswers.RetryIsAskedAgain | crates/cli/src/inboxcmd.rs:137-225 | such a run from empty tables: a retry before the mark, between mark and entry, and after |
| SerialAnswers.UninterruptedAnswer | crates/cli/src/inboxcmd.rs:93-262 | an answer nothing interrupts is the answer flow as a whole |
| AnswerRaces.AnswerIsFinal | crates/authenticator/src/cache.rs:93-150 | once the answer of a shape is cached, after any undisturbed run every request of that peer and shape gets it and writes nothing |
| AnswerRaces.PendingUntilAnswered | crates/authenticator/src/human.rs:66-122 | until then the request is parked exactly once and answered pending |
| PeerRemoval.NodeDatabase.PeerRemove | crates/cli/src/peercmd.rs:73-139 | the step loop, stopped after any number of steps, with its counts and refusals |
| PeerRemoval.NodeDatabase.FindPeer | crates/cli/src/peercmd.rs:149-193 | an id is taken as given, a petname must name exactly one peer |
| PeerRemoval.PetnameNames | crates/cli/src/peercmd.rs:149-174 | a petname finds a peer exactly when it is the only one stored under it, and nobody exactly when none is |
| PeerRemoval.NothingToRemoveMeansNothing | crates/cli/src/peercmd.rs:128-139 | the counts add up to nothing exactly when each of them is 0, and exactly when no table changed |
| PeerRemoval.OutboxAfterRemoval | crates/cli/src/peercmd.rs:103-113 | queued and sent messages to the peer, by id or petname, end in error; every other row stays |
| PeerRemoval.FirstStepRefuses | crates/cli/src/peercmd.rs:84-90 | the first step removes the peer and nothing else, so interrupted later it is refused already |
| PeerRemoval.RemovalClears | crates/cli/src/peercmd.rs:16-24 | a whole removal leaves nothing that would reach or re-admit the peer |
| PeerRemoval.RemovalTouchesNobodyElse | crates/cli/src/peercmd.rs:73-139 | stopped anywhere, every other peer's rows, every deny rule and every delivered message stay |
| PeerRemoval.InterruptedRemovalConverges | crates/cli/src/peercmd.rs:66-139 | any prefix of a removal by id or petname plus a re-run by id equals one run, exactly unless rows addressed by petname waited |
| PeerRemoval.PetnameIsForgotten | crates/cli/src/peercmd.rs:66-174 | why by id: once the first step is done the petname finds nobody |
| PeerRemoval.InterruptedCountsAddUp | crates/cli/src/peercmd.rs:108-128 | the counts of the two runs add up, short only of those rows |
| PeerRemoval.MeaningAfterRemoval | crates/cli/src/peercmd.rs:91-94 | how every table resolves for the removed peer, whatever the effects: denied by its own deny rules, otherwise as for everyone |
| PeerRemoval.DenialSurvives | crates/cli/src/peercmd.rs:18-21 | it stays denied if and only if a deny rule of its own matches or the rules for everyone deny |
| PeerRemoval.RequestDeniedAfterRemoval | crates/authenticator/src/policy.rs:100-150 | the same for whole requests |
| PeerRemoval.RemovalNeverUnblocks | crates/cli/src/peercmd.rs:91-94 | with allow and deny effects, no denial of the removed peer is lost on any table |
| PeerRemoval.RemovalNeverUnblocksRequests | crates/authenticator/src/policy.rs:100-150 | nor on any whole request |
| PeerRemoval.BackedDenialSurvives | crates/cli/src/peercmd.rs:91-94 | whatever the effects, a denial backed by a deny rule or a rule for everyone survives |
| PeerRemoval.RemovalKeepsOthers | crates/cli/src/peercmd.rs:91-94 | every other peer resolves as before |
| PeerRemoval.RemainingAllowIsForEveryone | crates/cli/src/peercmd.rs:91-94 | what the removed peer is still allowed comes from rules for everyone |
| PeerRemoval.OtherEffectsMayUnblock | crates/cli/src/peercmd.rs:91-94 | a table with another effect on which removal does unblock |
| Feeds.NewMessageEvents | crates/cli/src/events.rs:78-119 | the scan returns the other senders' rows past the cursor and the cursor over every row |
| Feeds.NewInboxEvents | crates/cli/src/events.rs:136-181 | the scan returns the undecided rows past the cursor and the cursor over every row |
| Feeds.CatchUpTables | crates/cli/src/awaitcmd.rs:229-275 | one event at most, from the stream whose first event is older, the inbox on a tie |
| Feeds.RequestIsEvent | crates/cli/src/events.rs:136-181 | a request is an event exactly when its row lies past the cursor and is undecided |
| Feeds.MessageIsEvent | crates/cli/src/events.rs:78-119 | a message is an event exactly when its row lies past the cursor and somebody else sent it |
| Feeds.CaughtFromTables | crates/cli/src/awaitcmd.rs:229-275 | from the tables: one run emits only such rows, and nothing exactly when there is none |
| Feeds.OldestFirst | crates/cli/src/awaitcmd.rs:238-252 | of a request and a message that could go next the one received first goes, the request on a tie, and only its own cursor moves |
| Feeds.FirstRunStarts | crates/cli/src/awaitcmd.rs:395-415 | a first run starts chat at its last message and the inbox just before its first waiting request, or at its end; from the start, at nothing |
| Feeds.CatchUpTakesOne | crates/cli/src/awaitcmd.rs:229-275 | each run takes exactly its event off the pending ones, and finds none only when none is pending |
| Feeds.DrainIsMerge | crates/cli/src/awaitcmd.rs:229-275 | run after run on a quiet database emits the merge of the two streams |
| Feeds.DrainIsPermutation | crates/cli/src/awaitcmd.rs:229-275 | that is every pending event exactly once |
| Feeds.MergeIsInOrder | crates/cli/src/awaitcmd.rs:238-252 | the merge of two streams in order of receipt is in order of receipt, ties to the inbox |
| Feeds.DrainIsInOrder | crates/cli/src/awaitcmd.rs:238-252 | so is the drain of two tables in order of receipt |
| Feeds.InitialCursorCovers | crates/cli/src/awaitcmd.rs:395-415 | the first cursor lies before every waiting request unless the first one arrived between its reads |
| Feeds.FirstDrainCoversRequests | crates/cli/src/awaitcmd.rs:395-415 | on a quiet database the first drain emits every waiting request |
| Await.AtLeastOnce | crates/cli/src/main.rs:1936-1956 | over any interleaving with crashes, whatever the saved cursor passed was printed, own, or decided when scanned |
| Await.PrintedInOrder | crates/cli/src/awaitcmd.rs:229-381 | printed rowids of a stream never decrease, and one repeats only across a crash |
| AwaitRuns.RunWithEvent | crates/cli/src/main.rs:1936-1948 | undisturbed, a run that finds an event prints it once and saves the cursor past it |
| AwaitRuns.RunWithoutEvent | crates/cli/src/main.rs:1936-1956 | a run that times out prints nothing and saves a cursor past every row it read |
| AwaitRuns.NoWaitingRequestIsPassed | crates/cli/src/awaitcmd.rs:17-22 | over every run, a request the saved cursor passed was printed or is decided |
| AwaitRuns.BeginIsTheFirstStart | crates/cli/src/awaitcmd.rs:395-415 | the passed rows are counted from where the run that saved the first cursor began |
| AwaitRuns.FromStartMissesNothing | crates/cli/src/awaitcmd.rs:395-415 | so from the start nothing up to the saved cursor was missed: every message printed or own, every request printed or decided |
| Replay.NextRunReplaysExactly | crates/cli/src/awaitcmd.rs:17-19 | over any writes, prints, crashes and restarts without a saved cursor, the next run emits the event found if and only if it was not decided, is not a chat message of a first run, and no row of the other stream goes first |
| Replay.FoundStillWaits | crates/cli/src/awaitcmd.rs:17-22 | over the same, whether the event still waits for the next run, exactly; if so it is the first of its stream |
| Replay.FoundRowRemains | crates/cli/src/awaitcmd.rs:17-22 | its row is still there, and a chat row never becomes skipped |
| Replay.CrashReplays | crates/cli/src/awaitcmd.rs:17-22 | on a database nobody writes meanwhile the next run finds the event again, exactly unless no cursor was saved and it is a chat message |
| Replay.RequestOvertakes | crates/cli/src/awaitcmd.rs:250-252 | a run whose printed message is overtaken by a request of the same second |
| Replay.FirstMessageIsNotReplayed | crates/cli/src/awaitcmd.rs:17-22 | a run from an empty directory whose first message is not emitted again |
| Packer.GreedyPack | crates/cli/src/rdfcmd.rs:119-131 | the chunks are a split of the lines into runs that fit or are single lines, and no split uses fewer |
| Packer.ChunksJoinToLines | crates/cli/src/rdfcmd.rs:119-131 | end to end the chunks are the lines with their newlines, in order |
| SqlSplit.SplitStatements | crates/cli/src/sqlcmd.rs:30-93 | the iterator loop cuts where the lexical rules, one character at a time, say so |
| SqlSplit.PiecesJoin | crates/cli/src/sqlcmd.rs:30-93 | joining the pieces with semicolons restores the source |
| SqlSplit.PiecesStayWhole | crates/cli/src/sqlcmd.rs:30-93 | splitting a piece again returns just that piece |
| SqlSplit.CutsExactlyAtTop | crates/cli/src/sqlcmd.rs:30-93 | a cut falls at a position exactly when its semicolon is outside quotes, brackets and comments |
| SqlSplit.StatementIsOnePiece | crates/cli/src/sqlcmd.rs:30-93 | whatever semicolons stand inside '..', "..", `..`, [..], a line comment or a block comment, a statement built of such segments is one piece |
| OwnerChannel.FrameRoundTrip | crates/protocol/src/frame.rs:13-53 | a frame followed by anything decodes to its payload and the rest |
| OwnerChannel.DecodeStable | crates/protocol/src/frame.rs:28-53 | bytes still to come never change what was decoded |
| OwnerChannel.OwnerStream.ReadBuf | crates/cli/src/owner.rs:121-125 | one read moves bytes from the wire to the buffer and loses none |
| OwnerChannel.OwnerStream.Recv | crates/cli/src/owner.rs:111-136 | the answer, the unread bytes and the end flag depend on the bytes only, not on the reads |
| OwnerChannel.OwnerStream.RecvFrames | crates/cli/src/owner.rs:111-136 | so do the answers of any number of receives, and what they leave |
| OwnerChannel.OwnerStream.RecvRaw | crates/cli/src/owner.rs:149-168 | leftovers first, then the wire, never empty, nothing exactly at the end |
| OwnerChannel.OwnerStream.DrainRaw | crates/cli/src/owner.rs:149-168 | raw reads to the end are exactly the unread bytes |
| OwnerChannel.OwnerStream.IntoParts | crates/cli/src/owner.rs:85-97 | the parts handed over are exactly the unread bytes |
| OwnerChannel.FramesThenSuffix | crates/cli/src/owner.rs:111-168 | after any number of receives the unread bytes are what follows the received frames on the wire |
| OwnerChannel.SentFramesAreReceived | crates/cli/src/owner.rs:101-136 | frames sent one after another are received in order, and what follows is left alone |
| OwnerChannel.AfterWholeFrames | crates/cli/src/owner.rs:118-134 | whole frames and then any bytes that are no frame yet: every frame, one report of the cut, then the end |
| OwnerChannel.CutWireIsReported | crates/cli/src/owner.rs:118-134 | in particular for a wire cut anywhere inside a frame |
| OwnerChannel.TooLongIsRefused | crates/protocol/src/frame.rs:28-41 | a frame is refused, and left unread, exactly when it announces more than 262144 bytes |
| OwnerChannel.FrameBytes | crates/protocol/src/frame.rs:11-23 | a frame is its length in four bytes, least significant first, and the payload |
| OwnerChannel.TunnelDeliversInOrder | crates/cli/src/owner.rs:401-443 | from the parts two streams hand over after their frames, over any interleaving, failure or abort, each side receives an in-order prefix of what follows the other's frames on its wire, and all of it when nothing failed |
| OwnerChannel.SessionCanDeliverAll | crates/cli/src/owner.rs:401-449 | undisturbed, a session can always run to its end, with everything delivered both ways |
| OwnerChannel.LeftoversGoFirst | crates/cli/src/owner.rs:404-413 | over every run the caller's leftover is delivered first, then the peer's, then both copy |
| OwnerChannel.EndOfPeerEndsTheSession | crates/cli/src/owner.rs:429-449 | when the peer's side has ended or failed, and only then, the copy from the caller is aborted |
| OwnerChannel.FailedLeftoverEndsBoth | crates/cli/src/owner.rs:406-413 | a leftover that cannot be written ends both directions |
| PagePublish.Slice | crates/cli/src/pagecmd.rs:129-140 | slices are non-empty, within the limit, whole characters, and concatenate to the page |
| PagePublish.FindEnd | crates/cli/src/pagecmd.rs:134-137 | the cut is a boundary past the start and at most three bytes short of the budget |
| PagePublish.BoundaryWithinFour | crates/cli/src/pagecmd.rs:134-137 | among four consecutive positions of UTF-8 text one is a boundary (RFC 3629 section 3) |
| PagePublish.BoundarySplits | crates/cli/src/pagecmd.rs:134-137 | a boundary splits the text between whole characters |
| PagePublish.ScalarExamples | crates/cli/src/pagecmd.rs:129-140 | the text model agrees with RFC 3629 section 7 on characters of each length |
| PagePublish.PageStore.Publish | crates/cli/src/pagecmd.rs:90-184 | after any prefix of the writes the row holds that prefix under the marker; after all of them, the page |
| PagePublish.PublishTwice | crates/cli/src/pagecmd.rs:1-6 | a re-run from any torn state ends with the whole page and changes no other page |
| PageFetch.Fetch | crates/cli/src/client.rs:1200-1271 | the collecting loop computes the meaning of a frame sequence, errors included |
| PageFetch.ReassemblyIsOrderFree | crates/cli/src/client.rs:1205-1267 | any arrival order of distinct sequence numbers yields the in-order page, or its refusal by size |
| PageFetch.PagesHaveDeclaredSize | crates/cli/src/client.rs:1252-1266 | a returned page has the declared size, whatever the frames were |
| PageFetch.LastSizeCounts | crates/cli/src/client.rs:1213-1226 | the size in force is the last one stated; one that does not parse lifts the check |
| PageFetch.PageHasLastType | crates/cli/src/client.rs:1213-1226 | a page carries the type its last typed hologram states |
| PageFetch.UntypedPageIsHtml | crates/cli/src/client.rs:1201-1202 | or HTML when none does |
| PageFetch.RefusalsAreReported | crates/cli/src/client.rs:1268-1269 | a denial alone and an error at any point are reported as such; a denial inside a page breaks it |
| PageFetch.BrokenPages | crates/protocol/src/response.rs:130-145 | a page without its end, with an undecodable chunk, or with nothing but an end is refused |
| PageFetch.NothingAfterTheEnd | crates/protocol/src/response.rs:147-160 | any frame after the end is refused |
| PageFetch.WhatEnds | crates/protocol/src/response.rs:228-256 | an end, a denial or an error finishes a response, and no other frame does |
| PageFetch.HeaderIsNoPage | crates/protocol/src/response.rs:163-175 | a result header and page frames exclude each other |
| PageFetch.SortSorts | crates/cli/src/client.rs:1253 | sorting by sequence number sorts and permutes |
| PageFetch.SortIsStable | crates/cli/src/client.rs:1253 | chunks of one sequence number keep their order of arrival |
| Serving.Acquire | crates/cli/src/lease.rs:143-179 | only four refusals in a row mean another server; any other answer is reported as it is |
| Serving.ServingIsExclusive | crates/cli/src/lease.rs:1-16 | over any interleaving a process holding any serving resource holds the lease, and no other process holds any |
| Serving.RecordIsTheServingNodes | crates/cli/src/owner_tcp.rs:45-84 | while a loopback port is bound the record is that node's own port and token |
| Serving.ShutdownRemovesOnlyItsOwnRecord | crates/cli/src/owner_tcp.rs:36-39 | a graceful shutdown removes no record but its own |
| Serving.ShutdownRemovesItsRecord | crates/cli/src/owner_tcp.rs:36-39 | and its own it does remove: over every run, after the step of a bound loopback port there is no record |
| Serving.BindWritesItsRecord | crates/cli/src/owner_tcp.rs:45-84 | a port that binds is put on record with its token and process; one that does not leaves the record alone |
| Serving.InfoNamesTheHolder | crates/cli/src/lease.rs:180-191 | over every run the description beside a held lock names its holder |
| Serving.StartServes | crates/cli/src/serve.rs:119-156 | over every run, where nobody serves or probes, a process left to start is up after its eight steps with everything held that could be bound |
| Serving.ShutdownReleases | crates/cli/src/serve.rs:319-360 | over every run, a process that is up and left to shut down holds nothing after its eight steps and the lease is free |
| Serving.ProbesPass | crates/cli/src/lease.rs:228-247 | a probe is let in only while nobody serves, and keeps starts out until it ends |
| Serving.ResourcesNest | crates/cli/src/serve.rs:321-365 | over every run the control socket, the loopback port, the outbox and presence are held only with the transport, that only with the database, and that only with the lease |
| Serving.ReleasedDirectoryCanBeTaken | crates/cli/src/serve.rs:119-156 | once the lease is free the next start takes it and starts with nothing held |

## Left out

- SQLite, JSON, base64, SHA-256, scripts, wasm mods and the network themselves.
- Await: the three reads of `initial_cursor` are one step of the protocol (their race is `Feeds.InitialCursorCovers`), `--from-start` does not change between runs, and unreadable cursor files are not modelled.
- Runs: a statement of another process that falls inside one request's decision; expiring entries, which no answer writes; a pending-knock lookup that fails.
- Mod installs park `_inbox` rows of their own (`crates/node/src/mod_install.rs`), outside the chain, and are not steps of these runs.
- PeerRemoval: a message addressed by a petname that several peers share is cancelled with any of them; which peer it was meant for is not modelled.
- OwnerChannel: read errors, the token handshake and what a tunnel does after both directions stopped.
- PageFetch: row, graph, help and media frames, and request-id checks; `PageFetch.ReassemblyIsOrderFree` is about distinct sequence numbers, equal ones keep their order of arrival.
- Serving: starts that fail partway, the leftover sweep of `rsntr stop`, and the published `_rsntr` keys.
- `invalidate_decisions` as a call: nothing in the repository makes it; what clearing the cache does to a run is the `Invalidate` event of `Runs`.
- `run_sql`, `page rm`, `page list`, inbox listing, csv loading, hooks, presence, tickets, media and pipes: mappings or plumbing with no harder property than those above.
