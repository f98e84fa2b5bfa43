# Swimmers: a verified model

Swimmers watches agent sessions in tmux, on this machine and on remote ones, and serves what it sees over HTTP. Most of it is
input and output. This project models the parts that decide something, and proves in Dafny what they promise.

| module | part of the system |
|---|---|
| `VersionProtocol`, `VersionCalls` | optimistic concurrency: `If-Match` check, reservation, save that may fail, commit, under a lock |
| `RepoActions`, `RepoRuns` | the registry of background repository actions: at most one running per repository, results kept for a while |
| `PollCache`, `PollAnswers`, `PollOverlap` | the per-target cache of remote polls, its failure backoff, the health derived from it, and overlapping polls |
| `PathMapping`, `PathLaws` | lexical paths and the mapping of working directories to a remote target and back |
| `SessionIds`, `PercentEncoding` | namespaced session ids and the encoding of path segments |
| `BatchReply` | the check and repair of a remote batch launch reply |
| `SshTokens`, `SshPrinting`, `SshLines` | the lines of an SSH config: comments, keywords, quoting, and reading back whatever way a line is written |
| `SshImport`, `SshProposals`, `SshImportMeaning`, `SshIncludes`, `SshReach`, `SshWarnings` | the SSH config importer: the stateful parser, what it proposes, which files it reads, and what it warns of |
| `TmuxNames` | numeric tmux session names and the retry loop around them |
| `Sessions`, `BatchSend`, `OperatorPressure`, `PressureMeaning` | the operator pressure response and its batch-send groups |
| `FleetLens`, `FleetMeaning`, `FleetPresets`, `PresetMeaning` | the bucket index over sessions and the preset list |
| `SpriteMask` | the sprite keying script: erosion, dilation, copying pixels |

`Wrappers`, `Text`, `Seqs` and `Ordering` hold what the others share: options and results, character classes and trimming,
sequence operations under permutation, stable sorting.

Code that changes things step by step is a class or a method here too: the tracker, the poll cache, the parser, the response
builder and the two versioned states are classes with the fields of the original; loops are loops; each method is proved
against a function of its inputs or of the old state, and the properties are proved about that function. Concurrent code is,
besides, a state machine over its steps, so that statements about "every interleaving" quantify over all schedules.
Where the original iterates a hash map, the model picks elements in an arbitrary order.

`dafny verify dfyconfig.toml` checks everything.

## Where the code differs from what one would expect

- A local prefix that is lexically empty (such as `.`) matches absolute paths and strips nothing from them, and pushing an
  absolute path replaces the remote prefix. `PathMapping.RoundTripExactly` gives the exact condition under which paths still
  come back.
- Whether a remote session id survives denamespacing depends on the other configured targets, unless it offers no later
  separator; `SessionIds.RecoveredUnderEveryConfiguration` is the exact condition.
- Poll health compares wall-clock times. After a clock step back a failure can look older than the success before it;
  `PollCache.FailureShowsExactlyWhen` holds on any clock.
- The importer's Match flag is not reset at the end of an included file: after an included file that ends in a Match block,
  later Include lines of the including file are not followed until its next Host line. `SshIncludes.MatchOutlivesItsFile` is
  an example. `SshReach.NothingCarriesOverExactlyWhen` gives the exact condition on the files that the start file leads to;
  how the start file itself ends does not matter.
- A backoff check and the request behind it are separate steps, so a request can start although another listing has just
  recorded a failure. `PollOverlap.RequestPredatesFailure` says exactly which requests those can be.
- The comment on `status_for` says that expired records are reclaimed by the next writer. `RepoActions.PruningIsUnobservable`
  shows that replies do not depend on when, or whether, writers do so.
- A cleaned preset label can change when cleaned again, because the cut at 64 characters comes last;
  `FleetPresets.LabelIsStable` is the exact condition on the raw label and `FleetPresets.CutLeavesBlank` an example.
- Lists are told apart by their ids joined with NUL, so ids that contain NUL can merge two groups in the count;
  `BatchSend.GroupCountExactly` is the exact condition and `BatchSend.NulMergesGroups` an example.

## Model

| member | source | states |
|---|---|---|
| `VersionProtocol.EveryScheduleIsAtomic` | src/api/service.rs:338-445 | In every interleaving of any number of writers (acquire, check and reserve, save that may fail or be cancelled, two stores, release) and readers (acquire, load the version, clone, release; the published selection is cloned without its version), for both clients, the history of finished calls is legal for one atomic versioned register started at the initial version, and the current state stands for the register those calls produce |
| `VersionProtocol.StepRefines` | src/api/service.rs:433-445 | One step of one process is either invisible or exactly one accepted operation of the atomic register; the state keeps standing for the register |
| `VersionCalls.WriteCallMeaning` | src/api/service.rs:383-445 | In every run, a write call takes all steps from its lock to its outcome itself and answers for its own request and config: a conflict exactly where the version it found does not allow the request; for the runtime config written exactly after a successful save, failed exactly after a failed one, abandoned exactly where its caller went away. A write leaves the next version and its config; without one, version and config stay as found at every step of the call |
| `VersionCalls.RunHasTrace` | src/api/service.rs:383-445 | Every run has a trace of states and outcomes, one per step, which ends in the state of the run and lists its history |
| `VersionCalls.CallCompletes` | src/api/service.rs:383-445 | No call gets stuck: from wherever it stands in any run, its own next steps end it with the outcome that the version check and the save demand |
| `VersionCalls.FreeLockServesCall` | src/api/service.rs:338-445 | In every run, whenever nobody holds the lock a new call can begin, and ends with the outcome of the sequential update |
| `VersionCalls.FreeLockServesReader` | src/api/service.rs:338-349 | And a reader gets through, sees what the state shows and changes nothing |
| `VersionProtocol.CounterCountsWrites` | src/api/envelope.rs:122-133 | The counter is its start plus the number of committed writes; the config is that of the last committed write, or the initial one when there was none |
| `VersionProtocol.OneWritePerVersion` | src/api/envelope.rs:142-156 | Of two committed writes the later publishes the larger version, and no two of them were conditional on the same version |
| `VersionProtocol.QuiescentState` | src/api/service.rs:338-349 | Whenever no writer holds the lock, version and config are those the committed writes produced, and the version fits in 64 bits |
| `VersionProtocol.FailuresLeaveNoTrace` | src/api/service.rs:383-399 | Striking conflicts, failed saves, abandoned calls and reads from a history leaves it legal and ending in the same state |
| `VersionProtocol.BareStateIsTorn` | src/api/service.rs:338-346 | Without the read lock the guarantee fails: after four steps of one writer the new config is visible with the old version |
| `VersionProtocol.ReserveVersionLocked` | src/api/envelope.rs:142-156 | Reserves exactly when the requested version, if any, is the current one and the counter is below the 64-bit maximum; the reservation is the current version plus one |
| `VersionProtocol.ThoughtConfigState.PersistUpdate` | src/api/service.rs:433-445 | One update: conflict, failed save or written, by the version check and the save; only a written update changes the config and the counter, and it changes both |
| `VersionProtocol.PublishedSelection.Publish` | src/api/selection.rs:91-128 | One publish: conflict or written; a conflict changes neither the selection nor the counter |
| `RepoActions.RunningMeansInFlight` | src/host_actions.rs:296-411 | From an empty registry, after every interleaving of clock ticks, starts, spawns, executor ends (result, error, panic), finishes and status reads, a repository has a running record exactly when a job is in flight for it, and never has two |
| `RepoActions.StepKeepsJobs` | src/host_actions.rs:308-369 | Each single step keeps that correspondence |
| `RepoActions.FinishReenablesStart` | src/host_actions.rs:391-411 | A finish, whatever the result, makes that result readable at once and lets its repository start again; other repositories are neither freed nor blocked |
| `RepoActions.BlockedKeyCanBeFreed` | src/host_actions.rs:357-369 | A repository that refuses starts is freed by at most three further steps of its own job |
| `RepoActions.PruningIsUnobservable` | src/host_actions.rs:371-421 | On a nondecreasing clock, two logs of the same calls get the same replies to every start and every status read, whichever starts, finishes and reads prune on their way and whatever prunes come in between: always, as in the source, never, or any mixture |
| `RepoActions.RepliesIgnorePrunes` | src/host_actions.rs:413-421 | A registry pruned here and there gives the replies of one that is never pruned, from any two registries that agree once pruned |
| `RepoActions.RepliesMeaning` | src/host_actions.rs:308-421 | On a nondecreasing clock the replies to a log of calls are read off the log: a start is refused exactly when the last accepted start or finish of the repository is a start; a status read shows a running action after a start, the result for less than 15 seconds after a finish, and otherwise nothing |
| `RepoRuns.StatusMeaning` | src/host_actions.rs:296-421 | After every interleaving of callers and executors: what a status read shows is what the last accepted start or finish left, the result being the one that the repository's own executor ended with, and a start is accepted exactly when no accepted start came last |
| `RepoActions.PruneKeepsRunning` | src/host_actions.rs:413-421 | Pruning never drops, and never creates, a running record |
| `RepoActions.RepoActionTracker.PruneLocked` | src/host_actions.rs:413-421 | Keeps exactly the running records and the records finished less than 15 seconds ago |
| `RepoActions.RepoActionTracker.ReserveRunningAction` | src/host_actions.rs:308-355 | Refuses exactly when the repository has a running action; otherwise the pruned registry gains a running record for it |
| `RepoActions.RepoActionTracker.Finish` | src/host_actions.rs:391-411 | The result replaces the record of its repository, and survives the prune that follows |
| `RepoActions.RepoActionTracker.StatusFor` | src/host_actions.rs:371-389 | A read of the unpruned registry returns what a plain lookup after a prune at that moment would return |
| `PollCache.EntryMeaning` | src/api/remote_sessions.rs:1132-1164 | A target's cache entry is a function of its event log: sessions and last-seen come from the last success and no failure erases them; error, error time and backoff come from the last event |
| `PollCache.BackoffMeaning` | src/api/remote_sessions.rs:1123-1164 | A target backs off exactly while its last recorded event is a failure less than 10 seconds old (saturating at the 64-bit maximum) |
| `PollCache.BackoffFreezesEntry` | src/api/remote_sessions.rs:1063-1130 | From any recorded failure to the end of its 10 seconds, whatever visits come in between (polls, or listings whose HTTP client cannot be built): sessions and last-seen stay as they were before the failure, the target backs off, and the backoff ends no earlier |
| `PollCache.PollsFreezeEntry` | src/api/remote_sessions.rs:1086-1130 | Where only polls come in between, the whole entry stays as the failure left it |
| `PollCache.BackoffNeverMovesBack` | src/api/remote_sessions.rs:1063-1077 | No visit shortens a running backoff; a listing without a client records a failure at once and can only prolong it |
| `PollCache.NoRequestDuringBackoff` | src/api/remote_sessions.rs:1063-1130 | Within those 10 seconds no request is made, a visit records something exactly when the client could not be built, and every visit answers with the sessions of the last success before the failure, each marked stale and degraded, or with none when there never was one |
| `PollCache.PollResumesAfterBackoff` | src/api/remote_sessions.rs:1086-1130 | For any later visit with nothing recorded since the failure: it records something exactly when its client could not be built or the backoff has run out, and sends a request exactly when it is a poll with a token, after the backoff |
| `PollCache.EntryReplaysEvents` | src/api/remote_sessions.rs:1132-1164 | After any visits the entry is that of the events they recorded |
| `PollAnswers.VisitsMeaning` | src/api/remote_sessions.rs:1063-1164 | After any visits, on any clocks, the entry is read off the visits themselves: sessions and last-seen are those of the last good reply that was heard; error, error time and a backoff of 10 seconds (saturating) are set exactly when the last visit heard failed to build a client, to authenticate or to be answered; and the target backs off accordingly |
| `PollAnswers.AnswersMeaning` | src/api/remote_sessions.rs:1086-1121 | A visit sends a request exactly with a token and outside a backoff. It answers with the reply it got, and otherwise with the sessions of the last good visit, in order and with their ids, each stale, degraded and dated back to that visit |
| `PollAnswers.GoodVisit` | src/api/remote_sessions.rs:1106-1111 | Outside a backoff, a good reply replaces the whole entry and is the answer |
| `PollAnswers.BadVisit` | src/api/remote_sessions.rs:1112-1164 | A failed visit keeps sessions and last-seen, sets error and backoff, and answers with degraded copies of what was kept |
| `PollOverlap.OnlySuccessEndsBackoffEarly` | src/api/remote_sessions.rs:1063-1164 | However the checks, requests and records of several listings interleave: until 10 seconds after a recorded failure, unless a success was recorded since, the target backs off, no shorter than that failure demands, and keeps the sessions and last-seen from before it |
| `PollOverlap.RequestPredatesFailure` | src/api/remote_sessions.rs:1091-1120 | In every interleaving, a request starts while the target backs off if and only if something was recorded after its own check and the last record is a failure less than 10 seconds old |
| `PollOverlap.RequestIsOvertaken` | src/api/remote_sessions.rs:1091-1120 | Such requests exist: one poll passes its check, another records a failure, and the first sends its request |
| `PollOverlap.CacheFollowsAnswers` | src/api/remote_sessions.rs:1063-1164 | In every interleaving the entry is read off the actions: sessions of the last good reply to arrive, error fields set exactly where a failure arrived last, with a backoff of 10 seconds from its arrival |
| `PollOverlap.PollGoesThrough` | src/api/remote_sessions.rs:1086-1121 | A poll that nothing disturbs goes through exactly where the target does not back off |
| `PollCache.HealthMeaning` | src/api/remote_sessions.rs:553-611 | On a nondecreasing clock, health is unknown, healthy, degraded or unavailable by whether the log is empty, ends in a success, ends in a failure after some success, or in a failure with none before; with a config error it is unavailable |
| `PollCache.FailureShowsExactlyWhen` | src/api/remote_sessions.rs:573-611 | On any clock, a failure after a success shows exactly while its time is not before the success's or its backoff runs |
| `PollCache.ClockStepHidesFailure` | src/api/remote_sessions.rs:605-611 | A clock set back by one tick between a success and a failure hides that failure once the backoff is over |
| `PollCache.RemoteTargetSessionCache.PollTarget` | src/api/remote_sessions.rs:1086-1121 | One poll: which event it records, whether it sends a request, what it returns, and that the entries of other targets stay |
| `PollCache.RemoteTargetSessionCache.VisitTarget` | src/api/remote_sessions.rs:1063-1084 | A target's share of one listing: a poll, or a failure recorded without a backoff check when no client could be built; other targets are left alone |
| `PollCache.RemoteTargetSessionCache.RecordFailure` | src/api/remote_sessions.rs:1145-1164 | Only the error fields and the backoff of the entry change; the stale sessions are returned |
| `PollCache.RemoteTargetSessionCache.RecordSuccess` | src/api/remote_sessions.rs:1132-1143 | The entry is replaced by the fresh sessions, with no error and no backoff |
| `PathMapping.RoundTripExactly` | src/api/remote_sessions.rs:2461-2532 | With remote prefixes that do not lie within one another, mapping a path out and back gives a path that is lexically the original, exactly when the path does not escape: it is absolute, only lexically empty local prefixes cover it and no remote prefix is lexically empty |
| `PathMapping.DotPrefixEscapes` | src/api/remote_sessions.rs:2489-2518 | The escape is real: the local prefix `.` sends `/a` to `/a`, outside the remote prefix `/srv`, and nothing maps it back |
| `PathMapping.MapPathMeaning` | src/api/remote_sessions.rs:2489-2518 | Mapping fails exactly when no usable prefix matches component by component; otherwise it answers with the matching mapping of most components, the earliest of equals |
| `PathMapping.BestIsChosen` | src/api/remote_sessions.rs:2505-2517 | The fold over candidates ends with that chosen mapping and its score |
| `PathMapping.LexicalIsClean` | src/api/remote_sessions.rs:2520-2532 | A normalised path has no `.`, `..` or empty component |
| `PathMapping.LexicalIsIdempotent` | src/api/remote_sessions.rs:2520-2532 | Normalising the text of a normalised path changes nothing |
| `PathMapping.LexicalOfJoin` | src/api/remote_sessions.rs:2500-2503 | Pushing a clean relative path onto any nonempty text appends its components to the normalised text |
| `PathMapping.EnterAndLeave` | src/api/remote_sessions.rs:2520-2532 | Going into a directory and out again leaves the normalised path as it was |
| `PathLaws.DotVanishes` | src/api/remote_sessions.rs:2520-2532 | `.` and empty components vanish wherever they stand in a path |
| `PathLaws.ParentCancels` | src/api/remote_sessions.rs:2520-2532 | `..` takes back the name before it wherever the two stand |
| `PathLaws.StartIsTop` | src/api/remote_sessions.rs:2520-2532 | At the start of a path `..` has nothing to take back |
| `PathLaws.CoverMeaning` | src/api/remote_sessions.rs:2489-2503 | A mapping is usable for a path exactly when neither prefix is blank and the path, absolute or not like the prefix, has the names of the local prefix in front; a lexically empty relative prefix covers every path |
| `PathLaws.LongestPrefixWins` | src/api/remote_sessions.rs:2505-2517 | Of all prefixes that cover a path, the chosen one has the most names; among equally long ones it is the first, except that `/` wins over an empty one |
| `PathLaws.PathsBelowAreMapped` | src/api/remote_sessions.rs:2489-2518 | Every path below a usable local prefix is mapped, whatever else is configured |
| `PathLaws.PathsBelowGoBelow` | src/api/remote_sessions.rs:2489-2518 | With one mapping, a path below its local prefix goes to the same names below the remote prefix |
| `PathMapping.LexicalPath` | src/api/remote_sessions.rs:2520-2532 | The component loop computes the normalised path |
| `SessionIds.SplitRecoversPair` | src/api/remote_sessions.rs:112-120 | Splitting a namespaced pair of nonempty parts gives the pair back if and only if the target contains no `::` and does not end in `:` |
| `SessionIds.SplitIsNamespaced` | src/api/remote_sessions.rs:112-120 | Whatever splits, splits into two nonempty parts that namespace to it |
| `SessionIds.DenamespaceGoesToOwner` | src/api/remote_sessions.rs:951-980 | Configured denamespacing goes to the target with the longest id that covers the session id (the earliest of equals). It fails as unsupported when the kind of that target, trimmed and in lower case, is not `swimmers_api`, and as incomplete when its base URL is missing or blank. Without such a target the session is local or names an unknown target |
| `SessionIds.CoversMeaning` | src/api/remote_sessions.rs:951-965 | A target covers a session id exactly when that is the target's id namespacing some nonempty remote id |
| `SessionIds.RecoveredUnderEveryConfiguration` | src/api/remote_sessions.rs:951-980 | A namespaced id comes back from its first usable target under every configuration of targets if and only if the remote id offers no later separator: it does not start with `:` followed by text, and has no `::` with text behind it |
| `SessionIds.RecoveredWithoutLaterSeparator` | src/api/remote_sessions.rs:951-980 | Without a later separator it comes back whatever other targets exist |
| `SessionIds.LostToLongerTarget` | src/api/remote_sessions.rs:951-980 | With one, some configuration takes the id away: a target whose id reaches into the remote id |
| `PercentEncoding.DecodeEncode` | src/api/remote_sessions.rs:126-142 | The decoder of section 2.1 of RFC 3986 undoes the encoder |
| `PercentEncoding.EncodeIsInjective` | src/api/remote_sessions.rs:126-142 | Different segments have different encodings |
| `PercentEncoding.EncodeAppend` | src/api/remote_sessions.rs:126-142 | Encoding distributes over concatenation |
| `PercentEncoding.EncodeIsCanonical` | src/api/remote_sessions.rs:126-142 | The output is unreserved characters (section 2.3 of RFC 3986) and upper-case triplets of other bytes |
| `PercentEncoding.CanonicalIsEncoded` | src/api/remote_sessions.rs:126-142 | Conversely every such text is the encoding of what it decodes to |
| `PercentEncoding.EncodedLength` | src/api/remote_sessions.rs:126-142 | The length is n plus two for each byte that is not unreserved, so between n and 3n |
| `PercentEncoding.PlainSegmentsStay` | src/api/remote_sessions.rs:126-142 | A segment is left as it is if and only if it has nothing but letters, digits, `-`, `.`, `_` and `~` |
| `PercentEncoding.EncodedHasNoSeparator` | src/api/remote_sessions.rs:126-142 | No `/`, `:`, `?` or `#` survives |
| `PercentEncoding.EncodePathSegment` | src/api/remote_sessions.rs:126-142 | The loop computes the encoding |
| `BatchReply.ValidateIndexes` | src/api/remote_sessions.rs:1560-1591 | Accepts if and only if the indexes are a permutation of 0..n; otherwise reports the count mismatch or the first index that is out of range or a repeat |
| `BatchReply.FaultFreeIsPermutation` | src/api/remote_sessions.rs:1568-1573 | Pigeonhole: n distinct indexes below n are all of them |
| `BatchReply.RestoreOriginalCwds` | src/api/remote_sessions.rs:1535-1558 | In place: a rejected reply is left as it was; in an accepted one each result, its receipt and its session get the directory of the result's own index and nothing else changes |
| `BatchReply.EveryDirHasOneResult` | src/api/remote_sessions.rs:1535-1558 | Afterwards each requested directory has exactly one result, the one that carries its index; that result, its receipt and its session name this directory wherever they name one, and are otherwise what came back |
| `TmuxNames.NextNameIsFresh` | src/cli.rs:1287-1302 | The next name is not in the list and spells, without superfluous zeros, the least number above every number in it; there is none exactly when the largest 64-bit number is taken; leading zeros, other names and digit strings beyond 64 bits are covered |
| `TmuxNames.HighestMeaning` | src/cli.rs:1287-1302 | The number it counts up from is the greatest that any listed name spells |
| `TmuxNames.ToStringSpells` | src/cli.rs:1379-1387 | The decimal text of a number is an exact digit string that reads back as the number |
| `TmuxNames.PlainNumeralIsWritten` | src/cli.rs:1379-1387 | Conversely every digit string without a superfluous zero is the decimal text of the number it spells |
| `TmuxNames.CreateNumberedSession` | src/cli.rs:1340-1358 | Returns a name only when its creation succeeded; the first attempt that does not lose its name to another client decides, at most `max_attempts` creations are made, and which error comes back is determined |
| `TmuxNames.QuietWorldNeedsOneAttempt` | src/cli.rs:1340-1358 | When no session appears between listing and creating, the first attempt decides |
| `SshTokens.Lockstep` | src/cli.rs:674-788 | After any text the tokeniser is in the quoting state that the comment stripper is in |
| `SshTokens.CutsOnlyBetweenQuotes` | src/cli.rs:674-703 | Where the stripper may cut, the tokeniser is neither inside quotes nor behind an escape |
| `SshTokens.StripSshConfigComment` | src/cli.rs:674-703 | Returns the longest prefix without an unquoted, unescaped `#` |
| `SshTokens.StripKeepsCommentFree` | src/cli.rs:674-703 | A comment-free text comes through whole, and exactly a comment behind it is cut off |
| `SshTokens.SshConfigArguments` | src/cli.rs:735-788 | The character loop computes the tokens of the automaton, a pending escape at the end standing for itself |
| `SshLines.LineReadsBack` | src/cli.rs:674-788 | A line is read back as its keyword and arguments however it is written: each argument put together from unquoted characters, backslash escapes and stretches in double or single quotes; any white space between arguments; white space, `=`, or both between keyword and arguments; white space around and a comment behind it |
| `SshPrinting.ArgumentsReadBack` | src/cli.rs:735-788 | The tokeniser reads arguments written in any of these ways, with any white space between and behind them, as they are meant |
| `SshPrinting.PieceReads` | src/cli.rs:735-788 | Outside quotes, an unquoted character, an escaped one or a quoted stretch adds what it means to the argument being read and leaves no quote open |
| `SshPrinting.TrailingBackslash` | src/cli.rs:778-788 | A backslash at the very end stands for itself |
| `SshPrinting.UnclosedQuote` | src/cli.rs:735-788 | A quote that is never closed reaches to the end of the text |
| `SshLines.SplitsAtSeparator` | src/cli.rs:705-733 | The keyword is split from the arguments at white space, at `=`, or at `=` with white space around it |
| `SshLines.QuotingRoundTrip` | src/cli.rs:674-788 | In particular every argument list can be written with double quotes and is read back (empty arguments, `#`, `=`, quotes and blanks included) |
| `SshLines.CommentedRoundTrip` | src/cli.rs:674-788 | And so it is with white space and a comment behind it |
| `SshLines.KeywordReadsBack` | src/cli.rs:705-733 | A keyword may stand alone |
| `SshLines.NothingToRead` | src/cli.rs:674-733 | White space and comments say nothing |
| `SshImportMeaning.AbsorbMeaning` | src/cli.rs:602-668 | Whatever state the parser starts a stretch in, what it ends up proposing is: what it has, its open block completed by the lines up to the next Host, Match, Include or end of file, and then the declared proposals of the rest |
| `SshImportMeaning.FreshMeaning` | src/cli.rs:602-668 | From a fresh parser the proposals are, in traversal order, for each Host line its importable aliases with the last HostName and User set before the next Host, Match, Include or end of file; nothing leaks between blocks |
| `SshImportMeaning.ProposalsFromConfig` | src/cli.rs:541-565 | Importing a text gives exactly the declared proposals of its traversal, Include lines not followed |
| `SshImportMeaning.ReportFromPath` | src/cli.rs:567-583 | Fails exactly when the start file cannot be read; otherwise gives exactly the declared proposals and the warnings of the traversal through all includes |
| `SshImportMeaning.PrintedConfigImports` | src/cli.rs:541-565 | Printer and importer: a printed list of host entries proposes exactly the importable aliases of each entry with its own host name and user and the number of its Host line |
| `SshProposals.FlushMeaning` | src/cli.rs:841-945 | A block proposes exactly its aliases that are nonempty, made of letters, digits and `._-@:` and do not begin with a dash, in their order; each is titled `user@host`, or by the host, or where no host is set by itself, and carries the settings and the place of the block |
| `SshImportMeaning.EveryFileOnce` | src/cli.rs:586-600 | Cyclic includes or not, each file identity is parsed at most once, and no more files than there are identities |
| `SshImportMeaning.WalkFileIsSound` | src/cli.rs:586-668 | A traversal visits exactly what it entered besides what was visited before, each new identity once, and the Match flag it leaves behind is that of the last Host or Match line met, in whichever file |
| `SshIncludes.MatchOutlivesItsFile` | src/cli.rs:617-637 | A file that includes `a` and then `b`, where `a` is one Match line: the flag of `a` carries over, `a` is read and `b` is not, although the including file has no Match line |
| `SshIncludes.MatchStaysInItsFile` | src/cli.rs:586-637 | For any set of identities already entered (such as the start file, throughout an import): no walk of a file, entered outside a Match block, ends inside one if and only if no file outside that set ends in one by its own Host and Match lines |
| `SshIncludes.LinesFollowOwnHeaders` | src/cli.rs:602-637 | Where no file still to be visited ends in a Match block of its own, the flag after any stretch of lines is the one its own Host and Match lines give, whatever it includes |
| `SshReach.NothingCarriesOverExactlyWhen` | src/cli.rs:586-637 | In the import of a start file, every end of an included file is met outside Match blocks if and only if no other file that the start file leads to ends in a Match block of its own (paths of one identity naming one file in one directory) |
| `SshReach.StartMayEndInMatch` | src/cli.rs:602-637 | The start file itself may end in a Match block: an example where it does and nothing carries over |
| `SshReach.ExactlyReachableFilesAreRead` | src/cli.rs:586-654 | Where no other file that the start file leads to ends in a Match block of its own, and paths of one identity name one file and stand in one directory, the identities parsed are exactly those of the files that the start file reaches through Include lines outside Match blocks |
| `SshWarnings.WarningsMeaning` | src/cli.rs:634-654 | Under the same condition a warning is given if and only if some followed Include line of some reached file gives it: its patterns do, or a path that they expand to cannot be read |
| `SshImport.UnvisitedShrinks` | src/cli.rs:593-597 | The termination measure: entering a new file identity strictly lowers the number of identities not yet parsed |
| `SshImport.SshImportParser.ParseFileContents` | src/cli.rs:586-600 | Parser state, visited set and warnings after a file are those of the flat traversal; terminates on every file system, by unvisited identities and then remaining lines |
| `SshImport.SshImportParser.ParseConfig` | src/cli.rs:602-663 | The same for the lines of a text |
| `SshImport.SshImportParser.ParseDirective` | src/cli.rs:617-659 | The same for one directive: Host, Match, Include, HostName, User or anything else, inside a Match block or not |
| `SshImport.SshImportParser.ParseIncludes` | src/cli.rs:634-654 | The same for the expanded paths of an Include line; an unreadable file gives a warning |
| `SshImport.SshImportParser.AppendCurrentBlock` | src/cli.rs:665-668 | The open block is taken out and its importable aliases are proposed, in order |
| `OperatorPressure.ResponseForgetsOrder` | src/operator_pressure.rs:117-185 | With distinct ids, the session list, the inbox and the summary are the same for every input order and every hash-map iteration order |
| `OperatorPressure.SessionListMeaning` | src/operator_pressure.rs:302-310 | The session list is a permutation of the sessions' views: of two entries the earlier has the higher score, or the same score and the smaller id |
| `OperatorPressure.InboxMeaning` | src/operator_pressure.rs:277-324 | The inbox holds exactly the attention candidates, each once: healthy before degraded ones, then the higher score, the higher reason rank, the later activity, the smaller id |
| `OperatorPressure.RepoListMeaning` | src/operator_pressure.rs:210-300 | Every repository of a listed session has exactly one entry, with its sessions in listing order, their top score, and the reason of the first session that has it; higher score first, and of equal scores the smaller label |
| `Ordering.StringLeMeaning` | src/operator_pressure.rs:302-310 | The order on ids and labels: a text is before another if it is a prefix of it or has the smaller character where they first differ |
| `PressureMeaning.ListHoldsSessions` | src/operator_pressure.rs:237-251 | Every session has an entry in the list with its own fields, score, reason, tone and batch-send list, and every entry is that of a session |
| `PressureMeaning.InboxHoldsWhoBelongs` | src/operator_pressure.rs:253-291 | A session is in the inbox if and only if it is not one of the attention helpers, has not exited, and has a cue, the attention state or a commit candidate; its item carries its own fields |
| `PressureMeaning.ReasonMeaning` | src/operator_pressure.rs:472-540 | The reason is that of the first signal present, cues before states |
| `PressureMeaning.IdleMeaning` | src/operator_pressure.rs:496-514 | There is no reason if and only if no signal but deep sleep is present |
| `PressureMeaning.ToneIsMonotone` | src/operator_pressure.rs:642-677 | More signals never make the tone of a session calmer |
| `PressureMeaning.ToneMeaning` | src/operator_pressure.rs:642-677 | Danger shows exactly for a cue, an error or a score of 70; a quiet session scores less than 35 and has none but four background signals |
| `PressureMeaning.OneSignalScores` | src/operator_pressure.rs:417-432 | The score of a session with one signal alone, for each signal |
| `PressureMeaning.ReadyMeaning` | src/operator_pressure.rs:342-349 | A session is ready for a group message if and only if it asks for input by one of four signals and is observed, not stale, healthy, not exited and not deep asleep |
| `PressureMeaning.ListedSessionsWantInput` | src/operator_pressure.rs:681-763 | Whoever a batch-send list names is of the same batch and the same remote target, asks for input, is not degraded and scores 35 at least |
| `OperatorPressure.BuildOperatorPressureResponse` | src/operator_pressure.rs:117-128 | For every listing the response is one that some hash-map iteration order gives: the sorted views, the sorted attention candidates, the summary, and one sorted entry per repository |
| `OperatorPressure.ResponseBuilder.Push` | src/operator_pressure.rs:151-170 | One more session keeps all four views those of the sessions taken in so far |
| `OperatorPressure.ResponseBuilder.Finish` | src/operator_pressure.rs:172-185 | Sorting the four views gives the response; every repository of the sessions taken in appears exactly once |
| `OperatorPressure.UpdateRepoKeeps` | src/operator_pressure.rs:210-226 | A repository entry holds its sessions in input order, their top score, and the reason of the first session with that score |
| `OperatorPressure.SummaryMeaning` | src/operator_pressure.rs:187-208 | With distinct, NUL-free ids the summary counts every action cue and every batch with a list, and its top score is reached by some session and exceeded by none |
| `OperatorPressure.OneMoreSignal` | src/operator_pressure.rs:417-440 | Of two sessions that differ in one signal, the raw score of the one that has it is higher by the weight of that signal; its score is that, cut off at 99 |
| `OperatorPressure.NoSignalScoresOne` | src/operator_pressure.rs:413-440 | The raw score is 0, and the score 1, exactly for sessions without any signal |
| `OperatorPressure.ScoreIsMonotone` | src/operator_pressure.rs:413-440 | More signals never lower a score, and a score is never below the weight of a signal present |
| `OperatorPressure.Score` | src/operator_pressure.rs:413-415 | A pressure score lies between 1 and 99 |
| `OperatorPressure.SendMapsAgree` | src/operator_pressure.rs:681-702 | With distinct ids, any two batch-send maps of the same sessions are equal, in whatever order the batches were visited |
| `BatchSend.SendListsPartition` | src/operator_pressure.rs:681-763 | With distinct ids, a nonempty batch-send list is exactly the ready sessions of its session's batch, by smaller index and then smaller id, at least two of them and all of one remote target or all of this machine; everything it names carries the identical list and nothing else does |
| `BatchSend.NoSendListMeaning` | src/operator_pressure.rs:704-738 | A session has no list if and only if it is in no batch, not ready, the only ready session of its batch, or another ready session of its batch has another delivery target |
| `BatchSend.SendListForgetsOrder` | src/operator_pressure.rs:681-702 | Batch-send lists do not depend on the order of the listing |
| `BatchSend.SendMap` | src/operator_pressure.rs:681-702 | The map built batch by batch in arbitrary order lists each id with the list of a batch that names it; with distinct ids each session's entry is its own list |
| `BatchSend.CollectGroups` | src/operator_pressure.rs:689-702 | Grouping files every ready session under its batch, in listing order, and no empty group |
| `BatchSend.SingleScopeMeaning` | src/operator_pressure.rs:730-738 | The sort-and-dedup test holds if and only if all members share one scope |
| `BatchSend.SameScopeMeaning` | src/operator_pressure.rs:740-763 | Two scopes are the same text if and only if the sessions have the same delivery target: none for ids that are not namespaced, otherwise the environment's target where it is remote, not blank and not `local`, otherwise the target of the id |
| `BatchSend.GroupCountExactly` | src/operator_pressure.rs:187-193 | With distinct ids, whatever they contain, `batch_send_groups` is the number of batches with a list if and only if no two of those lists join to the same text |
| `BatchSend.GroupCountMeaning` | src/operator_pressure.rs:187-193 | In particular it is that number for NUL-free ids |
| `BatchSend.GroupCountBound` | src/operator_pressure.rs:187-193 | On all inputs it is at most that number |
| `BatchSend.NulMergesGroups` | src/operator_pressure.rs:187-193 | With NUL in an id the count can be too low: batches `a`, `b\0c` and `a\0b`, `c` of distinct ids both have a list and count as one |
| `BatchSend.JoinIsInjective` | src/operator_pressure.rs:187-193 | Joining NUL-free ids with NUL loses nothing |
| `FleetLens.BuildFleetLensSummary` | src/fleet_lens.rs:11-75 | The buckets are sorted, have unique (kind, key) pairs, each non-advisory bucket counts exactly the sessions filed under it (all, degraded, stale, needing attention, commit candidates) and bears the label of the first, and none is missing; each advisory bucket counts exactly the advisories of its key that have a label, stale ones also as degraded, and none is missing |
| `FleetMeaning.BucketsAreOrdered` | src/fleet_lens.rs:58-69 | Targets come first, then repositories, advisories, states, readiness, transport; within a kind more sessions first, then more degraded ones, then the smaller label, then the smaller key |
| `FleetMeaning.SameBucketMeaning` | src/fleet_lens.rs:482-570 | Two sessions share a state, transport or repository bucket if and only if they agree in it, and a readiness bucket if and only if both want attention, both work, both sleep or both are quiet |
| `FleetMeaning.SameTargetMeaning` | src/fleet_lens.rs:482-515 | Local sessions are filed under and titled `local`; a remote one is filed under the first of target id, host and label that is not blank and titled by the first of host, label and target id, trimmed, and by `remote` where there is none |
| `FleetMeaning.AdvisoryBucketHasHits` | src/fleet_lens.rs:318-332 | An advisory bucket counts at least one advisory, and its matcher lets some session through |
| `FleetMeaning.SomeSessionAdvises` | src/fleet_lens.rs:318-332 | The matcher of an advisory key lets a session through if and only if some session has an advisory of that key, with a label or not |
| `FleetLens.BucketCountsItsFilter` | src/fleet_lens.rs:318-332 | All five counts of a non-advisory bucket are those of the sessions that its own matcher lets through: all of them (never zero), the degraded, the stale, those needing attention, the commit candidates |
| `FleetLens.CountsAddUp` | src/fleet_lens.rs:11-75 | For every kind but Advisory the counts add up to `total_sessions` |
| `FleetLens.FilterAgrees` | src/fleet_lens.rs:318-332 | For every kind but Advisory, every key and every property of sessions, the sessions with the property that the matcher lets through are as many as those filed under the key |
| `FleetLens.FilterIsFiling` | src/fleet_lens.rs:318-332 | For every kind but Advisory the matcher lets a session through exactly when it is filed under the key |
| `FleetLens.SessionIsFiled` | src/fleet_lens.rs:14-56 | The insertions for one session add it to exactly one bucket of each kind, and the insertions of other kinds and of advisories do not disturb that |
| `FleetLens.InsertBucket` | src/fleet_lens.rs:389-421 | One insertion, under any key and label, starts or continues the bucket of that kind and key and changes no other |
| `FleetPresets.NormalizeIsIdempotent` | src/fleet_lens.rs:173-189 | Normalised ids are nonempty, of lower-case id characters, with no dash at either end; and ids of that form are left as they are |
| `FleetPresets.BuildPresets` | src/fleet_lens.rs:77-92 | The built-in presets come first and unchanged; behind them, in the overlay's order, the first overlay preset, once cleaned up, of each id not taken; ids stay unique and no usable id is lost |
| `FleetPresets.FirstsMeaning` | src/fleet_lens.rs:77-92 | The presets added are, from left to right, exactly those overlay presets whose id neither a built-in one nor one before them has |
| `PresetMeaning.SanitizedIsCleaned` | src/fleet_lens.rs:161-171 | What is kept of a preset is its own id normalised, its own label cleaned, and those of its matchers that have a value or need none, in their order, with trimmed values |
| `PresetMeaning.NormalizeMeaning` | src/fleet_lens.rs:173-189 | A normalised id is the raw text with letters lowered and everything but letters, digits and `_` turned into dashes, cut at its outermost other characters; there is none exactly where only dashes would be left |
| `PresetMeaning.LineOfParts` | src/fleet_lens.rs:191-200 | A label of two texts with white space between them is their labels with one blank between them; control characters, line breaks among them, are taken out first and set nothing apart |
| `PresetMeaning.LineOfWord` | src/fleet_lens.rs:191-200 | A text without white space becomes itself without its control characters |
| `FleetPresets.SanitizedMeaning` | src/fleet_lens.rs:161-171 | An overlay preset is dropped exactly when its id, its label or all of its matchers are unusable; one that is kept has a normal id, a one-line label, usable matchers and the source `overlay` |
| `FleetPresets.LabelMeaning` | src/fleet_lens.rs:191-200 | A label is one line of at most 64 characters: words of printable characters set apart by single blanks, none in front; only a longer line is cut, after its 64th character; short lines of that form without a blank at the end are left as they are |
| `FleetPresets.LabelIsStable` | src/fleet_lens.rs:191-200 | Cleaning a label again changes nothing, except exactly where the joined words are longer than 64 characters and the 64th is a blank |
| `FleetPresets.CutLeavesBlank` | src/fleet_lens.rs:191-200 | The cut does leave one behind any word of 63 characters that another word follows |
| `FleetPresets.MatcherMeaning` | src/fleet_lens.rs:202-235 | A matcher is dropped exactly when the value it needs is blank; what is kept has a trimmed value, and a trimmed one is left as it is |
| `SpriteMask.TwoDilations` | scripts/key-dragon-sprites.py:85-111 | For every width, height and mask, a pixel is on after two dilations if and only if it is interior and some pixel of the picture within Chebyshev distance 2 was on |
| `SpriteMask.PipelineMeaning` | scripts/key-dragon-sprites.py:103-111 | After the whole pipeline a pixel is on if and only if it is interior and within distance 2 of an interior pixel that was on together with at least five of its eight neighbours |
| `SpriteMask.SurvivalMeaning` | scripts/key-dragon-sprites.py:61-82 | A pixel survives erosion exactly off the border, where it is on and at least five of the eight around it are |
| `SpriteMask.PipelineIsMonotone` | scripts/key-dragon-sprites.py:103-111 | More pixels on before, at least as many on after: no pixel goes off because another came on |
| `SpriteMask.PipelineContainsEroded` | scripts/key-dragon-sprites.py:103-111 | Everything that survives erosion is on at the end |
| `SpriteMask.ErosionOnlyRemoves` | scripts/key-dragon-sprites.py:61-82 | Erosion switches no pixel on |
| `SpriteMask.Erode` | scripts/key-dragon-sprites.py:61-82 | The nested loops over the flat buffer compute the erosion; every index read or written is the intended pixel of the intended row |
| `SpriteMask.Dilate` | scripts/key-dragon-sprites.py:85-100 | The same for a dilation, with its early breaks |
| `SpriteMask.CountNeighbors` | scripts/key-dragon-sprites.py:72-79 | The running count is the number of the eight neighbours that are on |
| `SpriteMask.AnyOn` | scripts/key-dragon-sprites.py:91-98 | The scan with early breaks finds a pixel that is on if and only if there is one in the block of nine |
| `SpriteMask.AtIsInjective` | scripts/key-dragon-sprites.py:67-70 | Row-major places of different pixels differ: no access strays into another row |
| `SpriteMask.Process` | scripts/key-dragon-sprites.py:103-123 | A pixel that the pipeline leaves on keeps its three colour bytes and becomes opaque; every other pixel is four zero bytes |
| `SpriteMask.CopyPixels` | scripts/key-dragon-sprites.py:113-120 | The copy loop writes exactly that for any mask |

## Left out

- Sessions carry only the fields these parts look at: action cues are counted by kind, a current command and an observation
  time are present or absent, the tool is one of the accepted names or not, and repository key and label are given, not
  derived from the working directory.
- Reason texts, glyphs, labels and other fixed tables: single-branch facts.
- OperatorPressure.ResponseForgetsOrder: says nothing about `repos`, because the order of repositories with equal score and label follows hash-map iteration, and an entry's reason and session list follow the input order.
- FleetLens.BuildFleetLensSummary: advisory keys and labels are given, not derived from the fields of an advisory.
- FleetPresets.BuildPresets: the seven built-in presets are a parameter.
- Preset matchers other than the bucket matcher, and matching environments.
- RepoActions.RunningMeansInFlight: repository keys are canonical already; path canonicalisation is not part of this model. The executor itself is only its outcome.
- PollCache.BackoffFreezesEntry: visits of one target follow one another there, as they do in `PollsFreezeEntry` and `NoRequestDuringBackoff`; what holds when they overlap is in `PollOverlap`. Which targets are polled at all is given.
- Freshness in milliseconds and the error fields shown for a config error.
- SessionIds.DenamespaceGoesToOwner: a target's base URL is missing, blank or given; parsing it is not modelled.
- Paths are slash-separated text; Windows prefixes and text that is not Unicode are not modelled.
- SshImport.SshImportParser.ParseIncludes: the file system is a fixed snapshot, glob expansion is a given function with its warnings, and the operating system's message for an unreadable file is left off the warning.
- SSH import reports beyond proposals and warnings, the overlay snippet of a proposal, and splitting a file into lines.
- TmuxNames.CreateNumberedSession: running tmux is an outcome of each attempt (names listed, names taken at creation, a failure).
- SpriteMask.Process: which colours are keyed opaque is a parameter, because the luma test is in floating point; reading and writing PNG files is left out.
- The git summary cache: under concurrency a probe in flight can store after an invalidation, so only sequential claims would hold.
- HTTP clients and routes, tmux and git processes, environment variables, doctor reports, colours and themes, and all start-up code.
