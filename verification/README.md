# Raft consensus of one log group, with its log store and a register

This project models the core of a Rust implementation of Raft that replicates a document log.

`Consensus` (src/consensus.rs) is the event-driven Raft state machine of one log group. Each handler takes one event and updates the server in place:

- an AppendEntries request or response;
- a RequestVote request or response;
- a client proposal or query;
- an election or heartbeat timeout;
- a peer-side transaction begin, commit or rollback.

The server's state is its term, vote and log, held in the log store, plus:

- commit and apply indexes;
- Follower, Candidate or Leader state;
- the leader's per-peer next and match indexes and its queue of pending proposals;
- the candidate's votes;
- the follower's leader hint and batch mark (`min_index`).

A handler then returns the actions the server must carry out: messages to peers, replies to clients, and timer changes.

`DocLog` (src/document/src/doclog.rs) is the in-memory log: a vector of (term, payload) entries with 1-based indexes. It also holds the current term and vote. The replicated application is the one-value register of examples/register.rs.

In Dafny the parts map as follows:

- `Consensus`, `DocLog` and `RegisterStateMachine` are classes whose methods update their fields.
- Messages, replies and the leader bookkeeping are datatypes.
- The handlers' loops are methods with loop invariants: raising the commit index, applying committed entries, answering due proposals, and forwarding a new entry to peers.
- Each method is proved against a specification function: `CommitTarget`, `AppliedIndex` with `Commands`, `ApplyResults`, `Answers`, `Forwarded` with `Recipients`, and `CheckAppend`. Lemmas then prove what Raft needs from those functions.
- A ghost field `delivered` records every payload handed to the register. It is what "applied once each, in log order, empty payloads skipped" is stated over.

Seven modules follow the implementation's structure:

- `Types` holds terms, indexes and entries.
- `Messages` holds the wire messages and the actions.
- `Storage` holds `DocLog`.
- `Register` holds the state machine.
- `Election` holds the quorum and the vote decision.
- `Replication` holds the append check, the commit and apply specifications, and the leader's loops over pure state.
- `Raft` holds `Consensus` and its handlers.

Two behaviours are modelled as the code is written, not as the Raft paper states them:

- **Vote log check.** It refuses a candidate whose last term is lower OR whose last index is lower. These are two independent comparisons, where the paper compares last terms first. `Election.LogCheckImpliesUpToDate` and `Election.NewerTermShorterLogRefused` show that this check is stricter than the paper's rule.
- **Leader commit.** The leader raises its commit index whenever a quorum holds the next index, with no check that the entry is from the current term.

Three behaviours of the implementation look unintended; they are listed under "## Findings". Each is modelled as written and then corrected, and the rest of the model uses the corrected version:

- A due proposal with an empty payload, or whose entry was applied in an earlier step, leaves the leader without a result to answer with. Among the latter are proposals kept across a step-down; the corrected step-down answers their clients `NotLeader`, naming the new leader, and drops them.
- Stepping down within the same term clears the vote, so a server can vote twice in one term.
- A late batch can move a follower's commit index backwards.

## Model

| member | source | states |
|---|---|---|
| Election.Majority | src/consensus.rs:1186-1191 | The quorum for a cluster of `peers + 1` servers is a strict majority of them, and the smallest one. |
| Election.MajorityOfSmallClusters | src/consensus.rs:1327-1339 | Clusters of 1, 2, 3 and 4 servers need 1, 2, 2 and 3 servers. |
| Election.QuorumsIntersect | src/consensus.rs:1186-1191 | Any two sets of at least a quorum of servers from the same cluster share a server. |
| Election.OneLeaderPerTerm | src/consensus.rs:700-738 | When every server gives at most one vote in a term, two candidates that each collect a quorum of those votes are the same server. |
| Election.LogCheckImpliesUpToDate | src/consensus.rs:681-682 | Every candidate that passes the implementation's two-comparison log check is at least as up to date as the voter by the paper's rule. |
| Election.NewerTermShorterLogRefused | src/consensus.rs:681-682 | The converse fails: a candidate with a newer last term but a shorter log is up to date by the paper's rule and still refused. |
| Election.DecideVote | src/consensus.rs:652-697 | The vote decision, stated result by result. A lower request term gives StaleTerm. Otherwise a failed log check gives InconsistentLog. The vote is granted exactly when the term is adopted, the log check passes, and the vote is unset or already this candidate. A grant records the candidate. A newer term is adopted and clears the vote. |
| Election.OneGrantPerTerm | src/consensus.rs:683-697 | For the decision `DecideVote` alone: once it grants the vote of a term to one candidate, a request of the same term from a different candidate is not granted, whatever the logs. That the server keeps that vote for the rest of the term is what `Raft.Consensus.TransitionToFollower` and `Raft.NoRegrantAfterStepDown` add. |
| Election.StepDownVoteAsWritten | src/consensus.rs:1145-1148 | The vote after a step-down as written: always none, since `set_current_term` clears it. |
| Election.SecondVoteAsWritten | src/consensus.rs:1145-1148 | A server that granted its own vote of a term and then steps down within that term has its vote cleared by the as-written step-down, and grants that term's vote to a different candidate. The corrected step-down keeps the vote, and the same request is refused as already voted. |
| Election.StepDownKeepsOneGrant | src/consensus.rs:1145-1148 | With the corrected step-down, a vote cast in a term still refuses every other candidate of that term after the server steps down within the term; a newer term starts with no vote. |
| Messages.Broadcast | src/consensus.rs:1036-1038 | One copy of the message goes to every server in the set and to no one else. |
| Storage.AppendFrom | src/document/src/doclog.rs:123-130 | Writing at index `from` keeps exactly the entries before `from`, followed by the new entries. |
| Storage.TruncateTo | src/document/src/doclog.rs:132-134 | Truncating keeps the first min(lo, length) entries, as a prefix of the log. |
| Storage.AppendFromKeepsPrefix | src/document/src/doclog.rs:123-130 | A write equals truncation before `from` followed by the entries, and it leaves that prefix unchanged. |
| Storage.AppendAtEnd | src/document/src/doclog.rs:123-130 | Writing just past the last entry appends and drops nothing. |
| Storage.AppendNothingTruncates | src/document/src/doclog.rs:202-210 | Writing no entries at `from` truncates the log to its first `from - 1` entries. |
| Storage.TruncateAndRollbackPartition | src/document/src/doclog.rs:132-138 | The entries `rollback(lo)` returns are exactly those `truncate(lo)` removes. |
| Storage.DocLog.constructor | src/document/src/doclog.rs:40-46 | A new store is empty, at term 0, with no vote. |
| Storage.DocLog.LatestLogIndex | src/document/src/doclog.rs:105-107 | The latest index is the number of stored entries, and 0 exactly when the log is empty. |
| Storage.DocLog.LatestLogTerm | src/document/src/doclog.rs:109-116 | The latest term is the term of the last entry, or 0 for an empty log. |
| Storage.DocLog.EntryAt | src/document/src/doclog.rs:118-121 | For 1 ≤ i ≤ length, returns the i-th stored entry (1-based). |
| Storage.DocLog.AppendEntries | src/document/src/doclog.rs:123-130 | Requires `from ≤ latest + 1`. The log becomes `AppendFrom(old log, from, es)`, and term and vote are unchanged. |
| Storage.DocLog.Truncate | src/document/src/doclog.rs:132-134 | The log becomes its first min(lo, length) entries, and term and vote are unchanged. |
| Storage.DocLog.Rollback | src/document/src/doclog.rs:136-138 | Returns the entries after `lo` (the truncated part appended to them gives back the log) and changes nothing. |
| Storage.DocLog.SetVotedFor | src/document/src/doclog.rs:92-103 | The vote becomes the given one, and entries and term are unchanged. |
| Storage.DocLog.SetCurrentTerm | src/document/src/doclog.rs:61-74 | The term becomes the given one and the vote is cleared. |
| Storage.DocLog.IncCurrentTerm | src/document/src/doclog.rs:76-81 | The term rises by exactly one, the vote is cleared, and the new term is returned. |
| Storage.AppendScenario | src/document/src/doclog.rs:178-225 | The store's append test: four entries are written, writing nothing at index 4 leaves three, and writing two entries at index 3 replaces the tail. |
| Storage.TermScenario | src/document/src/doclog.rs:157-166 | The store's term test: setting term 42 clears an earlier vote, and incrementing gives 43. |
| Register.ValueAfter | examples/register.rs:150-155 | After a sequence of applies the register holds the last command, or its initial value when there were none. |
| Register.ValueAfterSnoc | examples/register.rs:150-155 | One more apply makes its command the value, whatever came before. |
| Register.RegisterStateMachine.constructor | examples/register.rs:140-142 | A new register holds the empty value. |
| Register.RegisterStateMachine.Apply | examples/register.rs:150-155 | Returns the previous value and leaves the new value in the register. |
| Register.RegisterStateMachine.Query | examples/register.rs:157-159 | Any query is answered with the current value, and nothing changes. |
| Register.RegisterStateMachine.Snapshot | examples/register.rs:161-163 | The snapshot is the current value, and nothing changes. |
| Register.RegisterStateMachine.RestoreSnapshot | examples/register.rs:165-168 | The value becomes the snapshot. |
| Register.ApplyTwice | examples/register.rs:150-155 | Applying v1 then v2 to a new register answers the empty value then v1, and leaves v2. |
| Register.RestoreThenSnapshot | examples/register.rs:161-168 | After restoring s, both the snapshot and any query give s. |
| Replication.CheckAppend | src/consensus.rs:430-500 | The follower's verdict on a batch, stated both ways. It is inconsistent exactly when the previous index is past the log or its term differs, and it then reports that index. It is stale exactly when the batch ends below the batch mark. Otherwise the batch is accepted: the log becomes old[..prev] ++ entries, the mark becomes the batch end, and commit becomes the corrected `FollowerCommit`, min(leader commit, batch end) but never below the old commit. |
| Replication.ShorterLateBatchNeverTruncates | src/consensus.rs:463-469 | After a batch is accepted, a batch that ends below it is never applied, so a late shorter batch cannot drop the tail. |
| Replication.AppendReorderScenario | src/consensus.rs:1504-1534 | Two entries sent together and then the first alone: the follower keeps both and ignores the late single entry. |
| Replication.FollowerCommitAsWritten | src/consensus.rs:486-489 | As written, the follower's new commit index is the leader's commit capped at the batch end: at most both, and equal to one of them. |
| Replication.FollowerCommitCanMoveBack | src/consensus.rs:486-489 | A follower at commit 2 accepting a late heartbeat with leader commit 1: as written its commit falls to 1, the corrected check keeps 2. |
| Replication.FollowerCommitNeverMovesBack | src/consensus.rs:486-489 | The corrected follower commit never goes below the old one, equals the implementation's value whenever that does not regress, and rises only to an index both committed by the leader and inside the batch. |
| Replication.MatchCount | src/consensus.rs:1093-1100 | The servers holding an index number between 1 (the leader itself) and the cluster size. |
| Replication.MatchCountAntitone | src/consensus.rs:1093-1100 | A later index is held by no more servers than an earlier one. |
| Replication.CommitTarget | src/consensus.rs:1093-1100 | The commit index never decreases. When it rises it stays within the log, every index it passes is held by a quorum, and it stops at the first index without a quorum. |
| Replication.CommitTargetIsMaximal | src/consensus.rs:1093-1100 | Stopping at the first index without a quorum loses nothing: no later index up to the end of the log has a quorum. |
| Replication.DueCount | src/consensus.rs:1107-1119 | The due proposals are the longest front of the queue whose indexes are committed; the next one, if any, is not committed. |
| Replication.Answers | src/consensus.rs:1107-1119 | One reply per due proposal, oldest first, to its client. Each carries the result this step recorded for its index, or the empty value when this step recorded none: an empty payload, or an entry applied in an earlier step. |
| Replication.AnswersAsWritten | src/consensus.rs:1107-1119 | The implementation's replies succeed exactly when every due index has a result, and then equal `Answers`. |
| Replication.Commands | src/consensus.rs:1124-1140 | The payloads handed to the state machine are non-empty and no more numerous than the entries. |
| Replication.AppliedIndex | src/consensus.rs:1124-1140 | `last_applied` never decreases and never passes the commit index when it started at or below it. It runs to min(commit, log length) when there is anything to apply. |
| Replication.EarlierAppliedProposalHasNoResult | src/consensus.rs:1107-1119 | A due proposal whose entry was applied in an earlier step has no result in this step: the implementation's lookup fails, and `Answers` gives the empty value instead of the register's earlier answer. |
| Replication.DueProposalsApplied | src/consensus.rs:1107-1124 | When every due proposal's entry is applied in the same step, the lookup fails exactly when one of them has an empty payload, and each answer with a payload carries the register's value from just before its own entry. |
| Replication.EmptyProposalHasNoResult | src/consensus.rs:1107-1119 | A committed proposal with an empty payload has no result, so the implementation's lookup fails while `Answers` replies with the empty value. |
| Replication.Forwarded | src/consensus.rs:779-784 | The peers waiting for exactly the new index move past it and no other next index changes. |
| Replication.ForwardedSendsOnce | src/consensus.rs:779-784 | After forwarding, no peer waits for that index any more, and no next index went down. |
| Replication.HeartbeatKeepsMatchingLog | src/consensus.rs:984-1000 | A heartbeat sent to a follower whose log equals the leader's is accepted, leaves the log unchanged, and moves commit to the leader's capped at the log end, never down. |
| Replication.SoloCommitsEverything | src/consensus.rs:765-767 | Without peers every index has a quorum, so the commit index reaches the end of the log. |
| Replication.ValueOneMore | src/consensus.rs:1124-1140 | Applying one more entry makes its payload the register's value, or leaves the value when the payload is empty. |
| Replication.ValueAtIsValueAfter | src/consensus.rs:1124-1140 | Applying entries one at a time leaves the register at the last handed-over command, or at its old value. |
| Replication.DueResultsFound | src/consensus.rs:1107-1140 | Among the due proposals whose entries were applied in this step, exactly those with a non-empty payload have a result. |
| Replication.AnswersFromResults | src/consensus.rs:1107-1119 | For any result map holding exactly the due proposals with a payload, the lookup succeeds exactly when every due proposal has a payload, and each such proposal is answered with the register's value from just before its entry. |
| Replication.ApplyResultsKeys | src/consensus.rs:1124-1140 | Exactly the applied indexes with a non-empty payload have a result. |
| Replication.ApplyResultsValues | src/consensus.rs:1124-1140 | Each result is the register's value just before its entry was applied, and lies in the applied range. |
| Replication.RaiseCommit | src/consensus.rs:1093-1100 | The commit loop ends at `CommitTarget`. |
| Replication.PopDue | src/consensus.rs:1107-1119 | The answer loop replies with `Answers` and leaves the queue without its due front. |
| Replication.SendNewEntry | src/consensus.rs:779-784 | The send loop messages exactly the `Recipients` and leaves next indexes `Forwarded`. |
| Raft.Reinitialized | src/consensus.rs:1022-1028 | A new leader has a next index of latest + 1 and a match index of 0 for every peer, and keeps its proposal queue. |
| Raft.Consensus.constructor | src/consensus.rs:163-187 | A new server is a follower at commit and apply index 0, with bookkeeping for every peer and no hint, votes or transaction. |
| Raft.Consensus.TransitionToFollower | src/consensus.rs:1145-1153 | Corrected step-down. The server becomes a follower at the given term with the given leader hint. A newer term clears the vote and the same term keeps it (`VoteKeptSince`). Queued proposals are dropped, and each of their clients, oldest first, is answered `NotLeader` with the new leader's address (`StepDownCancelling`). The log and progress are unchanged. The actions clear timers and queued peer messages and arm the election timer. |
| Raft.Consensus.TransitionToFollowerAsWritten | src/consensus.rs:1145-1153 | The step-down as written: the term is stored through the log store, so the vote is cleared even within the same term, and the proposal queue is kept. |
| Raft.RegrantAfterStepDownAsWritten | src/consensus.rs:509-516 | As written, a candidate that voted for itself steps down for its own term's leader, takes the batch, and then grants the same term's vote to another candidate. |
| Raft.NoRegrantAfterStepDown | src/consensus.rs:404-537 | Corrected: a server that voted in its term and then handles an AppendEntries of that term keeps its vote and grants no vote of that term to anyone else. |
| Raft.Consensus.TransitionToCandidate | src/consensus.rs:1065-1084 | The term rises by one, the server votes for itself and records only its own vote, and a vote request for its last entry goes to every peer. |
| Raft.Consensus.TransitionToLeader | src/consensus.rs:1022-1062 | The server becomes leader with fresh bookkeeping and sends an empty AppendEntries at its last entry to every peer. An open transaction is dropped, restoring its saved commit and apply indexes. |
| Raft.Consensus.AbandonTransaction | src/consensus.rs:1042-1058 | An open transaction is dropped and its saved commit and apply indexes are restored. |
| Raft.Consensus.ElectionTimeout | src/consensus.rs:1003-1019 | The term rises by one with a self-vote. A lone server becomes leader at once with no actions; any other server becomes a candidate and canvasses every peer. |
| Raft.Consensus.HeartbeatTimeout | src/consensus.rs:984-1000 | Exactly one message, to that peer: an empty AppendEntries with the current term, the last entry as the previous entry, and the commit index. No client reply, no timer change, and no clearing of timers or peer messages. |
| Raft.Consensus.ApplyFrom | src/consensus.rs:1124-1140 | The apply loop reaches `AppliedIndex`. It hands over exactly `Commands` of the entries in between, leaves the register at their `ValueAfter`, and returns `ApplyResults`. |
| Raft.Consensus.ApplyCommits | src/consensus.rs:1124-1140 | `last_applied` moves to `AppliedIndex`. The delivered payloads grow by exactly the committed non-empty payloads in log order, the register follows, and the results are `ApplyResults`. |
| Raft.Consensus.AdvanceCommitIndex | src/consensus.rs:1087-1120 | Commit moves to `CommitTarget` and the newly committed entries are applied. The due proposals are answered in order and removed from the queue. Nothing else changes. |
| Raft.Consensus.FollowerAppend | src/consensus.rs:419-507 | A follower adopts the term, clearing its vote and setting the hint only when the term is newer. It then acts on `CheckAppend` with its old commit index: write and apply on acceptance, otherwise leave log and progress alone. It replies as the verdict says. |
| Raft.Consensus.AcceptBatch | src/consensus.rs:480-490 | The batch is written after its previous index, the batch mark moves to its end, and commit becomes `FollowerCommit` of the old commit, the leader commit and the batch end. The newly committed entries are applied. |
| Raft.Consensus.AppendEntriesRequest | src/consensus.rs:404-537 | A lower term is answered StaleTerm with nothing changed. A same-term request reaching a leader changes nothing. Otherwise a candidate or older leader steps down first, answering each queued proposal `NotLeader` with the new leader's address and dropping it, then the batch is handled as a follower does. The vote is cleared by a newer term and kept within the same term. |
| Raft.Consensus.CatchUpPeer | src/consensus.rs:612-648 | A peer whose next index is within the log is sent every entry from there, with its previous entry and the commit index, and its next index moves past the end. Otherwise its heartbeat timer is armed. |
| Raft.Consensus.RecordSuccess | src/consensus.rs:573-581 | The peer's match index is set, commit moves to `CommitTarget` of the new match indexes, committed entries are applied, and due proposals are answered. |
| Raft.Consensus.RespondToSuccess | src/consensus.rs:573-648 | A success is recorded as in `RecordSuccess`; then the peer is caught up or sent a heartbeat, as in `CatchUpPeer`. |
| Raft.Consensus.RespondToInconsistency | src/consensus.rs:582-648 | The peer's next index drops to the reported index, then the peer is caught up from there. Commit, match indexes and proposals are unchanged. |
| Raft.Consensus.AppendEntriesResponse | src/consensus.rs:543-649 | A newer term makes the server a follower with that peer as hint, answering each queued proposal `NotLeader`. An older term or a StaleTerm answer changes nothing. Otherwise success, inconsistency and internal error are handled per case, each followed by the catch-up or heartbeat. Inconsistency and internal error leave commit, apply index and register alone. |
| Raft.Consensus.RequestVoteRequest | src/consensus.rs:652-697 | The stored term and vote and the reply are those of `DecideVote`. A newer term steps the server down first, answering each queued proposal `NotLeader` with the candidate's address and dropping it. A vote cast in the current term is kept, and the log and progress are unchanged. |
| Raft.Consensus.RequestVoteResponse | src/consensus.rs:700-738 | A newer term makes the server a follower, answering each queued proposal `NotLeader`, and an older term or a non-granted vote changes nothing. A candidate records a granted vote and becomes leader exactly when its votes reach the quorum; an open transaction is then dropped, restoring its saved commit and apply indexes, which otherwise stay. Any server that becomes leader was a candidate holding a quorum that includes its own vote. |
| Raft.Consensus.Propose | src/consensus.rs:758-784 | The entry is appended at the leader's term and the proposal queued. A lone leader commits and answers at once; otherwise the entry goes to exactly the peers waiting for it. |
| Raft.Consensus.CommitAlone | src/consensus.rs:765-767 | Without peers the commit index moves to the end of the log, the new entries are applied, and the due proposals are answered. |
| Raft.Consensus.ForwardEntry | src/consensus.rs:768-784 | The new entry is sent to exactly the `Recipients` and their next indexes are `Forwarded`. Nothing else changes. |
| Raft.Consensus.ProposalRequest | src/consensus.rs:741-789 | Without a known leader the client gets UnknownLeader and a follower names its leader's address, both with nothing changed. A leader proposes the entry. |
| Raft.Consensus.QueryRequest | src/consensus.rs:955-971 | Without a known leader the client gets UnknownLeader; otherwise it gets the register's current value. |
| Raft.Consensus.TransactionBegin | src/consensus.rs:792-804 | A non-leader without an open transaction saves its commit index, apply index and batch mark; otherwise nothing changes. |
| Raft.Consensus.TransactionCommit | src/consensus.rs:806-816 | Any open transaction is closed and nothing else changes. |
| Raft.Consensus.TransactionRollback | src/consensus.rs:818-840 | With an open transaction, the commit index, apply index and batch mark return to the savepoint and the log is truncated to the saved commit index. Without one nothing changes. |

## Left out

- Wire encoding (Cap'n Proto builders and readers), `Debug` formatting, the `Arc<RwLock>` locking and the event dispatch. Messages are values here. `handle_queue` and the `apply_*` entry points decode and route messages. `apply_client_message` (src/consensus.rs:276-303) also holds back client requests while a transaction is active; see the Raft.Consensus.ProposalRequest and Raft.Consensus.QueryRequest lines below.
- Timers and randomness. Timeouts are values in the actions; the randomized election duration is not modelled.
- The `term` and `voted_for` files of the log store are plain fields; file I/O and its failures are not modelled.
- Terms and indexes are unbounded naturals. The implementation's 64-bit wrap-around and the overflow check in `majority` are not modelled.
- `LeaderState`, `CandidateState` and `FollowerState` are defined outside the modelled files; their operations are inferred from how src/consensus.rs uses them. Match counting includes the leader itself, and votes form a set.
- Raft.Consensus.TransitionToFollower, Raft.Consensus.FollowerAppend: `FollowerState::set_leader` (called at src/consensus.rs:424 and 1149) is taken to record the leader hint only, so the batch mark `min_index` survives a change of leader or term. The mark is therefore not reset per leader. A follower whose mark an old leader raised to 10 drops, without a reply or a timer reset, a batch from a newer-term leader that ends below 10, even one that would replace an uncommitted entry. If `set_leader` resets the mark, the model misses that reset.
- `TransactionManager` is defined outside the modelled files; its operations are inferred from how src/consensus.rs uses it. The transaction broadcasts to peers, the session check on commit, client transactions (src/consensus.rs:843-951), and reverting or rolling back the state machine are not modelled. The register has no `revert`.
- Adding peers and resetting a peer connection (src/consensus.rs:337-400) are not modelled.
- Debug-only `scoped_assert!` checks are not preconditions, except that an election timeout is never delivered to a leader.
- Panics on a missing entry list or a missing proposal entry are not modelled: requests always carry them here.
- A second leader in one term makes the implementation panic; `AppendEntriesRequest` changes nothing and emits nothing instead.
- Raft.Consensus.AppendEntriesResponse, Raft.Consensus.RespondToInconsistency: require an inconsistency report to carry an index of at least 1. With 0 the implementation would compute `next_index - 1` on an unsigned index when catching the peer up.
- Raft.Consensus.ApplyFrom: stops at the end of the log where the implementation's `break` on a missing entry intends to. `DocLog::entry` would panic there instead of returning an error. The log is read once before the loop, since applying does not change it.
- Storage.DocLog.AppendEntries: requires `from ≥ 1` as well, since the implementation subtracts one from an unsigned index.
- Storage.DocLog.Rollback: requires `lo` to be within the log; the implementation slices from `lo` and panics past the end. `Raft.Consensus.TransactionRollback` does not call it, since the register has no `revert`. Where the implementation would panic on a saved commit index beyond the log, the model leaves the log as it is.
- Raft.Consensus.AppendEntriesRequest, Raft.Consensus.AppendEntriesResponse, Raft.Consensus.RequestVoteRequest, Raft.Consensus.RequestVoteResponse, Raft.Consensus.FollowerAppend, Raft.Consensus.CatchUpPeer, Raft.Consensus.RecordSuccess, Raft.Consensus.RespondToSuccess, Raft.Consensus.RespondToInconsistency and Raft.Consensus.TransitionToFollower require the sender to be a known peer. The implementation's handlers take any `ServerId`; only the peer connections set up by `peer_connection_reset`, which is not modelled, make that hold. The invariant that the leader hint names a peer rests on this assumption.
- Raft.Consensus.ProposalRequest, Raft.Consensus.QueryRequest: model the handlers as reached with no transaction active. While one is active, `apply_client_message` puts a leader's proposal from another session, and every query, in the transaction queue, counting the proposal with `count_up()`, instead of handling them. That queueing is not modelled.
- Raft.Consensus.TransitionToCandidate: requires a server that is not leader, as its only caller, the election timeout, does.
- Replication.Answers: a due proposal whose entry was applied in an earlier step is still answered with the empty value. Dropping queued proposals on step-down removes the case of a proposal that outlives its leadership. Within one leadership, the model does not prove that every queued index lies above the apply index. That needs a new leader's log to keep every entry the server applied (Raft's leader completeness), which this model does not capture. `Replication.DueProposalsApplied` states what holds once it does.

## Findings

| source | as written | input that shows it | evidently intended | confidence | as-written member | corrected member |
|---|---|---|---|---|---|---|
| src/consensus.rs:1107-1119 | After applying, the leader looks up each due proposal's result with `results[&index]`. `apply_commits` (src/consensus.rs:1124-1140) records results only for the entries it applies in that call, and none for an empty payload. The lookup panics for any due index without a result: an empty payload, or an entry applied in an earlier call. Stepping down (src/consensus.rs:1145-1153) keeps the proposal queue. | (1) A single-server leader receives a proposal with an empty payload; the entry commits at once and answering the client fails. (2) A leader queues a proposal, steps down before it commits, applies that entry as a follower, and is elected again; the commit step that makes the proposal due applies nothing, and answering fails. | Every proposal is answered exactly once: a committed one with its result, an empty payload with the empty value. Proposals still queued when the server steps down are answered `NotLeader`, naming the new leader, and dropped. | not executed; case (2) also assumes that `LeaderState::reinitialize`, defined outside the modelled files, keeps the queue | Replication.AnswersAsWritten, Replication.EmptyProposalHasNoResult, Replication.EarlierAppliedProposalHasNoResult, Raft.Consensus.TransitionToFollowerAsWritten | Replication.Answers, Replication.DueProposalsApplied, Raft.Consensus.TransitionToFollower |
| src/consensus.rs:1145-1148 | `transition_to_follower` stores the term with `set_current_term`, which clears the vote (src/document/src/doclog.rs:61-71) even when the term does not change. A candidate that steps down for a leader of its own term (src/consensus.rs:509-516) forgets its vote for itself. | A candidate of term T that voted for itself receives an AppendEntries of term T. It then receives a RequestVote of term T from another candidate whose log is as long as its own, and grants it: a second vote in term T. | A server grants at most one vote per term: a step-down within the same term keeps the vote, and only a newer term clears it. | not executed | Election.SecondVoteAsWritten, Raft.Consensus.TransitionToFollowerAsWritten, Raft.RegrantAfterStepDownAsWritten | Raft.Consensus.TransitionToFollower, Election.StepDownKeepsOneGrant, Raft.NoRegrantAfterStepDown |
| src/consensus.rs:486-489 | An accepting follower sets its commit index to min(leader commit, end of batch) without comparing it to the old commit index. | A follower with two entries at commit index 2 receives a late heartbeat (previous index 2, no entries) that carries leader commit 1. It accepts it, and its commit index falls to 1. | The commit index only advances: it moves to min(leader commit, end of batch) only when that is higher. | not executed | Replication.FollowerCommitAsWritten, Replication.FollowerCommitCanMoveBack | Replication.CheckAppend, Replication.FollowerCommitNeverMovesBack, Raft.Consensus.AcceptBatch |
