/**
 * `Consensus`: the Raft state machine of one log group. Each handler takes
 * one event (a peer message, a client request or a timer), updates the
 * server's state in place and returns the `Actions` the server must carry
 * out. The log is a `DocLog` and the replicated application is the register.
 */
module Raft {
  import opened Types
  import opened Messages
  import opened Storage
  import opened Register
  import opened Election
  import opened Replication

  datatype ConsensusState = Follower | Candidate | Leader

  /**
   * A leader's bookkeeping: per peer, the next index to send and the highest
   * index known to be replicated there, and the queue of client proposals
   * (client, log index) waiting to be committed, oldest first.
   */
  datatype LeaderState = LeaderState(
    nextIndex: map<ServerId, LogIndex>,
    matchIndex: map<ServerId, LogIndex>,
    proposals: seq<(ClientId, LogIndex)>)

  /** The bookkeeping of a new leader whose log ends at `latest`: every peer is sent from `latest + 1` and matches nothing yet. */
  function Reinitialized(ls: LeaderState, peers: set<ServerId>, latest: LogIndex): (r: LeaderState)
    ensures r.nextIndex.Keys == peers && r.matchIndex.Keys == peers
    ensures forall p :: p in peers ==> r.nextIndex[p] == latest + 1 && r.matchIndex[p] == 0
    ensures r.proposals == ls.proposals
  {
    LeaderState(map p | p in peers :: latest + 1, map p | p in peers :: 0, ls.proposals)
  }

  /** The transaction savepoint: what a rollback restores. */
  datatype Savepoint = Savepoint(commitIndex: LogIndex, lastApplied: LogIndex, minIndex: LogIndex)

  /** Giving up leadership or candidacy: clear the group's timers and queued peer messages, arm the election timer. */
  const StepDown := Actions(map[], [], true, {Election}, true)

  /**
   * Stepping down while proposals are queued: the actions of `StepDown`, and
   * every queued proposal's client, oldest first, is told that `leader` now leads.
   */
  function StepDownCancelling(proposals: seq<(ClientId, LogIndex)>, leader: Address): (r: Actions)
    ensures r.peerMessages == map[] && r.clearTimeouts && r.timeouts == {Election} && r.clearPeerMessages
    ensures |r.clientMessages| == |proposals|
    ensures forall k :: 0 <= k < |proposals| ==> r.clientMessages[k] == (proposals[k].0, NotLeader(leader))
    ensures proposals == [] ==> r == StepDown
  {
    StepDown.(clientMessages := seq(|proposals|, k requires 0 <= k < |proposals| => (proposals[k].0, NotLeader(leader))))
  }

  /** A follower's answer to an AppendEntries request; any answer also restarts its election timer. */
  function FollowerReply(to: ServerId, resp: AEResponse): Actions
  {
    Actions(map[to := AppendEntriesResp(resp)], [], true, {Election}, false)
  }

  /** The answer for each verdict on a batch: none for a stale batch, otherwise the failure or the new last index. */
  function BatchReply(to: ServerId, term: Term, v: FollowerVerdict): Actions
  {
    match v
    case StaleBatch => NoActions
    case Inconsistent(i) => FollowerReply(to, AEResponse(term, InconsistentPrevEntry(i)))
    case Accept(log, _, _) => FollowerReply(to, AEResponse(term, AEResult.Success(|log|)))
  }

  function ClientReply(to: ClientId, r: CommandResponse): Actions
  {
    Actions(map[], [(to, r)], false, {}, false)
  }

  /** The AppendEntries that sends a peer every entry from `next` on, after the entry before it. */
  function CatchUp(term: Term, log: seq<Entry>, next: LogIndex, commit: LogIndex): Message
    requires 1 <= next <= |log| + 1
  {
    AppendEntriesReq(AERequest(term, next - 1, TermAt(log, next - 1), log[next - 1..], commit))
  }

  /** A message to one peer and nothing else. */
  function PeerMessage(to: ServerId, m: Message): Actions
  {
    Actions(map[to := m], [], false, {}, false)
  }

  /** The empty AppendEntries a new leader sends to every peer; its previous entry is the leader's last one. */
  function Announcement(peers: set<ServerId>, term: Term, log: seq<Entry>, commit: LogIndex): Actions
  {
    Actions(Broadcast(peers, AppendEntriesReq(AERequest(term, |log|, TermAt(log, |log|), [], commit))), [], true, {}, true)
  }

  /** The vote request a new candidate sends to every peer. */
  function Canvass(peers: set<ServerId>, term: Term, log: seq<Entry>): Actions
  {
    Actions(Broadcast(peers, RequestVoteReq(VoteRequest(term, |log|, TermAt(log, |log|)))), [], false, {Election}, true)
  }

  /** The leader bookkeeping has a next and a match index for every peer and no one else, every next index at least 1. */
  ghost predicate Covers(ls: LeaderState, peers: set<ServerId>)
  {
    && ls.nextIndex.Keys == peers
    && ls.matchIndex.Keys == peers
    && (forall p :: p in ls.nextIndex ==> ls.nextIndex[p] >= 1)
  }

  /**
   * A server's state agrees with its cluster: the leader bookkeeping covers
   * the peers, votes come only from cluster members, a candidate's own vote
   * is among them, the leader hint names a peer, and only a leader holds
   * queued proposals.
   */
  ghost predicate Consistent(id: ServerId, peers: set<ServerId>, state: ConsensusState, ls: LeaderState,
                             votes: set<ServerId>, leaderHint: Option<ServerId>)
  {
    && Covers(ls, peers)
    && votes <= peers + {id}
    && (state == Candidate ==> id in votes)
    && (leaderHint.Some? ==> leaderHint.value in peers)
    && (state != Leader ==> ls.proposals == [])
  }

  class Consensus {
    const id: ServerId
    const peers: map<ServerId, Address>
    const log: DocLog
    const machine: RegisterStateMachine

    var commitIndex: LogIndex
    var lastApplied: LogIndex
    var state: ConsensusState
    var leaderState: LeaderState
    /** The candidate's recorded votes, its own included. */
    var votes: set<ServerId>
    /** The follower's last known leader. */
    var leaderHint: Option<ServerId>
    /** The last index of the latest batch a follower accepted; shorter batches are stale. */
    var minIndex: LogIndex
    var transaction: Option<Savepoint>
    /** Every payload handed to the state machine so far, in order. */
    ghost var delivered: seq<Bytes>

    ghost predicate Valid()
      reads this
    {
      Consistent(id, peers.Keys, state, leaderState, votes, leaderHint)
    }

    /** Log, commit and apply progress, the follower's batch mark, the transaction and the register are as before. */
    twostate predicate ProgressKept()
      reads this, log, machine
    {
      && log.entries == old(log.entries)
      && commitIndex == old(commitIndex) && lastApplied == old(lastApplied)
      && minIndex == old(minIndex) && transaction == old(transaction)
      && delivered == old(delivered) && machine.value == old(machine.value)
    }

    /** Terms only grow, and a vote cast in term `term0` is kept for as long as that term lasts. */
    ghost predicate VoteKeptSince(term0: Term, vote0: Option<ServerId>)
      reads log
    {
      && log.currentTerm >= term0
      && (log.currentTerm == term0 && vote0.Some? ==> log.votedFor == vote0)
    }

    /**
     * The committed entries after `la0` were handed to the register in log
     * order, empty payloads skipped, stopping at the commit index or at the
     * end of the log, starting from the delivered payloads `d0` and the
     * register value `v0`.
     */
    ghost predicate AppliedSince(la0: LogIndex, d0: seq<Bytes>, v0: Bytes)
      reads this, log, machine
    {
      && lastApplied == AppliedIndex(la0, commitIndex, |log.entries|)
      && delivered == d0 + Commands(Between(log.entries, la0, lastApplied))
      && machine.value == ValueAfter(v0, Commands(Between(log.entries, la0, lastApplied)))
    }

    /** A new follower at commit and apply index 0, with bookkeeping for every peer. */
    constructor (id: ServerId, peers: map<ServerId, Address>, log: DocLog, machine: RegisterStateMachine)
      ensures Valid()
      ensures this.id == id && this.peers == peers && this.log == log && this.machine == machine
      ensures commitIndex == 0 && lastApplied == 0 && state == Follower
      ensures leaderState == Reinitialized(LeaderState(map[], map[], []), peers.Keys, |log.entries|)
      ensures votes == {} && leaderHint == None && minIndex == 0 && transaction == None && delivered == []
    {
      this.id := id;
      this.peers := peers;
      this.log := log;
      this.machine := machine;
      commitIndex := 0;
      lastApplied := 0;
      state := Follower;
      leaderState := Reinitialized(LeaderState(map[], map[], []), peers.Keys, |log.entries|);
      votes := {};
      leaderHint := None;
      minIndex := 0;
      transaction := None;
      delivered := [];
    }

    /**
     * Steps down to follower at `term` with `leader` as the leader hint. A
     * newer term clears the vote; within the same term the vote is kept, so
     * that no second vote of that term is granted. Queued proposals are
     * dropped with the leadership they were made under, each client being
     * answered that `leader` now leads.
     */
    method TransitionToFollower(term: Term, leader: ServerId) returns (actions: Actions)
      requires Valid() && leader in peers && term >= log.currentTerm
      modifies this, log
      ensures Valid()
      ensures state == Follower && leaderHint == Some(leader)
      ensures log.currentTerm == term && log.votedFor == StepDownVote(old(log.currentTerm), old(log.votedFor), term)
      ensures VoteKeptSince(old(log.currentTerm), old(log.votedFor))
      ensures ProgressKept() && leaderState == old(leaderState).(proposals := []) && votes == old(votes)
      ensures actions == StepDownCancelling(old(leaderState.proposals), peers[leader])
    {
      if term != log.currentTerm {
        log.SetCurrentTerm(term);
      }
      state := Follower;
      leaderHint := Some(leader);
      actions := StepDownCancelling(leaderState.proposals, peers[leader]);
      leaderState := leaderState.(proposals := []);
    }

    /**
     * The step-down as the implementation writes it: the term is stored
     * through the log store, which clears the vote even when the term is
     * unchanged, and the queued proposals stay.
     */
    method TransitionToFollowerAsWritten(term: Term, leader: ServerId) returns (actions: Actions)
      requires Valid() && leader in peers
      modifies this, log
      ensures old(leaderState.proposals) == [] ==> Valid()
      ensures state == Follower && leaderHint == Some(leader)
      ensures log.currentTerm == term && log.votedFor == None
      ensures ProgressKept() && leaderState == old(leaderState) && votes == old(votes)
      ensures actions == StepDown
    {
      log.SetCurrentTerm(term);
      state := Follower;
      leaderHint := Some(leader);
      actions := StepDown;
    }

    /** Starts an election: a new term, a vote for itself, and a vote request to every peer. */
    method TransitionToCandidate() returns (actions: Actions)
      requires Valid() && state != Leader
      modifies this, log
      ensures Valid()
      ensures state == Candidate && votes == {id}
      ensures log.currentTerm == old(log.currentTerm) + 1 && log.votedFor == Some(id)
      ensures ProgressKept() && leaderState == old(leaderState) && leaderHint == old(leaderHint)
      ensures actions == Canvass(peers.Keys, log.currentTerm, log.entries)
    {
      var term := log.IncCurrentTerm();
      log.SetVotedFor(Some(id));
      state := Candidate;
      votes := {};
      votes := votes + {id};
      actions := Canvass(peers.Keys, log.currentTerm, log.entries);
    }

    /**
     * Takes leadership: fresh per-peer bookkeeping, an empty AppendEntries to
     * every peer, and an open transaction is abandoned, restoring the commit
     * and apply indexes it saved.
     */
    method TransitionToLeader() returns (actions: Actions)
      requires Valid()
      modifies this
      ensures Valid()
      ensures state == Leader && leaderState == Reinitialized(old(leaderState), peers.Keys, |log.entries|)
      ensures actions == Announcement(peers.Keys, log.currentTerm, log.entries, old(commitIndex))
      ensures old(transaction).Some? ==>
        commitIndex == old(transaction).value.commitIndex && lastApplied == old(transaction).value.lastApplied
      ensures old(transaction).None? ==> commitIndex == old(commitIndex) && lastApplied == old(lastApplied)
      ensures transaction == None
      ensures minIndex == old(minIndex) && delivered == old(delivered) && votes == old(votes) && leaderHint == old(leaderHint)
    {
      actions := Announcement(peers.Keys, log.currentTerm, log.entries, commitIndex);
      state := Leader;
      leaderState := Reinitialized(leaderState, peers.Keys, log.LatestLogIndex());
      AbandonTransaction();
    }

    /** Drops an open transaction, restoring the commit and apply indexes saved when it began. */
    method AbandonTransaction()
      modifies this
      ensures old(transaction).Some? ==>
        commitIndex == old(transaction).value.commitIndex && lastApplied == old(transaction).value.lastApplied
      ensures old(transaction).None? ==> commitIndex == old(commitIndex) && lastApplied == old(lastApplied)
      ensures transaction == None
      ensures state == old(state) && leaderState == old(leaderState)
      ensures minIndex == old(minIndex) && delivered == old(delivered) && votes == old(votes) && leaderHint == old(leaderHint)
    {
      if transaction.Some? {
        var savepoint := transaction.value;
        commitIndex := savepoint.commitIndex;
        lastApplied := savepoint.lastApplied;
        transaction := None;
      }
    }

    /** The election timer fired: a lone server takes leadership of a new term at once, any other starts an election. */
    method ElectionTimeout() returns (actions: Actions)
      requires Valid() && state != Leader
      modifies this, log
      ensures Valid()
      ensures log.currentTerm == old(log.currentTerm) + 1 && log.votedFor == Some(id)
      ensures VoteKeptSince(old(log.currentTerm), old(log.votedFor))
      ensures ProgressKept() && leaderHint == old(leaderHint)
      ensures |peers| == 0 ==>
        && state == Leader && votes == old(votes)
        && leaderState == Reinitialized(old(leaderState), {}, |log.entries|)
        && actions == NoActions
      ensures |peers| > 0 ==>
        && state == Candidate && votes == {id} && leaderState == old(leaderState)
        && actions == Canvass(peers.Keys, log.currentTerm, log.entries)
    {
      if |peers| == 0 {
        var term := log.IncCurrentTerm();
        log.SetVotedFor(Some(id));
        state := Leader;
        leaderState := Reinitialized(leaderState, peers.Keys, log.LatestLogIndex());
        actions := NoActions;
      } else {
        actions := TransitionToCandidate();
      }
    }

    /** The heartbeat timer for `peer` fired: an empty AppendEntries whose previous entry is this server's last one. */
    method HeartbeatTimeout(peer: ServerId) returns (actions: Actions)
      ensures actions.peerMessages.Keys == {peer} && actions.clientMessages == [] && actions.timeouts == {}
      ensures !actions.clearTimeouts && !actions.clearPeerMessages
      ensures actions.peerMessages[peer].AppendEntriesReq?
      ensures var req := actions.peerMessages[peer].aeReq;
        && req.term == log.currentTerm && req.entries == [] && req.leaderCommit == commitIndex
        && req.prevLogIndex == |log.entries| && req.prevLogTerm == TermAt(log.entries, |log.entries|)
    {
      var req := AERequest(log.currentTerm, log.LatestLogIndex(), log.LatestLogTerm(), [], commitIndex);
      actions := PeerMessage(peer, AppendEntriesReq(req));
    }

    /**
     * The apply loop over the log's `entries`: hands those after `from` to the register, one at
     * a time in log order, skipping empty payloads and stopping at `commit`
     * or where the log ends; returns the index reached, each non-empty
     * entry's result by log index, and the payloads handed over.
     */
    method ApplyFrom(entries: seq<Entry>, from: LogIndex, commit: LogIndex)
      returns (la: LogIndex, results: map<LogIndex, Bytes>, ghost applied: seq<Bytes>)
      modifies machine
      ensures la == AppliedIndex(from, commit, |entries|)
      ensures applied == Commands(Between(entries, from, la))
      ensures machine.value == ValueAfter(old(machine.value), applied)
      ensures results == ApplyResults(entries, from, la, old(machine.value))
    {
      ghost var v0 := machine.value;
      applied := [];
      la := from;
      results := map[];
      while la < commit
        modifies machine
        invariant from <= la
        invariant la > from ==> la <= commit && la <= |entries|
        invariant applied == Commands(Between(entries, from, la))
        invariant machine.value == ValueAt(entries, from, la, v0)
        invariant results == ApplyResults(entries, from, la, v0)
        decreases commit - la
      {
        if la + 1 > |entries| {
          break;
        }
        var e := entries[la];
        CommandsOneMore(entries, from, la);
        ApplyResultsOneMore(entries, from, la, v0);
        if e.data != [] {
          var r := machine.Apply(e.data);
          results := results[la + 1 := r];
          applied := applied + [e.data];
        }
        la := la + 1;
      }
      ValueAtIsValueAfter(entries, from, la, v0);
    }

    /**
     * Applies the committed entries after `last_applied` to the register
     * and moves `last_applied` to the last index handed over; returns each
     * non-empty entry's result by log index.
     */
    method ApplyCommits() returns (results: map<LogIndex, Bytes>)
      modifies this, machine
      ensures AppliedSince(old(lastApplied), old(delivered), old(machine.value))
      ensures results == ApplyResults(log.entries, old(lastApplied), lastApplied, old(machine.value))
      ensures commitIndex == old(commitIndex) && minIndex == old(minIndex) && transaction == old(transaction)
      ensures state == old(state) && leaderState == old(leaderState) && votes == old(votes) && leaderHint == old(leaderHint)
    {
      var la: LogIndex;
      ghost var applied: seq<Bytes>;
      la, results, applied := ApplyFrom(log.entries, lastApplied, commitIndex);
      lastApplied := la;
      delivered := delivered + applied;
    }

    /**
     * Raises the commit index one step at a time while the next index is
     * held by a quorum, applies what became committed, and answers the
     * proposals at the front of the queue that are now committed, oldest
     * first.
     */
    method AdvanceCommitIndex() returns (actions: Actions)
      modifies this, machine
      ensures commitIndex == CommitTarget(old(leaderState.matchIndex), old(commitIndex), |log.entries|, Majority(|peers|))
      ensures AppliedSince(old(lastApplied), old(delivered), old(machine.value))
      ensures leaderState == old(leaderState).(proposals := old(leaderState.proposals)[DueCount(old(leaderState.proposals), commitIndex)..])
      ensures actions == Actions(map[],
        Answers(old(leaderState.proposals), commitIndex, ApplyResults(log.entries, old(lastApplied), lastApplied, old(machine.value))),
        false, {}, false)
      ensures minIndex == old(minIndex) && transaction == old(transaction)
      ensures state == old(state) && votes == old(votes) && leaderHint == old(leaderHint)
    {
      commitIndex := RaiseCommit(leaderState.matchIndex, commitIndex, log.LatestLogIndex(), Majority(|peers|));
      var results := ApplyCommits();
      var replies, rest := PopDue(leaderState.proposals, commitIndex, results);
      leaderState := leaderState.(proposals := rest);
      actions := Actions(map[], replies, false, {}, false);
    }

    /**
     * The follower's handling of a batch whose term is at least its own:
     * adopt the term, check the entry before the batch, drop a stale batch
     * silently, otherwise write the batch, move the commit index and apply.
     */
    method FollowerAppend(from: ServerId, req: AERequest) returns (actions: Actions)
      requires Valid() && from in peers && state == Follower && req.term >= log.currentTerm
      modifies this, log, machine
      ensures Valid()
      ensures state == Follower && log.currentTerm == req.term
      ensures old(log.currentTerm) < req.term ==> log.votedFor == None && leaderHint == Some(from)
      ensures old(log.currentTerm) == req.term ==> log.votedFor == old(log.votedFor) && leaderHint == old(leaderHint)
      ensures VoteKeptSince(old(log.currentTerm), old(log.votedFor))
      ensures leaderState == old(leaderState) && votes == old(votes) && transaction == old(transaction)
      ensures var v := CheckAppend(old(log.entries), old(minIndex), old(commitIndex), req);
        && actions == BatchReply(from, req.term, v)
        && (v.Accept? ==>
              && log.entries == v.log && minIndex == v.minIndex && commitIndex == v.commitIndex
              && AppliedSince(old(lastApplied), old(delivered), old(machine.value)))
        && (!v.Accept? ==>
              && log.entries == old(log.entries) && minIndex == old(minIndex) && commitIndex == old(commitIndex)
              && lastApplied == old(lastApplied) && delivered == old(delivered) && machine.value == old(machine.value))
    {
      if log.currentTerm < req.term {
        log.SetCurrentTerm(req.term);
        leaderHint := Some(from);
      }
      var latest := log.LatestLogIndex();
      if latest < req.prevLogIndex {
        actions := FollowerReply(from, AEResponse(log.currentTerm, InconsistentPrevEntry(req.prevLogIndex)));
        return;
      }
      var existingTerm := if req.prevLogIndex == 0 then 0 else log.EntryAt(req.prevLogIndex).term;
      if existingTerm != req.prevLogTerm {
        actions := FollowerReply(from, AEResponse(log.currentTerm, InconsistentPrevEntry(req.prevLogIndex)));
        return;
      }
      var newLatest := req.prevLogIndex + |req.entries|;
      if newLatest < minIndex {
        // A batch overtaken by a longer one that was already accepted.
        actions := NoActions;
        return;
      }
      AcceptBatch(req);
      actions := FollowerReply(from, AEResponse(log.currentTerm, AEResult.Success(log.LatestLogIndex())));
    }

    /**
     * Writes an accepted batch after `req.prevLogIndex`, records how far it
     * reached, moves the commit index up to the leader's (capped at the
     * batch's end, and never below where it was) and applies what became
     * committed.
     */
    method AcceptBatch(req: AERequest)
      requires req.prevLogIndex <= |log.entries|
      modifies this, log, machine
      ensures log.entries == AppendFrom(old(log.entries), req.prevLogIndex + 1, req.entries)
      ensures minIndex == req.prevLogIndex + |req.entries| && commitIndex == FollowerCommit(old(commitIndex), req.leaderCommit, minIndex)
      ensures AppliedSince(old(lastApplied), old(delivered), old(machine.value))
      ensures log.currentTerm == old(log.currentTerm) && log.votedFor == old(log.votedFor)
      ensures state == old(state) && leaderState == old(leaderState) && votes == old(votes)
      ensures leaderHint == old(leaderHint) && transaction == old(transaction)
    {
      log.AppendEntries(req.prevLogIndex + 1, req.entries);
      minIndex := req.prevLogIndex + |req.entries|;
      commitIndex := FollowerCommit(commitIndex, req.leaderCommit, minIndex);
      var results := ApplyCommits();
    }

    /**
     * An AppendEntries request from `from`. A request of an older term is
     * refused with this server's term and changes nothing. A candidate, or
     * a leader of an older term, first steps down to follower; then the
     * batch is handled as a follower does.
     */
    method AppendEntriesRequest(from: ServerId, req: AERequest) returns (actions: Actions)
      requires Valid() && from in peers
      modifies this, log, machine
      ensures Valid()
      ensures VoteKeptSince(old(log.currentTerm), old(log.votedFor))
      ensures req.term < old(log.currentTerm) ==>
        && unchanged(this, log, machine)
        && actions == PeerMessage(from, AppendEntriesResp(AEResponse(old(log.currentTerm), AEResult.StaleTerm)))
      ensures old(state) == Leader && req.term == old(log.currentTerm) ==>
        unchanged(this, log, machine) && actions == NoActions
      ensures req.term >= old(log.currentTerm) && !(old(state) == Leader && req.term == old(log.currentTerm)) ==>
        && state == Follower && log.currentTerm == req.term
        && leaderState == old(leaderState).(proposals := []) && votes == old(votes) && transaction == old(transaction)
        && log.votedFor == StepDownVote(old(log.currentTerm), old(log.votedFor), req.term)
        && (old(state) != Follower || old(log.currentTerm) < req.term ==> leaderHint == Some(from))
        && (old(state) == Follower && old(log.currentTerm) == req.term ==> leaderHint == old(leaderHint))
        && var v := CheckAppend(old(log.entries), old(minIndex), old(commitIndex), req);
           && actions == Then(if old(state) == Follower then NoActions else StepDownCancelling(old(leaderState.proposals), peers[from]),
                           BatchReply(from, req.term, v))
           && (v.Accept? ==>
                 && log.entries == v.log && minIndex == v.minIndex && commitIndex == v.commitIndex
                 && AppliedSince(old(lastApplied), old(delivered), old(machine.value)))
           && (!v.Accept? ==>
                 && log.entries == old(log.entries) && minIndex == old(minIndex) && commitIndex == old(commitIndex)
                 && lastApplied == old(lastApplied) && delivered == old(delivered) && machine.value == old(machine.value))
    {
      var currentTerm := log.currentTerm;
      if req.term < currentTerm {
        actions := PeerMessage(from, AppendEntriesResp(AEResponse(currentTerm, AEResult.StaleTerm)));
        return;
      }
      if state == Leader && req.term == currentTerm {
        // Two leaders in one term: the implementation treats this as a bug and stops.
        actions := NoActions;
        return;
      }
      var stepDown := NoActions;
      if state != Follower {
        stepDown := TransitionToFollower(req.term, from);
      }
      var reply := FollowerAppend(from, req);
      actions := Then(stepDown, reply);
    }

    /**
     * The follow-up to a recorded response from `from`, whose next index is
     * `nexts[from]` once recorded: a peer still behind is sent everything
     * from that index on and its next index moves past the last entry; a
     * caught-up peer gets its heartbeat timer armed and keeps its next index.
     */
    ghost predicate FollowedUp(from: ServerId, nexts: map<ServerId, LogIndex>, actions: Actions)
      reads this, log
    {
      && from in nexts && nexts[from] >= 1
      && (nexts[from] <= |log.entries| ==>
            && leaderState.nextIndex == nexts[from := |log.entries| + 1]
            && actions.peerMessages == map[from := CatchUp(log.currentTerm, log.entries, nexts[from], commitIndex)]
            && actions.timeouts == {})
      && (nexts[from] > |log.entries| ==>
            && leaderState.nextIndex == nexts
            && actions.peerMessages == map[] && actions.timeouts == {Heartbeat(from)})
      && actions.clientMessages == [] && !actions.clearTimeouts && !actions.clearPeerMessages
    }

    /** Sends `from` what it lacks, or arms its heartbeat when it lacks nothing. */
    method CatchUpPeer(from: ServerId) returns (actions: Actions)
      requires Valid() && from in peers
      modifies this
      ensures Valid()
      ensures FollowedUp(from, old(leaderState.nextIndex), actions)
      ensures leaderState.matchIndex == old(leaderState.matchIndex) && leaderState.proposals == old(leaderState.proposals)
      ensures commitIndex == old(commitIndex) && lastApplied == old(lastApplied) && delivered == old(delivered)
      ensures minIndex == old(minIndex) && transaction == old(transaction)
      ensures state == old(state) && votes == old(votes) && leaderHint == old(leaderHint)
    {
      var latest := log.LatestLogIndex();
      var next := leaderState.nextIndex[from];
      if next <= latest {
        var prev := next - 1;
        var prevTerm := if prev == 0 then 0 else log.EntryAt(prev).term;
        var message := AppendEntriesReq(AERequest(log.currentTerm, prev, prevTerm, log.entries[next - 1..latest], commitIndex));
        assert log.entries[next - 1..latest] == log.entries[next - 1..];
        leaderState := leaderState.(nextIndex := leaderState.nextIndex[from := latest + 1]);
        actions := PeerMessage(from, message);
      } else {
        actions := Actions(map[], [], false, {Heartbeat(from)}, false);
      }
    }

    /**
     * A success from `from` up to `index`: its match index rises and the
     * commit index may follow, applying and answering what became committed.
     */
    method RecordSuccess(from: ServerId, index: LogIndex) returns (actions: Actions)
      requires Valid() && from in peers
      modifies this, machine
      ensures Valid()
      ensures leaderState.matchIndex == old(leaderState.matchIndex)[from := index]
      ensures leaderState.nextIndex == old(leaderState.nextIndex)
      ensures commitIndex == CommitTarget(leaderState.matchIndex, old(commitIndex), |log.entries|, Majority(|peers|))
      ensures AppliedSince(old(lastApplied), old(delivered), old(machine.value))
      ensures leaderState.proposals == old(leaderState.proposals)[DueCount(old(leaderState.proposals), commitIndex)..]
      ensures actions == Actions(map[],
        Answers(old(leaderState.proposals), commitIndex, ApplyResults(log.entries, old(lastApplied), lastApplied, old(machine.value))),
        false, {}, false)
      ensures minIndex == old(minIndex) && transaction == old(transaction)
      ensures state == old(state) && votes == old(votes) && leaderHint == old(leaderHint)
    {
      ghost var c0 := commitIndex;
      leaderState := leaderState.(matchIndex := leaderState.matchIndex[from := index]);
      ghost var m1 := leaderState.matchIndex;
      actions := AdvanceCommitIndex();
      assert commitIndex == CommitTarget(m1, c0, |log.entries|, Majority(|peers|));
    }

    /** A success from `from` up to `index` is recorded, then the peer is followed up. */
    method RespondToSuccess(from: ServerId, index: LogIndex) returns (actions: Actions)
      requires Valid() && from in peers
      modifies this, machine
      ensures Valid()
      ensures leaderState.matchIndex == old(leaderState.matchIndex)[from := index]
      ensures commitIndex == CommitTarget(leaderState.matchIndex, old(commitIndex), |log.entries|, Majority(|peers|))
      ensures AppliedSince(old(lastApplied), old(delivered), old(machine.value))
      ensures leaderState.proposals == old(leaderState.proposals)[DueCount(old(leaderState.proposals), commitIndex)..]
      ensures actions.clientMessages ==
        Answers(old(leaderState.proposals), commitIndex, ApplyResults(log.entries, old(lastApplied), lastApplied, old(machine.value)))
      ensures FollowedUp(from, old(leaderState.nextIndex), actions.(clientMessages := []))
      ensures minIndex == old(minIndex) && transaction == old(transaction)
      ensures state == old(state) && votes == old(votes) && leaderHint == old(leaderHint)
    {
      ghost var c0, la0, d0, v0, p0, n0 := commitIndex, lastApplied, delivered, machine.value, leaderState.proposals, leaderState.nextIndex;
      var committed := RecordSuccess(from, index);
      ghost var c1, m1, p1 := commitIndex, leaderState.matchIndex, leaderState.proposals;
      assert commitIndex == CommitTarget(m1, c0, |log.entries|, Majority(|peers|));
      var more := CatchUpPeer(from);
      assert leaderState.matchIndex == m1 && commitIndex == c1 && leaderState.proposals == p1;
      // The commit step only answers clients; the follow-up only talks to the peer.
      actions := more.(clientMessages := committed.clientMessages);
    }

    /** An inconsistency report from `from`: its next index drops to `index`, then the peer is followed up. */
    method RespondToInconsistency(from: ServerId, index: LogIndex) returns (actions: Actions)
      requires Valid() && from in peers && index >= 1
      modifies this
      ensures Valid()
      ensures FollowedUp(from, old(leaderState.nextIndex)[from := index], actions)
      ensures leaderState.matchIndex == old(leaderState.matchIndex) && leaderState.proposals == old(leaderState.proposals)
      ensures commitIndex == old(commitIndex) && lastApplied == old(lastApplied) && delivered == old(delivered)
      ensures minIndex == old(minIndex) && transaction == old(transaction)
      ensures state == old(state) && votes == old(votes) && leaderHint == old(leaderHint)
    {
      leaderState := leaderState.(nextIndex := leaderState.nextIndex[from := index]);
      actions := CatchUpPeer(from);
    }

    /**
     * An AppendEntries response from `from`. A newer term makes this server a
     * follower; an older term, or a stale-term answer, is ignored. Otherwise
     * a success raises the peer's match index and may commit, an
     * inconsistency lowers its next index, an internal error records
     * nothing; in every one of these cases the peer is then followed up.
     */
    method AppendEntriesResponse(from: ServerId, resp: AEResponse) returns (actions: Actions)
      requires Valid() && from in peers
      requires resp.result.InconsistentPrevEntry? ==> resp.result.index >= 1
      modifies this, log, machine
      ensures Valid()
      ensures VoteKeptSince(old(log.currentTerm), old(log.votedFor))
      ensures old(log.currentTerm) < resp.term ==>
        && state == Follower && leaderHint == Some(from) && log.currentTerm == resp.term && log.votedFor == None
        && ProgressKept() && leaderState == old(leaderState).(proposals := []) && votes == old(votes)
        && actions == StepDownCancelling(old(leaderState.proposals), peers[from])
      ensures old(log.currentTerm) > resp.term || (old(log.currentTerm) == resp.term && resp.result.StaleTerm?) ==>
        unchanged(this, log, machine) && actions == NoActions
      ensures old(log.currentTerm) == resp.term && !resp.result.StaleTerm? ==>
        && log.entries == old(log.entries) && log.currentTerm == old(log.currentTerm) && log.votedFor == old(log.votedFor)
        && minIndex == old(minIndex) && transaction == old(transaction)
        && state == old(state) && votes == old(votes) && leaderHint == old(leaderHint)
      ensures old(log.currentTerm) == resp.term && resp.result.Success? ==>
        && leaderState.matchIndex == old(leaderState.matchIndex)[from := resp.result.index]
        && commitIndex == CommitTarget(leaderState.matchIndex, old(commitIndex), |log.entries|, Majority(|peers|))
        && AppliedSince(old(lastApplied), old(delivered), old(machine.value))
        && leaderState.proposals == old(leaderState.proposals)[DueCount(old(leaderState.proposals), commitIndex)..]
        && actions.clientMessages ==
             Answers(old(leaderState.proposals), commitIndex, ApplyResults(log.entries, old(lastApplied), lastApplied, old(machine.value)))
        && FollowedUp(from, old(leaderState.nextIndex), actions.(clientMessages := []))
      ensures old(log.currentTerm) == resp.term && resp.result.InconsistentPrevEntry? ==>
        && FollowedUp(from, old(leaderState.nextIndex)[from := resp.result.index], actions)
        && leaderState.matchIndex == old(leaderState.matchIndex) && leaderState.proposals == old(leaderState.proposals)
        && commitIndex == old(commitIndex) && lastApplied == old(lastApplied) && delivered == old(delivered)
        && machine.value == old(machine.value)
      ensures old(log.currentTerm) == resp.term && resp.result.InternalError? ==>
        && FollowedUp(from, old(leaderState.nextIndex), actions)
        && leaderState.matchIndex == old(leaderState.matchIndex) && leaderState.proposals == old(leaderState.proposals)
        && commitIndex == old(commitIndex) && lastApplied == old(lastApplied) && delivered == old(delivered)
        && machine.value == old(machine.value)
    {
      var localTerm := log.currentTerm;
      if localTerm < resp.term {
        actions := TransitionToFollower(resp.term, from);
        return;
      } else if localTerm > resp.term {
        actions := NoActions;
        return;
      }
      match resp.result {
        case Success(index) =>
          actions := RespondToSuccess(from, index);
        case InconsistentPrevEntry(index) =>
          actions := RespondToInconsistency(from, index);
        case StaleTerm =>
          actions := NoActions;
        case InternalError(_) =>
          actions := CatchUpPeer(from);
      }
    }

    /**
     * A vote request from `candidate`. A newer term first makes this server
     * a follower of that term; the decision and the recorded vote are then
     * those of `DecideVote`, on this server's term, vote and last entry.
     */
    method RequestVoteRequest(candidate: ServerId, req: VoteRequest) returns (actions: Actions)
      requires Valid() && candidate in peers
      modifies this, log
      ensures Valid()
      ensures var b := DecideVote(old(log.currentTerm), old(log.votedFor), TermAt(old(log.entries), |old(log.entries)|),
                                  |old(log.entries)|, candidate, req);
        && log.currentTerm == b.term && log.votedFor == b.votedFor
        && actions == Then(if req.term > old(log.currentTerm) then StepDownCancelling(old(leaderState.proposals), peers[candidate]) else NoActions,
                           PeerMessage(candidate, RequestVoteResp(VoteResponse(b.term, b.result))))
      ensures VoteKeptSince(old(log.currentTerm), old(log.votedFor))
      ensures req.term > old(log.currentTerm) ==>
        state == Follower && leaderHint == Some(candidate) && leaderState == old(leaderState).(proposals := [])
      ensures req.term <= old(log.currentTerm) ==>
        state == old(state) && leaderHint == old(leaderHint) && leaderState == old(leaderState)
      ensures ProgressKept() && votes == old(votes)
    {
      var localTerm := log.currentTerm;
      var stepDown := NoActions;
      if req.term > localTerm {
        stepDown := TransitionToFollower(req.term, candidate);
      }
      var newLocalTerm := log.currentTerm;
      var result: VoteResult;
      if req.term < localTerm {
        result := VoteResult.StaleTerm;
      } else if req.lastLogTerm < log.LatestLogTerm() || req.lastLogIndex < log.LatestLogIndex() {
        result := InconsistentLog;
      } else {
        match log.votedFor {
          case None =>
            log.SetVotedFor(Some(candidate));
            result := Granted;
          case Some(v) =>
            result := if v == candidate then Granted else AlreadyVoted;
        }
      }
      actions := Then(stepDown, PeerMessage(candidate, RequestVoteResp(VoteResponse(newLocalTerm, result))));
    }

    /**
     * A vote response from `from`. A newer term makes this server a
     * follower; an older one is ignored. A candidate records a granted vote
     * and takes leadership once its votes reach the quorum.
     */
    method RequestVoteResponse(from: ServerId, resp: VoteResponse) returns (actions: Actions)
      requires Valid() && from in peers
      modifies this, log
      ensures Valid()
      ensures VoteKeptSince(old(log.currentTerm), old(log.votedFor))
      ensures old(log.currentTerm) < resp.term ==>
        && state == Follower && leaderHint == Some(from) && log.currentTerm == resp.term && log.votedFor == None
        && ProgressKept() && leaderState == old(leaderState).(proposals := []) && votes == old(votes)
        && actions == StepDownCancelling(old(leaderState.proposals), peers[from])
      ensures old(log.currentTerm) > resp.term || (old(log.currentTerm) == resp.term && !(old(state) == Candidate && resp.result == Granted)) ==>
        unchanged(this, log) && actions == NoActions
      ensures old(log.currentTerm) == resp.term && old(state) == Candidate && resp.result == Granted ==>
        && votes == old(votes) + {from} && unchanged(log) && leaderHint == old(leaderHint)
        && minIndex == old(minIndex) && delivered == old(delivered)
        && (|votes| < Majority(|peers|) ==> state == Candidate && actions == NoActions && ProgressKept() && leaderState == old(leaderState))
        && (|votes| >= Majority(|peers|) ==>
              && state == Leader && leaderState == Reinitialized(old(leaderState), peers.Keys, |log.entries|)
              && actions == Announcement(peers.Keys, log.currentTerm, log.entries, old(commitIndex))
              && transaction == None
              && (old(transaction).Some? ==>
                    commitIndex == old(transaction).value.commitIndex && lastApplied == old(transaction).value.lastApplied)
              && (old(transaction).None? ==> commitIndex == old(commitIndex) && lastApplied == old(lastApplied)))
      ensures state == Leader && old(state) != Leader ==> old(state) == Candidate && |votes| >= Majority(|peers|) && id in votes
    {
      var localTerm := log.currentTerm;
      var majority := Majority(|peers|);
      actions := NoActions;
      if localTerm < resp.term {
        actions := TransitionToFollower(resp.term, from);
      } else if localTerm > resp.term {
      } else if state == Candidate {
        if resp.result == Granted {
          votes := votes + {from};
          if |votes| >= majority {
            actions := TransitionToLeader();
          }
        }
      }
    }

    /**
     * What a leader does with a proposal: the entry is appended at its own
     * term and the proposal queued; with no peers the commit index moves at
     * once and due proposals are answered, otherwise the entry is sent to
     * every peer whose next index is the new entry.
     */
    twostate predicate Proposed(from: ClientId, entry: Bytes, actions: Actions)
      reads this, log, machine
    {
      var index := |old(log.entries)| + 1;
      var queue := old(leaderState.proposals) + [(from, index)];
      && log.entries == old(log.entries) + [Entry(old(log.currentTerm), entry)]
      && log.currentTerm == old(log.currentTerm) && log.votedFor == old(log.votedFor)
      && state == Leader && votes == old(votes) && leaderHint == old(leaderHint)
      && minIndex == old(minIndex) && transaction == old(transaction)
      && (|peers| == 0 ==>
            && commitIndex == Max(old(commitIndex), |log.entries|)
            && AppliedSince(old(lastApplied), old(delivered), old(machine.value))
            && leaderState == old(leaderState).(proposals := queue[DueCount(queue, commitIndex)..])
            && actions == Actions(map[],
                 Answers(queue, commitIndex, ApplyResults(log.entries, old(lastApplied), lastApplied, old(machine.value))),
                 false, {}, false))
      && (|peers| > 0 ==>
            && commitIndex == old(commitIndex) && lastApplied == old(lastApplied)
            && delivered == old(delivered) && machine.value == old(machine.value)
            && leaderState == old(leaderState).(nextIndex := Forwarded(old(leaderState.nextIndex), index), proposals := queue)
            && actions == Actions(
                 Broadcast(Recipients(old(leaderState.nextIndex), index),
                           AppendEntriesReq(AERequest(old(log.currentTerm), index - 1, TermAt(old(log.entries), index - 1),
                                                      [Entry(old(log.currentTerm), entry)], old(commitIndex)))),
                 [], false, {}, false))
    }

    /** The leader's part of a client proposal. */
    method Propose(from: ClientId, entry: Bytes) returns (actions: Actions)
      requires Valid() && state == Leader
      modifies this, log, machine
      ensures Valid()
      ensures Proposed(from, entry, actions)
    {
      var prevLogIndex := log.LatestLogIndex();
      var prevLogTerm := log.LatestLogTerm();
      var term := log.currentTerm;
      var index := prevLogIndex + 1;
      AppendAtEnd(log.entries, [Entry(term, entry)]);
      log.AppendEntries(index, [Entry(term, entry)]);
      leaderState := leaderState.(proposals := leaderState.proposals + [(from, index)]);
      if |peers| == 0 {
        actions := CommitAlone();
      } else {
        var message := AppendEntriesReq(AERequest(term, prevLogIndex, prevLogTerm, [Entry(term, entry)], commitIndex));
        actions := ForwardEntry(index, message);
      }
    }

    /** A leader without peers is a quorum by itself: its whole log commits at once. */
    method CommitAlone() returns (actions: Actions)
      requires Valid() && |peers| == 0
      modifies this, machine
      ensures Valid()
      ensures commitIndex == Max(old(commitIndex), |log.entries|)
      ensures AppliedSince(old(lastApplied), old(delivered), old(machine.value))
      ensures leaderState == old(leaderState).(proposals := old(leaderState.proposals)[DueCount(old(leaderState.proposals), commitIndex)..])
      ensures actions == Actions(map[],
        Answers(old(leaderState.proposals), commitIndex, ApplyResults(log.entries, old(lastApplied), lastApplied, old(machine.value))),
        false, {}, false)
      ensures minIndex == old(minIndex) && transaction == old(transaction)
      ensures state == old(state) && votes == old(votes) && leaderHint == old(leaderHint)
    {
      ghost var commit0 := commitIndex;
      assert leaderState.matchIndex == map[];
      actions := AdvanceCommitIndex();
      SoloCommitsEverything(commit0, |log.entries|);
    }

    /** Sends the new entry at `index` to every peer that was waiting for exactly that index. */
    method ForwardEntry(index: LogIndex, message: Message) returns (actions: Actions)
      requires Valid()
      modifies this
      ensures Valid()
      ensures leaderState == old(leaderState).(nextIndex := Forwarded(old(leaderState.nextIndex), index))
      ensures actions == Actions(Broadcast(Recipients(old(leaderState.nextIndex), index), message), [], false, {}, false)
      ensures commitIndex == old(commitIndex) && lastApplied == old(lastApplied) && delivered == old(delivered)
      ensures minIndex == old(minIndex) && transaction == old(transaction)
      ensures state == old(state) && votes == old(votes) && leaderHint == old(leaderHint)
    {
      var sent, nextIndex := SendNewEntry(leaderState.nextIndex, index, message);
      leaderState := leaderState.(nextIndex := nextIndex);
      actions := Actions(sent, [], false, {}, false);
    }

    /**
     * A client proposal. Without a known leader the client is told so; a
     * follower names its leader's address; a leader proposes the entry.
     */
    method ProposalRequest(from: ClientId, entry: Bytes) returns (actions: Actions)
      requires Valid()
      modifies this, log, machine
      ensures Valid()
      ensures old(state) == Candidate || (old(state) == Follower && old(leaderHint).None?) ==>
        unchanged(this, log, machine) && actions == ClientReply(from, UnknownLeader)
      ensures old(state) == Follower && old(leaderHint).Some? ==>
        unchanged(this, log, machine) && actions == ClientReply(from, NotLeader(peers[old(leaderHint).value]))
      ensures old(state) == Leader ==> Proposed(from, entry, actions)
    {
      if state == Candidate || (state == Follower && leaderHint.None?) {
        actions := ClientReply(from, UnknownLeader);
      } else if state == Follower {
        actions := ClientReply(from, NotLeader(peers[leaderHint.value]));
      } else {
        actions := Propose(from, entry);
      }
    }

    /**
     * A client query. Without a known leader the client is told so;
     * otherwise, follower or leader, the query is answered from the local
     * register.
     */
    method QueryRequest(from: ClientId, query: Bytes) returns (actions: Actions)
      ensures state == Candidate || (state == Follower && leaderHint.None?) ==> actions == ClientReply(from, UnknownLeader)
      ensures state == Leader || (state == Follower && leaderHint.Some?) ==>
        actions == ClientReply(from, CommandResponse.Success(machine.value))
    {
      if state == Candidate || (state == Follower && leaderHint.None?) {
        actions := ClientReply(from, UnknownLeader);
      } else {
        var result := machine.Query(query);
        actions := ClientReply(from, CommandResponse.Success(result));
      }
    }

    /** A peer-side transaction start: a server that is not leader and has no open transaction saves a savepoint. */
    method TransactionBegin()
      modifies this
      ensures state != Leader && old(transaction).None? ==>
        transaction == Some(Savepoint(commitIndex, lastApplied, minIndex))
      ensures state == Leader || old(transaction).Some? ==> transaction == old(transaction)
      ensures commitIndex == old(commitIndex) && lastApplied == old(lastApplied) && minIndex == old(minIndex)
      ensures state == old(state) && leaderState == old(leaderState) && votes == old(votes) && leaderHint == old(leaderHint)
      ensures delivered == old(delivered)
    {
      if state != Leader {
        if transaction.None? {
          transaction := Some(Savepoint(commitIndex, lastApplied, minIndex));
        }
      }
    }

    /** A peer-side transaction end: the open transaction, if any, is closed and its savepoint dropped. */
    method TransactionCommit()
      modifies this
      ensures transaction == None
      ensures commitIndex == old(commitIndex) && lastApplied == old(lastApplied) && minIndex == old(minIndex)
      ensures state == old(state) && leaderState == old(leaderState) && votes == old(votes) && leaderHint == old(leaderHint)
      ensures delivered == old(delivered)
    {
      if transaction.Some? {
        transaction := None;
      }
    }

    /**
     * A peer-side transaction rollback: the commit index, apply index and
     * batch mark return to the savepoint and the log is cut back to the
     * saved commit index.
     */
    method TransactionRollback()
      requires Valid()
      modifies this, log
      ensures Valid()
      ensures old(transaction).None? ==> unchanged(this, log)
      ensures old(transaction).Some? ==>
        var savepoint := old(transaction).value;
        && commitIndex == savepoint.commitIndex && lastApplied == savepoint.lastApplied && minIndex == savepoint.minIndex
        && log.entries == TruncateTo(old(log.entries), savepoint.commitIndex)
        && transaction == None
        && log.currentTerm == old(log.currentTerm) && log.votedFor == old(log.votedFor)
        && state == old(state) && leaderState == old(leaderState) && votes == old(votes) && leaderHint == old(leaderHint)
        && delivered == old(delivered)
    {
      if transaction.Some? {
        var savepoint := transaction.value;
        minIndex := savepoint.minIndex;
        commitIndex := savepoint.commitIndex;
        lastApplied := savepoint.lastApplied;
        log.Truncate(commitIndex);
        transaction := None;
      }
    }
  }

  /**
   * The double vote of the step-down as written: a candidate that voted for
   * itself steps down for a leader of its own term, takes that leader's
   * batch as a follower, and then grants its vote of the same term to a
   * different candidate whose log is as long as its own.
   */
  method RegrantAfterStepDownAsWritten(c: Consensus, leader: ServerId, other: ServerId, req: AERequest)
    returns (granted: bool)
    requires c.Valid() && c.state == Candidate && c.log.votedFor == Some(c.id)
    requires leader in c.peers && other in c.peers && other != c.id && req.term == c.log.currentTerm
    modifies c, c.log, c.machine
    ensures c.log.currentTerm == old(c.log.currentTerm)
    ensures granted && c.log.votedFor == Some(other)
  {
    var stepDown := c.TransitionToFollowerAsWritten(req.term, leader);
    var reply := c.FollowerAppend(leader, req);
    var length := c.log.LatestLogIndex();
    var lastTerm := c.log.LatestLogTerm();
    var answer := c.RequestVoteRequest(other, VoteRequest(req.term, length, lastTerm));
    granted := other in answer.peerMessages && answer.peerMessages[other] == RequestVoteResp(VoteResponse(req.term, Granted));
  }

  /**
   * The same events with the corrected step-down: a server that has voted
   * in its current term, and then receives an AppendEntries of that term,
   * grants no vote of that term to anyone else and keeps its vote.
   */
  method NoRegrantAfterStepDown(c: Consensus, leader: ServerId, voted: ServerId, other: ServerId,
                                req: AERequest, ballot: VoteRequest)
    returns (granted: bool)
    requires c.Valid() && c.log.votedFor == Some(voted)
    requires leader in c.peers && other in c.peers && other != voted
    requires req.term == c.log.currentTerm && ballot.term == req.term
    modifies c, c.log, c.machine
    ensures c.log.currentTerm == old(c.log.currentTerm)
    ensures !granted && c.log.votedFor == Some(voted)
  {
    var reply := c.AppendEntriesRequest(leader, req);
    var answer := c.RequestVoteRequest(other, ballot);
    granted := other in answer.peerMessages && answer.peerMessages[other].RequestVoteResp?
      && answer.peerMessages[other].rvResp.result == Granted;
  }
}
