/**
 * Log replication as pure decisions: how a follower judges an AppendEntries
 * batch, how far a leader may move its commit index, which queued proposals
 * are answered, and which payloads reach the state machine.
 */
module Replication {
  import opened Types
  import opened Messages
  import opened Storage
  import opened Register
  import Election

  /** A follower's judgement of an AppendEntries batch it did not reject for its term. */
  datatype FollowerVerdict =
    | Inconsistent(index: LogIndex)
    | StaleBatch
    | Accept(log: seq<Entry>, minIndex: LogIndex, commitIndex: LogIndex)

  /**
   * The follower's commit index after accepting a batch that ends at
   * `newLatest`, as the implementation sets it: the leader's commit index
   * capped at the end of the batch, whatever the follower's commit index was.
   */
  function FollowerCommitAsWritten(leaderCommit: LogIndex, newLatest: LogIndex): (c: LogIndex)
    ensures c <= leaderCommit && c <= newLatest
    ensures c == leaderCommit || c == newLatest
  {
    Min(leaderCommit, newLatest)
  }

  /**
   * The follower's commit index after accepting a batch, corrected so that
   * it never moves backwards: a late batch carrying an older leader commit
   * leaves a follower at `commit` where it is.
   */
  function FollowerCommit(commit: LogIndex, leaderCommit: LogIndex, newLatest: LogIndex): LogIndex
  {
    Max(commit, FollowerCommitAsWritten(leaderCommit, newLatest))
  }

  /**
   * The corrected commit index never regresses, agrees with the
   * implementation whenever the implementation does not regress, and moves
   * beyond `commit` only to an index that is both committed by the leader
   * and within the batch.
   */
  lemma FollowerCommitNeverMovesBack(commit: LogIndex, leaderCommit: LogIndex, newLatest: LogIndex)
    ensures FollowerCommit(commit, leaderCommit, newLatest) >= commit
    ensures FollowerCommitAsWritten(leaderCommit, newLatest) >= commit ==>
      FollowerCommit(commit, leaderCommit, newLatest) == FollowerCommitAsWritten(leaderCommit, newLatest)
    ensures FollowerCommitAsWritten(leaderCommit, newLatest) < commit ==>
      FollowerCommit(commit, leaderCommit, newLatest) == commit
    ensures FollowerCommit(commit, leaderCommit, newLatest) > commit ==>
      FollowerCommit(commit, leaderCommit, newLatest) <= leaderCommit &&
      FollowerCommit(commit, leaderCommit, newLatest) <= newLatest
  {
  }

  /**
   * The follower-side checks on a batch, given the follower's log, the
   * highest index any earlier accepted batch reached (`minIndex`) and the
   * follower's commit index.
   */
  function CheckAppend(log: seq<Entry>, minIndex: LogIndex, commit: LogIndex, req: AERequest): (v: FollowerVerdict)
    ensures v.Inconsistent? <==> |log| < req.prevLogIndex || TermAt(log, req.prevLogIndex) != req.prevLogTerm
    ensures v.Inconsistent? ==> v.index == req.prevLogIndex
    ensures v.StaleBatch? <==> !v.Inconsistent? && req.prevLogIndex + |req.entries| < minIndex
    ensures v.Accept? ==>
      && v.log == AppendFrom(log, req.prevLogIndex + 1, req.entries)
      && TermAt(v.log, req.prevLogIndex) == req.prevLogTerm
      && v.minIndex == |v.log| == req.prevLogIndex + |req.entries|
      && v.commitIndex == FollowerCommit(commit, req.leaderCommit, |v.log|)
  {
    if |log| < req.prevLogIndex then Inconsistent(req.prevLogIndex)
    else if TermAt(log, req.prevLogIndex) != req.prevLogTerm then Inconsistent(req.prevLogIndex)
    else
      var newLatest := req.prevLogIndex + |req.entries|;
      if newLatest < minIndex then StaleBatch
      else Accept(AppendFrom(log, req.prevLogIndex + 1, req.entries), newLatest, FollowerCommit(commit, req.leaderCommit, newLatest))
  }

  /**
   * After a batch is accepted, a batch that ends below it is never applied,
   * whatever its contents: a shorter batch delivered late cannot drop the
   * tail the longer one wrote.
   */
  lemma ShorterLateBatchNeverTruncates(log: seq<Entry>, minIndex: LogIndex, commit: LogIndex, long: AERequest, short: AERequest)
    requires CheckAppend(log, minIndex, commit, long).Accept?
    requires short.prevLogIndex + |short.entries| < long.prevLogIndex + |long.entries|
    ensures var v := CheckAppend(log, minIndex, commit, long);
            !CheckAppend(v.log, v.minIndex, v.commitIndex, short).Accept?
  {
  }

  /**
   * Two entries sent at once, then the first of them alone: the follower
   * keeps both, and answers the first batch with index 2.
   */
  lemma AppendReorderScenario(value: Bytes)
    ensures var both := AERequest(1, 0, 0, [Entry(1, value), Entry(1, value)], 0);
            var first := AERequest(1, 0, 0, [Entry(1, value)], 0);
            var v := CheckAppend([], 0, 0, both);
            v.Accept? && v.log == [Entry(1, value), Entry(1, value)] &&
            CheckAppend(v.log, v.minIndex, v.commitIndex, first).StaleBatch?
  {
  }

  /**
   * A follower at commit index 2 receives a late heartbeat that carries the
   * leader's older commit index 1: as written its commit index falls back
   * to 1, while the corrected check keeps it at 2.
   */
  lemma FollowerCommitCanMoveBack()
    ensures var log := [Entry(1, [1]), Entry(1, [2])];
            var late := AERequest(1, 2, 1, [], 1);
            var v := CheckAppend(log, 2, 2, late);
            && v.Accept? && v.log == log
            && FollowerCommitAsWritten(late.leaderCommit, |v.log|) == 1
            && v.commitIndex == 2
  {
  }

  /** The peers whose match index reaches `index`. */
  function Holders(matchIndex: map<ServerId, LogIndex>, index: LogIndex): set<ServerId>
  {
    set p | p in matchIndex && matchIndex[p] >= index
  }

  /** How many servers hold index `index`: the peers whose match index reaches it, plus the leader itself. */
  function MatchCount(matchIndex: map<ServerId, LogIndex>, index: LogIndex): (n: nat)
    ensures 1 <= n <= |matchIndex| + 1
  {
    Election.SubsetCardinality(Holders(matchIndex, index), matchIndex.Keys);
    |Holders(matchIndex, index)| + 1
  }

  /** A later index is held by no more servers than an earlier one. */
  lemma {:induction false} MatchCountAntitone(matchIndex: map<ServerId, LogIndex>, i: LogIndex, j: LogIndex)
    requires i <= j
    ensures MatchCount(matchIndex, j) <= MatchCount(matchIndex, i)
  {
    Election.SubsetCardinality(Holders(matchIndex, j), Holders(matchIndex, i));
  }

  /**
   * Where the leader's commit index ends up when it is raised one index at a
   * time from `commit`, while below `latest` and while the next index is held
   * by `majority` servers.
   */
  function CommitTarget(matchIndex: map<ServerId, LogIndex>, commit: LogIndex, latest: LogIndex, majority: nat): (c: LogIndex)
    ensures c >= commit
    ensures c > commit ==> c <= latest
    ensures forall i :: commit < i <= c ==> MatchCount(matchIndex, i) >= majority
    ensures c < latest ==> MatchCount(matchIndex, c + 1) < majority
    decreases latest - commit
  {
    if commit < latest && MatchCount(matchIndex, commit + 1) >= majority then
      CommitTarget(matchIndex, commit + 1, latest, majority)
    else
      commit
  }

  /**
   * Stopping at the first index without a quorum loses nothing: no index
   * between the result and `latest` is held by a quorum either.
   */
  lemma {:induction false} CommitTargetIsMaximal(matchIndex: map<ServerId, LogIndex>, commit: LogIndex, latest: LogIndex, majority: nat, j: LogIndex)
    requires CommitTarget(matchIndex, commit, latest, majority) < j <= latest
    ensures MatchCount(matchIndex, j) < majority
  {
    var c := CommitTarget(matchIndex, commit, latest, majority);
    MatchCountAntitone(matchIndex, c + 1, j);
  }

  /**
   * How many proposals at the front of the queue are due for an answer: the
   * longest prefix whose log indexes are committed.
   */
  function DueCount(proposals: seq<(ClientId, LogIndex)>, commit: LogIndex): (n: nat)
    ensures n <= |proposals|
    ensures forall k :: 0 <= k < n ==> proposals[k].1 <= commit
    ensures n < |proposals| ==> proposals[n].1 > commit
  {
    if proposals == [] || proposals[0].1 > commit then 0
    else 1 + DueCount(proposals[1..], commit)
  }

  /** The answer for a committed index: the state machine's result, or the empty value when applying it gave none. */
  function ReplyData(results: map<LogIndex, Bytes>, index: LogIndex): Bytes
  {
    if index in results then results[index] else []
  }

  /**
   * The replies to the due proposals, oldest first, each carrying the result
   * of applying its entry.
   */
  function Answers(proposals: seq<(ClientId, LogIndex)>, commit: LogIndex, results: map<LogIndex, Bytes>)
    : (r: seq<(ClientId, CommandResponse)>)
    ensures |r| == DueCount(proposals, commit)
    ensures forall k :: 0 <= k < |r| ==>
      r[k] == (proposals[k].0, CommandResponse.Success(ReplyData(results, proposals[k].1)))
  {
    if proposals == [] || proposals[0].1 > commit then []
    else [(proposals[0].0, CommandResponse.Success(ReplyData(results, proposals[0].1)))]
         + Answers(proposals[1..], commit, results)
  }

  /**
   * The replies as the implementation computes them: it looks the result of every
   * due index up in the map of results and fails (`None`) on the first index
   * that has none.
   */
  function AnswersAsWritten(proposals: seq<(ClientId, LogIndex)>, commit: LogIndex, results: map<LogIndex, Bytes>)
    : (r: Option<seq<(ClientId, CommandResponse)>>)
    ensures r.Some? <==> forall k :: 0 <= k < DueCount(proposals, commit) ==> proposals[k].1 in results
    ensures r.Some? ==> r.value == Answers(proposals, commit, results)
  {
    if proposals == [] || proposals[0].1 > commit then Some([])
    else if proposals[0].1 !in results then None
    else
      match AnswersAsWritten(proposals[1..], commit, results)
      case None => None
      case Some(rest) => Some([(proposals[0].0, CommandResponse.Success(results[proposals[0].1]))] + rest)
  }

  /** The non-empty payloads of `entries`, in log order: what is handed to the state machine. */
  function Commands(entries: seq<Entry>): (r: seq<Bytes>)
    ensures |r| <= |entries|
    ensures forall k :: 0 <= k < |r| ==> r[k] != []
  {
    if entries == [] then []
    else (if entries[0].data == [] then [] else [entries[0].data]) + Commands(entries[1..])
  }

  lemma {:induction false} CommandsAppend(a: seq<Entry>, b: seq<Entry>)
    ensures Commands(a + b) == Commands(a) + Commands(b)
  {
    if a == [] {
      assert a + b == b;
    } else {
      assert (a + b)[0] == a[0];
      assert (a + b)[1..] == a[1..] + b;
      CommandsAppend(a[1..], b);
    }
  }

  /** Every non-empty payload is delivered exactly once and in order; empty ones are skipped. */
  lemma {:induction false} CommandsOfOneEntry(entries: seq<Entry>, e: Entry)
    ensures Commands(entries + [e]) == Commands(entries) + (if e.data == [] then [] else [e.data])
  {
    CommandsAppend(entries, [e]);
    assert [e][1..] == [];
  }

  /** The entries at log indexes `lo + 1 .. hi`, or none when that range is empty or runs past the log. */
  function Between(log: seq<Entry>, lo: LogIndex, hi: LogIndex): seq<Entry>
  {
    if lo < hi <= |log| then log[lo..hi] else []
  }

  /**
   * Where `last_applied` ends when applying runs from `la0` towards `commit`
   * over a log of `len` entries, stopping early at the end of the log.
   */
  function AppliedIndex(la0: LogIndex, commit: LogIndex, len: nat): (la: LogIndex)
    ensures la >= la0
    ensures la > la0 ==> la <= len && la <= commit
    ensures la0 <= commit ==> la <= commit
    ensures la0 < commit && la0 < len ==> la == Min(commit, len)
  {
    if la0 < commit && la0 < len then Min(commit, len) else la0
  }

  /** Whether log index `i` holds an entry with a non-empty payload. */
  predicate HasPayload(log: seq<Entry>, i: LogIndex)
  {
    1 <= i <= |log| && log[i - 1].data != []
  }

  /** The indexes in `la0 + 1 .. la` whose payload is not empty: those that produce a result. */
  function ResultIndexes(log: seq<Entry>, la0: LogIndex, la: LogIndex): set<LogIndex>
  {
    set i | la0 < i <= la && HasPayload(log, i)
  }

  /**
   * The register's value once the entries `la0 + 1 .. la` have been applied
   * to a register holding `v0`: the last non-empty payload among them, or
   * `v0` when there is none.
   */
  function ValueAt(log: seq<Entry>, la0: LogIndex, la: LogIndex, v0: Bytes): Bytes
    decreases la
  {
    if la <= la0 || la > |log| then v0
    else if log[la - 1].data != [] then log[la - 1].data
    else ValueAt(log, la0, la - 1, v0)
  }

  /**
   * The results of applying the entries after `la0` up to `la`, one at a
   * time, to a register holding `v0`: each index with a payload maps to what
   * the register answered for it, the value it held just before.
   */
  function ApplyResults(log: seq<Entry>, la0: LogIndex, la: LogIndex, v0: Bytes): map<LogIndex, Bytes>
    decreases la
  {
    if la <= la0 || la > |log| then map[]
    else
      var earlier := ApplyResults(log, la0, la - 1, v0);
      if log[la - 1].data == [] then earlier
      else earlier[la := ValueAt(log, la0, la - 1, v0)]
  }

  /**
   * A proposal with an empty payload on a single-server cluster: once
   * committed, applying it yields no result, so the implementation's lookup of that
   * result fails, while the corrected answers reply with the empty value.
   */
  lemma EmptyProposalHasNoResult(client: ClientId)
    ensures var log := [Entry(1, [])];
            var results := ApplyResults(log, 0, 1, []);
            && results == map[]
            && AnswersAsWritten([(client, 1)], 1, results) == None
            && Answers([(client, 1)], 1, results) == [(client, CommandResponse.Success([]))]
  {
  }

  /**
   * A proposal whose entry was applied in an earlier step: index 1, with
   * payload [1], was applied to a register holding [7], which answered [7].
   * A later step that makes the proposal due applies nothing, so its results
   * lack index 1: the implementation's lookup fails, and `Answers` replies
   * with the empty value instead of [7].
   */
  lemma EarlierAppliedProposalHasNoResult(client: ClientId)
    ensures var log := [Entry(1, [1])];
            var earlier := ApplyResults(log, 0, 1, [7]);
            var results := ApplyResults(log, 1, 1, [1]);
            && earlier == map[1 := [7]]
            && results == map[]
            && AnswersAsWritten([(client, 1)], 1, results) == None
            && Answers([(client, 1)], 1, results) == [(client, CommandResponse.Success([]))]
  {
  }

  /**
   * When every due proposal's entry is applied in the same step, the
   * implementation's lookup of its result succeeds exactly when none of
   * them has an empty payload, and each answer then carries the register's
   * result for that proposal's own entry.
   */
  lemma {:induction false} DueProposalsApplied(proposals: seq<(ClientId, LogIndex)>, commit: LogIndex,
                                               log: seq<Entry>, la0: LogIndex, la: LogIndex, v0: Bytes)
    requires la <= |log|
    requires forall k :: 0 <= k < DueCount(proposals, commit) ==> la0 < proposals[k].1 <= la
    ensures AnswersAsWritten(proposals, commit, ApplyResults(log, la0, la, v0)).Some? <==>
      forall k :: 0 <= k < DueCount(proposals, commit) ==> HasPayload(log, proposals[k].1)
    ensures forall k :: 0 <= k < DueCount(proposals, commit) && HasPayload(log, proposals[k].1) ==>
      Answers(proposals, commit, ApplyResults(log, la0, la, v0))[k].1 ==
        CommandResponse.Success(ValueAfter(v0, Commands(Between(log, la0, proposals[k].1 - 1))))
  {
    var results := ApplyResults(log, la0, la, v0);
    DueResultsFound(proposals, commit, log, la0, la, v0);
    forall i | i in results
      ensures la0 < i && results[i] == ValueAfter(v0, Commands(Between(log, la0, i - 1)))
    {
      ApplyResultsValues(log, la0, la, v0, i);
    }
    AnswersFromResults(proposals, commit, results, log, la0, v0);
  }

  /** The due proposals that have a result are exactly those with a payload. */
  lemma DueResultsFound(proposals: seq<(ClientId, LogIndex)>, commit: LogIndex,
                        log: seq<Entry>, la0: LogIndex, la: LogIndex, v0: Bytes)
    requires la <= |log|
    requires forall k :: 0 <= k < DueCount(proposals, commit) ==> la0 < proposals[k].1 <= la
    ensures forall k :: 0 <= k < DueCount(proposals, commit) ==>
      (proposals[k].1 in ApplyResults(log, la0, la, v0) <==> HasPayload(log, proposals[k].1))
  {
    var results := ApplyResults(log, la0, la, v0);
    ApplyResultsKeys(log, la0, la, v0);
    forall k | 0 <= k < DueCount(proposals, commit)
      ensures proposals[k].1 in results <==> HasPayload(log, proposals[k].1)
    {
      assert proposals[k].1 in results <==> proposals[k].1 in ResultIndexes(log, la0, la);
    }
  }

  /**
   * Answers from a map of results that holds an entry exactly for the due
   * proposals with a payload, each the register's value before that entry.
   */
  lemma AnswersFromResults(proposals: seq<(ClientId, LogIndex)>, commit: LogIndex, results: map<LogIndex, Bytes>,
                           log: seq<Entry>, la0: LogIndex, v0: Bytes)
    requires forall k :: 0 <= k < DueCount(proposals, commit) ==>
      (proposals[k].1 in results <==> HasPayload(log, proposals[k].1))
    requires forall i :: i in results ==> la0 < i && results[i] == ValueAfter(v0, Commands(Between(log, la0, i - 1)))
    ensures AnswersAsWritten(proposals, commit, results).Some? <==>
      forall k :: 0 <= k < DueCount(proposals, commit) ==> HasPayload(log, proposals[k].1)
    ensures forall k :: 0 <= k < DueCount(proposals, commit) && HasPayload(log, proposals[k].1) ==>
      Answers(proposals, commit, results)[k].1 ==
        CommandResponse.Success(ValueAfter(v0, Commands(Between(log, la0, proposals[k].1 - 1))))
  {
    forall k | 0 <= k < DueCount(proposals, commit) && HasPayload(log, proposals[k].1)
      ensures Answers(proposals, commit, results)[k].1 ==
        CommandResponse.Success(ValueAfter(v0, Commands(Between(log, la0, proposals[k].1 - 1))))
    {
      AnsweredWithResult(proposals, commit, results, k, results[proposals[k].1]);
    }
  }

  /** A due proposal whose index has the result `value` is answered with `value`. */
  lemma AnsweredWithResult(proposals: seq<(ClientId, LogIndex)>, commit: LogIndex,
                           results: map<LogIndex, Bytes>, k: nat, value: Bytes)
    requires k < DueCount(proposals, commit) && proposals[k].1 in results
    requires results[proposals[k].1] == value
    ensures Answers(proposals, commit, results)[k].1 == CommandResponse.Success(value)
  {
  }

  /** The peers a new entry at `index` is sent to: those whose next index is exactly `index`. */
  function Recipients(nextIndex: map<ServerId, LogIndex>, index: LogIndex): set<ServerId>
  {
    set p | p in nextIndex && nextIndex[p] == index
  }

  /** The next indexes after sending the entry at `index`: the recipients move past it. */
  function Forwarded(nextIndex: map<ServerId, LogIndex>, index: LogIndex): (r: map<ServerId, LogIndex>)
    ensures r.Keys == nextIndex.Keys
    ensures forall p :: p in r ==> r[p] == if p in Recipients(nextIndex, index) then index + 1 else nextIndex[p]
  {
    map p | p in nextIndex :: if nextIndex[p] == index then index + 1 else nextIndex[p]
  }

  /** Once forwarded, no peer is waiting for `index` any more: the same entry is never sent twice this way. */
  lemma ForwardedSendsOnce(nextIndex: map<ServerId, LogIndex>, index: LogIndex)
    ensures Recipients(Forwarded(nextIndex, index), index) == {}
    ensures forall p :: p in nextIndex ==> Forwarded(nextIndex, index)[p] >= nextIndex[p]
  {
  }

  /**
   * A heartbeat (no entries, previous entry = the leader's last entry) sent
   * to a follower whose log equals the leader's is accepted and leaves the
   * log as it is.
   */
  lemma HeartbeatKeepsMatchingLog(log: seq<Entry>, minIndex: LogIndex, commit: LogIndex, term: Term, leaderCommit: LogIndex)
    requires minIndex <= |log|
    ensures var v := CheckAppend(log, minIndex, commit, AERequest(term, |log|, TermAt(log, |log|), [], leaderCommit));
            v.Accept? && v.log == log && v.commitIndex == Max(commit, Min(leaderCommit, |log|))
  {
  }

  /** Stepping from `lo` to `hi + 1` adds the entry at index `hi + 1`. */
  lemma BetweenSnoc(log: seq<Entry>, lo: LogIndex, hi: LogIndex)
    requires lo <= hi < |log|
    ensures Between(log, lo, hi + 1) == Between(log, lo, hi) + [log[hi]]
  {
  }

  /** On a single-server cluster every index is held by a quorum, so the commit index reaches the end of the log. */
  lemma SoloCommitsEverything(commit: LogIndex, latest: LogIndex)
    ensures CommitTarget(map[], commit, latest, Election.Majority(0)) == Max(commit, latest)
  {
  }

  /** Applying one more entry delivers its payload, when not empty, after the others. */
  lemma {:induction false} CommandsOneMore(log: seq<Entry>, la0: LogIndex, la: LogIndex)
    requires la0 <= la < |log|
    ensures Commands(Between(log, la0, la + 1)) ==
      Commands(Between(log, la0, la)) + (if log[la].data == [] then [] else [log[la].data])
  {
    BetweenSnoc(log, la0, la);
    CommandsOfOneEntry(Between(log, la0, la), log[la]);
  }

  /** One more applied entry adds its index to those with a result exactly when its payload is not empty. */
  lemma ResultIndexesOneMore(log: seq<Entry>, la0: LogIndex, la: LogIndex)
    requires la0 <= la < |log|
    ensures ResultIndexes(log, la0, la + 1) ==
      if log[la].data == [] then ResultIndexes(log, la0, la) else ResultIndexes(log, la0, la) + {la + 1}
  {
  }

  /** A non-empty payload becomes the register's value; an empty one leaves it. */
  lemma ValueOneMore(log: seq<Entry>, la0: LogIndex, la: LogIndex, v0: Bytes)
    requires la0 <= la < |log|
    ensures ValueAfter(v0, Commands(Between(log, la0, la + 1))) ==
      if log[la].data == [] then ValueAfter(v0, Commands(Between(log, la0, la))) else log[la].data
  {
    CommandsOneMore(log, la0, la);
  }

  /** One more applied entry with a payload adds the register's value before it, keyed by its index. */
  lemma ApplyResultsOneMore(log: seq<Entry>, la0: LogIndex, la: LogIndex, v0: Bytes)
    requires la0 <= la < |log|
    ensures ApplyResults(log, la0, la + 1, v0) ==
      if log[la].data == [] then ApplyResults(log, la0, la, v0)
      else ApplyResults(log, la0, la, v0)[la + 1 := ValueAt(log, la0, la, v0)]
  {
  }

  /** The value reached entry by entry is the last of the commands handed over, or `v0`. */
  lemma {:induction false} ValueAtIsValueAfter(log: seq<Entry>, la0: LogIndex, la: LogIndex, v0: Bytes)
    ensures ValueAt(log, la0, la, v0) == ValueAfter(v0, Commands(Between(log, la0, la)))
    decreases la
  {
    if la > la0 && la <= |log| {
      ValueAtIsValueAfter(log, la0, la - 1, v0);
      var before := Commands(Between(log, la0, la - 1));
      CommandsOneMore(log, la0, la - 1);
      if log[la - 1].data == [] {
        assert Commands(Between(log, la0, la)) == before + [];
        assert before + [] == before;
      } else {
        assert Commands(Between(log, la0, la)) == before + [log[la - 1].data];
        ValueAfterSnoc(v0, before, log[la - 1].data);
      }
    } else {
      assert ValueAt(log, la0, la, v0) == v0;
      assert Commands(Between(log, la0, la)) == [];
    }
  }

  /** The results cover exactly the applied indexes with a payload. */
  lemma {:induction false} ApplyResultsKeys(log: seq<Entry>, la0: LogIndex, la: LogIndex, v0: Bytes)
    requires la <= |log|
    ensures ApplyResults(log, la0, la, v0).Keys == ResultIndexes(log, la0, la)
    decreases la
  {
    if la > la0 {
      ApplyResultsKeys(log, la0, la - 1, v0);
      ResultIndexesOneMore(log, la0, la - 1);
    } else {
      assert ResultIndexes(log, la0, la) == {};
    }
  }

  /** Each result is the value the register held just before its entry was applied. */
  lemma {:induction false} ApplyResultsValues(log: seq<Entry>, la0: LogIndex, la: LogIndex, v0: Bytes, i: LogIndex)
    requires i in ApplyResults(log, la0, la, v0)
    ensures la0 < i <= la
    ensures ApplyResults(log, la0, la, v0)[i] == ValueAfter(v0, Commands(Between(log, la0, i - 1)))
    decreases la
  {
    if la > la0 && la <= |log| {
      var earlier := ApplyResults(log, la0, la - 1, v0);
      if i in earlier {
        ApplyResultsValues(log, la0, la - 1, v0, i);
      } else {
        ValueAtIsValueAfter(log, la0, i - 1, v0);
      }
    }
  }

  /**
   * The leader's commit loop: from `commit`, step to the next index while
   * it is within the log and held by `majority` servers.
   */
  method RaiseCommit(matchIndex: map<ServerId, LogIndex>, commit: LogIndex, latest: LogIndex, majority: nat)
    returns (c: LogIndex)
    ensures c == CommitTarget(matchIndex, commit, latest, majority)
  {
    c := commit;
    while c < latest
      invariant CommitTarget(matchIndex, c, latest, majority) == CommitTarget(matchIndex, commit, latest, majority)
      decreases latest - c
    {
      if MatchCount(matchIndex, c + 1) >= majority {
        c := c + 1;
      } else {
        break;
      }
    }
  }

  /**
   * The leader's answer loop: pops the proposals at the front of the queue
   * whose index is committed, oldest first, answering each with its result.
   */
  method PopDue(queue: seq<(ClientId, LogIndex)>, commit: LogIndex, results: map<LogIndex, Bytes>)
    returns (replies: seq<(ClientId, CommandResponse)>, rest: seq<(ClientId, LogIndex)>)
    ensures replies == Answers(queue, commit, results)
    ensures rest == queue[DueCount(queue, commit)..]
  {
    rest := queue;
    replies := [];
    while rest != [] && rest[0].1 <= commit
      invariant |replies| <= DueCount(queue, commit)
      invariant rest == queue[|replies|..]
      invariant forall k :: 0 <= k < |replies| ==>
        replies[k] == (queue[k].0, CommandResponse.Success(ReplyData(results, queue[k].1)))
      decreases |rest|
    {
      replies := replies + [(rest[0].0, CommandResponse.Success(ReplyData(results, rest[0].1)))];
      rest := rest[1..];
    }
  }

  /** A map with the keys and values of `Forwarded` is `Forwarded`. */
  lemma ForwardedExactly(nextIndex: map<ServerId, LogIndex>, index: LogIndex, next: map<ServerId, LogIndex>)
    requires next.Keys == nextIndex.Keys
    requires forall p :: p in next ==> next[p] == if nextIndex[p] == index then index + 1 else nextIndex[p]
    ensures next == Forwarded(nextIndex, index)
  {
    var f := Forwarded(nextIndex, index);
    assert forall p :: p in next ==> next[p] == f[p];
  }

  /** A map that sends `message` to exactly the servers in `to` is their broadcast. */
  lemma BroadcastExactly(to: set<ServerId>, message: Message, sent: map<ServerId, Message>)
    requires sent.Keys == to
    requires forall p :: p in sent ==> sent[p] == message
    ensures sent == Broadcast(to, message)
  {
    var b := Broadcast(to, message);
    assert forall p :: p in sent ==> sent[p] == b[p];
  }

  /**
   * The leader's send loop for a new entry at `index`: visits every peer
   * once, sends `message` to those whose next index is `index` and moves
   * their next index past it.
   */
  method SendNewEntry(nextIndex: map<ServerId, LogIndex>, index: LogIndex, message: Message)
    returns (sent: map<ServerId, Message>, next: map<ServerId, LogIndex>)
    ensures sent == Broadcast(Recipients(nextIndex, index), message)
    ensures next == Forwarded(nextIndex, index)
  {
    next := nextIndex;
    sent := map[];
    var pending := nextIndex.Keys;
    while pending != {}
      invariant pending <= nextIndex.Keys
      invariant next.Keys == nextIndex.Keys
      invariant forall p :: p in next ==> next[p] == if p !in pending && nextIndex[p] == index then index + 1 else nextIndex[p]
      invariant sent.Keys == set p | p in nextIndex && p !in pending && nextIndex[p] == index
      invariant forall p :: p in sent ==> sent[p] == message
      decreases |pending|
    {
      var peer :| peer in pending;
      if next[peer] == index {
        sent := sent[peer := message];
        next := next[peer := index + 1];
      }
      pending := pending - {peer};
    }
    ForwardedExactly(nextIndex, index, next);
    BroadcastExactly(Recipients(nextIndex, index), message, sent);
  }
}
