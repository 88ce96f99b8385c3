/**
 * Leader election: the quorum size, the decision a server takes on a vote
 * request, and why a quorum of votes makes the winner of a term unique.
 */
module Election {
  import opened Types
  import opened Messages

  /**
   * The quorum for a cluster made of `peers` other servers and this one:
   * `(peers + 1) / 2 + 1`, the smallest number of servers that is a strict
   * majority of the cluster.
   */
  function Majority(peers: nat): (m: nat)
    ensures 2 * m > peers + 1
    ensures 2 * (m - 1) <= peers + 1
    ensures 1 <= m <= peers + 1
  {
    (peers + 1) / 2 + 1
  }

  /** Clusters of 1, 2, 3 and 4 members need 1, 2, 2 and 3 servers. */
  lemma MajorityOfSmallClusters()
    ensures Majority(0) == 1 && Majority(1) == 2 && Majority(2) == 2 && Majority(3) == 3
  {
  }

  lemma {:induction false} SubsetCardinality<T>(a: set<T>, b: set<T>)
    requires a <= b
    ensures |a| <= |b|
  {
    assert b == a + (b - a);
  }

  /** Any two quorums of the same cluster have a server in common. */
  lemma {:induction false} QuorumsIntersect(cluster: set<ServerId>, a: set<ServerId>, b: set<ServerId>)
    requires |cluster| >= 1
    requires a <= cluster && b <= cluster
    requires |a| >= Majority(|cluster| - 1) && |b| >= Majority(|cluster| - 1)
    ensures a * b != {}
  {
    if a * b == {} {
      assert |a + b| == |a| + |b|;
      SubsetCardinality(a + b, cluster);
      assert false;
    }
  }

  /** The servers that gave their vote of one term to `candidate`. */
  function Voters(votes: map<ServerId, ServerId>, candidate: ServerId): set<ServerId>
  {
    set v | v in votes && votes[v] == candidate
  }

  /**
   * Election safety from one vote per server per term: when each server's
   * vote of a term is a single candidate (a map from voter to candidate), two
   * candidates that each hold a quorum of those votes are the same server.
   */
  lemma {:induction false} OneLeaderPerTerm(cluster: set<ServerId>, votes: map<ServerId, ServerId>, a: ServerId, b: ServerId)
    requires |cluster| >= 1 && votes.Keys <= cluster
    requires |Voters(votes, a)| >= Majority(|cluster| - 1)
    requires |Voters(votes, b)| >= Majority(|cluster| - 1)
    ensures a == b
  {
    QuorumsIntersect(cluster, Voters(votes, a), Voters(votes, b));
    var v :| v in Voters(votes, a) * Voters(votes, b);
  }

  /**
   * The voter's log check as the implementation writes it: the request is refused
   * when the candidate's last term is lower OR its last index is lower, two
   * independent comparisons.
   */
  predicate LogCheckPasses(req: VoteRequest, lastLogTerm: Term, lastLogIndex: LogIndex)
  {
    !(req.lastLogTerm < lastLogTerm || req.lastLogIndex < lastLogIndex)
  }

  /** The up-to-date rule of the Raft paper: compare last terms first, then last indexes. */
  predicate AtLeastAsUpToDate(req: VoteRequest, lastLogTerm: Term, lastLogIndex: LogIndex)
  {
    req.lastLogTerm > lastLogTerm || (req.lastLogTerm == lastLogTerm && req.lastLogIndex >= lastLogIndex)
  }

  /** Every candidate the implementation's check lets through is also up to date by the paper's rule. */
  lemma LogCheckImpliesUpToDate(req: VoteRequest, lastLogTerm: Term, lastLogIndex: LogIndex)
    ensures LogCheckPasses(req, lastLogTerm, lastLogIndex) ==> AtLeastAsUpToDate(req, lastLogTerm, lastLogIndex)
  {
  }

  /**
   * The converse fails: a candidate whose last entry has a newer term but
   * whose log is shorter is up to date by the paper's rule and still refused.
   */
  lemma NewerTermShorterLogRefused()
    ensures AtLeastAsUpToDate(VoteRequest(3, 2, 2), 1, 5)
    ensures !LogCheckPasses(VoteRequest(3, 2, 2), 1, 5)
  {
  }

  /** A voter's term and vote after a vote request, and its answer. */
  datatype Ballot = Ballot(term: Term, votedFor: Option<ServerId>, result: VoteResult)

  /**
   * The decision on a vote request from `candidate` by a server at `term`
   * that has voted `votedFor` and whose log ends at (`lastLogTerm`,
   * `lastLogIndex`). A higher request term is adopted first, which clears the
   * vote.
   */
  function DecideVote(term: Term, votedFor: Option<ServerId>, lastLogTerm: Term, lastLogIndex: LogIndex,
                      candidate: ServerId, req: VoteRequest): (b: Ballot)
    ensures b.term == Max(term, req.term)
    ensures b.result == VoteResult.StaleTerm <==> req.term < term
    ensures b.result == InconsistentLog <==> req.term >= term && !LogCheckPasses(req, lastLogTerm, lastLogIndex)
    ensures b.result == Granted <==>
      req.term >= term && LogCheckPasses(req, lastLogTerm, lastLogIndex) &&
      (req.term > term || votedFor == None || votedFor == Some(candidate))
    ensures b.result == Granted ==> b.votedFor == Some(candidate)
    ensures b.result != Granted ==> b.votedFor == if req.term > term then None else votedFor
    ensures !b.result.InternalError?
  {
    if req.term < term then Ballot(term, votedFor, VoteResult.StaleTerm)
    else
      var vote := if req.term > term then None else votedFor;
      if !LogCheckPasses(req, lastLogTerm, lastLogIndex) then Ballot(req.term, vote, InconsistentLog)
      else if vote == None then Ballot(req.term, Some(candidate), Granted)
      else if vote == Some(candidate) then Ballot(req.term, vote, Granted)
      else Ballot(req.term, vote, AlreadyVoted)
  }

  /**
   * One vote per term: once a server has granted its vote of a term to one
   * candidate, a request of that same term from any other candidate is not
   * granted, whatever the logs.
   */
  lemma OneGrantPerTerm(term: Term, votedFor: Option<ServerId>, lastLogTerm: Term, lastLogIndex: LogIndex,
                        c1: ServerId, r1: VoteRequest,
                        lastLogTerm2: Term, lastLogIndex2: LogIndex, c2: ServerId, r2: VoteRequest)
    requires DecideVote(term, votedFor, lastLogTerm, lastLogIndex, c1, r1).result == Granted
    requires r2.term == r1.term
    requires c1 != c2
    ensures DecideVote(r1.term, Some(c1), lastLogTerm2, lastLogIndex2, c2, r2).result != Granted
    ensures DecideVote(term, votedFor, lastLogTerm, lastLogIndex, c1, r1).votedFor == Some(c1)
  {
  }

  /**
   * The vote a server keeps when it steps down to follower at `term`, as
   * corrected: a newer term clears it, the same term keeps it.
   */
  function StepDownVote(term0: Term, votedFor: Option<ServerId>, term: Term): Option<ServerId>
  {
    if term == term0 then votedFor else None
  }

  /**
   * The vote a server keeps when it steps down to follower at `term`, as
   * written: the term is stored through the log store, whose
   * `set_current_term` clears the vote whatever the old term was.
   */
  function StepDownVoteAsWritten(term0: Term, votedFor: Option<ServerId>, term: Term): Option<ServerId>
  {
    None
  }

  /**
   * As written, a candidate that voted for itself in `term` and steps down
   * for that term's leader grants its vote of `term` again, to a different
   * candidate whose log is as long as its own; with the corrected step-down
   * the same request is refused as already voted.
   */
  lemma SecondVoteAsWritten(self: ServerId, other: ServerId, term: Term, lastLogTerm: Term, lastLogIndex: LogIndex)
    requires other != self
    ensures var ballot := VoteRequest(term, lastLogIndex, lastLogTerm);
            var selfVote := DecideVote(term, None, lastLogTerm, lastLogIndex, self, ballot);
            var cleared := StepDownVoteAsWritten(term, selfVote.votedFor, term);
            var kept := StepDownVote(term, selfVote.votedFor, term);
            && selfVote.result == Granted && selfVote.votedFor == Some(self)
            && cleared == None
            && DecideVote(term, cleared, lastLogTerm, lastLogIndex, other, ballot).result == Granted
            && DecideVote(term, cleared, lastLogTerm, lastLogIndex, other, ballot).votedFor == Some(other)
            && kept == Some(self)
            && DecideVote(term, kept, lastLogTerm, lastLogIndex, other, ballot).result == AlreadyVoted
  {
  }

  /**
   * With the vote kept across a same-term step-down, a server that has
   * voted in `term` grants no vote of that term to anyone else, and a newer
   * term starts with no vote.
   */
  lemma {:induction false} StepDownKeepsOneGrant(term: Term, voted: ServerId, newTerm: Term,
                                                 lastLogTerm: Term, lastLogIndex: LogIndex, other: ServerId, req: VoteRequest)
    requires newTerm >= term && other != voted && req.term == newTerm
    ensures newTerm == term ==>
      DecideVote(newTerm, StepDownVote(term, Some(voted), newTerm), lastLogTerm, lastLogIndex, other, req).result != Granted
    ensures newTerm > term ==> StepDownVote(term, Some(voted), newTerm) == None
  {
    if newTerm == term {
      assert StepDownVote(term, Some(voted), newTerm) == Some(voted);
      OneGrantPerTerm(term, None, 0, 0, voted, VoteRequest(term, 0, 0), lastLogTerm, lastLogIndex, other, req);
    }
  }
}
