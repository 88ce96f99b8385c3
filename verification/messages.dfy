/**
 * The messages a consensus instance receives and emits, as values. Their wire
 * encoding is a serialization concern and is not modelled.
 */
module Messages {
  import opened Types

  datatype AERequest = AERequest(
    term: Term,
    prevLogIndex: LogIndex,
    prevLogTerm: Term,
    entries: seq<Entry>,
    leaderCommit: LogIndex)

  datatype AEResult =
    | Success(index: LogIndex)
    | StaleTerm
    | InconsistentPrevEntry(index: LogIndex)
    | InternalError(text: string)

  /** Every response carries the responder's current term. */
  datatype AEResponse = AEResponse(term: Term, result: AEResult)

  datatype VoteRequest = VoteRequest(term: Term, lastLogIndex: LogIndex, lastLogTerm: Term)

  datatype VoteResult = Granted | StaleTerm | AlreadyVoted | InconsistentLog | InternalError(text: string)

  datatype VoteResponse = VoteResponse(term: Term, result: VoteResult)

  datatype Message =
    | AppendEntriesReq(aeReq: AERequest)
    | AppendEntriesResp(aeResp: AEResponse)
    | RequestVoteReq(rvReq: VoteRequest)
    | RequestVoteResp(rvResp: VoteResponse)

  datatype CommandResponse = Success(data: Bytes) | UnknownLeader | NotLeader(leader: Address) | Failure(data: Bytes)

  /** Timers the server should arm: a randomized election timer, or a heartbeat timer for one peer. */
  datatype Timeout = Election | Heartbeat(peer: ServerId)

  /**
   * What the server carries out after one event: messages to peers (at most
   * one per peer in any handler), replies to clients in order, whether to clear
   * this group's timers, which timers to arm, and whether to drop queued
   * outbound peer messages.
   */
  datatype Actions = Actions(
    peerMessages: map<ServerId, Message>,
    clientMessages: seq<(ClientId, CommandResponse)>,
    clearTimeouts: bool,
    timeouts: set<Timeout>,
    clearPeerMessages: bool)

  const NoActions := Actions(map[], [], false, {}, false)

  /** The actions of two steps of one event, the first's before the second's. */
  function Then(a: Actions, b: Actions): Actions
  {
    Actions(a.peerMessages + b.peerMessages, a.clientMessages + b.clientMessages,
            a.clearTimeouts || b.clearTimeouts, a.timeouts + b.timeouts,
            a.clearPeerMessages || b.clearPeerMessages)
  }

  /** The same message sent to every server in `to`. */
  function Broadcast(to: set<ServerId>, m: Message): (r: map<ServerId, Message>)
    ensures r.Keys == to
    ensures forall p :: p in r ==> r[p] == m
  {
    map p | p in to :: m
  }
}
