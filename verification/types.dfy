/** Basic vocabulary shared by the log store, the state machine and the consensus module. */
module Types {

  /** A Raft term; the implementation's `Term` wraps an unsigned 64-bit integer. */
  type Term = nat

  /** A 1-based position in the log; index 0 means "before the first entry". */
  type LogIndex = nat

  type ServerId = nat

  type ClientId = nat

  /** A peer's network address, kept opaque. */
  type Address = string

  /** Opaque payloads: commands, query results, snapshots. */
  type Bytes = seq<bv8>

  /** A log entry: the term of the leader that created it and its command. */
  datatype Entry = Entry(term: Term, data: Bytes)

  datatype Option<+T> = None | Some(value: T)

  function Min(a: nat, b: nat): nat { if a <= b then a else b }

  function Max(a: nat, b: nat): nat { if a <= b then b else a }
}
