/**
 * `RegisterStateMachine`: the example application that replicates a single
 * mutable value. Applying a command replaces the value and answers with the
 * value it replaced; queries and snapshots read the value.
 */
module Register {
  import opened Types

  /** The register's value after applying `commands` in order to `initial`: the last command, if any. */
  function ValueAfter(initial: Bytes, commands: seq<Bytes>): (v: Bytes)
    ensures commands == [] ==> v == initial
    ensures commands != [] ==> v == commands[|commands| - 1]
  {
    if commands == [] then initial else commands[|commands| - 1]
  }

  /** Applying one more command makes that command the value, whatever came before. */
  lemma ValueAfterSnoc(initial: Bytes, commands: seq<Bytes>, c: Bytes)
    ensures ValueAfter(initial, commands + [c]) == c
    ensures ValueAfter(ValueAfter(initial, commands), [c]) == ValueAfter(initial, commands + [c])
  {
  }

  class RegisterStateMachine {
    var value: Bytes

    /** A new register holds the empty value. */
    constructor ()
      ensures value == []
    {
      value := [];
    }

    /** Replaces the value with `newValue` (clearing, then extending in place) and returns the previous value. */
    method Apply(newValue: Bytes) returns (previous: Bytes)
      modifies this
      ensures previous == old(value)
      ensures value == newValue
    {
      previous := value;
      value := [];
      value := value + newValue;
    }

    /** Answers any query with the current value, without changing it. */
    function Query(query: Bytes): (r: Bytes)
      reads this
      ensures r == value
    {
      value
    }

    /** A snapshot is the current value. */
    function Snapshot(): (r: Bytes)
      reads this
      ensures r == value
    {
      value
    }

    /** Replaces the value with the snapshot. */
    method RestoreSnapshot(snapshot: Bytes)
      modifies this
      ensures value == snapshot
    {
      value := snapshot;
    }
  }

  /** Two successive applies: the second answers with the first value, and the register ends with the second. */
  method ApplyTwice(v1: Bytes, v2: Bytes) returns (first: Bytes, second: Bytes, final: Bytes)
    ensures first == [] && second == v1 && final == v2
  {
    var r := new RegisterStateMachine();
    first := r.Apply(v1);
    second := r.Apply(v2);
    final := r.Query([]);
  }

  /** Restoring a snapshot and taking one gives back the restored snapshot; taking it changes nothing. */
  method RestoreThenSnapshot(s: Bytes, q: Bytes) returns (snap: Bytes, answer: Bytes)
    ensures snap == s && answer == s
  {
    var r := new RegisterStateMachine();
    r.RestoreSnapshot(s);
    snap := r.Snapshot();
    answer := r.Query(q);
  }
}
