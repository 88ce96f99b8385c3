/**
 * The in-memory log store `DocLog`: an ordered vector of (term, command)
 * entries addressed by 1-based log index, plus the persisted current term and
 * vote, which the implementation keeps in two files and this model keeps in fields.
 */
module Storage {
  import opened Types

  /** The term of the entry at 1-based index `i`; index 0 stands before the log and has term 0. */
  function TermAt(log: seq<Entry>, i: LogIndex): Term
    requires i <= |log|
  {
    if i == 0 then 0 else log[i - 1].term
  }

  /**
   * The log after writing `entries` at index `from`: everything from `from`
   * onwards is dropped first, then the new entries follow.
   */
  function AppendFrom(log: seq<Entry>, from: LogIndex, entries: seq<Entry>): (r: seq<Entry>)
    requires 1 <= from <= |log| + 1
    ensures |r| == from - 1 + |entries|
    ensures r[..from - 1] == log[..from - 1]
    ensures r[from - 1..] == entries
  {
    log[..from - 1] + entries
  }

  /** The first `lo` entries of `log`, or all of them when it is shorter. */
  function TruncateTo(log: seq<Entry>, lo: LogIndex): (r: seq<Entry>)
    ensures |r| == Min(lo, |log|)
    ensures r <= log
  {
    if lo <= |log| then log[..lo] else log
  }

  /**
   * Writing at index `from` only changes the log at `from` and beyond: the
   * result agrees with the old log at every index before `from`, so it is a
   * gap-free extension of that common prefix.
   */
  lemma AppendFromKeepsPrefix(log: seq<Entry>, from: LogIndex, entries: seq<Entry>)
    requires 1 <= from <= |log| + 1
    ensures AppendFrom(log, from, entries) == TruncateTo(log, from - 1) + entries
    ensures TruncateTo(AppendFrom(log, from, entries), from - 1) == TruncateTo(log, from - 1)
  {
  }

  /** Writing just past the last entry appends: nothing already stored is dropped. */
  lemma AppendAtEnd(log: seq<Entry>, entries: seq<Entry>)
    ensures AppendFrom(log, |log| + 1, entries) == log + entries
  {
  }

  /** Writing nothing at index `from` truncates the log to its first `from - 1` entries. */
  lemma AppendNothingTruncates(log: seq<Entry>, from: LogIndex)
    requires 1 <= from <= |log| + 1
    ensures AppendFrom(log, from, []) == TruncateTo(log, from - 1)
  {
  }

  /** The entries `rollback(lo)` reports are exactly the ones `truncate(lo)` removes. */
  lemma TruncateAndRollbackPartition(log: seq<Entry>, lo: LogIndex)
    requires lo <= |log|
    ensures TruncateTo(log, lo) + log[lo..] == log
  {
  }

  /**
   * The log store. `entries[i - 1]` holds the entry at log index `i`;
   * `currentTerm` and `votedFor` stand for the `term` and `voted_for` files.
   */
  class DocLog {
    var entries: seq<Entry>
    var currentTerm: Term
    var votedFor: Option<ServerId>

    /** A fresh store: no entries, term 0, no vote (setting the term clears the vote). */
    constructor ()
      ensures entries == [] && currentTerm == 0 && votedFor == None
    {
      entries := [];
      currentTerm := 0;
      votedFor := None;
    }

    /** The index of the last entry, which is the number of entries stored. */
    function LatestLogIndex(): (i: LogIndex)
      reads this
      ensures i == |entries|
      ensures i == 0 <==> entries == []
    {
      |entries|
    }

    /** The term of the last entry, 0 for an empty log. */
    function LatestLogTerm(): (t: Term)
      reads this
      ensures t == TermAt(entries, |entries|)
      ensures entries == [] ==> t == 0
    {
      if |entries| == 0 then 0 else entries[|entries| - 1].term
    }

    /** The entry at 1-based index `index`; the implementation indexes its vector directly and panics outside the log. */
    function EntryAt(index: LogIndex): (e: Entry)
      reads this
      requires 1 <= index <= |entries|
      ensures e.term == TermAt(entries, index)
      ensures e == entries[index - 1]
    {
      entries[index - 1]
    }

    /** Truncates the log before index `from`, then extends it with `es`. */
    method AppendEntries(from: LogIndex, es: seq<Entry>)
      requires 1 <= from <= |entries| + 1
      modifies this
      ensures entries == AppendFrom(old(entries), from, es)
      ensures currentTerm == old(currentTerm) && votedFor == old(votedFor)
    {
      entries := entries[..from - 1];
      entries := entries + es;
    }

    /** Keeps the first `lo` entries (all of them when the log is shorter). */
    method Truncate(lo: LogIndex)
      modifies this
      ensures entries == TruncateTo(old(entries), lo)
      ensures currentTerm == old(currentTerm) && votedFor == old(votedFor)
    {
      if lo < |entries| {
        entries := entries[..lo];
      }
    }

    /** The entries after index `lo`, which a rollback would discard; the log itself is left alone. */
    function Rollback(lo: LogIndex): (r: seq<Entry>)
      reads this
      requires lo <= |entries|
      ensures TruncateTo(entries, lo) + r == entries
      ensures |r| == |entries| - lo
    {
      entries[lo..]
    }

    /** Records a vote (or its absence) for the current term. */
    method SetVotedFor(v: Option<ServerId>)
      modifies this
      ensures votedFor == v
      ensures entries == old(entries) && currentTerm == old(currentTerm)
    {
      votedFor := v;
    }

    /** Stores a new current term; a new term starts without a vote. */
    method SetCurrentTerm(t: Term)
      modifies this
      ensures currentTerm == t && votedFor == None
      ensures entries == old(entries)
    {
      currentTerm := t;
      SetVotedFor(None);
    }

    /** Raises the current term by exactly one, clears the vote and returns the new term. */
    method IncCurrentTerm() returns (t: Term)
      modifies this
      ensures t == currentTerm == old(currentTerm) + 1
      ensures votedFor == None
      ensures entries == old(entries)
    {
      SetVotedFor(None);
      SetCurrentTerm(currentTerm + 1);
      t := currentTerm;
    }
  }

  /**
   * The store's own unit test, replayed on the model: four entries are
   * written, writing nothing at index 4 leaves three, and writing two entries
   * at index 3 replaces the tail.
   */
  method AppendScenario() returns (afterFirst: seq<Entry>, afterEmpty: seq<Entry>, afterThird: seq<Entry>)
    ensures |afterFirst| == 4 && TermAt(afterFirst, 4) == 1
    ensures afterEmpty == afterFirst[..3] && TermAt(afterEmpty, 3) == 0
    ensures |afterThird| == 4 && afterThird[..2] == afterFirst[..2]
    ensures afterThird[2] == Entry(2, [3]) && afterThird[3] == Entry(3, [4])
  {
    var store := new DocLog();
    assert store.LatestLogIndex() == 0 && store.LatestLogTerm() == 0;
    store.AppendEntries(1, [Entry(0, [1]), Entry(0, [2]), Entry(0, [3]), Entry(1, [4])]);
    afterFirst := store.entries;
    store.AppendEntries(4, []);
    afterEmpty := store.entries;
    store.AppendEntries(3, [Entry(2, [3]), Entry(3, [4])]);
    afterThird := store.entries;
  }

  /** The store's term test: setting a term clears the vote, and incrementing adds exactly one. */
  method TermScenario() returns (voteAfterSet: Option<ServerId>, termAfterSet: Term, termAfterInc: Term)
    ensures voteAfterSet == None && termAfterSet == 42 && termAfterInc == 43
  {
    var store := new DocLog();
    store.SetVotedFor(Some(0));
    store.SetCurrentTerm(42);
    voteAfterSet, termAfterSet := store.votedFor, store.currentTerm;
    termAfterInc := store.IncCurrentTerm();
  }
}
