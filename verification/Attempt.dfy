/**
The attempt record of an exit: the state of the selection being applied, the backoff of its
retries, and the log of what was done, by which the pacing is stated.
*/
module Attempt {
  import opened Rtnl

  const REAPPLY_GUARD := 90.0
  const BACKOFF := [60, 120, 240, 480, 900]

  /** The wait of a retry step, in seconds. */
  function Backoff(step: nat): (w: nat)
    ensures 60 <= w <= 900
  {
    if step >= |BACKOFF| then BACKOFF[|BACKOFF| - 1] else BACKOFF[step]
  }

  lemma BackoffGrows(a: nat, b: nat)
    requires a <= b
    ensures Backoff(a) <= Backoff(b)
  {
  }

  datatype Phase = Idle | Pending | Rejected | Attempting | Unverified | Failed

  datatype Next = Nothing | Recheck | Reapply

  datatype Source = Asked | Retry | Reconverge

  datatype Attempt = Attempt(
    targetKey: string,
    target: string,
    source: Source,
    phase: Phase,
    verified: bool,
    backoffStep: nat,
    next: Next,
    nextAt: Opt<real>,
    last: Opt<real>,
    generation: string,
    why: string,
    release: string
  ) {
    /** No mutation happened within the guard. */
    predicate GuardPassed(now: real) {
      last.None? || now - last.v >= REAPPLY_GUARD
    }

    function Scheduled(now: real): Attempt {
      this.(next := Reapply, nextAt := Some(now + Backoff(backoffStep) as real), backoffStep := backoffStep + 1)
    }

    function Settled(): Attempt {
      this.(phase := Idle, verified := true, next := Nothing, nextAt := None, backoffStep := 0)
    }
  }

  function NewAttempt(key: string, target: string, source: Source, generation: string): Attempt {
    Attempt(key, target, source, Idle, false, 0, Nothing, None, None, generation, "", "")
  }

  predicate IsRest(p: Phase) {
    p.Idle? || p.Unverified?
  }

  // ---- the log ----

  /** What the passes did, in order. Mutated is a call of the provider's ApplyRelay, at the time
      recorded in the attempt; saved says that the attempting state was on disk then. A restart is
      behind when the record on disk is older than the one in memory. */
  datatype Entry =
    | Mutated(at: real, source: Source, saved: bool)
    | Retargeted | Released | Settle | Wait(seconds: nat)
    | Restarted(behind: bool)

  /** The last mutation with no change of target and no released rejection since. */
  function LastMutation(log: seq<Entry>): Opt<real> {
    if |log| == 0 then None
    else
      match log[|log| - 1]
      case Mutated(at, _, _) => Some(at)
      case Retargeted => None
      case Released => None
      case Settle => LastMutation(log[..|log| - 1])
      case Wait(_) => LastMutation(log[..|log| - 1])
      case Restarted(_) => LastMutation(log[..|log| - 1])
  }

  function Apart(source: Source): real {
    if source.Reconverge? then 90.0 else 60.0
  }

  /** Two mutations in a row are as far apart as they should be, and each was made with the
      attempting state on disk. */
  predicate Paced(log: seq<Entry>) {
    |log| > 0 ==>
      && Paced(log[..|log| - 1])
      && (log[|log| - 1].Mutated? ==>
            var last := LastMutation(log[..|log| - 1]);
            log[|log| - 1].saved && (last.Some? ==> log[|log| - 1].at - last.v >= Apart(log[|log| - 1].source)))
  }

  /** The last reapply wait since the selection was verified or changed. */
  function LastWait(log: seq<Entry>): nat {
    if |log| == 0 then 0
    else
      match log[|log| - 1]
      case Wait(seconds) => seconds
      case Settle => 0
      case Retargeted => 0
      case Restarted(behind) => if behind then 0 else LastWait(log[..|log| - 1])
      case Mutated(_, _, _) => LastWait(log[..|log| - 1])
      case Released => LastWait(log[..|log| - 1])
  }

  /** The reapply waits do not decrease, nor exceed fifteen minutes. */
  predicate WaitsGrow(log: seq<Entry>) {
    |log| > 0 ==>
      && WaitsGrow(log[..|log| - 1])
      && (log[|log| - 1].Wait? ==> LastWait(log[..|log| - 1]) <= log[|log| - 1].seconds <= 900)
  }

  function Mutations(log: seq<Entry>): nat {
    if |log| == 0 then 0
    else Mutations(log[..|log| - 1]) + if log[|log| - 1].Mutated? then 1 else 0
  }

  /** What one more entry does to the log's readings. */
  lemma Appended(log: seq<Entry>, e: Entry)
    ensures LastMutation(log + [e]) ==
            if e.Mutated? then Some(e.at) else if e.Retargeted? || e.Released? then None else LastMutation(log)
    ensures LastWait(log + [e]) ==
            if e.Wait? then e.seconds
            else if e.Settle? || e.Retargeted? || (e.Restarted? && e.behind) then 0 else LastWait(log)
    ensures Mutations(log + [e]) == Mutations(log) + if e.Mutated? then 1 else 0
    ensures Paced(log + [e]) <==>
              && Paced(log) && (e.Mutated? ==> e.saved)
              && (e.Mutated? && LastMutation(log).Some? ==> e.at - LastMutation(log).v >= Apart(e.source))
    ensures WaitsGrow(log + [e]) <==> WaitsGrow(log) && (e.Wait? ==> LastWait(log) <= e.seconds <= 900)
  {
    assert (log + [e])[..|log + [e]| - 1] == log;
  }

  lemma {:induction false} LastIs(log: seq<Entry>, i: nat)
    requires i < |log| && log[i].Mutated?
    requires forall k :: i < k < |log| ==> log[k].Settle? || log[k].Wait? || log[k].Restarted?
    ensures LastMutation(log) == Some(log[i].at)
    decreases |log|
  {
    if i + 1 < |log| {
      LastIs(log[..|log| - 1], i);
    }
  }

  lemma {:induction false} PacedPrefix(log: seq<Entry>, n: nat)
    requires Paced(log) && n <= |log|
    ensures Paced(log[..n])
    decreases |log|
  {
    if n < |log| {
      PacedPrefix(log[..|log| - 1], n);
      assert log[..|log| - 1][..n] == log[..n];
    } else {
      assert log[..n] == log;
    }
  }

  /** A paced log: two mutations in a row, with no change of target and no released rejection
      between them, are sixty seconds apart, ninety when the second is a reconvergence. */
  lemma PacedPairs(log: seq<Entry>, i: nat, j: nat)
    requires Paced(log) && i < j < |log| && log[i].Mutated? && log[j].Mutated?
    requires forall k :: i < k < j ==> log[k].Settle? || log[k].Wait? || log[k].Restarted?
    ensures log[j].at - log[i].at >= Apart(log[j].source)
  {
    PacedPrefix(log, j + 1);
    assert log[..j + 1][..j] == log[..j];
    LastIs(log[..j], i);
  }
}
