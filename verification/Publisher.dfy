/**
The publication of status records: the publisher's calls and the one goroutine that writes,
in every interleaving. A job waiting to be written is replaced by a newer one; the failure
record is not, and closes the door behind it.
*/
module Publisher {
  import opened Rtnl

  type Record = nat

  datatype Job = Job(rec: Record, failure: bool)

  /** Where the writer is: waiting to be woken, about to look for a job, writing one, or about to
      say that it has finished. */
  datatype Writer = Asleep | Awake | Writing(job: Job) | Written

  /** One write: its job, and whether it went through; its error is logged and forgotten. */
  datatype Attempt = Attempt(job: Job, ok: bool)

  datatype State = State(
    closed: bool,
    last: Opt<Record>,
    pending: Opt<Job>,
    final: bool,
    running: bool,
    wake: bool,
    /** Submissions that have queued their job and not yet sent the wake-up. */
    owed: nat,
    writer: Writer,
    /** The writes made, in order. */
    log: seq<Attempt>,
    /** What the file holds. */
    file: Opt<Job>
  )

  const INIT := State(false, None, None, false, false, false, 0, Asleep, [], None)

  datatype Action =
    | Full(rec: Record) | LeaseOnly | Failure(rec: Record) | Close
    | Send
    | Receive | Look | Write(ok: bool) | Finish

  /** The locked half of a submission. */
  function Submitted(s: State, job: Job): State {
    if s.final then s else s.(pending := Some(job), final := job.failure, owed := s.owed + 1)
  }

  /** One action; one that is not enabled changes nothing. */
  function Do(s: State, a: Action): State {
    match a
    case Full(rec) => if s.closed then s else Submitted(s, Job(rec, false)).(last := Some(rec))
    case LeaseOnly => if s.closed || s.last.None? then s else Submitted(s, Job(s.last.v, false))
    case Failure(rec) => if s.closed then s else Submitted(s, Job(rec, true)).(closed := true)
    case Close => s.(closed := true)
    case Send => if s.owed > 0 then s.(owed := s.owed - 1, wake := true) else s
    case Receive => if s.writer.Asleep? && s.wake then s.(wake := false, writer := Awake) else s
    case Look =>
      if !s.writer.Awake? then s
      else if s.pending.None? then s.(running := false, writer := Asleep)
      else s.(pending := None, running := true, writer := Writing(s.pending.v))
    case Write(ok) =>
      if !s.writer.Writing? then s
      else
        s.(log := s.log + [Attempt(s.writer.job, ok)], writer := Written,
           file := if ok then Some(s.writer.job) else s.file)
    case Finish => if s.writer.Written? then s.(running := false, writer := Awake) else s
  }

  function Run(s: State, acts: seq<Action>): State
    decreases |acts|
  {
    if |acts| == 0 then s else Run(Do(s, acts[0]), acts[1..])
  }

  // ---- what every action keeps ----

  /** The failure record has been tried, and was the last one. */
  predicate Tried(log: seq<Attempt>) {
    |log| > 0 && log[|log| - 1].job.failure
  }

  predicate NoFailure(log: seq<Attempt>) {
    forall x :: x in log ==> !x.job.failure
  }

  /** The file holds the last record whose write went through. */
  function Holds(log: seq<Attempt>): Opt<Job> {
    if |log| == 0 then None
    else if log[|log| - 1].ok then Some(log[|log| - 1].job)
    else Holds(log[..|log| - 1])
  }

  /** The failure record, once queued, is waiting, being written, or the last one tried. */
  predicate FailureStands(s: State) {
    if !s.final then
      && NoFailure(s.log)
      && (s.pending.Some? ==> !s.pending.v.failure) && (s.writer.Writing? ==> !s.writer.job.failure)
    else if s.pending.Some? then
      s.pending.v.failure && NoFailure(s.log) && (s.writer.Writing? ==> !s.writer.job.failure)
    else if s.writer.Writing? && s.writer.job.failure then NoFailure(s.log)
    else s.pending.None? && !s.writer.Writing? && Tried(s.log) && NoFailure(s.log[..|s.log| - 1])
  }

  predicate Inv(s: State) {
    && FailureStands(s) && s.file == Holds(s.log)
    && (s.final ==> s.closed)
    && (s.pending.Some? && s.writer.Asleep? ==> s.wake || s.owed > 0)
    && (s.running <==> s.writer.Writing? || s.writer.Written?)
  }

  lemma StandsKept(s: State, a: Action)
    requires Inv(s)
    ensures FailureStands(Do(s, a)) && Do(s, a).file == Holds(Do(s, a).log)
  {
    hide Holds;
    if a.Write? && s.writer.Writing? {
      HoldsMore(s.log, Attempt(s.writer.job, a.ok));
    }
  }

  lemma HoldsMore(log: seq<Attempt>, x: Attempt)
    ensures Holds(log + [x]) == if x.ok then Some(x.job) else Holds(log)
  {
    assert (log + [x])[..|log|] == log;
  }

  lemma StepKeeps(s: State, a: Action)
    requires Inv(s)
    ensures Inv(Do(s, a))
  {
    hide FailureStands, Holds;
    StandsKept(s, a);
  }

  lemma {:induction false} RunKeeps(s: State, acts: seq<Action>)
    requires Inv(s)
    ensures Inv(Run(s, acts))
    decreases |acts|
  {
    if |acts| > 0 {
      StepKeeps(s, acts[0]);
      RunKeeps(Do(s, acts[0]), acts[1..]);
    }
  }

  // ---- the results, over every run ----

  /** No job is left waiting with the writer asleep and nobody about to wake it. */
  lemma NoLostWake(acts: seq<Action>)
    ensures var s := Run(INIT, acts);
            s.pending.Some? ==> !s.writer.Asleep? || s.wake || s.owed > 0
  {
    RunKeeps(INIT, acts);
  }

  /** The failure record of a run, wherever it is. */
  function Queued(s: State): Opt<Record> {
    if !s.final then None
    else if s.pending.Some? then Some(s.pending.v.rec)
    else if s.writer.Writing? then Some(s.writer.job.rec)
    else if |s.log| > 0 then Some(s.log[|s.log| - 1].job.rec)
    else None
  }

  lemma QueuedKept(s: State, a: Action)
    requires Inv(s) && s.final
    ensures Do(s, a).final && Queued(Do(s, a)) == Queued(s)
  {
  }

  lemma {:induction false} NeverReplaced(s: State, more: seq<Action>)
    requires Inv(s) && s.final
    ensures Run(s, more).final && Queued(Run(s, more)) == Queued(s)
    decreases |more|
  {
    if |more| > 0 {
      QueuedKept(s, more[0]);
      StepKeeps(s, more[0]);
      NeverReplaced(Do(s, more[0]), more[1..]);
    }
  }

  lemma {:induction false} HeldWasTried(log: seq<Attempt>)
    ensures Holds(log).Some? ==> Attempt(Holds(log).v, true) in log
  {
    if |log| > 0 && !log[|log| - 1].ok {
      HeldWasTried(log[..|log| - 1]);
    }
  }

  /** The failure record queued on an open publisher is never replaced: whatever follows, that
      record and no other is waiting, being written, or the last one tried. Once a wait finds
      nothing queued or running, its write has been made, the last of all; and the file holds a
      failure record, this one, if and only if that write went through. */
  lemma FailureIsLast(acts: seq<Action>, rec: Record, more: seq<Action>)
    requires !Run(INIT, acts).closed
    ensures var s := Run(Do(Run(INIT, acts), Failure(rec)), more);
            && Queued(s) == Some(rec)
            && NoFailure(s.log[..if |s.log| > 0 then |s.log| - 1 else 0])
            && (s.pending.None? && !s.running ==>
                  && |s.log| > 0 && s.log[|s.log| - 1].job == Job(rec, true)
                  && (s.file == Some(Job(rec, true)) <==> s.log[|s.log| - 1].ok)
                  && (s.file.Some? && s.file.v.failure <==> s.log[|s.log| - 1].ok))
  {
    RunKeeps(INIT, acts);
    var s := Run(INIT, acts);
    StepKeeps(s, Failure(rec));
    RunKeeps(Do(s, Failure(rec)), more);
    NeverReplaced(Do(s, Failure(rec)), more);
    var t := Run(Do(s, Failure(rec)), more);
    if |t.log| > 0 {
      HeldWasTried(t.log[..|t.log| - 1]);
    }
  }

  /** Nothing is tried again: from then on, whatever follows, nothing is written, so a failure
      record whose write failed never reaches the file. */
  lemma {:induction false} NothingAfter(s: State, more: seq<Action>)
    requires Inv(s) && s.final && s.pending.None? && !s.running
    ensures Run(s, more).log == s.log && Run(s, more).file == s.file
    decreases |more|
  {
    if |more| > 0 {
      StepKeeps(s, more[0]);
      NothingAfter(Do(s, more[0]), more[1..]);
    }
  }

  function FirstWritten(rec: Record): seq<Action> {
    [Full(rec), Send, Receive, Look, Write(true), Finish]
  }

  function FailureRefused(rec: Record): seq<Action> {
    [Failure(rec), Look, Write(false)]
  }

  /** A run in which that happens: the file keeps the record before it. */
  lemma FailureUnwritten(earlier: Record, rec: Record, more: seq<Action>)
    ensures var s := Run(INIT, FirstWritten(earlier));
            !s.closed && Run(Do(Run(s, FailureRefused(rec)), Finish), more).file == Some(Job(earlier, false))
  {
    var s := Run(INIT, FirstWritten(earlier));
    FirstStored(earlier);
    RunThree(s, FailureRefused(rec));
    RunKeeps(INIT, FirstWritten(earlier));
    RunKeeps(s, FailureRefused(rec));
    StepKeeps(Run(s, FailureRefused(rec)), Finish);
    hide Inv, FirstWritten;
    NothingAfter(Do(Run(s, FailureRefused(rec)), Finish), more);
  }

  lemma FirstStored(rec: Record)
    ensures Run(INIT, FirstWritten(rec)) ==
            State(false, Some(rec), None, false, false, false, 0, Awake, [Attempt(Job(rec, false), true)], Some(Job(rec, false)))
  {
    var acts := FirstWritten(rec);
    RunThree(INIT, acts);
    RunThree(Do(Do(Do(INIT, acts[0]), acts[1]), acts[2]), acts[3..]);
    assert acts[3..][3..] == [];
  }

  lemma RunThree(s: State, acts: seq<Action>)
    requires |acts| >= 3
    ensures Run(s, acts) == Run(Do(Do(Do(s, acts[0]), acts[1]), acts[2]), acts[3..])
  {
    assert acts[1..][1..][1..] == acts[3..];
    assert Run(s, acts) == Run(Do(s, acts[0]), acts[1..]);
    assert Run(Do(s, acts[0]), acts[1..]) == Run(Do(Do(s, acts[0]), acts[1]), acts[1..][1..]);
  }

  // ---- the writer left to itself ----

  /** The writer's next step; a write goes through or not. */
  function Next(s: State, ok: bool): Action {
    match s.writer
    case Asleep => Receive
    case Awake => Look
    case Writing(_) => Write(ok)
    case Written => Finish
  }

  /** The writer's next steps, their writes going through as given. */
  function Steps(s: State, oks: seq<bool>): State
    decreases |oks|
  {
    if |oks| == 0 then s else Steps(Do(s, Next(s, oks[0])), oks[1..])
  }

  function Jobs(log: seq<Attempt>): seq<Job> {
    seq(|log|, i requires 0 <= i < |log| => log[i].job)
  }

  /** What is being written and what waits, in the order it will be tried. */
  function Due(s: State): seq<Job> {
    (if s.writer.Writing? then [s.writer.job] else []) + if s.pending.Some? then [s.pending.v] else []
  }

  lemma JobsMore(log: seq<Attempt>, x: Attempt)
    ensures Jobs(log + [x]) == Jobs(log) + [x.job]
  {
  }

  lemma DueStep(s: State, ok: bool)
    ensures var t := Do(s, Next(s, ok)); Jobs(t.log) + Due(t) == Jobs(s.log) + Due(s)
  {
    hide Jobs;
    var waiting := if s.pending.Some? then [s.pending.v] else [];
    match s.writer
    case Asleep => assert Due(Do(s, Receive)) == Due(s);
    case Awake => assert Due(Do(s, Look)) == Due(s);
    case Writing(job) =>
      assert Due(Do(s, Write(ok))) == waiting;
      JobsMore(s.log, Attempt(job, ok));
      assert (Jobs(s.log) + [job]) + waiting == Jobs(s.log) + ([job] + waiting);
    case Written => assert Due(Do(s, Finish)) == Due(s);
  }

  lemma {:induction false} DueKept(s: State, oks: seq<bool>)
    ensures Jobs(Steps(s, oks).log) + Due(Steps(s, oks)) == Jobs(s.log) + Due(s)
    decreases |oks|
  {
    if |oks| > 0 {
      DueStep(s, oks[0]);
      DueKept(Do(s, Next(s, oks[0])), oks[1..]);
    }
  }

  /** How many steps the writer needs at most to be idle. */
  function Rank(s: State): nat {
    (if s.pending.Some? then 3 else 0) + (if s.wake then 2 else 0)
    + match s.writer case Asleep => 0 case Awake => 1 case Writing(_) => 3 case Written => 2
  }

  lemma RankStep(s: State, ok: bool)
    requires Inv(s) && s.owed == 0
    ensures var t := Do(s, Next(s, ok)); t.owed == 0 && (if Rank(s) > 0 then Rank(t) < Rank(s) else t == s)
  {
  }

  lemma {:induction false} RankFalls(s: State, oks: seq<bool>)
    requires Inv(s) && s.owed == 0 && Rank(s) <= |oks|
    ensures Rank(Steps(s, oks)) == 0 && Inv(Steps(s, oks)) && Steps(s, oks).owed == 0
    decreases |oks|
  {
    if |oks| > 0 {
      RankStep(s, oks[0]);
      StepKeeps(s, Next(s, oks[0]));
      RankFalls(Do(s, Next(s, oks[0])), oks[1..]);
    }
  }

  /** Once submissions stop, eight steps of the writer try what was due, the newest job last,
      each once, and leave it idle, whether its writes go through or not. */
  lemma Drains(acts: seq<Action>, oks: seq<bool>)
    requires Run(INIT, acts).owed == 0 && |oks| == 8
    ensures var s := Run(INIT, acts);
            var t := Steps(s, oks);
            t.pending.None? && t.writer.Asleep? && !t.running && Jobs(t.log) == Jobs(s.log) + Due(s)
  {
    RunKeeps(INIT, acts);
    var s := Run(INIT, acts);
    RankFalls(s, oks);
    DueKept(s, oks);
    assert Jobs(Steps(s, oks).log) + [] == Jobs(Steps(s, oks).log);
  }

  // ---- the calls themselves ----

  class Channel {
    var pending: Opt<Job>
    var final: bool
    var running: bool
    var wake: bool
    var closed: bool
    var last: Opt<Record>
    /** What the calls do not hold: where the writer and the submitters are, what was written. */
    ghost var rest: State

    constructor ()
      ensures Whole() == INIT
    {
      pending, final, running, wake, closed, last := None, false, false, false, false, None;
      rest := INIT;
    }

    ghost function Whole(): State
      reads this
    {
      rest.(pending := pending, final := final, running := running, wake := wake, closed := closed, last := last)
    }

    /** The locked half of a submission; it is refused behind a final job. */
    method Submit(job: Job) returns (queued: bool)
      modifies this`pending, this`final, this`rest
      ensures Whole() == Submitted(old(Whole()), job)
      ensures queued <==> !old(final)
    {
      queued := !final;
      if queued {
        pending, final := Some(job), job.failure;
        rest := rest.(owed := rest.owed + 1);
      }
    }

    method PublishFull(rec: Record)
      modifies this
      ensures Whole() == Do(old(Whole()), Full(rec))
    {
      if !closed {
        last := Some(rec);
        var queued := Submit(Job(rec, false));
      }
    }

    method PublishLease()
      modifies this
      ensures Whole() == Do(old(Whole()), LeaseOnly)
    {
      if !closed && last.Some? {
        var queued := Submit(Job(last.v, false));
      }
    }

    method PublishFailure(rec: Record)
      modifies this
      ensures Whole() == Do(old(Whole()), Failure(rec))
    {
      if !closed {
        closed := true;
        var queued := Submit(Job(rec, true));
      }
    }

    /** The writer's locked section: the waiting job is taken and the writer marked running. */
    method TakeJob() returns (job: Opt<Job>)
      requires rest.writer.Awake?
      modifies this
      ensures Whole() == Do(old(Whole()), Look)
      ensures job == old(pending)
    {
      job := pending;
      pending := None;
      running := job.Some?;
      rest := rest.(writer := if job.Some? then Writing(job.v) else Asleep);
    }
  }
}
