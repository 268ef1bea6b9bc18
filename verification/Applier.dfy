/**
The applier's pass: resume, admission, the pipeline with its one mutation, the verification
and the periodic check. Every call into the system, and every file written, may turn out any
way.
*/
module Applier {
  import opened Rtnl
  import opened Attempt

  const REFRESH := 60.0
  const SILENT_REUSE := 30.0
  const HANDSHAKE_FRESH := 180.0
  const UNIDENTIFIED := 90.0
  const VERIFY_POLL := 3.0

  datatype Selection = Selection(key: string, server: string)

  datatype Finding = Finding(server: string, ok: bool, silent: bool, safe: bool, peers: nat, age: Opt<real>, at: real)

  /** Why the pipeline may not mutate: something is missing, or the target is refused. */
  datatype Gate = Gate(rejected: bool, why: string)

  datatype Relayed = Applied | CredentialsRefused | CallFailed | OwnFailure

  /** What an attempt, in memory or on disk, guarantees about the time since the last mutation. */
  predicate Sane(a: Attempt, last: Opt<real>, now: real) {
    a.targetKey != "" && last.Some? ==>
      && a.last.Some? && last.v <= a.last.v
      && (a.phase.Pending? ==> now - last.v >= Apart(a.source))
      && (a.next.Reapply? && a.nextAt.Some? ==> a.nextAt.v - last.v >= 60.0)
  }

  lemma SaneLater(a: Attempt, last: Opt<real>, now: real, later: real)
    requires Sane(a, last, now) && now <= later
    ensures Sane(a, last, later)
  {
  }

  /** Applied but not verified: checked again, not applied again. */
  predicate Unsure(a: Attempt, was: Attempt, from: real, to: real) {
    && a == was.(phase := Unverified, verified := false, next := Recheck, nextAt := a.nextAt)
    && a.nextAt.Some? && from + REFRESH <= a.nextAt.v <= to + REFRESH
  }

  /** Failed: applied again once the backoff has passed, which goes up a step. */
  predicate Retrying(a: Attempt, was: Attempt, from: real, to: real) {
    && a == was.(phase := Failed, verified := false, next := Reapply, nextAt := a.nextAt, backoffStep := was.backoffStep + 1)
    && a.nextAt.Some? && from + Backoff(was.backoffStep) as real <= a.nextAt.v <= to + Backoff(was.backoffStep) as real
  }

  /** What the record says after a finding: settled when the server is live and ok, unsure when it
      is live and its protection was not lost, failed otherwise. */
  predicate Judged(a: Attempt, was: Attempt, f: Finding, server: string, lost: bool, from: real, to: real) {
    if f.ok && f.server == server then a == was.Settled()
    else if f.server == server && !lost then Unsure(a, was, from, to)
    else Retrying(a, was, from, to)
  }

  /** The same of the record alone. */
  predicate Outcome(a: Attempt, f: Finding, server: string, lost: bool) {
    if f.ok && f.server == server then a.phase.Idle? && a.verified && a.next.Nothing? && a.nextAt.None? && a.backoffStep == 0
    else if f.server == server && !lost then a.phase.Unverified? && !a.verified && a.next.Recheck? && a.nextAt.Some?
    else a.phase.Failed? && !a.verified && a.next.Reapply? && a.nextAt.Some? && a.backoffStep > 0
  }

  lemma JudgedOutcome(a: Attempt, was: Attempt, f: Finding, server: string, lost: bool, from: real, to: real)
    requires Judged(a, was, f, server, lost, from, to)
    ensures Outcome(a, f, server, lost) && !a.phase.Attempting? && a.targetKey == was.targetKey
  {
    hide Backoff;
  }

  lemma JudgedWider(a: Attempt, was: Attempt, f: Finding, server: string, from: real, to: real, early: real, late: real)
    requires Judged(a, was, f, server, false, from, to) && early <= from && to <= late
    ensures Judged(a, was, f, server, false, early, late)
  {
    hide Backoff;
  }

  /** What a periodic check makes of a finding: a target that verifies settles, one that no longer
      does is unsure, and one that has failed stays so. */
  predicate Compared(a: Attempt, was: Attempt, target: Opt<Selection>, f: Finding, from: real, to: real) {
    if target.None? || was.phase.Pending? || was.phase.Rejected? then a == was
    else if f.ok && f.server == target.v.server then a == if was.phase.Idle? && was.verified then was else was.Settled()
    else if (f.server == target.v.server && was.phase.Idle?) || was.phase.Unverified? then Unsure(a, was, from, to)
    else a == was
  }

  /** A call in progress is the last mutation of its own attempt. */
  lemma CalledIsSane(a: Attempt, now: real)
    requires a.phase.Attempting? && a.last.Some? && a.next.Nothing?
    ensures Sane(a, Some(a.last.v), now)
  {
  }

  class Applier {
    const lapses: bool
    const native: bool
    /** Every gate is open and no call fails. */
    const smooth: bool
    var at: Attempt
    var target: Opt<Selection>
    var measurement: Opt<Finding>
    var nextHealth: real
    var unidentifiedSince: Opt<real>
    var started: bool
    /** The boot clock. */
    var now: real
    /** The attempt last written to its file. */
    var disk: Opt<Attempt>
    ghost var log: seq<Entry>

    constructor (lapses: bool, native: bool, smooth: bool, now: real)
      ensures Valid() && log == [] && this.now == now
    {
      this.lapses, this.native, this.smooth, this.now := lapses, native, smooth, now;
      at, target, measurement, nextHealth := NewAttempt("", "", Asked, ""), None, None, 0.0;
      unidentifiedSince, started, disk, log := None, false, None, [];
    }

    ghost predicate Valid()
      reads this
    {
      && Paced(log) && WaitsGrow(log)
      && Sane(at, LastMutation(log), now)
      && (disk.Some? ==> Sane(disk.v, LastMutation(log), now))
      && (LastMutation(log).Some? ==> LastMutation(log).v <= now)
      && LastWait(log) <= Backoff(at.backoffStep)
      && (target.Some? ==> target.v.key != "")
    }

    /** The target is the attempt's. */
    predicate OnTarget()
      reads this
    {
      target.Some? ==> target.v.key == at.targetKey
    }

    /** A mutation from this source would be far enough from the last one. */
    ghost predicate Admitted(source: Source)
      reads this
    {
      LastMutation(log).Some? ==> now - LastMutation(log).v >= Apart(source)
    }

    // ---- the system's answers ----

    method Clock() returns (t: real)
      requires Valid()
      modifies this`now
      ensures Valid() && old(now) <= now && t == now
    {
      var d: real :| d >= 0.0;
      SaneLater(at, LastMutation(log), now, now + d);
      if disk.Some? {
        SaneLater(disk.v, LastMutation(log), now, now + d);
      }
      now := now + d;
      t := now;
    }

    /** Writes the attempt, or fails. */
    method Save() returns (err: bool)
      requires Valid()
      modifies this`disk
      ensures Valid() && (!err ==> disk == Some(at)) && (err ==> disk == old(disk)) && (smooth ==> !err)
    {
      err := Try();
      if !err {
        disk := Some(at);
      }
    }

    method Measure() returns (f: Finding)
      requires Valid()
      modifies this`now, this`measurement
      ensures Valid() && old(now) <= now && f.at == now && measurement == Some(f)
    {
      var t := Clock();
      var server: string, ok: bool, silent: bool, safe: bool, peers: nat, age: Opt<real> := *, *, *, *, *, *;
      f := Finding(server, ok, silent, safe, peers, age, t);
      measurement := Some(f);
    }

    /** A call that may fail. */
    method Try() returns (err: bool)
      ensures smooth ==> !err
    {
      err := *;
      err := err && !smooth;
    }

    method AskGate() returns (g: Opt<Gate>)
      ensures smooth ==> g.None?
    {
      g := *;
      if smooth {
        g := None;
      }
    }

    method AskPeers() returns (keys: nat, err: bool)
      ensures smooth ==> !err
    {
      keys := *;
      err := Try();
    }

    method AskServer() returns (server: string, err: bool)
      ensures smooth ==> !err
    {
      server := *;
      err := Try();
    }

    method AskText() returns (s: string)
    {
      s := *;
    }

    method AskRelay() returns (r: Relayed)
      ensures smooth ==> r.Applied?
    {
      r := *;
      if smooth {
        r := Applied;
      }
    }

    // ---- small steps of the attempt ----

    method SettleAttempt()
      requires Valid()
      modifies this`at, this`log
      ensures Valid() && at == old(at).Settled()
      ensures Mutations(log) == Mutations(old(log)) && LastMutation(log) == LastMutation(old(log))
    {
      Appended(log, Settle);
      at := at.Settled();
      log := log + [Settle];
    }

    /** A failed attempt is scheduled again, on the backoff. */
    method FailAttempt()
      requires Valid()
      modifies this`at, this`log, this`now
      ensures Valid() && Retrying(at, old(at), now, now) && old(now) <= now
      ensures Mutations(log) == Mutations(old(log)) && LastMutation(log) == LastMutation(old(log))
    {
      var t := Clock();
      var wait := Backoff(at.backoffStep);
      BackoffGrows(at.backoffStep, at.backoffStep + 1);
      Appended(log, Wait(wait));
      at := at.(phase := Failed, verified := false).Scheduled(t);
      log := log + [Wait(wait)];
    }

    method MarkUnverified()
      requires Valid()
      modifies this`at, this`now
      ensures Valid() && Unsure(at, old(at), now, now) && old(now) <= now
    {
      var t := Clock();
      at := at.(phase := Unverified, verified := false, next := Recheck, nextAt := Some(t + REFRESH));
    }

    /** What is missing is waited for. */
    method AwaitInterface()
      requires Valid() && Admitted(at.source)
      modifies this`at
      ensures Valid() && at.phase.Pending? && at.targetKey == old(at).targetKey
    {
      at := at.(phase := Pending, verified := false);
    }

    /** The gate's answer is recorded. */
    method Refuse(gate: Gate)
      requires Valid() && Admitted(at.source)
      modifies this`at
      ensures Valid() && !at.phase.Attempting? && at.targetKey == old(at).targetKey
    {
      var release := AskText();
      at := at.(phase := if gate.rejected then Rejected else Pending, verified := false, next := Nothing, nextAt := None,
                why := gate.why, release := if gate.rejected then release else "");
    }

    method RejectLogin()
      requires Valid()
      modifies this`at
      ensures Valid() && at.phase.Rejected? && at.targetKey == old(at).targetKey
    {
      var release := AskText();
      at := at.(phase := Rejected, verified := false, why := "credentials", release := release);
    }

    /** The attempt's source, once its mutation may be made. */
    method SetSource(source: Source)
      requires Valid() && Admitted(source)
      modifies this`at
      ensures Valid() && at == old(at).(source := source)
    {
      at := at.(source := source);
    }

    method ClearExtra()
      requires Valid()
      modifies this`at
      ensures Valid() && at == old(at).(why := "", release := "")
    {
      at := at.(why := "", release := "");
    }

    /** Repairs pace themselves on the backoff too. */
    method Bump()
      requires Valid()
      modifies this`at
      ensures Valid() && at == old(at).(backoffStep := old(at).backoffStep + 1)
    {
      BackoffGrows(at.backoffStep, at.backoffStep + 1);
      at := at.(backoffStep := at.backoffStep + 1);
    }

    /** The mutation is recorded before anything is done. */
    method BeginAttempt()
      requires Valid()
      modifies this`at, this`now
      ensures Valid() && at.phase.Attempting? && at.last == Some(now) && at.next.Nothing?
      ensures at == old(at).(phase := Attempting, verified := false, last := at.last, next := Nothing, nextAt := None, generation := at.generation)
      ensures old(now) <= now
    {
      var t := Clock();
      var generation := AskText();
      at := at.(phase := Attempting, verified := false, last := Some(t), next := Nothing, nextAt := None,
                generation := if generation != "" then generation else at.generation);
    }

    /** The generation is learned once. */
    method LearnGeneration() returns (changed: bool)
      requires Valid()
      modifies this`at
      ensures Valid() && at == old(at).(generation := at.generation)
    {
      changed := false;
      if at.generation == "" {
        var generation := AskText();
        changed := generation != "";
        at := at.(generation := generation);
      }
    }

    /** The attempt is saved, the next check set, and what was found published. */
    method Finish() returns (err: bool)
      requires Valid()
      modifies this`disk, this`now, this`nextHealth
      ensures Valid() && old(now) <= now && (smooth ==> !err)
    {
      err := Save();
      if err { return; }
      var t := Clock();
      nextHealth := t + REFRESH;
      err := Emit();
    }

    method FinishInspect() returns (err: bool)
      requires Valid()
      modifies this`disk, this`now, this`nextHealth, this`measurement
      ensures Valid() && old(now) <= now
    {
      err := Save();
      if err { return; }
      var t := Clock();
      nextHealth := t + REFRESH;
      err := Inspect();
    }

    /** How many mutations a step may have made, and what it kept. */
    twostate predicate Stepped(most: nat)
      reads this
    {
      && old(now) <= now && target == old(target) && at.targetKey == old(at).targetKey
      && Mutations(old(log)) <= Mutations(log) <= Mutations(old(log)) + most
    }

    /** Publishes what was found. */
    method Emit() returns (err: bool)
      ensures smooth ==> !err
    {
      err := Try();
    }

    method Inspect() returns (err: bool)
      requires Valid()
      modifies this`now, this`measurement
      ensures Valid() && old(now) <= now
    {
      var f := Measure();
      err := Emit();
    }

    /** One look of a verification: whether it ends it. */
    method VerifyOnce(server: string) returns (done: bool, err: bool)
      requires Valid() && at.phase.Attempting?
      modifies this
      ensures Valid() && Stepped(0)
      ensures measurement.Some? && (smooth ==> !err)
      ensures !done ==> at == old(at) && measurement.v.safe && !(measurement.v.ok && measurement.v.server == server)
      ensures done && !err ==> Judged(at, old(at), measurement.v, server, true, old(now), now)
      ensures done && !err && !(measurement.v.ok && measurement.v.server == server) ==> !measurement.v.safe
    {
      hide Valid, Mutations, LastMutation;
      var f := Measure();
      done, err := true, false;
      if f.ok && f.server == server {
        SettleAttempt();
        err := Save();
        if err { return; }
        err := Try();
        if err { return; }
        err := Try();
        if err { return; }
        Rest();
        err := Emit();
      } else if !f.safe {
        FailAttempt();
        err := Finish();
      } else {
        err := Emit();
        if err { return; }
        err := Try();
        done := err;
      }
    }

    method Sleep()
      requires Valid()
      modifies this`now
      ensures Valid() && old(now) + VERIFY_POLL <= now
    {
      var t := Clock();
      SaneLater(at, LastMutation(log), now, now + VERIFY_POLL);
      if disk.Some? {
        SaneLater(disk.v, LastMutation(log), now, now + VERIFY_POLL);
      }
      now := now + VERIFY_POLL;
    }

    /** Inspects until the target verifies, or the timeout. Without an error the record says what the
        last finding says: a target that is live and did not lose its protection is unsure at the
        timeout, and anything but a live one that is ok has failed. */
    method Verify(server: string, timeout: real) returns (err: bool)
      requires Valid() && at.phase.Attempting?
      modifies this
      ensures Valid() && Stepped(0) && (smooth ==> !err)
      ensures !err ==> measurement.Some?
                       && Judged(at, old(at), measurement.v, server, timeout > 0.0 && !measurement.v.safe, old(now), now)
    {
      hide Valid, Mutations, LastMutation;
      var start := Clock();
      var deadline := start + timeout;
      var measured := false;
      while now < deadline
        invariant Valid() && Stepped(0) && at == old(at) && (!measured ==> now == start)
        invariant measured ==> measurement.Some? && measurement.v.safe && !(measurement.v.ok && measurement.v.server == server)
        decreases deadline - now
      {
        var done;
        done, err := VerifyOnce(server);
        measured := true;
        if done { return; }
        Sleep();
      }
      if !measured {
        var g := Measure();
      }
      var f := measurement.v;
      if f.server == server {
        err := Try();
        if err { return; }
        if f.ok {
          SettleAttempt();
          err := Try();
          if err { return; }
        } else {
          MarkUnverified();
        }
      } else {
        FailAttempt();
      }
      err := Finish();
    }

    /** The provider is called, the attempting state being on disk. */
    method CallRelay() returns (r: Relayed)
      requires Valid() && Admitted(at.source) && at.phase.Attempting? && disk == Some(at) && at.last.Some? && at.next.Nothing?
      requires at.last.v <= now && (LastMutation(log).Some? ==> at.last.v - LastMutation(log).v >= Apart(at.source))
      modifies this`log
      ensures smooth ==> r.Applied?
      ensures Valid() && log == old(log) + [Mutated(at.last.v, at.source, true)] && Mutations(log) == Mutations(old(log)) + 1
    {
      hide Paced, WaitsGrow, LastMutation, LastWait, Mutations, Backoff, Apart;
      ghost var e := Mutated(at.last.v, at.source, disk.Some? && disk.v.phase.Attempting?);
      Appended(log, e);
      CalledIsSane(at, now);
      log := log + [e];
      r := AskRelay();
    }

    /** The mutation: the attempting state goes to disk first, then the provider is called once. */
    method Mutate(sel: Selection, timeout: real) returns (err: bool)
      requires Valid() && target == Some(sel) && OnTarget() && Admitted(at.source) && !at.phase.Attempting?
      modifies this
      ensures Valid() && OnTarget() && Stepped(1)
      ensures !err ==> !at.phase.Attempting?
      ensures smooth ==> !err && Mutations(log) == Mutations(old(log)) + 1 && measurement.Some?
                         && Outcome(at, measurement.v, sel.server, timeout > 0.0 && !measurement.v.safe)
      decreases 1, 1
    {
      hide Valid, Mutations, LastMutation, Judged, Outcome;
      var keys, server;
      keys, err := AskPeers();
      if !err {
        server, err := AskServer();
      }
      if err {
        AwaitInterface();
        err := Save();
        if err { return; }
        err := Inspect();
        return;
      }
      err := Try();
      if err { return; }
      BeginAttempt();
      err := Save();
      if err { return; }
      err := Try();
      if err { return; }
      var r := CallRelay();
      match r
      case Applied =>
        ghost var from, was := now, at;
        err := Verify(sel.server, timeout);
        if !err {
          JudgedOutcome(at, was, measurement.v, sel.server, timeout > 0.0 && !measurement.v.safe, from, now);
        }
      case CredentialsRefused =>
        RejectLogin();
        err := FinishInspect();
      case CallFailed =>
        FailAttempt();
        err := Save();
        if err { return; }
        err := Check(timeout);
      case OwnFailure => err := true;
    }

    /** The registration of the live server may be made again now. */
    predicate LapseRepairDue(live: string, t: real)
      reads this
    {
      && lapses && target.Some? && live != "" && live == target.v.server && IsRest(at.phase)
      && (at.last.None? || t >= at.last.v + Backoff(at.backoffStep) as real)
    }

    predicate HandshakeStale(f: Finding, t: real)
      reads this
    {
      && f.peers == 1
      && (if f.age.None? then at.last.None? || t - at.last.v >= HANDSHAKE_FRESH else f.age.v >= HANDSHAKE_FRESH)
    }

    lemma LapseIsAdmitted(live: string, t: real)
      requires Valid() && OnTarget() && LapseRepairDue(live, t) && t <= now
      ensures Admitted(Retry)
    {
    }

    /** The selection is compared with what was found. */
    method CompareWith(f: Finding) returns (err: bool)
      requires Valid() && !at.phase.Attempting?
      modifies this
      ensures Valid() && Stepped(0) && !at.phase.Attempting? && Compared(at, old(at), old(target), f, old(now), now)
    {
      hide Valid, Mutations, LastMutation;
      err := false;
      if target.Some? && !at.phase.Pending? && !at.phase.Rejected? {
        var onTarget := f.server == target.v.server;
        if f.ok && onTarget {
          if !at.phase.Idle? || !at.verified {
            SettleAttempt();
            err := Save();
            if err { return; }
          }
          err := Try();
        } else if (onTarget && at.phase.Idle?) || at.phase.Unverified? {
          MarkUnverified();
          err := Save();
        }
      }
    }

    /** The periodic check: it re-checks the selection; only a lapsed registration is applied
        again, and only from rest. */
    method Check(timeout: real) returns (err: bool)
      requires Valid() && OnTarget() && !at.phase.Attempting?
      modifies this
      ensures Valid() && OnTarget() && Stepped(if IsRest(old(at.phase)) then 1 else 0)
      ensures !err ==> !at.phase.Attempting?
      decreases if IsRest(at.phase) then 2 else 0, 0
    {
      hide Valid, Mutations, LastMutation;
      ghost var seen;
      var f := Measure();
      var t := Clock();
      if f.silent && LapseRepairDue(f.server, t) {
        LapseIsAdmitted(f.server, t);
        err, seen := RunPipeline(target.v, Retry, false, true, timeout);
        return;
      }
      err := CompareWith(f);
      if err { return; }
      var learned := LearnGeneration();
      if learned {
        err := Save();
        if err { return; }
      }
      Rest();
      err := Emit();
    }

    /** The next check is a refresh away. */
    method Rest()
      requires Valid()
      modifies this`now, this`nextHealth
      ensures Valid() && old(now) <= now
    {
      var t := Clock();
      nextHealth := t + REFRESH;
    }

    /** The finding a re-application goes by: a silent one of this pass, or a new one. */
    method Reinspect(repair: bool) returns (f: Finding)
      requires Valid()
      modifies this`now, this`measurement
      ensures Valid() && old(now) <= now && measurement == Some(f)
    {
      var t := Clock();
      if repair && measurement.Some? && measurement.v.silent && t - measurement.v.at <= SILENT_REUSE {
        f := measurement.v;
      } else {
        f := Measure();
      }
    }

    /** The target is live: it settles, or is unsure, unless its lapsed registration is repaired. */
    method FoundLive(f: Finding, repair: bool) returns (done: bool, err: bool)
      requires Valid() && !at.phase.Attempting?
      modifies this
      ensures Valid() && Stepped(0) && measurement == old(measurement) && LastMutation(log) == LastMutation(old(log))
      ensures (f.ok || !repair ==> done) && (repair && !f.ok && f.silent ==> !done) && (smooth || !done ==> !err)
      ensures done ==> Judged(at, old(at), f, f.server, false, old(now), now)
      ensures !done ==> at == old(at).(backoffStep := old(at).backoffStep + 1)
    {
      hide Valid, Mutations, LastMutation;
      done, err := true, false;
      if f.ok {
        SettleAttempt();
        err := Save();
        if err { return; }
        err := Try();
        if err { return; }
        Rest();
        err := Emit();
        return;
      }
      var t := Clock();
      if repair && (HandshakeStale(f, t) || f.silent) {
        Bump();
        done := false;
      } else {
        MarkUnverified();
        err := Finish();
      }
    }

    /** The gates, a fresh inspection when re-applying, then the mutation. A target the inspection
        finds live is not applied again, unless a registration that lapsed is repaired: the record
        says what was found. With every gate open anything else is applied once. */
    method RunPipeline(sel: Selection, source: Source, reinspect: bool, repair: bool, timeout: real)
        returns (err: bool, ghost seen: Opt<Finding>)
      requires Valid() && target == Some(sel) && OnTarget() && Admitted(source) && !at.phase.Attempting?
      modifies this
      ensures Valid() && OnTarget() && Stepped(1)
      ensures !err ==> !at.phase.Attempting?
      ensures seen.Some? && seen.v.server == sel.server && (seen.v.ok || !repair) ==>
                && Mutations(log) == Mutations(old(log))
                && Judged(at, old(at).(source := source, why := "", release := ""), seen.v, sel.server, false, old(now), now)
      ensures smooth ==>
                && !err && measurement.Some? && (seen.Some? <==> reinspect || repair)
                && (seen.None? || seen.v.server != sel.server || (repair && !seen.v.ok && seen.v.silent) ==>
                      Mutations(log) == Mutations(old(log)) + 1)
                && Outcome(at, measurement.v, sel.server, Mutations(log) != Mutations(old(log)) && timeout > 0.0 && !measurement.v.safe)
      decreases 1, 2
    {
      hide Valid, Mutations, LastMutation, Judged, Outcome;
      seen := None;
      SetSource(source);
      var gate := AskGate();
      if gate.Some? {
        Refuse(gate.v);
        err := FinishInspect();
        return;
      }
      ClearExtra();
      if reinspect || repair {
        var f := Reinspect(repair);
        seen := Some(f);
        if f.server == sel.server {
          ghost var from, was := now, at;
          var done;
          done, err := FoundLive(f, repair);
          if done {
            JudgedOutcome(at, was, f, sel.server, false, from, now);
            JudgedWider(at, was, f, sel.server, from, now, old(now), now);
            return;
          }
        }
      }
      err := Mutate(sel, timeout);
    }

    // ---- a pass ----

    /** An interrupted attempt is inspected, never replayed. */
    method Resume() returns (some: bool, err: bool)
      requires Valid()
      modifies this
      ensures Valid() && Stepped(0) && (some <==> old(at.phase.Attempting?))
      ensures !some ==> at == old(at) && !err
      ensures some && !err ==>
                && measurement.Some?
                && (if old(at).target != "" then Judged(at, old(at), measurement.v, old(at).target, false, old(now), now)
                    else Retrying(at, old(at), old(now), now))
    {
      hide Valid, Mutations, LastMutation;
      some, err := at.phase.Attempting?, false;
      if !some {
        return;
      }
      var f := Measure();
      if at.target != "" && f.server == at.target {
        if f.ok {
          SettleAttempt();
          err := Try();
          if err { return; }
        } else {
          MarkUnverified();
        }
      } else {
        FailAttempt();
      }
      err := Finish();
    }

    /** A new effective target is a new attempt. */
    method Retarget(key: string, server: string)
      requires Valid()
      modifies this`at, this`log, this`unidentifiedSince
      ensures Valid() && at == NewAttempt(key, server, Asked, old(at).generation)
      ensures Mutations(log) == Mutations(old(log)) && LastMutation(log).None?
    {
      Appended(log, Retargeted);
      unidentifiedSince := None;
      at := NewAttempt(key, server, Asked, at.generation);
      log := log + [Retargeted];
    }

    /** What refused the target changed. */
    method LiftRejection()
      requires Valid()
      modifies this`log
      ensures Valid() && LastMutation(log).None? && Mutations(log) == Mutations(old(log))
    {
      Appended(log, Released);
      log := log + [Released];
    }

    /** A new target has been dealt with: applied once if it was asked for, and otherwise unless it
        was found live; the record says what was found. */
    twostate predicate Launched(asked: bool, sel: Selection, timeout: real)
      reads this
    {
      && at.targetKey == sel.key && measurement.Some?
      && (Mutations(log) == Mutations(old(log)) + 1
          || (!asked && Mutations(log) == Mutations(old(log)) && measurement.v.server == sel.server))
      && Outcome(at, measurement.v, sel.server, Mutations(log) != Mutations(old(log)) && timeout > 0.0 && !measurement.v.safe)
    }

    method Begin(asked: bool, timeout: real) returns (some: bool, err: bool)
      requires Valid()
      modifies this
      ensures Valid() && OnTarget() && target == old(target)
      ensures Mutations(old(log)) <= Mutations(log) <= Mutations(old(log)) + if some || err then 1 else 0
      ensures !err ==> !at.phase.Attempting?
      ensures smooth && target.Some? ==> some && !err && Launched(asked, target.v, timeout)
    {
      hide Valid, Mutations, LastMutation;
      if target.None? {
        Retarget("", "");
        err := Save();
        if err { return true, true; }
        CheckNow();
        some := false;
      } else {
        Retarget(target.v.key, target.v.server);
        ghost var seen;
        err, seen := RunPipeline(target.v, Asked, !asked, false, timeout);
        some := true;
      }
    }

    method CheckNow()
      requires Valid()
      modifies this`nextHealth
      ensures Valid()
    {
      nextHealth := 0.0;
    }

    lemma GuardAdmits(t: real)
      requires Valid() && OnTarget() && target.Some? && at.GuardPassed(t) && t <= now
      ensures Admitted(Reconverge)
    {
    }

    lemma ReapplyAdmits(t: real)
      requires Valid() && OnTarget() && target.Some? && at.next.Reapply? && at.nextAt.Some? && t >= at.nextAt.v && t <= now
      ensures Admitted(Retry)
    {
    }

    lemma PendingAdmits()
      requires Valid() && OnTarget() && target.Some? && at.phase.Pending?
      ensures Admitted(at.source)
    {
    }

    lemma NoneAdmits(source: Source)
      requires LastMutation(log).None?
      ensures Admitted(source)
    {
    }

    method Unidentify(since: Opt<real>)
      requires Valid()
      modifies this`unidentifiedSince
      ensures Valid() && unidentifiedSince == since
    {
      unidentifiedSince := since;
    }

    /** The triggers of a target that has not changed and waits for nothing. */
    method AdmitDrift(sel: Selection, t: real, timeout: real) returns (some: bool, err: bool)
      requires Valid() && OnTarget() && target == Some(sel) && t <= now
      requires !at.phase.Attempting? && !at.phase.Pending? && !at.phase.Rejected?
      modifies this
      ensures Valid() && OnTarget() && Stepped(if some then 1 else 0) && (err ==> some)
      ensures !err ==> !at.phase.Attempting?
    {
      hide Valid, Mutations, LastMutation;
      ghost var seen;
      some, err := true, false;
      var keys, failed := AskPeers();
      if failed { return false, false; }
      var guard := at.GuardPassed(t);
      if keys == 0 {
        var generation := AskText();
        var freshOwner := generation != "" && at.generation != "" && at.generation != generation;
        if guard && (freshOwner || (native && IsRest(at.phase))) {
          GuardAdmits(t);
          err, seen := RunPipeline(sel, Reconverge, true, false, timeout);
          return;
        }
      }
      if at.next.Reapply? && at.nextAt.Some? && t >= at.nextAt.v {
        ReapplyAdmits(t);
        err, seen := RunPipeline(sel, Retry, true, false, timeout);
        return;
      }
      var live := "";
      if keys > 0 {
        var usable: bool := *;
        if !usable {
          Unidentify(None);
          return false, false;
        }
        live, failed := AskServer();
        if failed { return false, false; }
        if LapseRepairDue(live, t) && RegistrationLapsed(t) {
          LapseIsAdmitted(live, t);
          err, seen := RunPipeline(sel, Retry, false, true, timeout);
          return;
        }
      }
      if live != "" {
        Unidentify(None);
        if live != sel.server && IsRest(at.phase) && guard {
          GuardAdmits(t);
          err, seen := RunPipeline(sel, Reconverge, true, false, timeout);
          return;
        }
        return false, false;
      }
      if unidentifiedSince.None? {
        Unidentify(Some(t));
      } else if t - unidentifiedSince.v >= UNIDENTIFIED && IsRest(at.phase) && guard {
        Unidentify(None);
        GuardAdmits(t);
        err, seen := RunPipeline(sel, Reconverge, true, false, timeout);
        return;
      }
      some := false;
    }

    predicate RegistrationLapsed(t: real)
      reads this
    {
      && measurement.Some? && t - measurement.v.at <= 2.0 * REFRESH && target.Some?
      && measurement.v.server == target.v.server && HandshakeStale(measurement.v, t)
    }

    /** Admission: a new target, a release, a due retry, drift. */
    method Admit(asked: bool, timeout: real) returns (some: bool, err: bool)
      requires Valid() && !at.phase.Attempting?
      modifies this
      ensures Valid() && OnTarget() && target == old(target)
      ensures Mutations(old(log)) <= Mutations(log) <= Mutations(old(log)) + if some || err then 1 else 0
      ensures !err ==> !at.phase.Attempting?
      ensures smooth && target.Some? && target.v.key != old(at).targetKey ==> some && !err && Launched(asked, target.v, timeout)
    {
      hide Valid, Mutations, LastMutation;
      ghost var seen;
      some, err := false, false;
      var t := Clock();
      var key := if target.Some? then target.v.key else "";
      if key != at.targetKey {
        some, err := Begin(asked, timeout);
        return;
      }
      if target.None? {
        return;
      }
      if at.phase.Pending? {
        var gate := AskGate();
        if gate.None? {
          PendingAdmits();
          some := true;
          err, seen := RunPipeline(target.v, at.source, !asked, false, timeout);
        }
      } else if at.phase.Rejected? {
        var signature := AskText();
        if at.release != signature {
          LiftRejection();
          NoneAdmits(at.source);
          some := true;
          err, seen := RunPipeline(target.v, at.source, true, false, timeout);
        }
      } else {
        some, err := AdmitDrift(target.v, t, timeout);
      }
    }

    /** The effective target, as the request, the configuration and the catalogue give it. */
    method Resolve(found: Opt<Selection>)
      requires Valid() && (found.Some? ==> found.v.key != "")
      modifies this`target, this`started
      ensures Valid() && target == found
    {
      target := found;
    }

    /** One pass of the control loop. It calls the provider at most once, never after it started
        from an interrupted attempt, and without an error it leaves no attempt in progress. The
        log's pacing is part of Valid. */
    method Tick(found: Opt<Selection>, asked: bool, timeout: real) returns (err: bool)
      requires Valid() && (found.Some? ==> found.v.key != "")
      modifies this
      ensures Valid()
      ensures Mutations(old(log)) <= Mutations(log) <= Mutations(old(log)) + 1
      ensures old(at.phase.Attempting?) ==> Mutations(log) == Mutations(old(log))
      ensures !err ==> !at.phase.Attempting?
      ensures smooth && !old(at).phase.Attempting? && found.Some? && found.v.key != old(at).targetKey ==>
                !err && Launched(asked, found.v, timeout)
    {
      hide Valid, Mutations, LastMutation;
      err := Try();
      if err { return; }
      Resolve(found);
      var some := false;
      if !started || at.phase.Attempting? {
        Started();
        some, err := Resume();
        if err { return; }
      }
      if !some {
        some, err := Admit(asked, timeout);
        if err { return; }
        if !some {
          var t := Clock();
          var pulled: bool := *;
          if pulled || t >= nextHealth {
            err := Check(timeout);
          }
        }
      }
    }

    method Started()
      requires Valid()
      modifies this`started
      ensures Valid()
    {
      started := true;
    }

    /** A new process on the same boot takes the attempt from its file. */
    method Restart()
      requires Valid()
      modifies this
      ensures Valid() && Mutations(log) == Mutations(old(log)) && LastMutation(log) == LastMutation(old(log)) && now == old(now)
    {
      ghost var behind := disk.None? || disk.v.backoffStep < at.backoffStep;
      Appended(log, Restarted(behind));
      if disk.Some? && !behind {
        BackoffGrows(at.backoffStep, disk.v.backoffStep);
      }
      log := log + [Restarted(behind)];
      at := if disk.Some? then disk.v else NewAttempt("", "", Asked, "");
      target, measurement, nextHealth, unidentifiedSince, started := None, None, 0.0, None, false;
    }
  }
}
