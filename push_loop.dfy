/**
 * Control flow of the push loop (PushService.cs:85-147), one pass of `while (true)` at a
 * time. Waits, logging and the stopwatch are left out; what remains is the order of the
 * steps (session check, drain, cancellation check, send, reset or count the failure) and
 * the retry counter with its ceiling of 10.
 */
module PushLoop {
  import opened Monsters

  /** After this many failed sends without a success in between the loop gives up. */
  const RetryCeiling: nat := 10

  /** The loop is running with its retry counter, or has returned for good. */
  datatype Loop = Active(retryCount: nat) | Stopped

  /**
   * What one pass observes: no session (it waits and tries again), or the batch it
   * drained, whether the token was cancelled at that moment, and the outcome the
   * transport client would report if the batch were sent.
   */
  datatype Pass =
    | NoSession
    | Drained(batch: seq<MonsterModel>, cancelled: bool, sendOk: bool)

  /** One call of the transport client: the batch handed over and whether it succeeded. */
  datatype Attempt = Attempt(batch: seq<MonsterModel>, ok: bool)

  /** The pass hands its batch to the transport client. */
  predicate Sends(l: Loop, p: Pass) {
    l.Active? && p.Drained? && !p.cancelled && p.batch != []
  }

  /**
   * The loop state after one pass. Only a stopped loop stays stopped; a pass that makes
   * no call leaves the loop as it was, unless it saw the cancellation and ends it; a
   * call that succeeds resets the counter, and one that fails counts up, ending the
   * loop when the count reaches RetryCeiling.
   */
  function Next(l: Loop, p: Pass): (r: Loop)
    ensures r.Active? ==> l.Active?
    ensures !Sends(l, p) ==> r == l || (l.Active? && p.Drained? && p.cancelled && r == Stopped)
    ensures Sends(l, p) && p.sendOk ==> r == Active(0)
    ensures Sends(l, p) && !p.sendOk ==>
      && (r.Stopped? <==> l.retryCount + 1 == RetryCeiling)
      && (r.Active? ==> r.retryCount == l.retryCount + 1)
  {
    match l
    case Stopped => Stopped
    case Active(retryCount) =>
      match p
      case NoSession => l
      case Drained(batch, cancelled, sendOk) =>
        if cancelled then Stopped
        else if batch == [] then l
        else if sendOk then Active(0)
        else if retryCount + 1 == RetryCeiling then Stopped
        else Active(retryCount + 1)
  }

  /** The transport-client call one pass makes, if any. */
  function Attempted(l: Loop, p: Pass): seq<Attempt> {
    if Sends(l, p) then [Attempt(p.batch, p.sendOk)] else []
  }

  /** The loop state after a sequence of passes. */
  function Run(l: Loop, ps: seq<Pass>): Loop
    decreases |ps|
  {
    if ps == [] then l else Run(Next(l, ps[0]), ps[1..])
  }

  /** Every transport-client call made during a sequence of passes, in order. */
  function Attempts(l: Loop, ps: seq<Pass>): seq<Attempt>
    decreases |ps|
  {
    if ps == [] then [] else Attempted(l, ps[0]) + Attempts(Next(l, ps[0]), ps[1..])
  }

  /** The number of failed calls at the end of `a` since the last success. */
  function TrailingFailures(a: seq<Attempt>): nat {
    if a == [] || a[|a| - 1].ok then 0 else 1 + TrailingFailures(a[..|a| - 1])
  }

  /** Before every call in `a`, fewer than RetryCeiling calls in a row had failed. */
  ghost predicate BelowCeilingBeforeEach(a: seq<Attempt>) {
    forall j :: 0 <= j < |a| ==> TrailingFailures(a[..j]) < RetryCeiling
  }

  /** A loop that has stopped stays stopped and calls the transport client no more. */
  lemma {:induction false} StoppedIsFinal(ps: seq<Pass>)
    ensures Run(Stopped, ps) == Stopped
    ensures Attempts(Stopped, ps) == []
    decreases |ps|
  {
    if ps != [] {
      StoppedIsFinal(ps[1..]);
    }
  }

  /**
   * The retry counter is the number of failed calls since the last success (so a success
   * resets it to 0 and each failure adds 1), it stays below the ceiling while the loop
   * runs, the ceiling is never reached before a call, and reaching it stops the loop.
   * `h` is the history of calls before the passes `ps`.
   */
  lemma {:induction false} RetryCounterTracksFailures(h: seq<Attempt>, l: Loop, ps: seq<Pass>)
    requires l.Active? ==> l.retryCount == TrailingFailures(h) < RetryCeiling
    requires BelowCeilingBeforeEach(h)
    ensures BelowCeilingBeforeEach(h + Attempts(l, ps))
    ensures Run(l, ps).Active? ==>
      Run(l, ps).retryCount == TrailingFailures(h + Attempts(l, ps)) < RetryCeiling
    ensures l.Active? && TrailingFailures(h + Attempts(l, ps)) >= RetryCeiling ==>
      Run(l, ps) == Stopped
    decreases |ps|
  {
    if ps == [] {
      assert h + Attempts(l, ps) == h;
    } else {
      var p := ps[0];
      var h' := h + Attempted(l, p);
      NextKeepsCounter(h, l, p);
      RetryCounterTracksFailures(h', Next(l, p), ps[1..]);
      assert h + Attempts(l, ps) == h' + Attempts(Next(l, p), ps[1..]);
      if l.Stopped? {
        StoppedIsFinal(ps[1..]);
      }
    }
  }

  /** The step of RetryCounterTracksFailures: one pass keeps the counter's meaning. */
  lemma NextKeepsCounter(h: seq<Attempt>, l: Loop, p: Pass)
    requires l.Active? ==> l.retryCount == TrailingFailures(h) < RetryCeiling
    requires BelowCeilingBeforeEach(h)
    ensures Next(l, p).Active? ==> Next(l, p).retryCount == TrailingFailures(h + Attempted(l, p)) < RetryCeiling
    ensures BelowCeilingBeforeEach(h + Attempted(l, p))
    ensures l.Active? && TrailingFailures(h + Attempted(l, p)) >= RetryCeiling ==> Next(l, p) == Stopped
  {
    if Sends(l, p) {
      var h' := h + [Attempt(p.batch, p.sendOk)];
      assert h'[..|h|] == h;
      forall j | 0 <= j < |h'| ensures TrailingFailures(h'[..j]) < RetryCeiling {
        if j < |h| {
          assert h'[..j] == h[..j];
        }
      }
    } else {
      assert h + Attempted(l, p) == h;
    }
  }

  /**
   * From a fresh loop (retry counter 0): no call is made once 10 calls in a row have
   * failed, the counter always equals the current run of failures, and ten failures in
   * a row leave the loop stopped.
   */
  lemma FailStop(ps: seq<Pass>)
    ensures BelowCeilingBeforeEach(Attempts(Active(0), ps))
    ensures Run(Active(0), ps).Active? ==>
      Run(Active(0), ps).retryCount == TrailingFailures(Attempts(Active(0), ps))
    ensures TrailingFailures(Attempts(Active(0), ps)) >= RetryCeiling ==> Run(Active(0), ps) == Stopped
  {
    RetryCounterTracksFailures([], Active(0), ps);
    assert [] + Attempts(Active(0), ps) == Attempts(Active(0), ps);
  }

  /**
   * Every call hands over a non-empty batch drained by a pass that found a session and
   * an uncancelled token; passes without a session, cancelled passes and empty batches
   * never reach the transport client.
   */
  lemma {:induction false} AttemptsComeFromLiveBatches(l: Loop, ps: seq<Pass>)
    ensures forall a :: a in Attempts(l, ps) ==>
      a.batch != [] && Drained(a.batch, false, a.ok) in ps
    decreases |ps|
  {
    if ps != [] {
      AttemptsComeFromLiveBatches(Next(l, ps[0]), ps[1..]);
      assert ps == [ps[0]] + ps[1..];
    }
  }

  /** A pass that observes a cancelled token ends the loop without a call. */
  lemma CancelledPassStops(l: Loop, batch: seq<MonsterModel>, sendOk: bool)
    ensures Next(l, Drained(batch, true, sendOk)) == Stopped
    ensures Attempted(l, Drained(batch, true, sendOk)) == []
  {
  }

  /** Running one more pass extends the run by one step. */
  lemma {:induction false} RunSnoc(l: Loop, ps: seq<Pass>, p: Pass)
    ensures Run(l, ps + [p]) == Next(Run(l, ps), p)
    ensures Attempts(l, ps + [p]) == Attempts(l, ps) + Attempted(Run(l, ps), p)
    decreases |ps|
  {
    if ps == [] {
      assert [] + [p] == [p];
    } else {
      assert (ps + [p])[0] == ps[0];
      assert (ps + [p])[1..] == ps[1..] + [p];
      RunSnoc(Next(l, ps[0]), ps[1..], p);
    }
  }

  /** Some pass observed a cancelled token. */
  predicate CancelObserved(ps: seq<Pass>) {
    exists j :: 0 <= j < |ps| && ps[j].Drained? && ps[j].cancelled
  }

  /**
   * The loop stops for one of two reasons only: a pass observed cancellation, or the
   * last RetryCeiling calls all failed.
   */
  lemma {:induction false} StopReason(h: seq<Attempt>, l: Loop, ps: seq<Pass>)
    requires l.Active? && l.retryCount == TrailingFailures(h) < RetryCeiling
    ensures Run(l, ps) == Stopped ==>
      CancelObserved(ps) || TrailingFailures(h + Attempts(l, ps)) == RetryCeiling
    decreases |ps|
  {
    if ps != [] {
      var p := ps[0];
      var h' := h + Attempted(l, p);
      assert h + Attempts(l, ps) == h' + Attempts(Next(l, p), ps[1..]);
      if Next(l, p) == Stopped {
        StoppedIsFinal(ps[1..]);
        assert h' + Attempts(Next(l, p), ps[1..]) == h';
        if p.Drained? && p.cancelled {
          assert ps[0].Drained? && ps[0].cancelled;
        } else {
          assert h'[..|h'| - 1] == h;
        }
      } else {
        if Sends(l, p) {
          assert h'[..|h'| - 1] == h;
        } else {
          assert h' == h;
        }
        StopReason(h', Next(l, p), ps[1..]);
        if CancelObserved(ps[1..]) {
          var j :| 0 <= j < |ps[1..]| && ps[1..][j].Drained? && ps[1..][j].cancelled;
          assert ps[j + 1] == ps[1..][j];
        }
      }
    }
  }

  /** Recording one more pass keeps the record of the run in step with the run. */
  lemma ExtendRun(status: Loop, attempts: seq<Attempt>, passes: seq<Pass>, pass: Pass)
    requires status == Run(Active(0), passes) && attempts == Attempts(Active(0), passes)
    ensures Next(status, pass) == Run(Active(0), passes + [pass])
    ensures attempts + Attempted(status, pass) == Attempts(Active(0), passes + [pass])
    ensures forall p :: p in passes + [pass] ==> p in passes || p == pass
    ensures CancelObserved(passes + [pass]) ==> CancelObserved(passes) || (pass.Drained? && pass.cancelled)
  {
    RunSnoc(Active(0), passes, pass);
    if CancelObserved(passes + [pass]) && !(pass.Drained? && pass.cancelled) {
      var j :| 0 <= j < |passes + [pass]| && (passes + [pass])[j].Drained? && (passes + [pass])[j].cancelled;
      assert j < |passes| && (passes + [pass])[j] == passes[j];
    }
  }
}
