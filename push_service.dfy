/**
 * PushService (PushService.cs): the snapshot cache, the pending queue, the lifecycle of
 * the worker and the push loop. Each block the source runs under its lock is one atomic
 * method here. The worker thread runs the async loop only up to its first await, so its
 * liveness (`threadAlive`) and the loop's (`looping`) are two different fields.
 */
module Server {
  import opened Wrappers
  import opened Monsters
  import opened Coalescing
  import opened PushLoop

  /** A CancellationTokenSource reduced to whether it has been cancelled. */
  class TokenSource {
    var cancelled: bool

    constructor ()
      ensures !cancelled
    {
      cancelled := false;
    }

    method Cancel()
      modifies this
      ensures cancelled
    {
      cancelled := true;
    }
  }

  /** string.IsNullOrEmpty(SessionId) is false: `None` stands for null. */
  predicate HasSession(sessionId: Option<string>) {
    sessionId.Some? && sessionId.value != ""
  }

  /** The cache already holds an equal update at the update's index. */
  predicate IsCached(cache: map<int, MonsterModel>, model: MonsterModel) {
    model.index in cache && cache[model.index] == model
  }

  /**
   * What the rest of the program does between two passes of the push loop: set the
   * session identifier, push updates, request a stop; and the outcome of the send the
   * pass may make.
   */
  datatype Round = Round(session: Option<string>, arrivals: seq<MonsterModel>, stop: bool, sendOk: bool)

  /**
   * The passes are those of the rounds, in order: a pass finds no session exactly when
   * its round left none, and a pass that drained reports its round's send outcome.
   */
  ghost predicate Observes(rounds: seq<Round>, passes: seq<Pass>) {
    && |passes| <= |rounds|
    && forall j :: 0 <= j < |passes| ==>
         && (passes[j].NoSession? <==> !HasSession(rounds[j].session))
         && (passes[j].Drained? ==> passes[j].sendOk == rounds[j].sendOk)
  }

  class PushService {
    var sessionId: Option<string>
    var cachedMonsters: map<int, MonsterModel>
    var pushQueue: seq<MonsterModel>
    var tokenSource: TokenSource
    /**
     * thread?.IsAlive. The thread's start routine is the async loop, which returns to it
     * at its first await, so the thread ends with the loop's first pass.
     */
    var threadAlive: bool
    /** The loop started by the last start has not returned. */
    var looping: bool

    /**
     * The cache and the queue are changed together: for every index queued, the last
     * update queued with that index is the one the cache holds.
     */
    ghost predicate Valid()
      reads this
    {
      forall i :: i in Indices(pushQueue) ==>
        i in cachedMonsters && LastWith(pushQueue, i) == Some(cachedMonsters[i])
    }

    constructor ()
      ensures Valid()
      ensures sessionId == None && cachedMonsters == map[] && pushQueue == []
      ensures fresh(tokenSource) && !tokenSource.cancelled && !threadAlive && !looping
    {
      sessionId := None;
      cachedMonsters := map[];
      pushQueue := [];
      tokenSource := new TokenSource();
      threadAlive := false;
      looping := false;
    }

    /**
     * SetState past its liveness check: the current token is cancelled and the cache
     * and queue are cleared; a start also installs a fresh token and a new worker
     * running a new loop.
     */
    method Switch(state: bool)
      requires Valid()
      modifies this, tokenSource
      ensures Valid() && sessionId == old(sessionId)
      ensures cachedMonsters == map[] && pushQueue == [] && old(tokenSource).cancelled
      ensures state ==> fresh(tokenSource) && !tokenSource.cancelled && threadAlive && looping
      ensures !state ==>
        tokenSource == old(tokenSource) && threadAlive == old(threadAlive) && looping == old(looping)
    {
      tokenSource.Cancel();
      if state {
        tokenSource := new TokenSource();
        threadAlive, looping := true, true;
      }
      pushQueue := [];
      cachedMonsters := map[];
    }

    /**
     * SetState as written: nothing happens when the thread's liveness already equals
     * `state`. Otherwise the current token is cancelled and the cache and queue are
     * cleared; a start also installs a fresh token and a new worker. Since the thread
     * ends with the loop's first pass, a later stop finds it dead and does nothing.
     */
    method SetState(state: bool)
      requires Valid()
      modifies this, tokenSource
      ensures Valid()
      ensures sessionId == old(sessionId)
      ensures state == old(threadAlive) ==>
        && cachedMonsters == old(cachedMonsters) && pushQueue == old(pushQueue)
        && tokenSource == old(tokenSource) && tokenSource.cancelled == old(tokenSource.cancelled)
        && threadAlive == old(threadAlive) && looping == old(looping)
      ensures state != old(threadAlive) ==>
        cachedMonsters == map[] && pushQueue == [] && old(tokenSource).cancelled
      ensures state && !old(threadAlive) ==>
        fresh(tokenSource) && !tokenSource.cancelled && threadAlive && looping
      ensures !state && old(threadAlive) ==>
        tokenSource == old(tokenSource) && threadAlive && looping == old(looping)
    {
      if threadAlive == state {
        return;
      }
      Switch(state);
    }

    /**
     * SetState as its comment intends: the check is whether the loop is still running,
     * so a stop reaches a loop whose thread has already ended.
     */
    method SetStateIntended(state: bool)
      requires Valid()
      modifies this, tokenSource
      ensures Valid()
      ensures sessionId == old(sessionId)
      ensures state == old(looping) ==>
        && cachedMonsters == old(cachedMonsters) && pushQueue == old(pushQueue)
        && tokenSource == old(tokenSource) && tokenSource.cancelled == old(tokenSource.cancelled)
        && threadAlive == old(threadAlive) && looping == old(looping)
      ensures state != old(looping) ==>
        cachedMonsters == map[] && pushQueue == [] && old(tokenSource).cancelled
      ensures state && !old(looping) ==>
        fresh(tokenSource) && !tokenSource.cancelled && threadAlive && looping
      ensures !state && old(looping) ==>
        tokenSource == old(tokenSource) && threadAlive == old(threadAlive) && looping
    {
      if looping == state {
        return;
      }
      Switch(state);
    }

    /**
     * PushMonster(MonsterModel): without a session, or when the cache already holds an
     * equal update at its index, nothing changes; otherwise the update overwrites the
     * cache entry at its index (and no other) and is appended to the queue.
     */
    method PushMonster(model: MonsterModel)
      requires Valid()
      modifies this`cachedMonsters, this`pushQueue
      ensures Valid()
      ensures !HasSession(sessionId) || IsCached(old(cachedMonsters), model) ==>
        cachedMonsters == old(cachedMonsters) && pushQueue == old(pushQueue)
      ensures HasSession(sessionId) && !IsCached(old(cachedMonsters), model) ==>
        && cachedMonsters == old(cachedMonsters)[model.index := model]
        && pushQueue == old(pushQueue) + [model]
    {
      if !HasSession(sessionId) {
        return;
      }
      if model.index in cachedMonsters && cachedMonsters[model.index] == model {
        return;
      }
      var q := pushQueue + [model];
      assert q[..|q| - 1] == pushQueue;
      assert Indices(q) == Indices(pushQueue) + {model.index} by {
        assert forall x :: x in q <==> x in pushQueue || x == model;
      }
      cachedMonsters := cachedMonsters[model.index := model];
      pushQueue := q;
    }

    /** PushMonster(Monster, int): the session guard, then the mapped update is pushed. */
    method PushObservedMonster(monster: Monster, index: int)
      requires Valid()
      modifies this`cachedMonsters, this`pushQueue
      ensures Valid()
      ensures var model := MapMonster(monster, index);
        if HasSession(sessionId) && !IsCached(old(cachedMonsters), model) then
          cachedMonsters == old(cachedMonsters)[index := model] && pushQueue == old(pushQueue) + [model]
        else
          cachedMonsters == old(cachedMonsters) && pushQueue == old(pushQueue)
    {
      if !HasSession(sessionId) {
        return;
      }
      var mapped := MapMonster(monster, index);
      PushMonster(mapped);
    }

    /**
     * The locked block of the push loop: the queue is replaced by its coalesced batch
     * and cleared. Each update drained is the one the cache holds at its index.
     */
    method Drain() returns (monsters: seq<MonsterModel>)
      requires Valid()
      modifies this`pushQueue
      ensures Valid() && pushQueue == []
      ensures monsters == Coalesce(old(pushQueue))
      ensures forall m :: m in monsters ==> m.index in cachedMonsters && cachedMonsters[m.index] == m
    {
      monsters := Coalesce(pushQueue);
      forall m | m in monsters ensures m.index in cachedMonsters && cachedMonsters[m.index] == m {
        assert m.index in Indices(monsters);
      }
      pushQueue := [];
    }

    /**
     * One pass of PushLoop with retry counter `retryCount`; `sendOk` is the outcome the
     * transport client reports if it is called. Proved to be the step `Next` of the loop
     * machine, with the batch this pass drains.
     */
    method LoopPass(token: TokenSource, retryCount: nat, sendOk: bool)
      returns (next: Loop, attempt: seq<Attempt>, ghost pass: Pass)
      requires Valid() && retryCount < RetryCeiling
      modifies this`pushQueue, this`threadAlive
      ensures Valid() && !threadAlive
      ensures pass == if HasSession(sessionId)
        then Drained(Coalesce(old(pushQueue)), token.cancelled, sendOk)
        else NoSession
      ensures pushQueue == if HasSession(sessionId) then [] else old(pushQueue)
      ensures next == Next(Active(retryCount), pass)
      ensures attempt == Attempted(Active(retryCount), pass)
    {
      // every way through a pass ends in an await or a return, either of which hands
      // control back to the thread's start routine, and the thread ends
      threadAlive := false;
      if !HasSession(sessionId) {
        return Active(retryCount), [], NoSession;
      }
      var monsters := Drain();
      pass := Drained(monsters, token.cancelled, sendOk);
      if token.cancelled {
        return Stopped, [], pass;
      }
      if monsters == [] {
        return Active(retryCount), [], pass;
      }
      attempt := [Attempt(monsters, sendOk)];
      if sendOk {
        next := Active(0);
      } else {
        var count := retryCount + 1;
        next := if count == RetryCeiling then Stopped else Active(count);
      }
    }

    /**
     * The same update pushed twice in a row is queued at most once: the second push
     * finds it in the cache and changes nothing.
     */
    method PushTwice(model: MonsterModel)
      requires Valid()
      modifies this`cachedMonsters, this`pushQueue
      ensures Valid()
      ensures |pushQueue| <= |old(pushQueue)| + 1
      ensures HasSession(sessionId) && !IsCached(old(cachedMonsters), model) ==>
        && cachedMonsters == old(cachedMonsters)[model.index := model]
        && pushQueue == old(pushQueue) + [model]
      ensures !HasSession(sessionId) || IsCached(old(cachedMonsters), model) ==>
        cachedMonsters == old(cachedMonsters) && pushQueue == old(pushQueue)
    {
      PushMonster(model);
      ghost var once := pushQueue;
      PushMonster(model);
      assert pushQueue == once;
    }

    /**
     * Starting twice is starting once: the second SetState(true) finds the thread alive
     * and does nothing, so there is one worker, one fresh token and one clearing.
     */
    method StartTwice()
      requires Valid()
      modifies this, tokenSource
      ensures Valid() && threadAlive && sessionId == old(sessionId)
      ensures old(threadAlive) ==>
        && cachedMonsters == old(cachedMonsters) && pushQueue == old(pushQueue)
        && tokenSource == old(tokenSource) && tokenSource.cancelled == old(tokenSource.cancelled)
        && looping == old(looping)
      ensures !old(threadAlive) ==>
        && cachedMonsters == map[] && pushQueue == [] && looping
        && fresh(tokenSource) && !tokenSource.cancelled && old(tokenSource).cancelled
    {
      SetState(true);
      SetState(true);
    }

    /**
     * A start, one pass of the new loop, an update pushed, then a stop, then one more
     * pass. The first pass ends the thread, so the stop finds it dead and returns at
     * once: the loop's token stays uncancelled, the update stays cached, and the next
     * pass carries on instead of ending the loop.
     */
    method StopAfterFirstPass(model: MonsterModel, sendOk: bool) returns (token: TokenSource, after: Loop)
      requires Valid() && !threadAlive
      modifies this, tokenSource
      ensures tokenSource == token && !token.cancelled && looping && !threadAlive
      ensures HasSession(sessionId) ==> IsCached(cachedMonsters, model)
      ensures after.Active?
    {
      SetState(true);
      token := tokenSource;
      var next, sent, pass := LoopPass(token, 0, sendOk);
      PushMonster(model);
      SetState(false);
      after, sent, pass := LoopPass(token, next.retryCount, sendOk);
    }

    /**
     * The same sequence with the intended stop: the stop cancels the loop's token and
     * clears the cache and queue, and the next pass that has a session ends the loop.
     */
    method StopAfterFirstPassIntended(model: MonsterModel, sendOk: bool) returns (token: TokenSource, after: Loop)
      requires Valid() && !looping
      modifies this, tokenSource
      ensures tokenSource == token && token.cancelled && looping && !threadAlive
      ensures cachedMonsters == map[] && pushQueue == []
      ensures after == if HasSession(sessionId) then Stopped else Active(0)
    {
      SetStateIntended(true);
      token := tokenSource;
      var next, sent, pass := LoopPass(token, 0, sendOk);
      assert next.Active? && looping;
      PushMonster(model);
      SetStateIntended(false);
      assert token.cancelled && pushQueue == [];
      after, sent, pass := LoopPass(token, next.retryCount, sendOk);
    }

    /** The producer's side of a round: each arriving update is pushed in turn. */
    method PushAll(models: seq<MonsterModel>)
      requires Valid()
      modifies this`cachedMonsters, this`pushQueue
      ensures Valid()
    {
      for k := 0 to |models|
        invariant Valid()
      {
        PushMonster(models[k]);
      }
    }

    /** What holds of the push loop between two passes. */
    ghost predicate LoopInvariant(token: TokenSource, status: Loop, attempts: seq<Attempt>, passes: seq<Pass>)
      reads this, token
    {
      && Valid() && token == tokenSource && looping
      && (passes != [] ==> !threadAlive)
      && status == Run(Active(0), passes) && attempts == Attempts(Active(0), passes)
      && (forall p :: p in passes && p.Drained? ==> StrictlyAscending(p.batch))
      && (CancelObserved(passes) ==> token.cancelled)
    }

    /**
     * The rest of the program between two passes: it sets the session identifier,
     * pushes updates and may request a stop, which reaches the token only while the
     * thread is alive.
     */
    method Environment(token: TokenSource, round: Round)
      requires Valid() && token == tokenSource && looping
      modifies this, token
      ensures Valid() && token == tokenSource && looping && threadAlive == old(threadAlive)
      ensures sessionId == round.session
      ensures token.cancelled <==> old(token.cancelled) || (round.stop && old(threadAlive))
    {
      sessionId := round.session;
      PushAll(round.arrivals);
      if round.stop {
        SetState(false);
      }
    }

    /** One round of the environment followed by one pass of the running loop. */
    method PlayRound(token: TokenSource, round: Round, status: Loop, attempts: seq<Attempt>, ghost passes: seq<Pass>)
      returns (status': Loop, attempts': seq<Attempt>, ghost passes': seq<Pass>)
      requires status.Active? && LoopInvariant(token, status, attempts, passes)
      modifies this, token
      ensures LoopInvariant(token, status', attempts', passes')
      ensures |passes'| == |passes| + 1 && passes'[..|passes|] == passes
      ensures passes'[|passes|].NoSession? <==> !HasSession(round.session)
      ensures passes'[|passes|].Drained? ==> passes'[|passes|].sendOk == round.sendOk
    {
      Environment(token, round);
      FailStop(passes);
      var next, attempt, pass := LoopPass(token, status.retryCount, round.sendOk);
      ExtendRun(status, attempts, passes, pass);
      status', attempts', passes' := next, attempts + attempt, passes + [pass];
      assert passes'[..|passes|] == passes;
    }

    /**
     * PushLoop run against the rounds `rounds` of its environment, starting with retry
     * counter 0. It is the loop machine run over the passes the rounds produced; so no
     * call is made after RetryCeiling failures in a row, every call carries a non-empty
     * batch in ascending index order drained in a pass that had a session and reports
     * that round's outcome, and the loop only ends on cancellation or at the ceiling.
     * The thread has ended once a pass has run.
     */
    method PushLoop(token: TokenSource, rounds: seq<Round>)
      returns (status: Loop, attempts: seq<Attempt>, ghost passes: seq<Pass>)
      requires Valid() && token == tokenSource && looping
      modifies this, token
      ensures Valid()
      ensures Observes(rounds, passes)
      ensures status == Run(Active(0), passes) && attempts == Attempts(Active(0), passes)
      ensures status.Active? ==> |passes| == |rounds| && looping
      ensures status.Stopped? ==> !looping
      ensures rounds != [] ==> !threadAlive
      ensures BelowCeilingBeforeEach(attempts)
      ensures status.Active? ==> status.retryCount == TrailingFailures(attempts)
      ensures forall a :: a in attempts ==> a.batch != [] && StrictlyAscending(a.batch)
      ensures forall a :: a in attempts ==>
        exists j :: 0 <= j < |passes| && passes[j] == Drained(a.batch, false, a.ok)
      ensures status.Stopped? ==> token.cancelled || TrailingFailures(attempts) == RetryCeiling
    {
      status, attempts, passes := Active(0), [], [];
      var i := 0;
      while i < |rounds| && status.Active?
        invariant 0 <= i <= |rounds| && |passes| == i
        invariant LoopInvariant(token, status, attempts, passes)
        invariant Observes(rounds, passes)
        decreases |rounds| - i
      {
        status, attempts, passes := PlayRound(token, rounds[i], status, attempts, passes);
        i := i + 1;
      }
      if status.Stopped? {
        looping := false;
      }
      FailStop(passes);
      AttemptsComeFromLiveBatches(Active(0), passes);
      StopReason([], Active(0), passes);
      assert [] + attempts == attempts;
    }
  }
}
