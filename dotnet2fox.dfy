/** The DotNet2Fox library: a keyed pool of idle workers (FoxPool) and the worker itself
    (Fox), which owns a FoxCOM server handle and a FoxRun handle inside it.

    The FoxPro side is the worker's reply script `replies`: every call the worker makes
    into FoxPro (provisioning a handle, a liveness probe, an application hook, a command)
    takes the next reply, and an exhausted script answers every call with success. Since
    every exception that reaches a handler used up one reply, the length of the script
    bounds the mutually recursive error handling and retries of a worker. */
module DotNet2Fox {
  import opened Interop
  import opened ErrorPolicy
  import opened ComObjects
  import opened PoolKeys

  /** How one pass of the acquisition loop in FoxPool.GetObject ended. */
  datatype Via =
    | Reused             // an idle worker taken from the pool
    | Created            // a new worker in a free instance slot
    | Stolen             // an idle worker of another key dropped and replaced by a new one
    | SameKeyAtCapacity  // at capacity, the idle worker taken for stealing had the same key
    | Waiting            // nothing available: sleep and try again

  class FoxPool {
    /** Idle workers, by FormatKey(key) + worker id. */
    var pool: map<string, Fox>
    var poolEnabled: bool
    /** Workers alive, idle or busy. */
    var instanceCount: int
    /** Times an idle worker was reused. */
    var poolCount: int
    const poolSize: nat
    const recycleOtherKeys: bool
    /** Every AddObject call so far. */
    ghost var offers: seq<Offer>

    /** The pool never holds more than PoolSize idle workers, and they all belong to it. */
    ghost predicate Valid()
      reads this
    {
      |pool| <= poolSize && forall k :: k in pool ==> pool[k].foxPool == this
    }

    constructor(poolSize: nat, recycleOtherKeys: bool)
      ensures Valid() && pool == map[] && poolEnabled && instanceCount == 0 && poolCount == 0
      ensures this.poolSize == poolSize && this.recycleOtherKeys == recycleOtherKeys && offers == []
    {
      this.poolSize := poolSize;
      this.recycleOtherKeys := recycleOtherKeys;
      pool := map[];
      poolEnabled := true;
      instanceCount := 0;
      poolCount := 0;
      offers := [];
    }

    /** Removes and returns one idle worker whose dictionary key starts with FormatKey(key),
        or any idle worker when no key is given; with no candidate the pool is unchanged. */
    method GetObjectFromPool(key: Option<string>) returns (fox: Option<Fox>, ghost dictKey: string)
      requires Valid()
      modifies this`pool
      ensures Valid()
      ensures var findKey := if key.Some? then Some(PoolKeys.FormatKey(key.value)) else None;
        && (fox.None? <==> forall k :: k in old(pool) ==> !Matches(k, findKey))
        && (fox.Some? ==> dictKey in old(pool) && Matches(dictKey, findKey) && fox.value == old(pool)[dictKey])
      ensures pool == if fox.Some? then old(pool) - {dictKey} else old(pool)
    {
      var findKey := if key.Some? then Some(PoolKeys.FormatKey(key.value)) else None;
      fox, dictKey := None, "";
      var keys := pool.Keys;
      while keys != {}
        invariant keys <= pool.Keys && pool == old(pool)
        invariant forall k :: k in pool && k !in keys ==> !Matches(k, findKey)
        decreases |keys|
      {
        var k :| k in keys;
        keys := keys - {k};
        if Matches(k, findKey) {
          fox, dictKey := Some(pool[k]), k;
          pool := pool - {k};
          assert pool.Keys == old(pool).Keys - {k};
          break;
        }
      }
    }

    /** Returns a worker to the pool under FormatKey(key) + its id when the pool is enabled,
        not full and has no entry under that key; reports whether it did. */
    method AddObject(key: string, fox: Fox) returns (added: bool)
      requires Valid() && fox.foxPool == this
      modifies this`pool, this`offers
      ensures Valid()
      ensures var dictKey := PoolKeys.FormatKey(key) + fox.id;
        && (added <==> poolEnabled && |old(pool)| < poolSize && dictKey !in old(pool))
        && pool == (if added then old(pool)[dictKey := fox] else old(pool))
        && offers == old(offers) + [Offer(dictKey, added)]
    {
      var dictKey := PoolKeys.FormatKey(key) + fox.id;
      added := false;
      if poolEnabled && |pool| < poolSize {
        if dictKey !in pool {
          pool := pool[dictKey := fox];
          added := true;
        }
      }
      offers := offers + [Offer(dictKey, added)];
    }

    /** Disables the pool, removes and disposes the idle workers until the pool is empty or
        a Dispose raises, and in every case resets the instance count and re-enables the
        pool. Every worker it removed has released its FoxCOM server; when no Dispose
        raised, that is every idle worker. */
    method ClearPool() returns (st: Status)
      requires Valid()
      modifies this, pool.Values
      ensures Valid() && instanceCount == 0 && poolEnabled
      ensures pool.Keys <= old(pool).Keys
      ensures st.Ok? ==> pool == map[]
      ensures st.Ok? ==> forall k :: k in old(pool) ==> old(pool)[k].foxCOM.None?
      ensures poolCount == old(poolCount)
    {
      poolEnabled := false;
      st := Drain();
      if st.Ok? {
        pool := map[];
      }
      instanceCount := 0;
      poolEnabled := true;
    }

    /** The loop of ClearPool over the disabled pool: remove and dispose one idle worker at a
        time until the pool is empty or a Dispose raises. */
    method Drain() returns (st: Status)
      requires Valid() && !poolEnabled
      modifies this, pool.Values
      ensures Valid() && !poolEnabled && poolCount == old(poolCount)
      ensures pool.Keys <= old(pool).Keys
      ensures st.Ok? ==> pool == map[]
      ensures st.Ok? ==> forall k :: k in old(pool) ==> old(pool)[k].foxCOM.None?
    {
      st := Ok;
      while pool != map[] && st.Ok?
        invariant Valid() && !poolEnabled && poolCount == old(poolCount)
        invariant pool.Keys <= old(pool).Keys
        invariant forall k :: k in pool ==> pool[k] == old(pool)[k]
        invariant st.Ok? ==> forall k :: k in old(pool) && k !in pool ==> old(pool)[k].foxCOM.None?
        decreases |pool|
      {
        var k :| k in pool;
        var fox := pool[k];
        ghost var before := pool;
        pool := pool - {k};
        assert pool.Keys == before.Keys - {k};
        st := fox.DisposeIdle();
      }
    }

    /** An idle worker is stored under `key`. */
    ghost predicate HasIdle(key: string)
      reads this
    {
      exists k :: k in pool && Matches(k, Some(PoolKeys.FormatKey(key)))
    }

    /** GetObject would reuse an idle worker now. */
    ghost predicate Reusable(key: string)
      reads this
    {
      poolEnabled && |pool| > 0 && (HasIdle(key) || recycleOtherKeys)
    }

    /** The first step of GetObject's loop: when the pool is enabled and not empty, take an
        idle worker stored under `key` or, recycling other keys, any idle worker. */
    method TakeIdle(key: string) returns (fox: Option<Fox>, ghost taken: string)
      requires Valid()
      modifies this`pool
      ensures Valid()
      ensures fox.Some? <==> poolEnabled && |old(pool)| > 0 && (old(HasIdle(key)) || recycleOtherKeys)
      ensures fox.Some? && old(HasIdle(key)) ==> Matches(taken, Some(PoolKeys.FormatKey(key)))
      ensures fox.Some? ==> taken in old(pool) && fox.value == old(pool)[taken] && pool == old(pool) - {taken}
      ensures fox.Some? ==> fox.value.foxPool == this
      ensures fox.None? ==> pool == old(pool)
    {
      fox, taken := None, "";
      if poolEnabled && |pool| > 0 {
        fox, taken := GetObjectFromPool(Some(key));
        if fox.None? && recycleOtherKeys {
          fox, taken := GetObjectFromPool(None);
        }
      }
    }

    /** The capacity branch of GetObject's loop, for a non-empty pool: take any idle worker;
        when it was started for another key, remove it from the pool and give its instance
        slot to a new worker for `key`, otherwise keep it. */
    method TakeSlot(key: string, newId: string, hasApp: bool, errorMessage: string, script: seq<Reply>)
      returns (fox: Option<Fox>, via: Via, st: Status, ghost taken: string)
      requires Valid() && |pool| > 0
      modifies this, pool.Values
      ensures Valid()
      ensures taken in old(pool) && pool == old(pool) - {taken}
      ensures via.Stolen? || via.SameKeyAtCapacity?
      ensures via.SameKeyAtCapacity? <==> old(pool[taken].key) == key
      ensures via.SameKeyAtCapacity? ==> fox == Some(old(pool)[taken]) && st.Ok?
      ensures via.Stolen? ==> (fox.Some? <==> st.Ok?) && !old(pool)[taken].usingPool
      ensures via.Stolen? && st.Ok? ==> old(pool)[taken].foxCOM.None?
      ensures via.Stolen? && fox.Some? ==>
                fresh(fox.value) && fox.value.id == newId && fox.value.key == key && fox.value.usingPool
      ensures fox.Some? ==> fox.value.foxPool == this
      ensures instanceCount == old(instanceCount) && poolCount == old(poolCount)
      ensures poolEnabled == old(poolEnabled) && offers == old(offers)
    {
      var f;
      fox, via, st := None, Stolen, Ok;
      f, taken := GetObjectFromPool(None);
      if f.value.key != key {
        st := f.value.RemoveFromPool();
        if st.Ok? {
          var g := new Fox(key, newId, this, hasApp, true, errorMessage, script);
          fox := Some(g);
        }
      } else {
        fox, via := f, SameKeyAtCapacity;
      }
    }

    /** The pool part of one pass of the acquisition loop of GetObject(key). It reuses an
        idle worker stored under `key` (or, recycling other keys, any idle worker);
        otherwise it creates a worker in a free instance slot; otherwise, at capacity and
        not recycling, it takes any idle worker and, when that one was started for another
        key, removes it from the pool and gives its slot to a new worker; otherwise it
        waits and nothing changes. A new worker gets id `newId`, the IFoxApp presence
        `hasApp`, the FoxPro error message `errorMessage` and the FoxPro replies `script`. */
    method Acquire(key: string, newId: string, hasApp: bool, errorMessage: string, script: seq<Reply>)
      returns (fox: Option<Fox>, via: Via, st: Status, ghost taken: string)
      requires Valid()
      modifies this, pool.Values
      ensures Valid()
      ensures via == Reused <==> old(Reusable(key))
      ensures via == Created <==> !old(Reusable(key)) && old(instanceCount) < poolSize
      ensures via.Stolen? || via.SameKeyAtCapacity? <==>
                !old(Reusable(key)) && old(instanceCount) >= poolSize && !recycleOtherKeys && |old(pool)| > 0
      ensures via.Reused? && old(HasIdle(key)) ==> Matches(taken, Some(PoolKeys.FormatKey(key)))
      ensures via.Reused? || via.Stolen? || via.SameKeyAtCapacity? ==>
                taken in old(pool) && pool == old(pool) - {taken}
      ensures via.Created? || via.Waiting? ==> pool == old(pool)
      ensures via.Reused? ==> fox == Some(old(pool)[taken])
      ensures via.SameKeyAtCapacity? ==> fox == Some(old(pool)[taken]) && old(pool[taken].key) == key
      ensures via.Stolen? ==> old(pool[taken].key) != key && !old(pool)[taken].usingPool
      ensures via.Stolen? && st.Ok? ==> old(pool)[taken].foxCOM.None?
      ensures via.Created? || (via.Stolen? && fox.Some?) ==>
                fox.Some? && fresh(fox.value) && fox.value.id == newId && fox.value.key == key && fox.value.usingPool
      ensures poolCount == old(poolCount) + if via.Reused? then 1 else 0
      ensures instanceCount == old(instanceCount) + if via.Created? then 1 else 0
      ensures old(instanceCount) <= poolSize ==> instanceCount <= poolSize
      ensures poolEnabled == old(poolEnabled) && offers == old(offers)
      ensures fox.None? <==> via.Waiting? || (via.Stolen? && st.Raised?)
      ensures fox.Some? || via.Waiting? ==> st.Ok?
      ensures via.Waiting? ==> unchanged(this)
      ensures fox.Some? ==> fox.value.foxPool == this
    {
      via, st := Waiting, Ok;
      fox, taken := TakeIdle(key);
      if fox.Some? {
        poolCount := poolCount + 1;
        via := Reused;
      } else if instanceCount < poolSize {
        instanceCount := instanceCount + 1;
        var f := new Fox(key, newId, this, hasApp, true, errorMessage, script);
        fox, via := Some(f), Created;
      } else if !recycleOtherKeys && |pool| > 0 {
        fox, via, st, taken := TakeSlot(key, newId, hasApp, errorMessage, script);
      }
    }

    /** One pass of the acquisition loop of GetObject(key): Acquire, then the worker
        obtained starts a request for `key`; its pool is left as Acquire left it. */
    method TryGetObject(key: string, newId: string, hasApp: bool, errorMessage: string, script: seq<Reply>)
      returns (fox: Option<Fox>, via: Via, st: Status)
      requires Valid()
      modifies this, pool.Values
      ensures Valid()
      ensures fox.None? ==> via.Waiting? || via.Stolen?
      ensures via.Waiting? ==> fox.None? && st.Ok? && unchanged(this)
      ensures fox.Some? ==>
                && fox.value.foxPool == this && fox.value.key == key
                && RequestBegun(key) in fox.value.trace && !fox.value.timerArmed
                && (fox.value.usingPool ==> fox.value.requestRunning && !fox.value.disposedValue)
      ensures fox.Some? && st.Ok? ==> fox.value.foxCOM.Some? && fox.value.foxRun.Some?
      ensures old(instanceCount) <= poolSize ==> instanceCount <= poolSize
    {
      ghost var taken;
      fox, via, st, taken := Acquire(key, newId, hasApp, errorMessage, script);
      if fox.Some? {
        st := fox.value.StartRequest(key);
      }
    }
  }

  /** A worker: one FoxCOM server process and the FoxRun object that runs commands in it. */
  class Fox {
    const id: string
    /** The (static) FoxPool the worker returns to. */
    const foxPool: FoxPool
    /** An IFoxApp object with application hooks was supplied. */
    const hasApp: bool
    var key: string
    var foxCOM: Option<Handle>
    var foxRun: Option<Handle>
    var usingPool: bool
    var releasingFoxCOM: bool
    var requestRunning: bool
    var disposedValue: bool
    var retryAfterError: bool
    var asyncRequest: bool
    var retries: nat
    /** The idle timer (foxTimer) is started. */
    var timerArmed: bool
    var comObjectsToRelease: seq<Obj>
    /** The FoxPro side: answers to the worker's next calls. */
    var replies: seq<Reply>
    /** The handle the next successful provisioning yields. */
    var nextHandle: Handle
    /** What foxRun.GetErrorMessage() reports. */
    var errorMessage: string
    /** What the worker did, in order. */
    ghost var trace: seq<Event>
    /** FoxPro errors raised so far (each one disposes the worker). */
    ghost var foxProErrors: nat

    constructor(key: string, id: string, foxPool: FoxPool, hasApp: bool, usingPool: bool,
                errorMessage: string, replies: seq<Reply>)
      ensures this.key == key && this.id == id && this.foxPool == foxPool && this.hasApp == hasApp
      ensures this.usingPool == usingPool && this.errorMessage == errorMessage && this.replies == replies
      ensures foxCOM.None? && foxRun.None? && !releasingFoxCOM && !requestRunning && !disposedValue
      ensures !retryAfterError && !asyncRequest && retries == 0 && !timerArmed
      ensures comObjectsToRelease == [] && trace == [] && foxProErrors == 0
    {
      this.key := key;
      this.id := id;
      this.foxPool := foxPool;
      this.hasApp := hasApp;
      this.usingPool := usingPool;
      this.errorMessage := errorMessage;
      this.replies := replies;
      foxCOM, foxRun := None, None;
      releasingFoxCOM, requestRunning, disposedValue := false, false, false;
      retryAfterError, asyncRequest := false, false;
      retries, timerArmed := 0, false;
      comObjectsToRelease, nextHandle, trace, foxProErrors := [], 0, [], 0;
    }

    /** What holds across every operation of the worker: the script only shrinks, the trace
        only grows, FoxPro errors are never forgotten, the worker never rejoins the pool
        machinery once it left it, no request becomes asynchronous, and the pool stays
        valid. */
    twostate predicate Settled()
      reads this, foxPool
    {
      && |replies| <= old(|replies|)
      && old(trace) <= trace
      && old(foxProErrors) <= foxProErrors
      && (usingPool ==> old(usingPool))
      && (asyncRequest ==> old(asyncRequest))
      && foxPool.Valid()
    }

    /** The pool is untouched and the idle timer is not started. */
    twostate predicate Apart()
      reads this, foxPool
    {
      unchanged(foxPool) && (timerArmed ==> old(timerArmed))
    }

    /** No FoxPro error was raised. */
    twostate predicate NoFoxProError()
      reads this
    {
      foxProErrors == old(foxProErrors)
    }

    /** The per-request retry count only grows, and never past the largest budget (three)
        of the operations that start a request. */
    twostate predicate RetriesGrow()
      reads this
    {
      old(retries) <= retries && (old(retries) <= 3 ==> retries <= 3)
    }

    /** The request flags are as they were. */
    twostate predicate RequestKept()
      reads this
    {
      requestRunning == old(requestRunning) && disposedValue == old(disposedValue)
    }

    /** One call into FoxPro: it takes the next reply. */
    method Call() returns (st: Status)
      modifies this`replies
      ensures replies == Tail(old(replies))
      ensures st == if Head(old(replies)).Fails? then Raised(Head(old(replies)).ex) else Ok
    {
      st := if Head(replies).Fails? then Raised(Head(replies).ex) else Ok;
      replies := Tail(replies);
    }

    /** The liveness probe of CheckFoxCOM(): `foxCOM.VFP.Eval("1+1")`; a null or dead
        handle is dropped. */
    method ProbeFoxCOM() returns (live: bool)
      modifies this`foxCOM, this`replies
      ensures live <==> old(foxCOM).Some? && Head(old(replies)).Succeeds?
      ensures foxCOM == if live then old(foxCOM) else None
      ensures replies == if old(foxCOM).Some? then Tail(old(replies)) else old(replies)
    {
      live := false;
      if foxCOM.Some? {
        var probe := Call();
        live := probe.Ok?;
      }
      if !live {
        foxCOM := None;
      }
    }

    /** The liveness probe of CheckFoxRun(): `foxRun.Eval("1+1")`; a null or dead handle is
        dropped. */
    method ProbeFoxRun() returns (live: bool)
      modifies this`foxRun, this`replies
      ensures live <==> old(foxRun).Some? && Head(old(replies)).Succeeds?
      ensures foxRun == if live then old(foxRun) else None
      ensures replies == if old(foxRun).Some? then Tail(old(replies)) else old(replies)
    {
      live := false;
      if foxRun.Some? {
        var probe := Call();
        live := probe.Ok?;
      }
      if !live {
        foxRun := None;
      }
    }

    /** Starts a request: stops the idle timer and marks the request running and not
        disposed before anything else, then makes sure the application runs for `k`, that
        FoxRun exists, and runs the StartRequest hook. */
    method StartRequest(k: string) returns (st: Status)
      requires foxPool.Valid()
      modifies this, foxPool
      ensures Settled() && Apart() && key == k && !timerArmed && !asyncRequest
      ensures st.Raised? ==> |replies| < old(|replies|)
      ensures |trace| > |old(trace)| && trace[|old(trace)|] == RequestBegun(k)
      ensures usingPool ==> requestRunning && !disposedValue
      ensures st.Ok? ==> foxCOM.Some? && foxRun.Some?
      ensures NoFoxProError() ==> RetriesGrow()
      decreases |replies|, 150
    {
      timerArmed := false;
      requestRunning := true;
      asyncRequest := false;
      disposedValue := false;
      trace := trace + [RequestBegun(k)];
      ghost var begun := trace;
      st := OpenRequest(k);
      assert trace[|old(trace)|] == begun[|old(trace)|];
    }

    /** The part of StartRequest after the flags are set: the application for `k`, FoxRun
        and the StartRequest hook. */
    method OpenRequest(k: string) returns (st: Status)
      requires foxPool.Valid()
      modifies this, foxPool
      ensures Settled() && Apart() && key == k
      ensures st.Raised? ==> |replies| < old(|replies|)
      ensures usingPool ==> RequestKept()
      ensures st.Ok? ==> foxCOM.Some? && foxRun.Some?
      ensures NoFoxProError() ==> RetriesGrow()
      decreases |replies|, 145
    {
      ghost var granted;
      st, granted := StartApp(k);
      if st.Ok? {
        st, granted := InstantiateFoxRun();
        if st.Ok? {
          st := CallFoxAppHook(StartRequestHook);
        }
      }
    }

    /** Starts the application for key `k` when there is no FoxCOM server or the key
        changed; a failure is handled with a budget of one retry. `granted` counts the
        retries its own catch block granted: without a FoxPro error, at most one per
        request, and none once the request used a retry. */
    method StartApp(k: string) returns (st: Status, ghost granted: nat)
      requires foxPool.Valid()
      modifies this, foxPool
      ensures Settled() && Apart() && key == k
      ensures st.Raised? ==> |replies| < old(|replies|)
      ensures usingPool ==> RequestKept()
      ensures st.Ok? ==> foxCOM.Some?
      ensures old(foxCOM).Some? && old(key) == k ==> st.Ok? && unchanged(this)
      ensures NoFoxProError() ==> RetriesGrow() && (granted == 0 || old(retries) + granted <= 1)
      decreases |replies|, 140
    {
      st, granted := Ok, 0;
      if foxCOM.None? || key != k {
        key := k;
        st := LaunchApp();
        if st.Raised? {
          st, granted := RetryStartApp(st.ex, k);
        }
      }
    }

    /** The body of StartApp once it decided to start: provision FoxCOM and FoxRun and run
        the StartApp hook. */
    method LaunchApp() returns (st: Status)
      requires foxPool.Valid()
      modifies this, foxPool
      ensures Settled() && Apart() && key == old(key)
      ensures st.Raised? ==> |replies| < old(|replies|)
      ensures usingPool ==> RequestKept()
      ensures st.Ok? ==> foxCOM.Some?
      ensures NoFoxProError() ==> RetriesGrow()
      decreases |replies|, 135
    {
      ghost var granted;
      st, granted := InstantiateFoxCOM();
      if st.Ok? {
        st, granted := InstantiateFoxRun();
      }
      if st.Ok? {
        st := CallFoxAppHook(StartAppHook);
      }
    }

    /** The catch block of StartApp: handle the failure with a budget of one retry and, if
        granted, check FoxCOM and start again. `granted` counts the retries granted here
        and in the restarted StartApp. */
    method RetryStartApp(ex: Exception, k: string) returns (st: Status, ghost granted: nat)
      requires foxPool.Valid() && key == k
      modifies this, foxPool
      ensures Settled() && Apart() && key == k
      ensures usingPool ==> RequestKept()
      ensures st.Ok? ==> foxCOM.Some?
      ensures NoFoxProError() ==> RetriesGrow() && (granted == 0 || old(retries) + granted <= 1)
      decreases |replies| + 1, 135
    {
      ghost var v;
      granted := 0;
      st, v := HandleError(ex, 1);
      if st.Ok? && retryAfterError {
        var _ := ProbeFoxCOM();
        ghost var more;
        st, more := StartApp(k);
        granted := 1 + more;
      }
    }

    /** Provisions the FoxCOM server when there is none; a failure is handled with a budget
        of three retries per request. `granted` counts the retries granted here: they are
        exactly what a successful call added to the retry count, and never take it past
        three. */
    method InstantiateFoxCOM() returns (st: Status, ghost granted: nat)
      requires foxPool.Valid()
      modifies this, foxPool
      ensures Settled() && Apart() && key == old(key)
      ensures st.Raised? ==> |replies| < old(|replies|)
      ensures usingPool ==> RequestKept()
      ensures st.Ok? ==> foxCOM.Some?
      ensures old(foxCOM).Some? ==> st.Ok? && unchanged(this)
      ensures granted == 0 || old(retries) + granted <= 3
      ensures st.Ok? ==> retries == old(retries) + granted && NoFoxProError()
      ensures NoFoxProError() ==> RetriesGrow()
      decreases |replies|, 130
    {
      st, granted := Ok, 0;
      if foxCOM.None? {
        st := Call();
        if st.Ok? {
          foxCOM := Some(nextHandle);
          nextHandle := nextHandle + 1;
        }
      }
      if st.Raised? {
        ghost var v;
        st, v := HandleError(st.ex, 3);
        if st.Ok? && retryAfterError {
          var _ := ProbeFoxCOM();
          ghost var more;
          st, more := InstantiateFoxCOM();
          granted := 1 + more;
        }
      }
    }

    /** Creates FoxRun inside the FoxCOM server when there is none; a failure is handled
        with a budget of two retries per request, each after re-checking FoxCOM and FoxRun.
        `granted` counts the retries granted here: without a FoxPro error they never take
        the retry count past two. */
    method InstantiateFoxRun() returns (st: Status, ghost granted: nat)
      requires foxPool.Valid() && foxCOM.Some?
      modifies this, foxPool
      ensures Settled() && Apart() && key == old(key)
      ensures st.Raised? ==> |replies| < old(|replies|)
      ensures usingPool ==> RequestKept()
      ensures st.Ok? ==> foxCOM.Some? && foxRun.Some?
      ensures old(foxRun).Some? ==> st.Ok? && unchanged(this)
      ensures NoFoxProError() ==> RetriesGrow() && (granted == 0 || old(retries) + granted <= 2)
      decreases |replies|, 130
    {
      st, granted := Ok, 0;
      if foxRun.None? {
        st := Call();
        if st.Ok? {
          foxRun := Some(nextHandle);
          nextHandle := nextHandle + 1;
        }
      }
      if st.Raised? {
        st, granted := RetryFoxRun(st.ex);
      }
    }

    /** The catch block of InstantiateFoxRun: handle the failure with a budget of two
        retries and, if granted, check FoxCOM, probe FoxRun and create it again. `granted`
        counts the retries granted here and in the repeated creation. */
    method RetryFoxRun(ex: Exception) returns (st: Status, ghost granted: nat)
      requires foxPool.Valid()
      modifies this, foxPool
      ensures Settled() && Apart() && key == old(key)
      ensures usingPool ==> RequestKept()
      ensures st.Ok? ==> foxCOM.Some? && foxRun.Some?
      ensures NoFoxProError() ==> RetriesGrow() && (granted == 0 || old(retries) + granted <= 2)
      decreases |replies| + 1, 129
    {
      granted := 0;
      ghost var v;
      st, v := HandleError(ex, 2);
      if st.Ok? {
        if retryAfterError {
          ghost var more;
          st, more := RepeatFoxRun();
          granted := 1 + more;
        } else {
          st := Raised(ex);
        }
      }
    }

    /** A granted retry of InstantiateFoxRun: make sure FoxCOM runs, probe FoxRun and create
        it again; `more` counts the retries the repeated creation granted. */
    method RepeatFoxRun() returns (st: Status, ghost more: nat)
      requires foxPool.Valid()
      modifies this, foxPool
      ensures Settled() && Apart() && key == old(key)
      ensures usingPool ==> RequestKept()
      ensures st.Ok? ==> foxCOM.Some? && foxRun.Some?
      ensures NoFoxProError() ==> RetriesGrow() && (more == 0 || old(retries) + more <= 2)
      decreases |replies| + 1, 128
    {
      more := 0;
      st := CheckFoxCOM(true);
      if st.Ok? {
        var _ := ProbeFoxRun();
        st, more := InstantiateFoxRun();
      }
    }

    /** Drops a dead FoxCOM handle and, with `reinstantiate`, starts the application again. */
    method CheckFoxCOM(reinstantiate: bool) returns (st: Status)
      requires foxPool.Valid()
      modifies this, foxPool
      ensures Settled() && Apart() && key == old(key)
      ensures st.Raised? ==> reinstantiate && |replies| < old(|replies|)
      ensures usingPool || !reinstantiate ==> RequestKept()
      ensures reinstantiate && st.Ok? ==> foxCOM.Some?
      ensures old(foxCOM).Some? && Head(old(replies)).Succeeds? ==>
                st.Ok? && foxCOM == old(foxCOM) && replies == Tail(old(replies))
      ensures NoFoxProError() ==> RetriesGrow()
      decreases |replies|, if reinstantiate then 300 else 10
    {
      st := Ok;
      var live := ProbeFoxCOM();
      if !live && reinstantiate {
        ghost var granted;
        st, granted := StartApp(key);
      }
    }

    /** Drops a dead FoxRun handle and, with `reinstantiate`, starts the request again. */
    method CheckFoxRun(reinstantiate: bool) returns (st: Status)
      requires foxPool.Valid()
      modifies this, foxPool
      ensures Settled() && Apart() && key == old(key)
      ensures st.Raised? ==> reinstantiate && |replies| < old(|replies|)
      ensures reinstantiate && st.Ok? ==> foxRun.Some?
      ensures !reinstantiate || (old(foxRun).Some? && Head(old(replies)).Succeeds?) ==>
                st.Ok? && RequestKept() && foxCOM == old(foxCOM)
      ensures old(foxRun).Some? && Head(old(replies)).Succeeds? ==>
                foxRun == old(foxRun) && replies == Tail(old(replies))
      ensures NoFoxProError() ==> RetriesGrow()
      decreases |replies|, if reinstantiate then 300 else 10
    {
      st := Ok;
      var live := ProbeFoxRun();
      if !live && reinstantiate {
        st := StartRequest(key);
      }
    }

    /** The error policy: after probing FoxRun, a NullReferenceException with FoxRun alive
        is a FoxPro error (the worker leaves the pool and a COMException with FoxPro's
        message is raised), a transient COM failure within the budget is granted a retry,
        and anything else is rethrown unchanged. */
    method HandleError(ex: Exception, retryCount: int) returns (st: Status, ghost v: Verdict)
      requires foxPool.Valid()
      modifies this, foxPool
      ensures Settled() && Apart() && key == old(key)
      ensures v == Classify(ex.kind, old(foxRun).Some? && Head(old(replies)).Succeeds?, old(retries), retryCount)
      ensures st.Ok? <==> v == Retry
      ensures v == Retry ==> retryAfterError && retries == old(retries) + 1
      ensures v == Rethrow ==> st == Raised(ex) && !retryAfterError && retries == old(retries)
      ensures v == FoxProError ==> st.Raised? && !usingPool
      ensures v != FoxProError ==> RequestKept() && foxCOM == old(foxCOM) && usingPool == old(usingPool)
      ensures NoFoxProError() <==> v != FoxProError
      decreases |replies|, 200
    {
      retryAfterError := false;
      var live := ProbeFoxRun();
      st, v := Decide(ex, retryCount);
    }

    /** The decision of HandleError once FoxRun was probed: a NullReferenceException with
        FoxRun alive raises the FoxPro error, a transient COM failure within the budget is
        granted a retry, and anything else is rethrown. */
    method Decide(ex: Exception, retryCount: int) returns (st: Status, ghost v: Verdict)
      requires foxPool.Valid() && !retryAfterError
      modifies this, foxPool
      ensures Settled() && Apart() && key == old(key)
      ensures v == Classify(ex.kind, old(foxRun).Some?, old(retries), retryCount)
      ensures st.Ok? <==> v == Retry
      ensures v == Retry ==> retryAfterError && retries == old(retries) + 1
      ensures v == Rethrow ==> st == Raised(ex) && !retryAfterError && retries == old(retries)
      ensures v == FoxProError ==> st.Raised? && !usingPool
      ensures v != FoxProError ==> RequestKept() && foxCOM == old(foxCOM) && usingPool == old(usingPool)
      ensures NoFoxProError() <==> v != FoxProError
      decreases |replies|, 198
    {
      if ex.kind == NullReference && foxRun.Some? {
        v := FoxProError;
        ghost var ds;
        st, ds := RaiseFoxProError(ex);
      } else if retries < retryCount && IsTransient(ex.kind) {
        v := Retry;
        retries := retries + 1;
        retryAfterError := true;
        st := Ok;
      } else {
        v := Rethrow;
        st := Raised(ex);
      }
    }

    /** The FoxPro-error branch of HandleError: read FoxPro's message, take the worker out
        of the pool and raise a COMException carrying that message over the original;
        `ds` is how the disposal ended, and an exception it raised propagates instead.
        Disposing a running worker resets its retry count, so a caller that catches the
        COMException can be granted its retries again. */
    method RaiseFoxProError(ex: Exception) returns (st: Status, ghost ds: Status)
      requires foxPool.Valid()
      modifies this, foxPool
      ensures Settled() && Apart() && key == old(key) && !usingPool
      ensures foxProErrors > old(foxProErrors)
      ensures ds.Ok? ==> st == Raised(Exception(ComError, old(errorMessage), Some(ex))) && foxCOM.None?
      ensures ds.Raised? ==> st == ds && |replies| < old(|replies|)
      ensures !old(disposedValue) && !hasApp ==> ds.Ok? && retries == 0 && foxRun.None? && foxCOM.None?
      decreases |replies|, 195
    {
      var error := errorMessage;
      st := RemoveFromPool();
      foxProErrors := foxProErrors + 1;
      ds := st;
      if st.Ok? {
        st := Raised(Exception(ComError, error, Some(ex)));
      }
    }

    /** Disposes the worker for good: it is never returned to the pool, and it ends with no
        FoxCOM server unless the disposal raised. */
    method RemoveFromPool() returns (st: Status)
      requires foxPool.Valid()
      modifies this, foxPool
      ensures Settled() && Apart() && key == old(key) && !usingPool
      ensures st.Raised? ==> |replies| < old(|replies|)
      ensures st.Ok? ==> foxCOM.None?
      ensures !old(disposedValue) && !hasApp ==> st.Ok? && retries == 0 && foxRun.None?
      decreases |replies|, 190
    {
      usingPool := false;
      ghost var offer;
      st, offer := Dispose();
    }

    /** Ends a request. The first Dispose releases FoxRun and, for a pooled worker, offers it
        to the pool once: accepted, the worker idles with its timer started; rejected, it
        gives up its instance slot and FoxCOM. A worker outside the pool, or one already
        disposed, only releases FoxCOM. */
    method Dispose() returns (st: Status, ghost offer: Option<Offer>)
      requires foxPool.Valid()
      modifies this, foxPool
      ensures Settled() && key == old(key)
      ensures st.Raised? ==> |replies| < old(|replies|)
      ensures foxPool.poolEnabled == old(foxPool.poolEnabled) && foxPool.poolCount == old(foxPool.poolCount)
      ensures !foxPool.poolEnabled ==> foxPool.pool == old(foxPool.pool)
      ensures foxPool.offers == old(foxPool.offers) + if offer.Some? then [offer.value] else []
      ensures offer.None? ==> Apart()
      ensures old(disposedValue) || !old(usingPool) ==> offer.None?
      ensures offer.Some? ==> offer.value.dictKey == PoolKeys.FormatKey(key) + id
      ensures offer.Some? && offer.value.accepted ==>
                && st.Ok? && disposedValue && !requestRunning && timerArmed
                && foxPool.pool == old(foxPool.pool)[offer.value.dictKey := this]
                && foxPool.instanceCount == old(foxPool.instanceCount)
      ensures offer.Some? && !offer.value.accepted ==>
                && foxPool.pool == old(foxPool.pool)
                && foxPool.instanceCount == old(foxPool.instanceCount) - 1
                && !usingPool && foxCOM.None? && !timerArmed
      ensures st.Ok? ==> foxCOM.None? || (offer.Some? && offer.value.accepted)
      ensures !old(disposedValue) ==> disposedValue || !usingPool
      ensures offer.Some? && offer.value.accepted ==> foxRun.None? && retries == 0 && foxPool.poolEnabled
      ensures !old(disposedValue) && !hasApp ==> st.Ok? && retries == 0 && foxRun.None?
      ensures !old(disposedValue) && old(usingPool) && !hasApp ==> offer.Some?
      decreases |replies|, 180
    {
      offer := None;
      if !disposedValue {
        disposedValue := true;
        st := ReleaseFoxRun();
        if st.Ok? {
          if usingPool {
            st, offer := ReturnToPool();
          } else {
            st := ReleaseFoxCOM();
          }
        }
      } else {
        st := ReleaseFoxCOM();
      }
    }

    /** Dispose of an idle worker while its pool is disabled, as ClearPool does: the pool
        keeps its entries and, unless Dispose raised, the worker has released FoxCOM. */
    method DisposeIdle() returns (st: Status)
      requires foxPool.Valid() && !foxPool.poolEnabled
      modifies this, foxPool
      ensures foxPool.Valid() && !foxPool.poolEnabled
      ensures foxPool.pool == old(foxPool.pool) && foxPool.poolCount == old(foxPool.poolCount)
      ensures st.Ok? ==> foxCOM.None?
    {
      ghost var offer;
      st, offer := Dispose();
    }

    /** The pooled branch of the first Dispose (one lock region): offer the worker to the
        pool; accepted, stop the request and start the idle timer; rejected, give up the
        instance slot and release FoxCOM. */
    method ReturnToPool() returns (st: Status, ghost offer: Option<Offer>)
      requires foxPool.Valid() && usingPool
      modifies this, foxPool
      ensures Settled() && key == old(key)
      ensures st.Raised? ==> |replies| < old(|replies|)
      ensures foxPool.poolEnabled == old(foxPool.poolEnabled) && foxPool.poolCount == old(foxPool.poolCount)
      ensures offer.Some? && offer.value.dictKey == PoolKeys.FormatKey(key) + id
      ensures foxPool.offers == old(foxPool.offers) + [offer.value]
      ensures offer.value.accepted ==>
                && st.Ok? && foxPool.poolEnabled && !requestRunning && timerArmed
                && disposedValue == old(disposedValue) && foxRun == old(foxRun) && retries == old(retries)
                && foxPool.pool == old(foxPool.pool)[offer.value.dictKey := this]
                && foxPool.instanceCount == old(foxPool.instanceCount)
      ensures !offer.value.accepted ==>
                && foxPool.pool == old(foxPool.pool)
                && foxPool.instanceCount == old(foxPool.instanceCount) - 1
                && !usingPool && foxCOM.None? && !timerArmed
      ensures !hasApp && old(retries) == 0 && old(foxRun).None? ==> st.Ok? && retries == 0 && foxRun.None?
      decreases |replies|, 175
    {
      var added := foxPool.AddObject(key, this);
      offer := Some(Offer(PoolKeys.FormatKey(key) + id, added));
      if added {
        requestRunning := false;
        timerArmed := true;
        st := Ok;
      } else {
        st := LeavePool();
      }
    }

    /** The rejected branch of ReturnToPool: give up the instance slot, stop the idle timer,
        leave the pool machinery and release FoxCOM. */
    method LeavePool() returns (st: Status)
      requires foxPool.Valid()
      modifies this, foxPool
      ensures Settled() && key == old(key)
      ensures st.Raised? ==> |replies| < old(|replies|)
      ensures foxPool.pool == old(foxPool.pool) && foxPool.offers == old(foxPool.offers)
      ensures foxPool.poolEnabled == old(foxPool.poolEnabled) && foxPool.poolCount == old(foxPool.poolCount)
      ensures foxPool.instanceCount == old(foxPool.instanceCount) - 1
      ensures !usingPool && foxCOM.None? && !timerArmed
      ensures !hasApp && old(retries) == 0 && old(foxRun).None? ==> st.Ok? && retries == 0 && foxRun.None?
      decreases |replies|, 172
    {
      foxPool.instanceCount := foxPool.instanceCount - 1;
      timerArmed := false;
      usingPool := false;
      st := ReleaseFoxCOM();
    }

    /** Releases the FoxCOM server. Only when no release is under way and there is a server
        does it run the EndApp hook and release FoxRun; in every case it ends with no
        server, no release under way and no request running. */
    method ReleaseFoxCOM() returns (st: Status)
      requires foxPool.Valid()
      modifies this, foxPool
      ensures Settled() && Apart() && key == old(key)
      ensures st.Raised? ==> |replies| < old(|replies|)
      ensures foxCOM.None? && !releasingFoxCOM && !requestRunning && !timerArmed
      ensures old(releasingFoxCOM) || old(foxCOM).None? ==>
                && st.Ok? && replies == old(replies) && foxRun == old(foxRun) && retries == old(retries)
                && disposedValue == old(disposedValue) && usingPool == old(usingPool)
                && trace == old(trace) + if old(foxCOM).Some? then [FoxCOMReleased(old(foxCOM).value)] else []
      ensures !hasApp && old(retries) == 0 && old(foxRun).None? ==> st.Ok? && retries == 0 && foxRun.None?
      decreases |replies|, 170
    {
      timerArmed := false;
      st := Ok;
      if !releasingFoxCOM && foxCOM.Some? {
        releasingFoxCOM := true;
        st := EndApp();
      }
      DropFoxCOM();
    }

    /** The finally block of ReleaseFoxCOM: let go of the server, if any, and clear the
        release and request flags. */
    method DropFoxCOM()
      modifies this`foxCOM, this`trace, this`releasingFoxCOM, this`requestRunning
      ensures foxCOM.None? && !releasingFoxCOM && !requestRunning
      ensures trace == old(trace) + if old(foxCOM).Some? then [FoxCOMReleased(old(foxCOM).value)] else []
    {
      if foxCOM.Some? {
        trace := trace + [FoxCOMReleased(foxCOM.value)];
        foxCOM := None;
      }
      releasingFoxCOM := false;
      requestRunning := false;
    }

    /** The guarded part of ReleaseFoxCOM: runs the EndApp hook and releases FoxRun; a
        failure of either is passed to the error policy with no retry budget. */
    method EndApp() returns (st: Status)
      requires foxPool.Valid()
      modifies this, foxPool
      ensures Settled() && Apart() && key == old(key)
      ensures st.Raised? ==> |replies| < old(|replies|)
      ensures !hasApp ==> st.Ok? && retries == 0 && foxRun.None?
      decreases |replies|, 165
    {
      st := CallFoxAppHook(EndAppHook);
      if st.Ok? {
        st := ReleaseFoxRun();
      }
      if st.Raised? {
        ghost var v;
        st, v := HandleError(st.ex, 99);
      }
    }

    /** Releases FoxRun after running the EndRequest hook, resets the retry count and
        releases the registered COM objects, last registered first. */
    method ReleaseFoxRun() returns (st: Status)
      requires foxPool.Valid()
      modifies this, foxPool
      ensures Settled() && Apart() && key == old(key)
      ensures st.Raised? ==> |replies| < old(|replies|)
      ensures usingPool ==> RequestKept()
      ensures retries == 0 && foxRun.None? && comObjectsToRelease == []
      ensures old(foxRun).None? ==>
                && st.Ok? && replies == old(replies) && foxCOM == old(foxCOM) && RequestKept()
                && usingPool == old(usingPool)
                && trace == old(trace) + ReleaseEvents(old(comObjectsToRelease))
      ensures !hasApp ==> st.Ok? && usingPool == old(usingPool)
      ensures !hasApp ==>
                trace == old(trace) + (if old(foxRun).Some? then [FoxRunReleased(old(foxRun).value)] else [])
                         + ReleaseEvents(old(comObjectsToRelease))
      decreases |replies|, 120
    {
      st := Ok;
      if foxRun.Some? {
        st := EndRequest();
      }
      DropFoxRun();
      CleanupComObjects();
    }

    /** The finally block of ReleaseFoxRun: reset the retry count and let go of FoxRun, if
        any. */
    method DropFoxRun()
      modifies this`foxRun, this`trace, this`retries
      ensures retries == 0 && foxRun.None?
      ensures trace == old(trace) + if old(foxRun).Some? then [FoxRunReleased(old(foxRun).value)] else []
    {
      retries := 0;
      if foxRun.Some? {
        trace := trace + [FoxRunReleased(foxRun.value)];
        foxRun := None;
      }
    }

    /** The guarded part of ReleaseFoxRun: runs the EndRequest hook; a failure is passed to
        the error policy with no retry budget. */
    method EndRequest() returns (st: Status)
      requires foxPool.Valid()
      modifies this, foxPool
      ensures Settled() && Apart() && key == old(key)
      ensures st.Raised? ==> |replies| < old(|replies|)
      ensures usingPool ==> RequestKept()
      ensures !hasApp ==> st.Ok? && unchanged(this)
      decreases |replies|, 115
    {
      st := CallFoxAppHook(EndRequestHook);
      if st.Raised? {
        ghost var v;
        st, v := HandleError(st.ex, 99);
      }
    }

    /** Releases the registered COM objects from the last one to the first, leaving the
        list empty. */
    method CleanupComObjects()
      modifies this`comObjectsToRelease, this`trace
      ensures comObjectsToRelease == []
      ensures trace == old(trace) + ReleaseEvents(old(comObjectsToRelease))
    {
      ghost var list := comObjectsToRelease;
      var i := |comObjectsToRelease|;
      while i > 0
        invariant 0 <= i <= |list|
        invariant comObjectsToRelease == list[..i]
        invariant trace == old(trace) + ReleaseEvents(list[i..])
      {
        i := i - 1;
        var comObject := comObjectsToRelease[i];
        comObjectsToRelease := comObjectsToRelease[..i];
        if comObject.isCom {
          trace := trace + [ComObjectReleased(comObject)];
        }
        assert list[i..][1..] == list[i + 1..];
      }
    }

    /** Runs an application hook when there is an IFoxApp object; EndApp first starts a
        request so that the hook can run. A failure is handled with no retry budget, so it
        always propagates. */
    method CallFoxAppHook(hook: Hook) returns (st: Status)
      requires foxPool.Valid()
      modifies this, foxPool
      ensures Settled() && Apart() && key == old(key)
      ensures st.Raised? ==> |replies| < old(|replies|)
      ensures hook != EndAppHook && (st.Ok? || usingPool) ==> RequestKept()
      ensures hook != EndAppHook && st.Ok? ==> foxCOM == old(foxCOM) && foxRun == old(foxRun)
      ensures !hasApp ==> st.Ok? && unchanged(this)
      ensures hasApp && hook != EndAppHook ==> |trace| > |old(trace)| && trace[|old(trace)|] == HookRan(hook, key)
      ensures hasApp && hook == EndAppHook ==> |trace| > |old(trace)| && trace[|old(trace)|] == RequestBegun(key)
      ensures hasApp && st.Ok? ==> HookRan(hook, key) in trace[|old(trace)|..]
      ensures NoFoxProError() ==> RetriesGrow()
      decreases |replies|, if hook == EndAppHook then 160 else 110
    {
      st := RunHook(hook);
      if st.Raised? {
        ghost var mid := trace;
        ghost var v;
        st, v := HandleError(st.ex, 0);
        assert trace[|old(trace)|] == mid[|old(trace)|];
      }
    }

    /** The try block of CallFoxAppHook: with an IFoxApp object, start a request first for
        the EndApp hook, then record the hook and call it. */
    method RunHook(hook: Hook) returns (st: Status)
      requires foxPool.Valid()
      modifies this, foxPool
      ensures Settled() && Apart() && key == old(key)
      ensures st.Raised? ==> hasApp && |replies| < old(|replies|)
      ensures hook != EndAppHook ==>
                && RequestKept() && NoFoxProError() && retries == old(retries)
                && foxCOM == old(foxCOM) && foxRun == old(foxRun) && usingPool == old(usingPool)
      ensures !hasApp ==> st.Ok? && unchanged(this)
      ensures hasApp && hook != EndAppHook ==> |trace| > |old(trace)| && trace[|old(trace)|] == HookRan(hook, key)
      ensures hasApp && hook == EndAppHook ==> |trace| > |old(trace)| && trace[|old(trace)|] == RequestBegun(key)
      ensures hasApp && st.Ok? ==> HookRan(hook, key) in trace[|old(trace)|..]
      ensures NoFoxProError() ==> RetriesGrow()
      decreases |replies|, if hook == EndAppHook then 158 else 108
    {
      st := Ok;
      if hasApp {
        if hook == EndAppHook {
          st := StartRequest(key);
        }
        if st.Ok? {
          ghost var at := |trace|;
          trace := trace + [HookRan(hook, key)];
          st := Call();
          assert trace[|old(trace)|..][at - |old(trace)|] == HookRan(hook, key);
        }
      }
    }

    /** The idle timer fired (it does not restart by itself): FoxCOM is released unless a
        request is running. */
    method OnTimerElapsed() returns (st: Status)
      requires foxPool.Valid()
      modifies this, foxPool
      ensures Settled() && Apart() && key == old(key) && !timerArmed
      ensures old(requestRunning) ==> st.Ok? && foxCOM == old(foxCOM) && foxRun == old(foxRun) && replies == old(replies)
      ensures !old(requestRunning) ==> foxCOM.None? && !releasingFoxCOM && !requestRunning
    {
      timerArmed := false;
      st := Ok;
      if !requestRunning {
        st := ReleaseFoxCOM();
      }
    }

    /** Registers an object returned by FoxPro for release at the end of the request; only
        COM objects are kept. */
    method RegisterComObjectForRelease(comObject: Option<Obj>)
      modifies this`comObjectsToRelease
      ensures comObjectsToRelease ==
                old(comObjectsToRelease) + if comObject.Some? && comObject.value.isCom then [comObject.value] else []
    {
      if comObject.Some? && comObject.value.isCom {
        comObjectsToRelease := comObjectsToRelease + [comObject.value];
      }
    }

    /** Removes every registration of a COM object; a null object raises
        ArgumentNullException from Marshal.IsComObject. */
    method UnregisterComObjectForRelease(comObject: Option<Obj>) returns (st: Status)
      modifies this`comObjectsToRelease
      ensures st.Raised? <==> comObject.None?
      ensures st.Raised? ==> st.ex.kind == ArgumentNull
      ensures comObjectsToRelease ==
                if comObject.Some? && comObject.value.isCom then Without(old(comObjectsToRelease), comObject.value)
                else old(comObjectsToRelease)
    {
      st := Ok;
      if comObject.None? {
        st := Raised(Exception(ArgumentNull, "Value cannot be null.", None));
      } else if comObject.value.isCom {
        comObjectsToRelease := Without(comObjectsToRelease, comObject.value);
      }
    }
  }
}
