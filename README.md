# DotNet2Fox and MBS.FoxNet pools and workers, modelled in Dafny

DotNet2Fox lets .NET code run Visual FoxPro code through a FoxCOM server process. The
library keeps a pool of worker objects (`Fox`), and each worker owns two COM handles: the
FoxCOM server (`foxCOM`) and the FoxRun object inside it (`foxRun`). MBS.FoxNet is the
older variant of the same library. Its worker class is `FoxNet`, and its pool has a
different acquisition policy.

This project models, for both libraries:

- the keyed pool registry `FoxPool`:
  - key formatting and prefix lookup;
  - return to the pool, which is a bounded insert;
  - clearing the pool;
  - one pass of the acquisition loop of `GetObject`;
- the worker's lifecycle and error state machine:
  - starting a request and the application;
  - provisioning and liveness checks of the two handles;
  - the error policy `HandleError`, which gives a FoxPro error, a bounded retry or a rethrow;
  - `Dispose` and the offer back to the pool;
  - teardown of FoxRun and FoxCOM, and the idle timer;
- for DotNet2Fox only, the list of COM objects released at the end of a request.

Files:

- `interop.dfy`, module `Interop`: exceptions as values and the worker's reply script.
  - Every call a worker makes into FoxPro takes the next `Reply` from its field `replies`: provisioning a handle, a liveness probe, or an application hook.
  - A call either succeeds or raises an exception of a given kind. An exhausted script answers every call with success.
  - Every exception that reaches a handler has used up one reply. So the script's length, together with a fixed rank per method, is the termination measure of the mutually recursive error handling.
- `keys.dfy`, module `PoolKeys`:
  - `FormatKey`, which is `"[" + key.ToLower().Trim() + "]"` over ASCII;
  - the prefix match `StartsWith`, and facts about both.
- `policy.dfy`, module `ErrorPolicy`: the classification `HandleError` applies, and the retry-budget lemma.
- `com_objects.dfy`, module `ComObjects`: the release list as a sequence, and the order in which cleanup releases it.
- `dotnet2fox.dfy`, module `DotNet2Fox`: classes `FoxPool` and `Fox`.
- `mbs_foxnet.dfy`, module `MbsFoxNet`: classes `FoxPool` and `FoxNet`.

The pool is static in the source. Here it is an object, and every worker holds a reference
to it (`foxPool`). Each `lock` region is one atomic method. The idle timer is the flag
`timerArmed`: started, it is true; stopped, it is false. Each method returns a `Status`
(`Ok` or `Raised(ex)`) in place of throwing, and C# `finally` blocks run after it. Each
worker's observable actions go into a ghost `trace`: requests begun, hooks run, and handles
and COM objects released.

Behaviours of the code that the model keeps as written:

- **The EndApp hook starts a request first.** The EndApp hook, run by `ReleaseFoxCOM`, first calls `StartRequest(key)`.
  - That resets `disposedValue` to false and sets `requestRunning`.
  - So a repeated `Dispose` of a pooled worker that has an application object can reset `disposedValue`.
  - The first `Dispose` always leaves the worker disposed or out of the pool. A `Dispose` that starts on a disposed worker never offers it to the pool.
- **A FoxPro error does not give back the instance slot.** `RemoveFromPool`, and the inline equivalent in MBS.FoxNet, only clears `usingPool` and disposes the worker. The slot counted in `instanceCount` / `instCount` stays taken until `ClearPool`; `RaiseFoxProError` promises that the pool is untouched.
  - After `PoolSize` such errors with no idle worker left, every pass of `GetObject` finds the count at `PoolSize` and an empty pool, so it waits for a worker that nobody will return. `Acquire` states this: below capacity it creates, and at capacity with an empty pool it waits.
- **A FoxPro error resets the retry budget.**
  - Disposing the worker releases FoxRun, and releasing FoxRun sets `retries` to 0.
  - A caller that catches the resulting COMException, as StartApp does with `HandleError(ex, 1)`, can therefore be granted its retry again.
  - So a StartApp hook that always fails with a NullReferenceException while FoxRun is alive makes StartApp call itself without end.
  - The retry bounds of the start operations are proved for runs without a FoxPro error (the ghost counter `foxProErrors` tells them apart).
- **The comments count one retry fewer than the code grants.** InstantiateFoxCOM's comment says "two times per request" with a budget of 3, and InstantiateFoxRun's says "one time per request" with a budget of 2. Both count from zero retries used, so the code grants three and two. The model follows the code.
- **ClearPool stops at the first failure.**
  - If a worker's `Dispose` raises, the drain stops and the exception propagates.
  - The `finally` block still resets the instance count to 0 and re-enables the pool.
  - The count can go negative, because workers that were busy during a clear decrement it later.
- **A first Dispose can skip the pool.** Without hooks, a first `Dispose` of a pooled worker always offers it to the pool. With hooks it may not:
  - An EndRequest hook that fails with a NullReferenceException while FoxRun is alive is a FoxPro error. `RemoveFromPool` then clears `usingPool` and raises a COMException.
  - `ReleaseFoxRun` passes that COMException to `HandleError(ex, 99)`, which grants it a retry, so it returns normally.
  - `Dispose` then finds the worker outside the pool and only releases FoxCOM.
- **Teardown errors have a large budget.** `ReleaseFoxRun` and `ReleaseFoxCOM` pass failures to `HandleError(ex, 99)`.
- **Hook errors always propagate.** Hooks handle failures with `HandleError(ex, 0)`, which never grants a retry.
- **Flags after a FoxPro error.** For a worker outside the pool, a FoxPro error during provisioning followed by a retry can end `StartRequest` successfully with `disposedValue` true. So the flag guarantees of `StartRequest` are stated for pooled workers.
- **Two ways of comparing keys.**
  - Slot stealing compares the raw stored key with the requested one (`fox.GetKey() != key`), so the comparison is case-sensitive.
  - The lookups compare formatted keys.

## Model

| member | source | states |
|---|---|---|
| PoolKeys.Lower | src/DotNet2Fox/FoxPool.cs:358 | ToLower keeps the length, leaves no capital letter, and leaves a string without capitals as it is, so lower-casing twice is lower-casing once |
| PoolKeys.LowerMatchesIgnoringCase | src/DotNet2Fox/FoxPool.cs:358 | two keys lower-case alike exactly when they differ only in the case of letters |
| PoolKeys.TrimStartSplits | src/DotNet2Fox/FoxPool.cs:358 | TrimStart keeps a suffix that does not start with white space, and everything it drops is white space |
| PoolKeys.TrimEndSplits | src/DotNet2Fox/FoxPool.cs:358 | TrimEnd keeps a prefix that does not end with white space, and everything it drops is white space |
| PoolKeys.TrimSplits | src/DotNet2Fox/FoxPool.cs:358 | every string is white space + Trim(s) + white space, and Trim(s) has no white space at either end |
| PoolKeys.TrimStartOfPadded | src/DotNet2Fox/FoxPool.cs:358 | TrimStart removes exactly a white-space prefix in front of a part that does not start with white space |
| PoolKeys.TrimEndOfPadded | src/DotNet2Fox/FoxPool.cs:358 | TrimEnd removes exactly a white-space suffix behind a part that does not end with white space |
| PoolKeys.TrimOfPadded | src/DotNet2Fox/FoxPool.cs:358 | Trim of a trimmed core padded with white space on both sides is that core |
| PoolKeys.TrimIgnoresPadding | src/DotNet2Fox/FoxPool.cs:358 | white space added around a key never changes its Trim |
| PoolKeys.FormatKeyShape | src/DotNet2Fox/FoxPool.cs:356-360 | a formatted key is bracket-delimited; between the brackets there is no capital letter and no white space at either end |
| PoolKeys.FormatKeyNormalizes | src/DotNet2Fox/FoxPool.cs:356-360 | keys that differ only in letter case or in surrounding white space format identically |
| PoolKeys.NoBracketInFormatted | src/DotNet2Fox/FoxPool.cs:356-360 | lower-casing and trimming a key without `]` yields no `]` |
| PoolKeys.PrefixMatchIsExact | src/DotNet2Fox/FoxPool.cs:245-247 | for keys without `]`, an entry stored under one key matches a lookup for another exactly when both format alike (so "a" never matches entries stored under "ab") |
| ErrorPolicy.Classify | src/DotNet2Fox/Fox.cs:1229-1252 | a FoxPro error is exactly a NullReferenceException with FoxRun alive; a retry needs retries left and a transient COM error kind; otherwise rethrow |
| ErrorPolicy.RetryBudgetIsExact | src/DotNet2Fox/Fox.cs:1239-1246 | an operation that always fails with a transient error is retried exactly `retryCount - retries` times and then rethrown; other errors are never retried |
| ComObjects.Without | src/DotNet2Fox/Fox.cs:937 | RemoveAll removes every occurrence of the object and keeps the count of every other object |
| ComObjects.ReleaseEvents | src/DotNet2Fox/Fox.cs:1378-1383 | cleanup releases no more objects than the list holds, and only objects of the list that are COM objects |
| ComObjects.ReleaseCounts | src/DotNet2Fox/Fox.cs:1378-1383 | cleanup releases each COM object once per occurrence in the list, and never an object that is not a COM object |
| ComObjects.ReleaseEventsOfConcat | src/DotNet2Fox/Fox.cs:1378-1383 | releasing a list registered in two parts releases the later part first |
| ComObjects.ReleaseEventsAreReversed | src/DotNet2Fox/Fox.cs:1378-1383 | for a list of COM objects, cleanup releases every entry exactly once, in reverse registration order |
| DotNet2Fox.FoxPool.constructor | src/DotNet2Fox/FoxPool.cs:68-78 | a new pool is empty and enabled, with both counters at zero |
| DotNet2Fox.FoxPool.GetObjectFromPool | src/DotNet2Fox/FoxPool.cs:237-258 | returns nothing and leaves the pool unchanged exactly when no entry matches FormatKey(key) (with no key, every entry matches); otherwise removes exactly one matching entry and returns its worker |
| DotNet2Fox.FoxPool.AddObject | src/DotNet2Fox/FoxPool.cs:266-285 | inserts under FormatKey(key) + id exactly when the pool is enabled, below PoolSize and has no such entry; reports whether it inserted; otherwise the pool is unchanged; the pool stays within PoolSize |
| DotNet2Fox.FoxPool.ClearPool | src/DotNet2Fox/FoxPool.cs:290-316 | the pool only loses entries, and is empty unless a Dispose raised; when none raised, every idle worker has released its FoxCOM server; in every case the instance count ends at 0 and the pool enabled |
| DotNet2Fox.FoxPool.TakeIdle | src/DotNet2Fox/FoxPool.cs:93-105 | an idle worker is taken exactly when the pool is enabled, not empty, and holds one under the key or RecycleOtherKeys is set; a worker under the key is preferred |
| DotNet2Fox.FoxPool.TakeSlot | src/DotNet2Fox/FoxPool.cs:118-135 | at capacity, takes any idle worker; if its key differs, removes it from the pool for good, disposes it (it has released FoxCOM unless the disposal raised) and hands its slot to a new worker for the key, otherwise reuses it; the instance count is unchanged |
| DotNet2Fox.FoxPool.Acquire | src/DotNet2Fox/FoxPool.cs:90-149 | the acquisition order: reuse (poolCount + 1) exactly when an idle worker may be reused, else create (instanceCount + 1) exactly when below PoolSize, else steal exactly when not recycling and the pool is not empty (a stolen worker has released FoxCOM unless its disposal raised), else wait with nothing changed; creating keeps instanceCount <= PoolSize |
| DotNet2Fox.FoxPool.TryGetObject | src/DotNet2Fox/FoxPool.cs:86-153 | every worker handed out carries the key, has begun a request for it, has its idle timer stopped and, if pooled, a request running and not disposed; when its start succeeded it holds both handles; a pass without a worker either waits, changing nothing, or lost a stolen slot's new worker to an error; instanceCount stays within PoolSize |
| DotNet2Fox.Fox.constructor | src/DotNet2Fox/Fox.cs:130-149 | a new worker has no handles, no request running, is not disposed, has no retries used and an empty release list |
| DotNet2Fox.Fox.ProbeFoxCOM | src/DotNet2Fox/Fox.cs:1072-1091 | the FoxCOM handle survives exactly when it exists and the probe succeeds; otherwise it is dropped |
| DotNet2Fox.Fox.ProbeFoxRun | src/DotNet2Fox/Fox.cs:1180-1199 | the FoxRun handle survives exactly when it exists and the probe succeeds; otherwise it is dropped |
| DotNet2Fox.Fox.StartRequest | src/DotNet2Fox/Fox.cs:206-224 | stops the timer and marks the request begun before anything else (first trace event); a pooled worker ends running and not disposed; on success both handles exist and the key is the requested one; the pool is untouched |
| DotNet2Fox.Fox.StartApp | src/DotNet2Fox/Fox.cs:258-281 | with a live FoxCOM and the same key nothing changes; otherwise the key is stored and on success FoxCOM exists; without a FoxPro error the retry count only grows and its catch block grants at most one retry per request (none once a retry was used) |
| DotNet2Fox.Fox.LaunchApp | src/DotNet2Fox/Fox.cs:262-269 | provisioning FoxCOM and FoxRun and the StartApp hook; on success FoxCOM exists; a failure used up a reply |
| DotNet2Fox.Fox.RetryStartApp | src/DotNet2Fox/Fox.cs:271-280 | after a failed start the key stays the requested one, a pooled worker keeps its request flags, and success leaves a FoxCOM; without a FoxPro error at most one retry per request is granted here |
| DotNet2Fox.Fox.InstantiateFoxCOM | src/DotNet2Fox/Fox.cs:973-1062 | an existing FoxCOM is kept and nothing changes; otherwise FoxCOM exists on success and a failure has used up a reply; the retries it grants never take the count past three, and on success they are exactly what it added to the count |
| DotNet2Fox.Fox.InstantiateFoxRun | src/DotNet2Fox/Fox.cs:1115-1170 | an existing FoxRun is kept and nothing changes; otherwise both handles exist on success and a failure has used up a reply; without a FoxPro error the retries it grants never take the count past two |
| DotNet2Fox.Fox.CheckFoxCOM | src/DotNet2Fox/Fox.cs:1069-1110 | a live FoxCOM is kept and the check succeeds after one probe; only a check with reinstantiate can fail, and one that succeeds leaves a FoxCOM |
| DotNet2Fox.Fox.CheckFoxRun | src/DotNet2Fox/Fox.cs:1177-1217 | a live FoxRun is kept after one probe; without reinstantiate, or with FoxRun live, it succeeds keeping FoxCOM and the request flags; only with reinstantiate can it fail, and success then leaves a FoxRun |
| DotNet2Fox.Fox.HandleError | src/DotNet2Fox/Fox.cs:1224-1253 | the verdict is Classify of the error kind, FoxRun's liveness after the probe, the retries used and the budget; a retry sets retryAfterError and adds exactly one retry; a rethrow raises the original exception unchanged; a FoxPro error raises and takes the worker out of the pool; only a retry returns normally; a FoxPro error is counted exactly when that is the verdict |
| DotNet2Fox.Fox.RaiseFoxProError | src/DotNet2Fox/Fox.cs:1229-1238 | the worker leaves the pool, the pool is untouched (the instance slot is not given back) and an exception is always raised: if disposing the worker succeeded, a COMException carrying FoxPro's error message with the original exception inside, and the worker has no FoxCOM; otherwise the disposal's own exception; without hooks a first disposal always succeeds and resets the retries |
| DotNet2Fox.Fox.RemoveFromPool | src/DotNet2Fox/Fox.cs:1258-1262 | disposes the worker for good: it ends outside the pool, the pool itself is untouched, and unless the disposal raised it has no FoxCOM; without hooks a first disposal succeeds, releases FoxRun and resets the retries |
| DotNet2Fox.Fox.Dispose | src/DotNet2Fox/Fox.cs:1425-1472 | offers the worker to the pool at most once, only when it was pooled and not yet disposed, and without hooks a first Dispose of a pooled worker always offers it; accepted: stored under FormatKey(key) + id, FoxRun released, retries reset, request stopped, timer started; rejected: instance count - 1, out of the pool, FoxCOM released; a first Dispose leaves the worker disposed or out of the pool, so the next Dispose does not offer again; without hooks a first Dispose releases FoxRun and resets the retries |
| DotNet2Fox.Fox.ReturnToPool | src/DotNet2Fox/Fox.cs:1439-1461 | exactly one AddObject; accepted: pool gains the worker, request stopped, timer started, count, FoxRun and retries unchanged; rejected: pool unchanged, count - 1, out of the pool, no FoxCOM, timer stopped |
| DotNet2Fox.Fox.LeavePool | src/DotNet2Fox/Fox.cs:1453-1460 | the instance count drops by one, the worker leaves the pool, FoxCOM is released and the timer stopped; the idle workers are untouched |
| DotNet2Fox.Fox.ReleaseFoxCOM | src/DotNet2Fox/Fox.cs:1278-1321 | always ends with no FoxCOM, no release under way, no request running and the timer stopped; when a release is already under way or there is no FoxCOM it makes no call and changes nothing else |
| DotNet2Fox.Fox.EndApp | src/DotNet2Fox/Fox.cs:1285-1301 | the EndApp hook and the release of FoxRun leave the key and the pool untouched, and a failure has used up a reply |
| DotNet2Fox.Fox.ReleaseFoxRun | src/DotNet2Fox/Fox.cs:1326-1367 | always ends with no FoxRun, retries reset to 0 and an empty release list; without hooks it succeeds, keeps the worker in or out of the pool, and records exactly the release of FoxRun (if any) followed by the registered COM objects, last registered first; with no FoxRun it makes no call and records exactly the cleanup releases |
| DotNet2Fox.Fox.EndRequest | src/DotNet2Fox/Fox.cs:1332-1345 | the EndRequest hook leaves the key and the pool untouched, a pooled worker keeps its request flags, and a failure has used up a reply |
| DotNet2Fox.Fox.CleanupComObjects | src/DotNet2Fox/Fox.cs:1372-1389 | the list ends empty and the trace gains exactly the releases of the list, last registered first |
| DotNet2Fox.Fox.CallFoxAppHook | src/DotNet2Fox/Fox.cs:320-359 | without an application object nothing happens; with one, a hook other than EndApp is recorded as run before anything else, and the EndApp hook first begins a request; a hook that succeeds was run; a hook other than EndApp that succeeds keeps both handles and the request flags; a failure has used up a reply |
| DotNet2Fox.Fox.OnTimerElapsed | src/DotNet2Fox/Fox.cs:957-968 | with a request running nothing is released; otherwise FoxCOM is released and no request is left running |
| DotNet2Fox.Fox.RegisterComObjectForRelease | src/DotNet2Fox/Fox.cs:920-926 | appends the object exactly when it is a non-null COM object |
| DotNet2Fox.Fox.UnregisterComObjectForRelease | src/DotNet2Fox/Fox.cs:933-939 | a null object raises ArgumentNullException; a COM object has every registration removed; anything else leaves the list unchanged |
| MbsFoxNet.FoxPool.constructor | src/MBS.FoxNet/FoxPool.cs:26-35 | a new pool is empty and enabled, with both counters at zero |
| MbsFoxNet.FoxPool.GetObjectFromPool | src/MBS.FoxNet/FoxPool.cs:102-123 | returns nothing and leaves the pool unchanged exactly when no entry matches FormatKey(key) (with no key, every entry matches); otherwise removes exactly one matching entry and returns its worker |
| MbsFoxNet.FoxPool.AddObject | src/MBS.FoxNet/FoxPool.cs:126-145 | inserts under FormatKey(key) + id exactly when the pool is enabled, below PoolSize and has no such entry; reports whether it inserted; the pool stays within PoolSize |
| MbsFoxNet.FoxPool.ClearPool | src/MBS.FoxNet/FoxPool.cs:147-185 | the pool only loses entries, and is empty unless a Dispose raised (the exception propagates); when none raised, every idle worker has released its FoxCOM server; in every case instCount ends at 0 and the pool enabled |
| MbsFoxNet.FoxPool.TakeIdle | src/MBS.FoxNet/FoxPool.cs:62-72 | an idle worker is taken exactly when the pool is enabled and not empty, one under the key being preferred; there is no recycle flag |
| MbsFoxNet.FoxPool.Acquire | src/MBS.FoxNet/FoxPool.cs:59-95 | reuse (poolCount + 1) exactly when the pool is enabled and not empty, else create (instCount + 1) exactly when below PoolSize, else wait with nothing changed; no slot is ever stolen; instCount stays within PoolSize |
| MbsFoxNet.FoxPool.TryGetObject | src/MBS.FoxNet/FoxPool.cs:55-99 | every worker handed out carries the key, has begun a request for it, has its idle timer stopped and, if pooled, a request running and not disposed; when its start succeeded it holds both handles; a waiting pass changes nothing |
| MbsFoxNet.FoxNet.constructor | src/MBS.FoxNet/FoxNet.cs:35-45 | a new worker has no handles, no request running, is not disposed and has no retries used |
| MbsFoxNet.FoxNet.ProbeFoxCOM | src/MBS.FoxNet/FoxNet.cs:418-438 | the FoxCOM handle survives exactly when it exists and the probe succeeds; otherwise it is dropped |
| MbsFoxNet.FoxNet.ProbeFoxRun | src/MBS.FoxNet/FoxNet.cs:498-519 | the FoxRun handle survives exactly when it exists and the probe succeeds; otherwise it is dropped |
| MbsFoxNet.FoxNet.StartRequest | src/MBS.FoxNet/FoxNet.cs:49-67 | stops the timer and marks the request begun before anything else (first trace event); a pooled worker ends running and not disposed; on success both handles exist and the key is the requested one; the pool is untouched |
| MbsFoxNet.FoxNet.StartApp | src/MBS.FoxNet/FoxNet.cs:71-95 | with a live FoxCOM and the same key nothing changes; otherwise the key is stored and on success FoxCOM exists; without a FoxPro error the retry count only grows and its catch block grants at most one retry per request (none once a retry was used) |
| MbsFoxNet.FoxNet.LaunchApp | src/MBS.FoxNet/FoxNet.cs:75-82 | provisioning FoxCOM and FoxRun and the StartApp hook; on success FoxCOM exists |
| MbsFoxNet.FoxNet.RetryStartApp | src/MBS.FoxNet/FoxNet.cs:84-93 | after a failed start the key stays the requested one, a pooled worker keeps its request flags, and success leaves a FoxCOM; without a FoxPro error at most one retry per request is granted here |
| MbsFoxNet.FoxNet.InstantiateFoxCOM | src/MBS.FoxNet/FoxNet.cs:375-411 | an existing FoxCOM is kept and nothing changes; otherwise FoxCOM exists on success and a failure has used up a reply; the retries it grants never take the count past three, and on success they are exactly what it added to the count |
| MbsFoxNet.FoxNet.InstantiateFoxRun | src/MBS.FoxNet/FoxNet.cs:448-491 | an existing FoxRun is kept and nothing changes; otherwise both handles exist on success and a failure has used up a reply; without a FoxPro error the retries it grants never take the count past two |
| MbsFoxNet.FoxNet.CheckFoxCOM | src/MBS.FoxNet/FoxNet.cs:416-445 | a live FoxCOM is kept and the check succeeds after one probe; only a check with reinstantiate can fail, and one that succeeds leaves a FoxCOM |
| MbsFoxNet.FoxNet.CheckFoxRun | src/MBS.FoxNet/FoxNet.cs:496-525 | a live FoxRun is kept after one probe; without reinstantiate, or with FoxRun live, it succeeds keeping FoxCOM and the request flags; only with reinstantiate can it fail, and success then leaves a FoxRun |
| MbsFoxNet.FoxNet.HandleError | src/MBS.FoxNet/FoxNet.cs:527-554 | the verdict is Classify of the error kind, FoxRun's liveness, the retries used and the budget; a retry adds exactly one retry; a rethrow raises the original exception; a FoxPro error takes the worker out of the pool and raises; a FoxPro error is counted exactly when that is the verdict |
| MbsFoxNet.FoxNet.RaiseFoxProError | src/MBS.FoxNet/FoxNet.cs:532-541 | the worker leaves the pool, the pool is untouched (the instance slot is not given back) and an exception is always raised: if Dispose succeeded, a COMException carrying only FoxPro's error message, and the worker has no FoxCOM; otherwise Dispose's own exception; without hooks a first Dispose always succeeds and resets the retries |
| MbsFoxNet.FoxNet.Dispose | src/MBS.FoxNet/FoxNet.cs:652-699 | offers the worker to the pool at most once, only when it was pooled and not yet disposed, and without hooks a first Dispose of a pooled worker always offers it; accepted: FoxRun released, retries reset, request stopped, timer started; rejected: instCount - 1 and FoxCOM released; the next Dispose does not offer again; without hooks a first Dispose releases FoxRun and resets the retries |
| MbsFoxNet.FoxNet.ReturnToPool | src/MBS.FoxNet/FoxNet.cs:666-689 | exactly one AddObject; accepted: pool gains the worker, request stopped, timer started, FoxRun and retries unchanged; rejected: pool unchanged, instCount - 1, out of the pool, no FoxCOM |
| MbsFoxNet.FoxNet.LeavePool | src/MBS.FoxNet/FoxNet.cs:680-687 | instCount drops by one, the worker leaves the pool, FoxCOM is released and the timer stopped |
| MbsFoxNet.FoxNet.ReleaseFoxCOM | src/MBS.FoxNet/FoxNet.cs:556-598 | always ends with no FoxCOM, no release under way, no request running and the timer stopped; when a release is already under way or there is no FoxCOM it makes no call and changes nothing else |
| MbsFoxNet.FoxNet.EndApp | src/MBS.FoxNet/FoxNet.cs:563-579 | the EndApp hook and the release of FoxRun leave the key and the pool untouched, and a failure has used up a reply |
| MbsFoxNet.FoxNet.ReleaseFoxRun | src/MBS.FoxNet/FoxNet.cs:600-646 | always ends with no FoxRun and retries reset to 0; without hooks it succeeds, keeps the worker in or out of the pool, and records exactly the release of FoxRun, if any; with no FoxRun it makes no call and changes nothing else |
| MbsFoxNet.FoxNet.EndRequest | src/MBS.FoxNet/FoxNet.cs:606-619 | the EndRequest hook leaves the key and the pool untouched, a pooled worker keeps its request flags, and a failure has used up a reply |
| MbsFoxNet.FoxNet.CallFoxAppHook | src/MBS.FoxNet/FoxNet.cs:98-137 | without an application object nothing happens; with one, a hook other than EndApp is recorded as run before anything else, and the EndApp hook first begins a request; a hook that succeeds was run; a hook other than EndApp that succeeds keeps both handles and the request flags; a failure has used up a reply |
| MbsFoxNet.FoxNet.OnTimerElapsed | src/MBS.FoxNet/FoxNet.cs:361-372 | with a request running nothing is released; otherwise FoxCOM is released and no request is left running |

## Left out

- **Process launch and COM activation.** These include `Activator.CreateInstance`, reg-free COM, the named mutex, `SetTestCallback` and `SetErrorProperty`. Provisioning a handle is one call that either yields a fresh handle or raises.
- **The commands.** `DoCmd`, `Eval`, `Call`, `CallMethod`, `CreateNewObject`, `Do`, `ExecScript`, `CallObjectMethod` and `Factory` are dynamic calls into FoxPro, so they are not modelled. Their error handling is `HandleError(ex, 0)`, which never grants a retry. So their retry branches cannot run, and `HandleError` and `Classify` cover what they do on failure.
- **Async code.** The async variants (`GetObjectAsync`, `StartRequestAsync`, `StartAppAsync`, the async hooks) and `TaskCompletionSourceWrapper.cs` are not modelled. `asyncRequest` is only ever set to false, so the blocking `.Wait()` branches of CheckFoxCOM/CheckFoxRun are not modelled either.
- **Threads.** Locks, `volatile` and the thread-safety of `ConcurrentDictionary` are not modelled. Every lock region is one atomic method, and interleavings are not considered.
- **Timers, the garbage collector and finalizers.** `System.Timers.Timer` is the flag `timerArmed`. `GC.Collect`, `Marshal.ReleaseComObject` and `AreComObjectsAvailableForCleanup` loops are not modelled; releases become trace events. Finalizers and `Dispose(false)` are not modelled either.
- **The other types.** IFoxApp, TestCallback, FoxArrayParameter, the debug helpers (SetStepOn, breakpoints), `Fox.Start` and `ClearPool`'s process-exit handler are not modelled. Hooks are trace events, and whether an application object exists is the constant `hasApp`.
- **The loop in GetObject.**
  - FoxPool.TryGetObject: models one pass of GetObject's `while (true)` loop. The sleep between passes and the loop itself are not modelled, since waiting for another thread to return a worker has no sequential meaning.
  - The identity, application object and reply script of a worker created by that pass are parameters.
- **Pool settings.** `PoolSize` and `RecycleOtherKeys` are constants of a pool. The source lets them change at any time.
- DotNet2Fox.Fox.ProbeFoxCOM, DotNet2Fox.Fox.ProbeFoxRun, MbsFoxNet.FoxNet.ProbeFoxCOM, MbsFoxNet.FoxNet.ProbeFoxRun: these stand in for `CheckFoxCOM(false)` / `CheckFoxRun(false)`. A probe of a null handle fails without a call into FoxPro, whereas the source's null dereference inside the `try` has the same outcome.
- DotNet2Fox.Fox.HandleError, MbsFoxNet.FoxNet.HandleError: `GetErrorMessage()` is assumed to answer. The message is the worker's `errorMessage`.
- DotNet2Fox.Fox.InstantiateFoxRun, MbsFoxNet.FoxNet.InstantiateFoxRun: these require a FoxCOM handle. Every caller has established one, and the source's dereference of a null FoxCOM is not modelled.
- DotNet2Fox.Fox.CallFoxAppHook, MbsFoxNet.FoxNet.CallFoxAppHook: the key passed to a hook is the worker's current key, which is what every call site in the source passes.
- DotNet2Fox.Fox.StartRequest, MbsFoxNet.FoxNet.StartRequest: `requestRunning` and `!disposedValue` are promised for pooled workers only. A worker outside the pool can end a successful StartRequest disposed, after a FoxPro error during provisioning and a retry.
- DotNet2Fox.Fox.StartApp, DotNet2Fox.Fox.RetryStartApp, DotNet2Fox.Fox.InstantiateFoxCOM, DotNet2Fox.Fox.InstantiateFoxRun, MbsFoxNet.FoxNet.StartApp, MbsFoxNet.FoxNet.RetryStartApp, MbsFoxNet.FoxNet.InstantiateFoxCOM, MbsFoxNet.FoxNet.InstantiateFoxRun: the retry bounds hold only when no FoxPro error happened during the call. Termination of the recursive retries rests on the finite reply script, which every failure consumes, not on the retry budget; the unbounded recursion after repeated FoxPro errors described above is therefore not modelled as divergence.
- PoolKeys.PrefixMatchIsExact, PoolKeys.StartsWith: the pools call `String.StartsWith(string)`, which compares under the current culture. The model compares characters exactly, so culture-specific equivalences and ignorable characters, which could make `[a]` match other entries, are not captured.
- **Character handling.** String.ToLower and String.Trim are modelled over ASCII. Lower-casing affects only `A`–`Z`. White space is space and the controls tab through carriage return; Unicode white space and culture-specific casing are not modelled.
