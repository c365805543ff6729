/** The boundary between a worker and the Visual FoxPro COM server it drives.
    Handles, exceptions, the scripted replies of the external process, lifecycle
    hooks and the trace events the model records. */
module Interop {

  datatype Option<+T> = None | Some(value: T)

  /** An opaque COM handle (the FoxCOM server object or the FoxRun object). */
  type Handle = nat

  /** The exception types the worker's error policy tells apart. */
  datatype ErrorKind =
    | ComError          // System.Runtime.InteropServices.COMException
    | MissingMember     // System.MissingMemberException
    | RuntimeBinder     // Microsoft.CSharp.RuntimeBinder.RuntimeBinderException
    | NullReference     // System.NullReferenceException (also how async FoxPro errors arrive)
    | ArgumentNull      // System.ArgumentNullException
    | OtherError        // anything else

  /** An exception value; `inner` is the InnerException. */
  datatype Exception = Exception(kind: ErrorKind, message: string, inner: Option<Exception>)

  /** How a call that may throw ended. */
  datatype Status = Ok | Raised(ex: Exception)

  /** The answer the external process gives to one call made into it. */
  datatype Reply = Succeeds | Fails(ex: Exception)

  /** The four hooks of the application-specific IFoxApp object. */
  datatype Hook = StartAppHook | StartRequestHook | EndRequestHook | EndAppHook

  /** An object handed back by FoxPro; `isCom` is Marshal.IsComObject. */
  datatype Obj = Obj(id: nat, isCom: bool)

  /** What a worker did that is observable outside it. */
  datatype Event =
    | RequestBegun(key: string)
    | HookRan(hook: Hook, key: string)
    | ComObjectReleased(obj: Obj)
    | FoxRunReleased(h: Handle)
    | FoxCOMReleased(h: Handle)

  /** The answer the next call gets from a reply script; an exhausted script answers
      every call with success. */
  function Head(replies: seq<Reply>): (r: Reply)
    ensures r.Fails? ==> |replies| > 0 && r == replies[0]
  {
    if replies == [] then Succeeds else replies[0]
  }

  /** The script left after one call. */
  function Tail(replies: seq<Reply>): (r: seq<Reply>)
    ensures |r| <= |replies|
    ensures Head(replies).Fails? ==> |r| < |replies|
  {
    if replies == [] then [] else replies[1..]
  }
}
