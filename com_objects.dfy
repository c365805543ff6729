/** The list of COM objects a worker registers during a request and releases when the
    request ends (Fox.comObjectsToRelease). Registration appends, unregistration removes
    every occurrence, and cleanup releases the list from its last entry to its first. */
module ComObjects {
  import opened Interop

  /** Every entry is a COM object (RegisterComObjectForRelease admits nothing else). */
  predicate AllCom(s: seq<Obj>)
  {
    forall i :: 0 <= i < |s| ==> s[i].isCom
  }

  /** List<T>.RemoveAll(o => o == comObject): keeps the other entries in their order. */
  function Without(s: seq<Obj>, o: Obj): (r: seq<Obj>)
    ensures |r| <= |s|
    ensures forall x :: x in r <==> x in s && x != o
    ensures multiset(r)[o] == 0
    ensures forall x :: x != o ==> multiset(r)[x] == multiset(s)[x]
  {
    if s == [] then []
    else
      var rest := Without(s[1..], o);
      assert s == [s[0]] + s[1..];
      if s[0] == o then rest else [s[0]] + rest
  }

  /** The release of one object: Marshal.ReleaseComObject runs only on COM objects. */
  function ReleaseOne(o: Obj): seq<Event>
  {
    if o.isCom then [ComObjectReleased(o)] else []
  }

  /** The releases CleanupComObjects performs on list `s`: the tail's releases come first,
      so the entry registered last is released first. */
  function ReleaseEvents(s: seq<Obj>): (r: seq<Event>)
    ensures |r| <= |s|
    ensures forall e :: e in r ==> e.ComObjectReleased? && e.obj in s && e.obj.isCom
  {
    if s == [] then [] else ReleaseEvents(s[1..]) + ReleaseOne(s[0])
  }

  /** Cleanup releases each COM object once per occurrence in the list, and never an object
      that is not a COM object. */
  lemma {:induction false} ReleaseCounts(s: seq<Obj>, o: Obj)
    ensures multiset(ReleaseEvents(s))[ComObjectReleased(o)] == if o.isCom then multiset(s)[o] else 0
  {
    if s != [] {
      ReleaseCounts(s[1..], o);
      var rest := ReleaseEvents(s[1..]);
      assert s == [s[0]] + s[1..];
      assert multiset(s)[o] == multiset(s[1..])[o] + if s[0] == o then 1 else 0;
      if s[0].isCom {
        assert ReleaseEvents(s) == rest + [ComObjectReleased(s[0])];
      } else {
        assert ReleaseEvents(s) == rest + [];
      }
    }
  }

  /** The entries of `s` from the last to the first. */
  function Reversed(s: seq<Obj>): (r: seq<Obj>)
    ensures |r| == |s|
    ensures forall i :: 0 <= i < |s| ==> r[i] == s[|s| - 1 - i]
  {
    seq(|s|, i requires 0 <= i < |s| => s[|s| - 1 - i])
  }

  /** Releasing a list registered in two parts releases the later part first (last in,
      first out). */
  lemma {:induction false} ReleaseEventsOfConcat(a: seq<Obj>, b: seq<Obj>)
    ensures ReleaseEvents(a + b) == ReleaseEvents(b) + ReleaseEvents(a)
    decreases |a|
  {
    if a == [] {
      assert a + b == b;
    } else {
      assert (a + b)[1..] == a[1..] + b;
      ReleaseEventsOfConcat(a[1..], b);
    }
  }

  /** For a list of COM objects, cleanup releases every entry exactly once, in reverse
      registration order. */
  lemma {:induction false} ReleaseEventsAreReversed(s: seq<Obj>)
    requires AllCom(s)
    ensures |ReleaseEvents(s)| == |s|
    ensures forall i :: 0 <= i < |s| ==> ReleaseEvents(s)[i] == ComObjectReleased(Reversed(s)[i])
  {
    if s != [] {
      ReleaseEventsAreReversed(s[1..]);
      var r := ReleaseEvents(s);
      assert r == ReleaseEvents(s[1..]) + [ComObjectReleased(s[0])];
      forall i | 0 <= i < |s|
        ensures r[i] == ComObjectReleased(Reversed(s)[i])
      {
        if i < |s| - 1 {
          assert r[i] == ReleaseEvents(s[1..])[i];
          assert Reversed(s[1..])[i] == s[|s| - 1 - i];
        }
      }
    }
  }
}
