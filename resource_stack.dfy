/**
 * The values a resource manager keeps on its stack, and the meaning of
 * unwinding that stack: which cleanups run, in what order, which faults
 * are collected, and where a rollback stops.
 */
module ResourceStack {
  import opened Wrappers

  /** An opaque resource value handed to the manager. */
  type Value = nat

  /** An exception thrown by caller-supplied code: a supplier or a cleanup action. */
  datatype Fault = Checked(code: nat) | Unchecked(code: nat)

  /** The exceptions the manager itself throws. */
  datatype Failure =
    | NullPointer
    | IllegalArgument(message: string)
      // an unchecked supplier exception, rethrown as it is
    | Propagated(fault: Fault)
      // `new RuntimeException(e)` around a checked supplier exception
    | Wrapped(cause: Fault)
      // a fresh `RuntimeException(message)` carrying every collected fault as suppressed
    | Aggregate(message: string, suppressed: seq<Fault>)

  /** A cleanup action; what it throws when it is run is fixed in advance. */
  datatype Cleanup = Cleanup(action: nat, outcome: Option<Fault>)

  /**
   * A savepoint marker. The unwinding loop compares savepoints by identity
   * (Dafny reference equality); `equals` and therefore `contains` compare
   * them by `id` only.
   */
  class Savepoint {
    const id: nat

    constructor (id: nat)
      ensures this.id == id
    {
      this.id := id;
    }
  }

  /** One entry of the stack: a value bound to its cleanup, or a savepoint marker. */
  datatype Entry =
    | Disposer(value: Option<Value>, cleanup: Cleanup)
    | SavepointEntry(savepoint: Savepoint)

  /** The object a caller passes to `rollbackToSavepoint`. */
  datatype Handle = NullHandle | OtherObject | SavepointHandle(savepoint: Savepoint)

  const RollbackMessage := "Rollback failed"
  const CloseMessage := "Failed to close resource manager"

  /**
   * The invariant a manager keeps: every savepoint id on the stack was
   * minted before `lastId`, ids increase from bottom to top, and no two
   * savepoints are adjacent.
   */
  predicate WellFormed(s: seq<Entry>, lastId: nat) {
    && (forall i :: 0 <= i < |s| && s[i].SavepointEntry? ==> s[i].savepoint.id < lastId)
    && (forall i, j :: 0 <= i < j < |s| && s[i].SavepointEntry? && s[j].SavepointEntry? ==>
          s[i].savepoint.id < s[j].savepoint.id)
    && (forall i :: 0 <= i < |s| - 1 ==> !(s[i].SavepointEntry? && s[i + 1].SavepointEntry?))
  }

  /** The part an entry contributes to a list of cleanups: itself if it is a disposer. */
  function Own(e: Entry): seq<Entry> {
    if e.Disposer? then [e] else []
  }

  /** The disposers of `s` in registration order (bottom of the stack first). */
  function Disposers(s: seq<Entry>): (r: seq<Entry>)
    ensures |r| <= |s|
  {
    if s == [] then [] else Own(s[0]) + Disposers(s[1..])
  }

  /** `Disposers(s)` holds disposers of `s` only, and every disposer of `s`. */
  lemma {:induction false} DisposersAreTheDisposerEntries(s: seq<Entry>)
    ensures forall i :: 0 <= i < |Disposers(s)| ==> Disposers(s)[i].Disposer? && Disposers(s)[i] in s
    ensures forall i :: 0 <= i < |s| && s[i].Disposer? ==> s[i] in Disposers(s)
  {
    if s != [] {
      DisposersAreTheDisposerEntries(s[1..]);
      var o: seq<Entry>, d: seq<Entry> := Own(s[0]), Disposers(s[1..]);
      assert Disposers(s) == o + d;
      forall i | 0 <= i < |o + d|
        ensures (o + d)[i].Disposer? && (o + d)[i] in s
      {
        if i >= |o| {
          assert (o + d)[i] == d[i - |o|];
        }
      }
      forall i | 0 <= i < |s| && s[i].Disposer?
        ensures s[i] in o + d
      {
        if i > 0 {
          assert s[i] == s[1..][i - 1];
        }
      }
    }
  }

  /** The disposers an unwinding loop runs when it pops all of `s`: top of the stack first. */
  function ReleaseOrder(s: seq<Entry>): (r: seq<Entry>)
    ensures |r| <= |s|
  {
    if s == [] then [] else ReleaseOrder(s[1..]) + Own(s[0])
  }

  /** True when running the entry's cleanup throws. */
  predicate Fails(e: Entry) {
    e.Disposer? && e.cleanup.outcome.Some?
  }

  /** The faults thrown by the cleanups of `run`, in the order they are run. */
  function Faults(run: seq<Entry>): (r: seq<Fault>)
    ensures |r| <= |run|
  {
    if run == [] then []
    else (if Fails(run[0]) then [run[0].cleanup.outcome.value] else []) + Faults(run[1..])
  }

  /** No fault is collected exactly when no cleanup fails, and every failing cleanup's fault is collected. */
  lemma {:induction false} FaultsOfEveryFailure(run: seq<Entry>)
    ensures Faults(run) == [] <==> forall i :: 0 <= i < |run| ==> !Fails(run[i])
    ensures forall i :: 0 <= i < |run| && Fails(run[i]) ==> run[i].cleanup.outcome.value in Faults(run)
  {
    if run != [] {
      FaultsOfEveryFailure(run[1..]);
      forall i | 0 < i < |run|
        ensures run[i] == run[1..][i - 1]
      {
      }
    }
  }

  /**
   * What an unwinding loop throws after running `run`: nothing when no
   * cleanup failed, otherwise one fresh exception with every fault attached
   * as suppressed, in encounter order.
   */
  function AggregateFailure(message: string, run: seq<Entry>): (r: Option<Failure>)
    ensures r.None? <==> forall i :: 0 <= i < |run| ==> !Fails(run[i])
    ensures r.Some? ==> r.value.Aggregate? && r.value.message == message && r.value.suppressed != []
  {
    FaultsOfEveryFailure(run);
    var faults := Faults(run);
    if faults == [] then None else Some(Aggregate(message, faults))
  }

  /** `disposerStack.contains(sp)`: some savepoint on the stack has the same id. */
  predicate Registered(s: seq<Entry>, sp: Savepoint)
    ensures SavepointEntry(sp) in s ==> Registered(s, sp)
  {
    exists i :: 0 <= i < |s| && s[i].SavepointEntry? && s[i].savepoint.id == sp.id
  }

  /** The exception `rollbackToSavepoint` throws before touching the stack, if any. */
  function RollbackRejection(s: seq<Entry>, h: Handle): (r: Option<Failure>)
    ensures r.None? <==> h.SavepointHandle? && Registered(s, h.savepoint)
    ensures h.NullHandle? ==> r == Some(NullPointer)
    ensures h.OtherObject? ==> r == Some(IllegalArgument("Invalid savepoint"))
    ensures h.SavepointHandle? && !Registered(s, h.savepoint) ==>
              r == Some(IllegalArgument("Savepoint not registered"))
  {
    match h
    case NullHandle => Some(NullPointer)
    case OtherObject => Some(IllegalArgument("Invalid savepoint"))
    case SavepointHandle(sp) =>
      if Registered(s, sp) then None else Some(IllegalArgument("Savepoint not registered"))
  }

  /**
   * How many entries a rollback to `sp` leaves on the stack: the position of
   * the topmost entry that IS `sp`, or 0 when no entry is `sp` (the loop
   * then drains the stack).
   */
  function UnwindCut(s: seq<Entry>, sp: Savepoint): (k: nat)
    ensures k <= |s|
    ensures SavepointEntry(sp) in s ==> k < |s| && s[k] == SavepointEntry(sp)
    ensures SavepointEntry(sp) !in s ==> k == 0
    ensures forall j :: k < j < |s| ==> s[j] != SavepointEntry(sp)
  {
    if s == [] then 0
    else if s[|s| - 1] == SavepointEntry(sp) then |s| - 1
    else UnwindCut(s[..|s| - 1], sp)
  }

  /** The cut is the topmost position holding the savepoint itself. */
  lemma UnwindCutAt(s: seq<Entry>, sp: Savepoint, k: nat)
    requires k < |s| && s[k] == SavepointEntry(sp) && SavepointEntry(sp) !in s[k + 1..]
    ensures UnwindCut(s, sp) == k
  {
    assert SavepointEntry(sp) in s;
    forall j | k < j < |s|
      ensures s[j] != SavepointEntry(sp)
    {
      assert s[j] == s[k + 1..][j - k - 1];
    }
  }

  /** Without the savepoint itself on the stack, the cut is at the bottom. */
  lemma UnwindCutAbsent(s: seq<Entry>, sp: Savepoint)
    requires SavepointEntry(sp) !in s
    ensures UnwindCut(s, sp) == 0
  {
  }

  // ---------------------------------------------------------------------
  // Release order

  /** Unwinding `a + b` runs the cleanups of `b` (the upper part) before those of `a`. */
  lemma {:induction false} ReleaseOrderAppend(a: seq<Entry>, b: seq<Entry>)
    ensures ReleaseOrder(a + b) == ReleaseOrder(b) + ReleaseOrder(a)
  {
    if a == [] {
      assert a + b == b;
    } else {
      assert (a + b)[1..] == a[1..] + b;
      ReleaseOrderAppend(a[1..], b);
    }
  }

  /** A disposer pushed last is run first; a savepoint pushed last runs nothing. */
  lemma LastPushedReleasedFirst(s: seq<Entry>, e: Entry)
    ensures ReleaseOrder(s + [e]) == Own(e) + ReleaseOrder(s)
  {
    ReleaseOrderAppend(s, [e]);
    assert ReleaseOrder([e]) == ReleaseOrder([]) + Own(e);
  }

  /** Cleanups are run in exactly the reverse of registration order. */
  lemma {:induction false} ReleaseReversesRegistration(s: seq<Entry>)
    ensures |ReleaseOrder(s)| == |Disposers(s)|
    ensures forall i :: 0 <= i < |Disposers(s)| ==>
              ReleaseOrder(s)[i] == Disposers(s)[|Disposers(s)| - 1 - i]
  {
    if s != [] {
      ReleaseReversesRegistration(s[1..]);
      var d, r := Disposers(s[1..]), ReleaseOrder(s[1..]);
      var o := Own(s[0]);
      assert Disposers(s) == o + d;
      assert ReleaseOrder(s) == r + o;
      forall i | 0 <= i < |o + d|
        ensures (r + o)[i] == (o + d)[|o + d| - 1 - i]
      {
        if i < |r| {
          assert (r + o)[i] == d[|d| - 1 - i];
          assert (o + d)[|o + d| - 1 - i] == d[|d| - 1 - i];
        } else {
          assert i == |d| && |o| == 1;
          assert (r + o)[i] == o[0] == (o + d)[0];
        }
      }
    }
  }

  /** Every registered cleanup is run exactly once, failing or not. */
  lemma {:induction false} EveryDisposerReleasedOnce(s: seq<Entry>)
    ensures multiset(ReleaseOrder(s)) == multiset(Disposers(s))
  {
    if s != [] {
      EveryDisposerReleasedOnce(s[1..]);
      assert multiset(ReleaseOrder(s)) == multiset(ReleaseOrder(s[1..])) + multiset(Own(s[0]));
      assert multiset(Disposers(s)) == multiset(Own(s[0])) + multiset(Disposers(s[1..]));
    }
  }

  // ---------------------------------------------------------------------
  // Failure aggregation

  /** Faults of cleanups run earlier come before faults of cleanups run later. */
  lemma {:induction false} FaultsInEncounterOrder(a: seq<Entry>, b: seq<Entry>)
    ensures Faults(a + b) == Faults(a) + Faults(b)
  {
    if a == [] {
      assert a + b == b;
    } else {
      var c := a + b;
      assert c[0] == a[0];
      assert c[1..] == a[1..] + b;
      FaultsInEncounterOrder(a[1..], b);
      if Fails(a[0]) {
        var f := [a[0].cleanup.outcome.value];
        calc {
          Faults(c);
          f + Faults(c[1..]);
          f + (Faults(a[1..]) + Faults(b));
          (f + Faults(a[1..])) + Faults(b);
          Faults(a) + Faults(b);
        }
      } else {
        calc {
          Faults(c);
          Faults(c[1..]);
          Faults(a[1..]) + Faults(b);
          Faults(a) + Faults(b);
        }
      }
    }
  }

  // ---------------------------------------------------------------------
  // The manager's invariant

  lemma PushDisposerKeepsWellFormed(s: seq<Entry>, lastId: nat, e: Entry)
    requires WellFormed(s, lastId) && e.Disposer?
    ensures WellFormed(s + [e], lastId)
  {
  }

  lemma PushSavepointKeepsWellFormed(s: seq<Entry>, lastId: nat, sp: Savepoint)
    requires WellFormed(s, lastId) && sp.id == lastId
    requires s == [] || !s[|s| - 1].SavepointEntry?
    ensures WellFormed(s + [SavepointEntry(sp)], lastId + 1)
  {
  }

  lemma PrefixKeepsWellFormed(s: seq<Entry>, lastId: nat, n: nat)
    requires WellFormed(s, lastId) && n <= |s|
    ensures WellFormed(s[..n], lastId)
  {
  }

  // ---------------------------------------------------------------------
  // Rollback

  /**
   * Rolling back to a savepoint of this manager is accepted and stops at
   * that savepoint: the entries below it stay, and only the disposers above
   * it are run (the savepoint itself and nested ones run nothing).
   */
  lemma RollbackToOwnSavepoint(s: seq<Entry>, lastId: nat, k: nat)
    requires WellFormed(s, lastId) && k < |s| && s[k].SavepointEntry?
    ensures RollbackRejection(s, SavepointHandle(s[k].savepoint)) == None
    ensures UnwindCut(s, s[k].savepoint) == k
    ensures ReleaseOrder(s[k..]) == ReleaseOrder(s[k + 1..])
  {
    var sp := s[k].savepoint;
    assert s[k].savepoint.id == sp.id;
    forall j | k < j < |s|
      ensures s[j] != SavepointEntry(sp)
    {
      if s[j].SavepointEntry? {
        assert s[k].savepoint.id < s[j].savepoint.id;
      }
    }
    assert s[k..][1..] == s[k + 1..];
  }

  /** After a rollback to it has consumed it, the same savepoint is rejected. */
  lemma ConsumedSavepointIsRejected(s: seq<Entry>, lastId: nat, k: nat)
    requires WellFormed(s, lastId) && k < |s| && s[k].SavepointEntry?
    ensures RollbackRejection(s[..k], SavepointHandle(s[k].savepoint))
            == Some(IllegalArgument("Savepoint not registered"))
  {
  }

  /**
   * A savepoint that is id-equal to one on the stack but is not that object
   * (one minted by another manager) passes validation, yet never stops the
   * loop: the whole stack is drained and every disposer on it is run.
   */
  lemma ForeignSavepointDrainsStack(s: seq<Entry>, sp: Savepoint)
    requires Registered(s, sp) && SavepointEntry(sp) !in s
    ensures RollbackRejection(s, SavepointHandle(sp)) == None
    ensures UnwindCut(s, sp) == 0
    ensures s[UnwindCut(s, sp)..] == s
  {
  }
}
