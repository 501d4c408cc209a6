/**
 * `ResourceManager`: a LIFO stack of cleanups and savepoint markers.
 * Values are pushed with their cleanup; `rollbackToSavepoint` unwinds down
 * to a savepoint and `close` unwinds everything. Both unwinds run every
 * cleanup even when some throw, and then throw one exception carrying all
 * the collected faults as suppressed exceptions.
 */
module ResourceManagement {
  import opened Wrappers
  import opened ResourceStack

  /** What a supplier's `call()` does when it is invoked, fixed in advance. */
  datatype Supply = Returns(result: Option<Value>) | Throws(fault: Fault)

  /**
   * The loop's bookkeeping for one popped entry: a failing cleanup creates
   * the aggregate exception if there is none yet and adds its fault to it;
   * anything else leaves the pending exception as it is.
   */
  function Collect(pending: Option<Failure>, message: string, e: Entry): (r: Option<Failure>)
    requires pending.None? || pending.value.Aggregate?
    ensures r.None? || r.value.Aggregate?
  {
    if !Fails(e) then pending
    else
      var created := if pending.None? then Aggregate(message, []) else pending.value;
      Some(created.(suppressed := created.suppressed + [e.cleanup.outcome.value]))
  }

  /** The pending exception after the loop has run `run`, one `Collect` per cleanup. */
  ghost function Accumulated(message: string, run: seq<Entry>): (r: Option<Failure>)
    ensures r.None? || r.value.Aggregate?
    decreases |run|
  {
    if run == [] then None
    else Collect(Accumulated(message, run[..|run| - 1]), message, run[|run| - 1])
  }

  /** Accumulating fault by fault gives one aggregate exception holding every fault of the run. */
  lemma {:induction false} AccumulatedIsAggregate(message: string, run: seq<Entry>)
    ensures Accumulated(message, run) == AggregateFailure(message, run)
    decreases |run|
  {
    if run != [] {
      var front := run[..|run| - 1];
      var e := run[|run| - 1];
      AccumulatedIsAggregate(message, front);
      assert run == front + [e];
      FaultsStep(front, e);
      var before := Faults(front);
      if Fails(e) {
        assert Faults(run) == before + [e.cleanup.outcome.value];
      } else {
        assert Faults(run) == before;
      }
    }
  }

  /**
   * Popping entry `n - 1` of `s` after the entries above it: a disposer is
   * run next, a savepoint runs nothing, and the pending exception collects
   * the entry's fault.
   */
  lemma PopStep(s: seq<Entry>, n: nat, message: string)
    requires 0 < n <= |s|
    ensures s[n - 1].Disposer? ==> ReleaseOrder(s[n - 1..]) == ReleaseOrder(s[n..]) + [s[n - 1]]
    ensures s[n - 1].SavepointEntry? ==> ReleaseOrder(s[n - 1..]) == ReleaseOrder(s[n..])
    ensures Accumulated(message, ReleaseOrder(s[n - 1..]))
            == Collect(Accumulated(message, ReleaseOrder(s[n..])), message, s[n - 1])
  {
    var e := s[n - 1];
    var run := ReleaseOrder(s[n..]);
    assert s[n - 1..][1..] == s[n..];
    assert ReleaseOrder(s[n - 1..]) == run + Own(e);
    if e.Disposer? {
      assert (run + [e])[..|run|] == run;
    } else {
      assert run + Own(e) == run;
    }
  }

  /**
   * Popping entry `n - 1` while unwinding towards `sp`, when `sp` itself is
   * not among the entries already popped: either this entry is `sp` and the
   * cut is here, or `sp` is still not among the popped entries.
   */
  lemma PopTowards(s: seq<Entry>, n: nat, sp: Savepoint)
    requires 0 < n <= |s| && SavepointEntry(sp) !in s[n..]
    ensures s[n - 1] == SavepointEntry(sp) ==> UnwindCut(s, sp) == n - 1
    ensures s[n - 1] != SavepointEntry(sp) ==> SavepointEntry(sp) !in s[n - 1..]
  {
    assert s[n - 1..] == [s[n - 1]] + s[n..];
    if s[n - 1] == SavepointEntry(sp) {
      UnwindCutAt(s, sp, n - 1);
    }
  }

  /** Running one more cleanup adds its fault, if any, at the end of the collected faults. */
  lemma FaultsStep(run: seq<Entry>, e: Entry)
    ensures Faults(run + [e]) == Faults(run) + (if Fails(e) then [e.cleanup.outcome.value] else [])
  {
    FaultsInEncounterOrder(run, [e]);
    assert [e][1..] == [];
  }

  class ResourceManager {
    /** `disposerStack`, bottom first: the top is the last element. */
    var stack: seq<Entry>
    /** The id the next savepoint gets. */
    var lastId: nat
    /** Every disposer whose cleanup has been run, in the order they were run. */
    ghost var released: seq<Entry>

    ghost predicate Valid()
      reads this
    {
      WellFormed(stack, lastId)
    }

    constructor ()
      ensures Valid() && stack == [] && lastId == 0 && released == []
    {
      stack := [];
      lastId := 0;
      released := [];
    }

    /**
     * `getInstance(supplier, cleanup)`: null arguments throw before the
     * supplier is called; a supplier exception propagates (a checked one
     * wrapped); a non-null result is pushed with its cleanup and returned;
     * a null result is returned and nothing is pushed.
     */
    method GetInstance(supplier: Option<Supply>, cleanup: Option<Cleanup>)
      returns (r: Result<Option<Value>, Failure>)
      requires Valid()
      modifies this
      ensures Valid() && lastId == old(lastId) && released == old(released)
      ensures supplier.None? || cleanup.None? ==> r == Err(NullPointer) && stack == old(stack)
      ensures supplier.Some? && cleanup.Some? ==>
        match supplier.value
        case Throws(Unchecked(c)) => r == Err(Propagated(Unchecked(c))) && stack == old(stack)
        case Throws(Checked(c)) => r == Err(Wrapped(Checked(c))) && stack == old(stack)
        case Returns(None) => r == Ok(None) && stack == old(stack)
        case Returns(Some(v)) =>
          r == Ok(Some(v)) && stack == old(stack) + [Disposer(Some(v), cleanup.value)]
    {
      if supplier.None? || cleanup.None? {
        return Err(NullPointer);
      }
      match supplier.value {
        case Throws(fault) =>
          r := if fault.Unchecked? then Err(Propagated(fault)) else Err(Wrapped(fault));
        case Returns(resource) =>
          if resource.Some? {
            var disposer := Disposer(resource, cleanup.value);
            PushDisposerKeepsWellFormed(stack, lastId, disposer);
            stack := stack + [disposer];
          }
          r := Ok(resource);
      }
    }

    /** `getInstance(supplier)`: the cleanup is the resource's own `close`. */
    method GetCloseableInstance(supplier: Option<Supply>, close: Cleanup)
      returns (r: Result<Option<Value>, Failure>)
      requires Valid()
      modifies this
      ensures Valid() && lastId == old(lastId) && released == old(released)
      ensures supplier.None? ==> r == Err(NullPointer) && stack == old(stack)
      ensures supplier.Some? ==>
        match supplier.value
        case Throws(Unchecked(c)) => r == Err(Propagated(Unchecked(c))) && stack == old(stack)
        case Throws(Checked(c)) => r == Err(Wrapped(Checked(c))) && stack == old(stack)
        case Returns(None) => r == Ok(None) && stack == old(stack)
        case Returns(Some(v)) => r == Ok(Some(v)) && stack == old(stack) + [Disposer(Some(v), close)]
    {
      r := GetInstance(supplier, Some(close));
    }

    /**
     * `getOptionalInstance(supplier, cleanup)`: like `GetInstance`, but any
     * supplier exception, like a null result, gives an empty result and
     * pushes nothing. Null arguments still throw.
     */
    method GetOptionalInstance(supplier: Option<Supply>, cleanup: Option<Cleanup>)
      returns (r: Result<Option<Value>, Failure>)
      requires Valid()
      modifies this
      ensures Valid() && lastId == old(lastId) && released == old(released)
      ensures supplier.None? || cleanup.None? ==> r == Err(NullPointer) && stack == old(stack)
      ensures supplier.Some? && cleanup.Some? ==>
        match supplier.value
        case Throws(_) => r == Ok(None) && stack == old(stack)
        case Returns(None) => r == Ok(None) && stack == old(stack)
        case Returns(Some(v)) =>
          r == Ok(Some(v)) && stack == old(stack) + [Disposer(Some(v), cleanup.value)]
    {
      if supplier.None? || cleanup.None? {
        return Err(NullPointer);
      }
      match supplier.value {
        case Throws(_) =>
          r := Ok(None);
        case Returns(resource) =>
          if resource.None? {
            return Ok(None);
          }
          var disposer := Disposer(resource, cleanup.value);
          PushDisposerKeepsWellFormed(stack, lastId, disposer);
          stack := stack + [disposer];
          r := Ok(resource);
      }
    }

    /** `getOptionalInstance(supplier)`: the cleanup is the resource's own `close`. */
    method GetOptionalCloseableInstance(supplier: Option<Supply>, close: Cleanup)
      returns (r: Result<Option<Value>, Failure>)
      requires Valid()
      modifies this
      ensures Valid() && lastId == old(lastId) && released == old(released)
      ensures supplier.None? ==> r == Err(NullPointer) && stack == old(stack)
      ensures supplier.Some? && supplier.value.Returns? && supplier.value.result.Some? ==>
        r == Ok(supplier.value.result) && stack == old(stack) + [Disposer(supplier.value.result, close)]
      ensures supplier.Some? && !(supplier.value.Returns? && supplier.value.result.Some?) ==>
        r == Ok(None) && stack == old(stack)
    {
      r := GetOptionalInstance(supplier, Some(close));
    }

    /** `register(resource)`: null is ignored; otherwise the resource's `close` is pushed. */
    method Register(resource: Option<Value>, close: Cleanup)
      requires Valid()
      modifies this
      ensures Valid() && lastId == old(lastId) && released == old(released)
      ensures resource.None? ==> stack == old(stack)
      ensures resource.Some? ==> stack == old(stack) + [Disposer(resource, close)]
    {
      if resource.Some? {
        var disposer := Disposer(resource, close);
        PushDisposerKeepsWellFormed(stack, lastId, disposer);
        stack := stack + [disposer];
      }
    }

    /** `addCleanup(value, cleanup)`: null arguments throw; otherwise the pair is pushed. */
    method AddCleanup(value: Option<Value>, cleanup: Option<Cleanup>) returns (thrown: Option<Failure>)
      requires Valid()
      modifies this
      ensures Valid() && lastId == old(lastId) && released == old(released)
      ensures value.None? || cleanup.None? ==> thrown == Some(NullPointer) && stack == old(stack)
      ensures value.Some? && cleanup.Some? ==>
        thrown == None && stack == old(stack) + [Disposer(value, cleanup.value)]
    {
      if value.None? || cleanup.None? {
        return Some(NullPointer);
      }
      var disposer := Disposer(value, cleanup.value);
      PushDisposerKeepsWellFormed(stack, lastId, disposer);
      stack := stack + [disposer];
      thrown := None;
    }

    /** `addCleanup(runnable)`: a null action throws; otherwise it is pushed with no value. */
    method AddRunnableCleanup(cleanup: Option<Cleanup>) returns (thrown: Option<Failure>)
      requires Valid()
      modifies this
      ensures Valid() && lastId == old(lastId) && released == old(released)
      ensures cleanup.None? ==> thrown == Some(NullPointer) && stack == old(stack)
      ensures cleanup.Some? ==> thrown == None && stack == old(stack) + [Disposer(None, cleanup.value)]
    {
      if cleanup.None? {
        return Some(NullPointer);
      }
      var disposer := Disposer(None, cleanup.value);
      PushDisposerKeepsWellFormed(stack, lastId, disposer);
      stack := stack + [disposer];
      thrown := None;
    }

    /**
     * `createSavepoint()`: when the top entry is already a savepoint, that
     * savepoint is returned and nothing changes; otherwise a new savepoint
     * with id `lastId` is pushed and `lastId` is incremented. Either way the
     * returned savepoint is the top of the stack.
     */
    method CreateSavepoint() returns (sp: Savepoint)
      requires Valid()
      modifies this
      ensures Valid() && released == old(released)
      ensures stack != [] && stack[|stack| - 1] == SavepointEntry(sp)
      ensures old(stack) != [] && old(stack)[|old(stack)| - 1].SavepointEntry? ==>
        sp == old(stack)[|old(stack)| - 1].savepoint && stack == old(stack) && lastId == old(lastId)
      ensures !(old(stack) != [] && old(stack)[|old(stack)| - 1].SavepointEntry?) ==>
        && fresh(sp) && sp.id == old(lastId)
        && stack == old(stack) + [SavepointEntry(sp)] && lastId == old(lastId) + 1
    {
      if stack != [] {
        var last := stack[|stack| - 1];
        if last.SavepointEntry? {
          return last.savepoint;
        }
      }
      var id := lastId;
      lastId := lastId + 1;
      sp := new Savepoint(id);
      PushSavepointKeepsWellFormed(stack, id, sp);
      stack := stack + [SavepointEntry(sp)];
    }

    /**
     * `rollbackToSavepoint(h)`: a bad handle is rejected before anything is
     * popped; otherwise the stack is unwound down to the savepoint.
     */
    method RollbackToSavepoint(h: Handle) returns (thrown: Option<Failure>)
      requires Valid()
      modifies this
      ensures Valid() && lastId == old(lastId)
      ensures RollbackRejection(old(stack), h).Some? ==>
        thrown == RollbackRejection(old(stack), h) && stack == old(stack) && released == old(released)
      ensures RollbackRejection(old(stack), h).None? ==>
        var cut := UnwindCut(old(stack), h.savepoint);
        && stack == old(stack)[..cut]
        && released == old(released) + ReleaseOrder(old(stack)[cut..])
        && thrown == AggregateFailure(RollbackMessage, ReleaseOrder(old(stack)[cut..]))
    {
      if h.NullHandle? {
        return Some(NullPointer);
      } else if h.OtherObject? {
        return Some(IllegalArgument("Invalid savepoint"));
      } else if !Registered(stack, h.savepoint) {
        return Some(IllegalArgument("Savepoint not registered"));
      }
      ghost var s0 := stack;
      thrown := UnwindTo(h.savepoint);
      PrefixKeepsWellFormed(s0, lastId, |stack|);
    }

    /**
     * The unwinding loop of `rollbackToSavepoint`: entries are popped from
     * the top until the entry that IS `sp` has been popped (or the stack is
     * empty); each popped disposer is run, and the faults are thrown
     * together afterwards.
     */
    method UnwindTo(sp: Savepoint) returns (thrown: Option<Failure>)
      modifies this
      ensures lastId == old(lastId)
      ensures stack == old(stack)[..UnwindCut(old(stack), sp)]
      ensures released == old(released) + ReleaseOrder(old(stack)[UnwindCut(old(stack), sp)..])
      ensures thrown == AggregateFailure(RollbackMessage, ReleaseOrder(old(stack)[UnwindCut(old(stack), sp)..]))
    {
      ghost var s0 := stack;
      ghost var found := false;
      assert s0[|stack|..] == [];
      var rollbackError: Option<Failure> := None;
      while stack != []
        invariant |stack| <= |s0| && stack == s0[..|stack|] && lastId == old(lastId)
        invariant !found
        invariant SavepointEntry(sp) !in s0[|stack|..]
        invariant released == old(released) + ReleaseOrder(s0[|stack|..])
        invariant rollbackError == Accumulated(RollbackMessage, ReleaseOrder(s0[|stack|..]))
      {
        var last := stack[|stack| - 1];
        PopStep(s0, |stack|, RollbackMessage);
        PopTowards(s0, |stack|, sp);
        assert s0[..|stack|][..|stack| - 1] == s0[..|stack| - 1];
        stack := stack[..|stack| - 1];
        if last == SavepointEntry(sp) {
          found := true;
          break;
        } else if last.Disposer? {
          released := released + [last];
          rollbackError := Collect(rollbackError, RollbackMessage, last);
        }
      }
      if !found {
        assert s0[0..] == s0;
        UnwindCutAbsent(s0, sp);
      }
      AccumulatedIsAggregate(RollbackMessage, ReleaseOrder(s0[|stack|..]));
      thrown := rollbackError;
    }

    /**
     * `close()`: pops every entry, runs every disposer (savepoints are
     * discarded) and then throws one exception carrying all the faults.
     * The stack is empty afterwards even when cleanups failed.
     */
    method Close() returns (thrown: Option<Failure>)
      modifies this
      ensures Valid() && lastId == old(lastId)
      ensures stack == []
      ensures released == old(released) + ReleaseOrder(old(stack))
      ensures thrown == AggregateFailure(CloseMessage, ReleaseOrder(old(stack)))
    {
      ghost var s0 := stack;
      var closeError: Option<Failure> := None;
      while stack != []
        invariant |stack| <= |s0| && stack == s0[..|stack|] && lastId == old(lastId)
        invariant released == old(released) + ReleaseOrder(s0[|stack|..])
        invariant closeError == Accumulated(CloseMessage, ReleaseOrder(s0[|stack|..]))
      {
        var last := stack[|stack| - 1];
        PopStep(s0, |stack|, CloseMessage);
        assert s0[..|stack|][..|stack| - 1] == s0[..|stack| - 1];
        stack := stack[..|stack| - 1];
        if last.Disposer? {
          released := released + [last];
          closeError := Collect(closeError, CloseMessage, last);
        }
      }
      assert s0[0..] == s0;
      AccumulatedIsAggregate(CloseMessage, ReleaseOrder(s0));
      thrown := closeError;
    }
  }
}
