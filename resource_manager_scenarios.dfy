/**
 * Client code for `ResourceManager`, verified against its contracts only:
 * usage patterns of the resource manager.
 */
module ResourceManagerScenarios {
  import opened Wrappers
  import opened ResourceStack
  import opened ResourceManagement

  /** The disposer of resource `k`; `fault` is what its cleanup throws. */
  function Resource(k: nat, fault: Option<Fault>): Entry {
    Disposer(Some(k), Cleanup(k, fault))
  }

  lemma ReleaseOrderOfTwo(a: Entry, b: Entry)
    ensures ReleaseOrder([a, b]) == Own(b) + Own(a)
  {
    LastPushedReleasedFirst([a], b);
    LastPushedReleasedFirst([], a);
    assert [a] + [b] == [a, b];
    assert [] + [a] == [a];
  }

  lemma ReleaseOrderOfThree(a: Entry, b: Entry, c: Entry)
    ensures ReleaseOrder([a, b, c]) == Own(c) + Own(b) + Own(a)
  {
    LastPushedReleasedFirst([a, b], c);
    ReleaseOrderOfTwo(a, b);
    assert [a, b] + [c] == [a, b, c];
  }

  /** Resources 1, 2 and 3 acquired in order on a new manager; `fault` is what cleanup 2 throws. */
  method AcquireThree(fault: Option<Fault>) returns (m: ResourceManager)
    ensures fresh(m) && m.Valid() && m.released == []
    ensures m.stack == [Resource(1, None), Resource(2, fault), Resource(3, None)]
  {
    m := new ResourceManager();
    var r := m.GetInstance(Some(Returns(Some(1))), Some(Cleanup(1, None)));
    r := m.GetInstance(Some(Returns(Some(2))), Some(Cleanup(2, fault)));
    r := m.GetInstance(Some(Returns(Some(3))), Some(Cleanup(3, None)));
  }

  /** Closing resources 1, 2, 3 runs their cleanups 3, 2, 1 and throws what cleanup 2 throws, if anything. */
  lemma CloseThree(fault: Option<Fault>)
    ensures ReleaseOrder([Resource(1, None), Resource(2, fault), Resource(3, None)])
            == [Resource(3, None), Resource(2, fault), Resource(1, None)]
    ensures fault.None? ==>
      AggregateFailure(CloseMessage, [Resource(3, None), Resource(2, fault), Resource(1, None)]) == None
    ensures fault.Some? ==>
      AggregateFailure(CloseMessage, [Resource(3, None), Resource(2, fault), Resource(1, None)])
        == Some(Aggregate(CloseMessage, [fault.value]))
  {
    ReleaseOrderOfThree(Resource(1, None), Resource(2, fault), Resource(3, None));
    var run := [Resource(3, None), Resource(2, fault), Resource(1, None)];
    var rest := run[1..][1..];
    assert rest == [Resource(1, None)] && rest[1..] == [];
    assert Faults(rest) == [];
    assert Faults(run) == Faults(run[1..]);
    if fault.Some? {
      assert Faults(run[1..]) == [fault.value] + Faults(rest);
      assert Faults(run) == [fault.value];
    } else {
      assert Faults(run[1..]) == Faults(rest);
    }
  }

  /** Three resources acquired in order are closed in reverse order, and close throws nothing. */
  method CloseInReverseOrder() returns (m: ResourceManager, thrown: Option<Failure>)
    ensures m.stack == [] && thrown == None
    ensures m.released == [Resource(3, None), Resource(2, None), Resource(1, None)]
  {
    m := AcquireThree(None);
    CloseThree(None);
    thrown := m.Close();
  }

  /**
   * The second of three cleanups throws: all three still run, in reverse
   * order, and close throws one exception whose only suppressed exception is
   * that fault. Closing again runs nothing and throws nothing.
   */
  method CloseDespiteFailure() returns (m: ResourceManager, first: Option<Failure>, second: Option<Failure>)
    ensures m.stack == []
    ensures first == Some(Aggregate(CloseMessage, [Checked(2)]))
    ensures second == None
    ensures m.released == [Resource(3, None), Resource(2, Some(Checked(2))), Resource(1, None)]
  {
    m := AcquireThree(Some(Checked(2)));
    CloseThree(Some(Checked(2)));
    first := m.Close();
    second := m.Close();
  }

  /** Registrations r1, r2, savepoint S, r3, r4 on a new manager. */
  method NestedScope() returns (m: ResourceManager, sp: Savepoint)
    ensures fresh(m) && m.Valid() && m.released == []
    ensures m.stack == [Resource(1, None), Resource(2, None), SavepointEntry(sp), Resource(3, None), Resource(4, None)]
  {
    m := new ResourceManager();
    var e := m.AddCleanup(Some(1), Some(Cleanup(1, None)));
    e := m.AddCleanup(Some(2), Some(Cleanup(2, None)));
    sp := m.CreateSavepoint();
    e := m.AddCleanup(Some(3), Some(Cleanup(3, None)));
    e := m.AddCleanup(Some(4), Some(Cleanup(4, None)));
  }

  /** In the nested scope, rolling back to S runs r4 then r3 and keeps r1 and r2. */
  method RollBackNested(m: ResourceManager, sp: Savepoint) returns (thrown: Option<Failure>)
    requires m.Valid() && m.released == []
    requires m.stack == [Resource(1, None), Resource(2, None), SavepointEntry(sp), Resource(3, None), Resource(4, None)]
    modifies m
    ensures m.Valid() && thrown == None
    ensures m.stack == [Resource(1, None), Resource(2, None)]
    ensures m.released == [Resource(4, None), Resource(3, None)]
    ensures RollbackRejection(m.stack, SavepointHandle(sp)) == Some(IllegalArgument("Savepoint not registered"))
  {
    ghost var s := m.stack;
    RollbackToOwnSavepoint(s, m.lastId, 2);
    ConsumedSavepointIsRejected(s, m.lastId, 2);
    assert s[3..] == [Resource(3, None), Resource(4, None)];
    assert s[..2] == [Resource(1, None), Resource(2, None)];
    ReleaseOrderOfTwo(Resource(3, None), Resource(4, None));
    thrown := m.RollbackToSavepoint(SavepointHandle(sp));
  }

  /**
   * In the nested scope, rolling back to S runs r4 then r3; S is then
   * consumed, so a second rollback to it is rejected; closing runs r2 then r1.
   */
  method ScopedRollback() returns (m: ResourceManager, rollback: Option<Failure>,
                                   again: Option<Failure>, close: Option<Failure>)
    ensures rollback == None && close == None
    ensures again == Some(IllegalArgument("Savepoint not registered"))
    ensures m.stack == []
    ensures m.released == [Resource(4, None), Resource(3, None), Resource(2, None), Resource(1, None)]
  {
    var sp;
    m, sp := NestedScope();
    rollback := RollBackNested(m, sp);
    again := m.RollbackToSavepoint(SavepointHandle(sp));
    ReleaseOrderOfTwo(Resource(1, None), Resource(2, None));
    close := m.Close();
  }

  /** Two savepoints requested in a row are one savepoint: the stack grows by at most one entry. */
  method CollapsedSavepoints(m: ResourceManager) returns (first: Savepoint, second: Savepoint)
    requires m.Valid()
    modifies m
    ensures m.Valid() && first == second
    ensures m.stack != [] && m.stack[|m.stack| - 1] == SavepointEntry(first)
    ensures |old(m.stack)| <= |m.stack| <= |old(m.stack)| + 1 && m.stack[..|old(m.stack)|] == old(m.stack)
  {
    first := m.CreateSavepoint();
    second := m.CreateSavepoint();
  }

  /** Cleanup 0, savepoint S (the manager's first, id 0), cleanup 1 on a new manager. */
  method GuardedPair() returns (a: ResourceManager, own: Savepoint)
    ensures fresh(a) && a.Valid() && a.released == [] && own.id == 0
    ensures a.stack == [Resource(0, None), SavepointEntry(own), Resource(1, None)]
  {
    a := new ResourceManager();
    var e := a.AddCleanup(Some(0), Some(Cleanup(0, None)));
    own := a.CreateSavepoint();
    e := a.AddCleanup(Some(1), Some(Cleanup(1, None)));
  }

  /**
   * A savepoint of another manager with the same id passes validation but
   * never stops the loop: rolling back to it drains the whole stack and runs
   * the cleanup registered below this manager's own savepoint as well.
   */
  method ForeignSavepointDrains() returns (a: ResourceManager, thrown: Option<Failure>)
    ensures thrown == None && a.stack == []
    ensures a.released == [Resource(1, None), Resource(0, None)]
  {
    var own;
    a, own := GuardedPair();
    var b := new ResourceManager();
    var foreign := b.CreateSavepoint();
    ghost var s := a.stack;
    assert s[1].savepoint.id == foreign.id;
    assert foreign != own;
    ForeignSavepointDrainsStack(s, foreign);
    ReleaseOrderOfThree(Resource(0, None), SavepointEntry(own), Resource(1, None));
    thrown := a.RollbackToSavepoint(SavepointHandle(foreign));
  }
}
