/** The emitter test cases as client code of TestEmitter: each method runs
    the same calls as its test case and returns, in order, what each of the
    case's assertions observes; its postcondition is the expected outcome. */
module EmitterTests {
  import opened EmitterState
  import opened Dispatching
  import opened Emitters

  /** `empty()`/`empty<K>()` around `on`, `clear<K>()` and `clear()`. */
  method EmptyAndClear() returns (observed: seq<bool>)
    ensures observed == [true, false, false, true, false, false, true, true, true, true,
                         false, false, false, true, true, true]
  {
    var emitter := new TestEmitter();
    var all0 := emitter.IsEmpty();
    assert all0;

    var _ := emitter.On(Error, Noop);
    var all1 := emitter.IsEmpty();
    var error1 := emitter.IsEmptyOf(Error);
    var fake1 := emitter.IsEmptyOf(Fake);
    assert !all1 && !error1 && fake1;

    emitter.ClearEvent(Fake);
    var all2 := emitter.IsEmpty();
    var error2 := emitter.IsEmptyOf(Error);
    var fake2 := emitter.IsEmptyOf(Fake);
    assert !all2 && !error2 && fake2;

    emitter.ClearEvent(Error);
    var all3 := emitter.IsEmpty();
    var error3 := emitter.IsEmptyOf(Error);
    var fake3 := emitter.IsEmptyOf(Fake);
    assert all3 && error3 && fake3;

    var _ := emitter.On(Error, Noop);
    var _ := emitter.On(Fake, Noop);
    var all4 := emitter.IsEmpty();
    var error4 := emitter.IsEmptyOf(Error);
    var fake4 := emitter.IsEmptyOf(Fake);
    assert !all4 && !error4 && !fake4;

    emitter.Clear();
    var all5 := emitter.IsEmpty();
    var error5 := emitter.IsEmptyOf(Error);
    var fake5 := emitter.IsEmptyOf(Fake);
    assert all5 && error5 && fake5;

    observed := [all0, all1, error1, fake1, all2, error2, fake2, all3, error3, fake3,
                 all4, error4, fake4, all5, error5, fake5];
  }

  /** An `on` listener is still registered after an emit. */
  method OnCase() returns (observed: seq<bool>)
    ensures observed == [false, false, false, false]
  {
    var emitter := new TestEmitter();
    var _ := emitter.On(Fake, Noop);
    var all1 := emitter.IsEmpty();
    var fake1 := emitter.IsEmptyOf(Fake);

    OnSurvivesPublish(New(), Fake);
    var _ := emitter.Emit();
    var all2 := emitter.IsEmpty();
    var fake2 := emitter.IsEmptyOf(Fake);

    observed := [all1, fake1, all2, fake2];
  }

  /** A `once` listener is gone after an emit. */
  method OnceCase() returns (observed: seq<bool>)
    ensures observed == [false, false, true, true]
  {
    var emitter := new TestEmitter();
    var _ := emitter.Once(Fake, Noop);
    var all1 := emitter.IsEmpty();
    var fake1 := emitter.IsEmptyOf(Fake);

    OnceGoneAfterPublish(New(), Fake);
    var _ := emitter.Emit();
    var all2 := emitter.IsEmpty();
    var fake2 := emitter.IsEmptyOf(Fake);

    observed := [all1, fake1, all2, fake2];
  }

  /** Erasing the connection `once` returned empties the emitter. */
  method OnceAndEraseCase() returns (observed: seq<bool>)
    ensures observed == [false, false, true, true]
  {
    var emitter := new TestEmitter();
    var conn := emitter.Once(Fake, Noop);
    var all1 := emitter.IsEmpty();
    var fake1 := emitter.IsEmptyOf(Fake);

    EraseUndoesRegister(New(), Fake, true, Noop);
    emitter.Erase(conn);
    var all2 := emitter.IsEmpty();
    var fake2 := emitter.IsEmptyOf(Fake);

    observed := [all1, fake1, all2, fake2];
  }

  /** Erasing the connection `on` returned empties the emitter. */
  method OnAndEraseCase() returns (observed: seq<bool>)
    ensures observed == [false, false, true, true]
  {
    var emitter := new TestEmitter();
    var conn := emitter.On(Fake, Noop);
    var all1 := emitter.IsEmpty();
    var fake1 := emitter.IsEmptyOf(Fake);

    EraseUndoesRegister(New(), Fake, false, Noop);
    emitter.Erase(conn);
    var all2 := emitter.IsEmpty();
    var fake2 := emitter.IsEmptyOf(Fake);

    observed := [all1, fake1, all2, fake2];
  }

  /** `clear()` called by a listener during the emit: register-then-clear
      leaves the emitter empty; clear-then-register leaves the new listener.
      `calls` lists, per emit, the tokens of the listeners invoked: each
      listener runs once, and the one a callback registers is not invoked by
      the pass that registered it. */
  method CallbackClearCase() returns (observed: seq<bool>, calls: seq<seq<nat>>)
    ensures observed == [false, false, true, true, false, false, false, false]
    ensures calls == [[0], [2]]
  {
    var emitter := new TestEmitter();
    var _ := emitter.On(Fake, RegisterThenClear(Fake));
    var all1 := emitter.IsEmpty();
    var fake1 := emitter.IsEmptyOf(Fake);

    PublishRegisterThenClear(emitter.State(), Fake);
    var called1 := emitter.Emit();
    assert called1 == [0] && emitter.next == 2;
    var all2 := emitter.IsEmpty();
    var fake2 := emitter.IsEmptyOf(Fake);

    var _ := emitter.On(Fake, ClearThenRegister(Fake));
    assert Entries(emitter.State(), Fake)[0].id == 2;
    var all3 := emitter.IsEmpty();
    var fake3 := emitter.IsEmptyOf(Fake);

    PublishClearThenRegister(emitter.State(), Fake);
    var called2 := emitter.Emit();
    assert called2 == [2];
    assert Entries(emitter.State(), Fake)[0] in Entries(emitter.State(), Fake);
    var all4 := emitter.IsEmpty();
    var fake4 := emitter.IsEmptyOf(Fake);

    observed := [all1, fake1, all2, fake2, all3, fake3, all4, fake4];
    calls := [called1, called2];
  }
}
