/** The emitter object: per-kind listener lists held in fields and updated in
    place by `on`, `once`, `erase` and `clear`, and by the callbacks a
    publish invokes while it walks a list. Each method is proved against the
    value-level functions of EmitterState and Dispatching. */
module Emitters {
  import opened EmitterState
  import opened Dispatching

  /** Compaction as the emitter performs it: one walk over the list, keeping
      what Prune keeps. */
  method Sweep(es: seq<Entry>, n: nat) returns (kept: seq<Entry>)
    ensures kept == Prune(es, n)
  {
    kept := [];
    var i := 0;
    while i < |es|
      invariant 0 <= i <= |es|
      invariant kept + Prune(es[i..], n - i) == Prune(es, n)
    {
      assert es[i..][1..] == es[i + 1..];
      if !es[i].erased && !(es[i].once && i < n) {
        kept := kept + [es[i]];
      }
      i := i + 1;
    }
    assert es[i..] == [];
  }

  class TestEmitter {
    var lists: map<Kind, seq<Entry>>
    var next: nat
    var publishing: set<Kind>

    /** The emitter's fields as one value. */
    function State(): Registry
      reads this
    {
      Registry(lists, next, publishing)
    }

    ghost predicate Valid()
      reads this
    {
      WellFormed(State())
    }

    constructor ()
      ensures Valid() && State() == New()
    {
      lists := map[];
      next := 0;
      publishing := {};
    }

    /** Appends a live entry with the next id to the list of `k`. */
    method Add(k: Kind, once: bool, l: Listener) returns (c: Connection)
      requires Valid()
      modifies this
      ensures Valid() && State() == Register(old(State()), k, once, l)
      ensures c == Connection(k, old(next))
    {
      c := Connection(k, next);
      var es := if k in lists then lists[k] else [];
      lists := lists[k := es + [Entry(next, once, false, l)]];
      next := next + 1;
      assert State() == Register(old(State()), k, once, l);
      RegisterWellFormed(old(State()), k, once, l);
    }

    /** `on<K>(listener)`. */
    method On(k: Kind, l: Listener) returns (c: Connection)
      requires Valid()
      modifies this
      ensures Valid() && State() == Register(old(State()), k, false, l)
      ensures c == Connection(k, old(next))
    {
      c := Add(k, false, l);
    }

    /** `once<K>(listener)`. */
    method Once(k: Kind, l: Listener) returns (c: Connection)
      requires Valid()
      modifies this
      ensures Valid() && State() == Register(old(State()), k, true, l)
      ensures c == Connection(k, old(next))
    {
      c := Add(k, true, l);
    }

    /** `erase(conn)`: tombstone, and compact unless the kind is being
      dispatched. */
    method Erase(c: Connection)
      requires Valid()
      modifies this
      ensures Valid() && State() == EraseConn(old(State()), c)
    {
      var k := c.kind;
      var ms := Mark(if k in lists then lists[k] else [], c.id);
      if k in publishing {
        lists := lists[k := ms];
      } else {
        var kept := Sweep(ms, 0);
        lists := lists[k := kept];
      }
      assert State() == EraseConn(old(State()), c);
      EraseWellFormed(old(State()), c);
    }

    /** `clear<K>()`. */
    method ClearEvent(k: Kind)
      requires Valid()
      modifies this
      ensures Valid() && State() == ClearKind(old(State()), k)
    {
      if k in publishing {
        lists := lists[k := Tombstone(if k in lists then lists[k] else [])];
      } else {
        lists := lists[k := []];
      }
      assert State() == ClearKind(old(State()), k);
      ClearKindWellFormed(old(State()), k);
    }

    /** `clear()`. */
    method Clear()
      requires Valid()
      modifies this
      ensures Valid() && State() == ClearAll(old(State()))
    {
      lists := map j | j in lists :: if j in publishing then Tombstone(lists[j]) else [];
      assert State() == ClearAll(old(State()));
      ClearAllWellFormed(old(State()));
    }

    /** `empty<K>()`: walks the list until it meets a live entry. */
    method IsEmptyOf(k: Kind) returns (b: bool)
      ensures b == EmptyOf(State(), k)
    {
      var es := if k in lists then lists[k] else [];
      b := true;
      var i := 0;
      while b && i < |es|
        invariant 0 <= i <= |es|
        invariant b <==> forall p :: 0 <= p < i ==> es[p].erased
        invariant !b ==> 0 < i && !es[i - 1].erased
      {
        if !es[i].erased {
          b := false;
        }
        i := i + 1;
      }
      if !b {
        assert es[i - 1] in es;
      }
    }

    /** `empty()`: every kind is empty. */
    method IsEmpty() returns (b: bool)
      ensures b == Empty(State())
    {
      var errorEmpty := IsEmptyOf(Error);
      var fakeEmpty := IsEmptyOf(Fake);
      b := errorEmpty && fakeEmpty;
    }

    /** Performs a callback's steps on this emitter, in order. */
    method RunScript(steps: seq<Step>)
      requires Valid()
      modifies this
      ensures Valid() && State() == Run(old(State()), steps)
    {
      var j := 0;
      while j < |steps|
        invariant 0 <= j <= |steps| && Valid()
        invariant Run(State(), steps[j..]) == Run(old(State()), steps)
      {
        assert steps[j..][0] == steps[j] && steps[j..][1..] == steps[j + 1..];
        match steps[j] {
          case CallOn(k, l) =>
            var _ := On(k, l);
          case CallOnce(k, l) =>
            var _ := Once(k, l);
          case CallErase(c) =>
            Erase(c);
          case CallClear(k) =>
            ClearEvent(k);
          case CallClearAll =>
            Clear();
        }
        j := j + 1;
      }
      assert steps[j..] == [];
    }

    /** `publish<K>`: invokes, in order, every entry present when the pass
      began that is still live when the cursor reaches it; returns the ids
      of the listeners it invoked. */
    method Publish(k: Kind) returns (called: seq<nat>)
      requires Valid() && k !in publishing
      modifies this
      ensures Valid()
      ensures State() == Dispatching.Publish(old(State()), k).reg
      ensures called == Dispatching.Publish(old(State()), k).called
    {
      ghost var r := State();
      ghost var snap := Entries(r, k);
      var n := |if k in lists then lists[k] else []|;
      publishing := publishing + {k};
      ghost var r0 := State();
      assert forall j :: Entries(r0, j) == Entries(r, j);
      called := [];
      var i := 0;
      while i < n
        invariant 0 <= i <= n && n == |snap|
        invariant Valid() && k in publishing && r.next <= next
        invariant Grows(snap, Entries(State(), k), r.next)
        invariant Visit(State(), k, i, n, called) == Visit(r0, k, 0, n, [])
      {
        var es := lists[k];
        if !es[i].erased {
          called := called + [es[i].id];
          ghost var before := State();
          RunScript(es[i].listener.steps);
          RunGrows(before, es[i].listener.steps, k, snap, r.next);
        }
        i := i + 1;
      }
      var kept := Sweep(if k in lists then lists[k] else [], n);
      lists := lists[k := kept];
      publishing := publishing - {k};
      FinishFacts(Visit(r0, k, 0, n, []).reg, k, n, snap, r.next);
    }

    /** `emit()`: the test emitter publishes its fake event. */
    method Emit() returns (called: seq<nat>)
      requires Valid() && Fake !in publishing
      modifies this
      ensures Valid()
      ensures State() == Dispatching.Publish(old(State()), Fake).reg
      ensures called == Dispatching.Publish(old(State()), Fake).called
    {
      called := Publish(Fake);
    }
  }
}
