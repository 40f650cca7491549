/** `publish<K>`: one dispatch pass over the listeners of a kind, as a
    function of the emitter state, and what it guarantees. Listener callbacks
    act on the emitter through the steps of their script, and the pass reads
    the live list again before each listener. */
module Dispatching {
  import opened EmitterState

  /** Performs one step of a callback on the emitter it was handed. */
  function Apply(r: Registry, s: Step): (r': Registry)
    ensures r'.publishing == r.publishing && r'.next >= r.next
  {
    match s
    case CallOn(k, l) => Register(r, k, false, l)
    case CallOnce(k, l) => Register(r, k, true, l)
    case CallErase(c) => EraseConn(r, c)
    case CallClear(k) => ClearKind(r, k)
    case CallClearAll => ClearAll(r)
  }

  /** Runs a callback's whole script, step after step. */
  function Run(r: Registry, steps: seq<Step>): (r': Registry)
    ensures r'.publishing == r.publishing && r'.next >= r.next
    decreases |steps|
  {
    if steps == [] then r else Run(Apply(r, steps[0]), steps[1..])
  }

  /** The state a pass leaves and the ids of the listeners it invoked, in
      the order it invoked them. */
  datatype Pass = Pass(reg: Registry, called: seq<nat>)

  /** The pass from position `i` up to (not including) `n`, the length of
      the list when the pass began: the entry at `i` is invoked unless it has
      been tombstoned by then. Entries appended during the pass lie at or
      beyond `n` and wait for the next pass. */
  function Visit(r: Registry, k: Kind, i: nat, n: nat, called: seq<nat>): (p: Pass)
    decreases n - i
  {
    if i >= n then Pass(r, called)
    else
      var es := Entries(r, k);
      if i < |es| && !es[i].erased then
        Visit(Run(r, es[i].listener.steps), k, i + 1, n, called + [es[i].id])
      else
        Visit(r, k, i + 1, n, called)
  }

  /** After the pass: compact the list, dropping tombstones and the one-shot
      entries the pass consumed, and leave the publishing state. */
  function Finish(r: Registry, k: Kind, n: nat): (r': Registry)
    ensures forall j :: j != k ==> Entries(r', j) == Entries(r, j)
    ensures forall e <- Entries(r', k) {:trigger e in Entries(r', k)} :: !e.erased
  {
    PruneMembers(Entries(r, k), n);
    r.(lists := r.lists[k := Prune(Entries(r, k), n)], publishing := r.publishing - {k})
  }

  /** `publish<K>` of one event. */
  function Publish(r: Registry, k: Kind): (p: Pass)
    ensures forall e <- Entries(p.reg, k) {:trigger e in Entries(p.reg, k)} :: !e.erased
  {
    var n := |Entries(r, k)|;
    var p := Visit(r.(publishing := r.publishing + {k}), k, 0, n, []);
    Pass(Finish(p.reg, k, n), p.called)
  }

  /** The ids of a list, in order. */
  function Ids(es: seq<Entry>): (ids: seq<nat>)
    ensures |ids| == |es|
    ensures forall j :: 0 <= j < |es| ==> ids[j] == es[j].id
  {
    seq(|es|, j requires 0 <= j < |es| => es[j].id)
  }

  /** Strictly increasing: nothing twice, and in registration order. */
  predicate Increasing(xs: seq<nat>) {
    forall a, b :: 0 <= a < b < |xs| ==> xs[a] < xs[b]
  }

  /** How a list may change while its kind is being dispatched: the entries
      that were there (`snap`) stay in place, possibly tombstoned, and new
      entries are appended with ids at least `base`. */
  predicate Grows(snap: seq<Entry>, es: seq<Entry>, base: nat) {
    && |snap| <= |es|
    && (forall p :: 0 <= p < |snap| ==> es[p] == snap[p] || es[p] == snap[p].(erased := true))
    && (forall p :: |snap| <= p < |es| ==> es[p].id >= base)
  }

  /** No callback step removes or reorders an entry of a kind under dispatch. */
  lemma ApplyGrows(r: Registry, s: Step, k: Kind, snap: seq<Entry>, base: nat)
    requires WellFormed(r) && k in r.publishing && base <= r.next
    requires Grows(snap, Entries(r, k), base)
    ensures WellFormed(Apply(r, s)) && Apply(r, s).publishing == r.publishing
    ensures base <= Apply(r, s).next
    ensures Grows(snap, Entries(Apply(r, s), k), base)
  {
    var es := Entries(r, k);
    match s
    case CallOn(j, l) =>
      RegisterWellFormed(r, j, false, l);
      if j == k { AppendGrows(snap, es, Entry(r.next, false, false, l), base); }
    case CallOnce(j, l) =>
      RegisterWellFormed(r, j, true, l);
      if j == k { AppendGrows(snap, es, Entry(r.next, true, false, l), base); }
    case CallErase(c) =>
      EraseWellFormed(r, c);
      if c.kind == k { MarkGrows(snap, es, c.id, base); }
    case CallClear(j) =>
      ClearKindWellFormed(r, j);
      if j == k { TombstoneGrows(snap, es, base); }
    case CallClearAll =>
      ClearAllWellFormed(r);
      if k in r.lists { TombstoneGrows(snap, es, base); }
  }

  /** Appending, tombstoning one token and tombstoning all keep `Grows`. */
  lemma AppendGrows(snap: seq<Entry>, es: seq<Entry>, x: Entry, base: nat)
    requires Grows(snap, es, base) && x.id >= base
    ensures Grows(snap, es + [x], base)
  {
  }

  lemma MarkGrows(snap: seq<Entry>, es: seq<Entry>, id: nat, base: nat)
    requires Grows(snap, es, base)
    ensures Grows(snap, Mark(es, id), base)
  {
  }

  lemma TombstoneGrows(snap: seq<Entry>, es: seq<Entry>, base: nat)
    requires Grows(snap, es, base)
    ensures Grows(snap, Tombstone(es), base)
  {
  }

  lemma {:induction false} RunGrows(r: Registry, steps: seq<Step>, k: Kind, snap: seq<Entry>, base: nat)
    requires WellFormed(r) && k in r.publishing && base <= r.next
    requires Grows(snap, Entries(r, k), base)
    ensures WellFormed(Run(r, steps)) && Run(r, steps).publishing == r.publishing
    ensures base <= Run(r, steps).next
    ensures Grows(snap, Entries(Run(r, steps), k), base)
    decreases |steps|
  {
    if steps != [] {
      ApplyGrows(r, steps[0], k, snap, base);
      RunGrows(Apply(r, steps[0]), steps[1..], k, snap, base);
    }
  }

  /** Invoking the entry at position `i` keeps the invoked ids increasing
      and below every id still to come. */
  lemma ExtendCalled(called: seq<nat>, snap: seq<Entry>, i: nat)
    requires i < |snap| && Ascending(snap)
    requires Increasing(called) && (forall x <- called :: x in Ids(snap) && x < snap[i].id)
    ensures var called' := called + [snap[i].id];
      && Increasing(called')
      && (forall x <- called' :: x in Ids(snap))
      && (i + 1 < |snap| ==> forall x <- called' :: x < snap[i + 1].id)
  {
    var called' := called + [snap[i].id];
    forall a, b | 0 <= a < b < |called'| ensures called'[a] < called'[b] {
      if b < |called| {
        assert called'[a] == called[a] && called'[b] == called[b];
      } else {
        assert called'[a] == called[a] && called[a] in called;
      }
    }
    assert Ids(snap)[i] == snap[i].id;
  }

  /** The invariant of a pass: the state stays well formed, and the listeners
      invoked so far are listeners present when the pass began, each at most
      once and in registration order. */
  lemma {:induction false} VisitFacts(r: Registry, k: Kind, i: nat, n: nat, called: seq<nat>, snap: seq<Entry>, base: nat)
    requires WellFormed(r) && k in r.publishing && base <= r.next
    requires n == |snap| && i <= n && Grows(snap, Entries(r, k), base) && Ascending(snap)
    requires Increasing(called) && (forall x <- called :: x in Ids(snap))
    requires i < n ==> forall x <- called :: x < snap[i].id
    ensures var p := Visit(r, k, i, n, called);
      && WellFormed(p.reg) && p.reg.publishing == r.publishing && base <= p.reg.next
      && Grows(snap, Entries(p.reg, k), base)
      && Increasing(p.called) && (forall x <- p.called :: x in Ids(snap))
    decreases n - i
  {
    if i < n {
      var es := Entries(r, k);
      assert i < |es|;
      if !es[i].erased {
        assert es[i] == snap[i];
        var r1 := Run(r, es[i].listener.steps);
        RunGrows(r, es[i].listener.steps, k, snap, base);
        ExtendCalled(called, snap, i);
        assert Visit(r, k, i, n, called) == Visit(r1, k, i + 1, n, called + [snap[i].id]);
        VisitFacts(r1, k, i + 1, n, called + [snap[i].id], snap, base);
      } else {
        assert i + 1 < n ==> snap[i].id < snap[i + 1].id;
        assert Visit(r, k, i, n, called) == Visit(r, k, i + 1, n, called);
        VisitFacts(r, k, i + 1, n, called, snap, base);
      }
    }
  }

  /** Compaction keeps a one-shot entry only if it lies at or beyond `n`. */
  lemma {:induction false} PruneOnce(es: seq<Entry>, n: int, base: nat)
    requires forall p :: 0 <= p < |es| && n <= p ==> es[p].id >= base
    ensures forall e <- Prune(es, n) :: e.once ==> e.id >= base
    decreases |es|
  {
    if es != [] {
      PruneOnce(es[1..], n - 1, base);
    }
  }

  /** Compaction at the end of a pass restores the emitter's invariant and
      leaves no one-shot entry older than the pass. */
  lemma FinishFacts(r: Registry, k: Kind, n: nat, snap: seq<Entry>, base: nat)
    requires WellFormed(r) && k in r.publishing && base <= r.next
    requires n == |snap| && Grows(snap, Entries(r, k), base)
    ensures var f := Finish(r, k, n);
      && WellFormed(f) && f.publishing == r.publishing - {k} && f.next == r.next
      && (forall e <- Entries(f, k) :: e.once ==> e.id >= base)
  {
    var es := Entries(r, k);
    PruneMembers(es, n);
    PruneAscending(es, n);
    PruneOnce(es, n, base);
    var f := Finish(r, k, n);
    assert Entries(f, k) == Prune(es, n);
  }

  /** What every pass guarantees, whatever its callbacks do: the emitter
      stays well formed; the invoked listeners were all registered before the
      pass, none is invoked twice and they run in registration order; and no
      one-shot listener registered before the pass is left afterwards. */
  lemma PublishFacts(r: Registry, k: Kind)
    requires WellFormed(r) && k !in r.publishing
    ensures var p := Publish(r, k);
      && WellFormed(p.reg) && p.reg.publishing == r.publishing && p.reg.next >= r.next
      && Increasing(p.called) && (forall x <- p.called :: x in Ids(Entries(r, k)))
      && (forall e <- Entries(p.reg, k) :: e.once ==> e.id >= r.next)
  {
    var snap := Entries(r, k);
    var r0 := r.(publishing := r.publishing + {k});
    assert forall j :: Entries(r0, j) == Entries(r, j);
    VisitFacts(r0, k, 0, |snap|, [], snap, r.next);
    var p := Visit(r0, k, 0, |snap|, []);
    FinishFacts(p.reg, k, |snap|, snap, r.next);
  }

  /** A pass over entries that are all tombstoned invokes nobody and changes
      nothing. */
  lemma {:induction false} VisitSkips(r: Registry, k: Kind, i: nat, n: nat, called: seq<nat>)
    requires forall p :: i <= p < n && p < |Entries(r, k)| ==> Entries(r, k)[p].erased
    ensures Visit(r, k, i, n, called) == Pass(r, called)
    decreases n - i
  {
    if i < n {
      VisitSkips(r, k, i + 1, n, called);
    }
  }

  /** The ids a pass has invoked so far stay at the head of its record. */
  lemma {:induction false} VisitPrefix(r: Registry, k: Kind, i: nat, n: nat, called: seq<nat>)
    ensures |called| <= |Visit(r, k, i, n, called).called|
    ensures Visit(r, k, i, n, called).called[..|called|] == called
    decreases n - i
  {
    if i < n {
      var es := Entries(r, k);
      if i < |es| && !es[i].erased {
        var called' := called + [es[i].id];
        VisitPrefix(Run(r, es[i].listener.steps), k, i + 1, n, called');
        assert called'[..|called|] == called;
      } else {
        VisitPrefix(r, k, i + 1, n, called);
      }
    }
  }

  /** One step of a pass at a live entry: its callback runs and its id is
      recorded next. */
  lemma VisitLive(r: Registry, k: Kind, i: nat, n: nat, called: seq<nat>)
    requires i < n && i < |Entries(r, k)| && !Entries(r, k)[i].erased
    ensures Visit(r, k, i, n, called)
      == Visit(Run(r, Entries(r, k)[i].listener.steps), k, i + 1, n, called + [Entries(r, k)[i].id])
    ensures |called| < |Visit(r, k, i, n, called).called|
    ensures Visit(r, k, i, n, called).called[|called|] == Entries(r, k)[i].id
  {
    var e := Entries(r, k)[i];
    var p := Visit(r, k, i, n, called);
    VisitPrefix(Run(r, e.listener.steps), k, i + 1, n, called + [e.id]);
    assert p.called[|called|] == p.called[..|called| + 1][|called|];
  }

  /** The state after invoking the live entry at `i` during a pass: still
      well formed and under dispatch, its list only grown, and the rest of
      the pass continues from it with that entry's id recorded. */
  lemma VisitLiveNext(r: Registry, k: Kind, i: nat, n: nat, called: seq<nat>, cur: seq<Entry>, base: nat)
    returns (r1: Registry)
    requires WellFormed(r) && k in r.publishing && base <= r.next
    requires Grows(cur, Entries(r, k), base)
    requires i < n && i < |Entries(r, k)| && !Entries(r, k)[i].erased
    ensures WellFormed(r1) && k in r1.publishing && base <= r1.next
    ensures Grows(cur, Entries(r1, k), base)
    ensures Visit(r, k, i, n, called) == Visit(r1, k, i + 1, n, called + [Entries(r, k)[i].id])
    ensures |called| < |Visit(r, k, i, n, called).called|
    ensures Visit(r, k, i, n, called).called[|called|] == Entries(r, k)[i].id
  {
    var es := Entries(r, k);
    r1 := Run(r, es[i].listener.steps);
    RunGrows(r, es[i].listener.steps, k, cur, base);
    VisitLive(r, k, i, n, called);
  }

  /** Whatever the callbacks do, the list of the kind under dispatch only
      gains tombstones and appended entries, relative to any earlier list
      `cur` of the pass. */
  lemma {:induction false} VisitGrows(r: Registry, k: Kind, i: nat, n: nat, called: seq<nat>, cur: seq<Entry>, base: nat)
    requires WellFormed(r) && k in r.publishing && base <= r.next
    requires Grows(cur, Entries(r, k), base)
    ensures var p := Visit(r, k, i, n, called);
      WellFormed(p.reg) && k in p.reg.publishing && Grows(cur, Entries(p.reg, k), base)
    decreases n - i
  {
    if i < n {
      var es := Entries(r, k);
      if i < |es| && !es[i].erased {
        var r1 := VisitLiveNext(r, k, i, n, called, cur, base);
        VisitGrows(r1, k, i + 1, n, called + [es[i].id], cur, base);
        assert Grows(cur, Entries(Visit(r1, k, i + 1, n, called + [es[i].id]).reg, k), base);
      } else {
        assert Visit(r, k, i, n, called) == Visit(r, k, i + 1, n, called);
        VisitGrows(r, k, i + 1, n, called, cur, base);
        assert Grows(cur, Entries(Visit(r, k, i + 1, n, called).reg, k), base);
      }
    } else {
      assert Visit(r, k, i, n, called) == Pass(r, called);
    }
  }

  /** Position `q` of the kind's list holds a live entry. */
  predicate LiveAt(r: Registry, k: Kind, q: nat) {
    q < |Entries(r, k)| && !Entries(r, k)[q].erased
  }

  /** A pass misses nobody: every entry the pass had to visit that is still
      live when the pass ends was invoked. */
  lemma {:induction false} VisitInvokesLive(r: Registry, k: Kind, i: nat, n: nat, called: seq<nat>, snap: seq<Entry>, base: nat)
    requires WellFormed(r) && k in r.publishing && base <= r.next
    requires n == |snap| && i <= n && Grows(snap, Entries(r, k), base)
    ensures forall q :: i <= q < n && LiveAt(Visit(r, k, i, n, called).reg, k, q) ==>
      snap[q].id in Visit(r, k, i, n, called).called
    decreases n - i, 1
  {
    if i < n {
      var es := Entries(r, k);
      if !es[i].erased {
        InvokesLiveAfterLive(r, k, i, n, called, snap, base);
      } else {
        var p1 := Visit(r, k, i + 1, n, called);
        assert Visit(r, k, i, n, called) == p1;
        VisitInvokesLive(r, k, i + 1, n, called, snap, base);
        VisitGrows(r, k, i + 1, n, called, es, base);
        assert !LiveAt(p1.reg, k, i);
      }
    }
  }

  /** VisitInvokesLive when the entry at `i` is live: it is invoked first,
      and the rest of the pass misses nobody. */
  lemma {:induction false} InvokesLiveAfterLive(r: Registry, k: Kind, i: nat, n: nat, called: seq<nat>, snap: seq<Entry>, base: nat)
    requires WellFormed(r) && k in r.publishing && base <= r.next
    requires n == |snap| && i < n && Grows(snap, Entries(r, k), base)
    requires !Entries(r, k)[i].erased
    ensures forall q :: i <= q < n && LiveAt(Visit(r, k, i, n, called).reg, k, q) ==>
      snap[q].id in Visit(r, k, i, n, called).called
    decreases n - i, 0
  {
    var es := Entries(r, k);
    var r1 := VisitLiveNext(r, k, i, n, called, snap, base);
    var c1 := called + [es[i].id];
    VisitInvokesLive(r1, k, i + 1, n, c1, snap, base);
    var p1 := Visit(r1, k, i + 1, n, c1);
    assert Visit(r, k, i, n, called) == p1;
    assert snap[i].id == es[i].id by {
      assert es[i] == snap[i] || es[i] == snap[i].(erased := true);
    }
    assert snap[i].id in p1.called by {
      assert p1.called[|called|] == es[i].id;
    }
  }

  /** A pass never goes back: every id it records from position `i` on is
      at least the id at `i`, so nothing registered before that position. */
  lemma {:induction false} VisitCalledAbove(r: Registry, k: Kind, i: nat, n: nat, called: seq<nat>)
    requires WellFormed(r) && k in r.publishing
    requires i < n <= |Entries(r, k)|
    ensures forall j :: |called| <= j < |Visit(r, k, i, n, called).called| ==>
      Entries(r, k)[i].id <= Visit(r, k, i, n, called).called[j]
    decreases n - i
  {
    var es := Entries(r, k);
    if !es[i].erased {
      var r1 := VisitLiveNext(r, k, i, n, called, Entries(r, k), r.next);
      if i + 1 < n {
        var p := Visit(r, k, i, n, called);
        var p1 := Visit(r1, k, i + 1, n, called + [es[i].id]);
        VisitCalledAbove(r1, k, i + 1, n, called + [es[i].id]);
        assert es[i].id < es[i + 1].id == Entries(r1, k)[i + 1].id;
        forall j | |called| <= j < |p.called| ensures es[i].id <= p.called[j] {
          if j > |called| {
            assert p.called[j] == p1.called[j];
          }
        }
      }
    } else if i + 1 < n {
      VisitCalledAbove(r, k, i + 1, n, called);
    }
  }

  /** An entry tombstoned before the pass reaches it, by `erase` or `clear`
      in an earlier listener of the same pass, is never invoked. */
  lemma {:induction false} VisitNeverCalls(r: Registry, k: Kind, i: nat, n: nat, called: seq<nat>, q: nat)
    requires WellFormed(r) && k in r.publishing
    requires i <= q < n <= |Entries(r, k)| && Entries(r, k)[q].erased
    ensures forall j :: |called| <= j < |Visit(r, k, i, n, called).called| ==>
      Visit(r, k, i, n, called).called[j] != Entries(r, k)[q].id
    decreases n - i, 1
  {
    var es := Entries(r, k);
    if !es[i].erased {
      NeverCallsAfterLive(r, k, i, n, called, q);
    } else if i < q {
      assert Visit(r, k, i, n, called) == Visit(r, k, i + 1, n, called);
      VisitNeverCalls(r, k, i + 1, n, called, q);
    } else if i + 1 < n {
      VisitCalledAbove(r, k, i + 1, n, called);
    }
  }

  /** A tombstone of an earlier list of the pass is still there, unchanged. */
  lemma GrowsKeepsErased(snap: seq<Entry>, es: seq<Entry>, base: nat, q: nat)
    requires Grows(snap, es, base) && q < |snap| && snap[q].erased
    ensures q < |es| && es[q] == snap[q]
  {
    assert snap[q].(erased := true) == snap[q];
  }

  /** VisitNeverCalls when the entry at `i` is live: it is invoked, it lies
      before `q` and so has a smaller id, and the rest of the pass runs on
      a list where `q` is still tombstoned. */
  lemma {:induction false} NeverCallsAfterLive(r: Registry, k: Kind, i: nat, n: nat, called: seq<nat>, q: nat)
    requires WellFormed(r) && k in r.publishing
    requires i <= q < n <= |Entries(r, k)| && Entries(r, k)[q].erased && !Entries(r, k)[i].erased
    ensures forall j :: |called| <= j < |Visit(r, k, i, n, called).called| ==>
      Visit(r, k, i, n, called).called[j] != Entries(r, k)[q].id
    decreases n - i, 0
  {
    var es := Entries(r, k);
    var r1 := VisitLiveNext(r, k, i, n, called, es, r.next);
    GrowsKeepsErased(es, Entries(r1, k), r.next, q);
    assert es[i].id < es[q].id;
    var c1 := called + [es[i].id];
    VisitNeverCalls(r1, k, i + 1, n, c1, q);
    var p1 := Visit(r1, k, i + 1, n, c1);
    forall j | |called| <= j < |p1.called| ensures p1.called[j] != es[q].id {
      if j == |called| {
        assert p1.called[j] == es[i].id;
      }
    }
  }

  /** The two halves of `publish<K>` together: every listener present when
      the pass began and still live when it ends was invoked, and if it is
      persistent it is still registered afterwards. */
  lemma PublishInvokesLive(r: Registry, k: Kind)
    requires WellFormed(r) && k !in r.publishing
    ensures forall q ::
      && 0 <= q < |Entries(r, k)|
      && LiveAt(Visit(r.(publishing := r.publishing + {k}), k, 0, |Entries(r, k)|, []).reg, k, q)
      ==>
      && Entries(r, k)[q].id in Publish(r, k).called
      && (!Entries(r, k)[q].once ==> Entries(r, k)[q] in Entries(Publish(r, k).reg, k))
  {
    var snap := Entries(r, k);
    var n := |snap|;
    var r0 := r.(publishing := r.publishing + {k});
    var v := Visit(r0, k, 0, n, []);
    var f := Finish(v.reg, k, n);
    assert Publish(r, k) == Pass(f, v.called);
    StartWellFormed(r, k);
    assert Grows(snap, Entries(v.reg, k), r.next) by {
      VisitGrows(r0, k, 0, n, [], snap, r.next);
    }
    assert forall q :: 0 <= q < n && LiveAt(v.reg, k, q) ==> snap[q].id in v.called by {
      VisitInvokesLive(r0, k, 0, n, [], snap, r.next);
    }
    var vs := Entries(v.reg, k);
    forall q | 0 <= q < n && LiveAt(v.reg, k, q) && !snap[q].once
      ensures snap[q] in Entries(f, k)
    {
      assert vs[q] == snap[q] && !vs[q].erased;
      PruneKeepsLive(vs, n, q);
    }
  }

  /** A pass over live listeners that do nothing to the emitter invokes each
      of them, in order, and changes nothing. */
  lemma {:induction false} VisitNoop(r: Registry, k: Kind, i: nat, n: nat, called: seq<nat>)
    requires i <= n <= |Entries(r, k)|
    requires forall p :: i <= p < n ==> Entries(r, k)[p].listener == Noop && !Entries(r, k)[p].erased
    ensures Visit(r, k, i, n, called) == Pass(r, called + Ids(Entries(r, k)[i..n]))
    decreases n - i
  {
    var es := Entries(r, k);
    if i < n {
      VisitNoop(r, k, i + 1, n, called + [es[i].id]);
      assert [es[i].id] + Ids(es[i + 1..n]) == Ids(es[i..n]);
    } else {
      assert Ids(es[i..n]) == [];
    }
  }

  /** The persistent (`on`) entries of a list, in order. */
  function Persistent(es: seq<Entry>): seq<Entry>
    decreases |es|
  {
    if es == [] then [] else (if es[0].once then [] else [es[0]]) + Persistent(es[1..])
  }

  /** An entry is persistent exactly when it is in the list and not one-shot. */
  lemma {:induction false} PersistentMembers(es: seq<Entry>)
    ensures forall e :: e in Persistent(es) <==> e in es && !e.once
    decreases |es|
  {
    if es != [] {
      PersistentMembers(es[1..]);
      assert forall e :: e in es <==> e == es[0] || e in es[1..];
    }
  }

  /** A list of one-shot entries has no persistent part. */
  lemma {:induction false} PersistentOfOnce(es: seq<Entry>)
    requires forall e <- es :: e.once
    ensures Persistent(es) == []
    decreases |es|
  {
    if es != [] {
      PersistentOfOnce(es[1..]);
    }
  }

  /** With every tombstone gone and every entry consumed, compaction keeps
      exactly the persistent entries, in order. */
  lemma {:induction false} PruneKeepsPersistent(es: seq<Entry>, n: int)
    requires forall e <- es :: !e.erased
    requires n >= |es|
    ensures Prune(es, n) == Persistent(es)
    decreases |es|
  {
    if es != [] {
      PruneKeepsPersistent(es[1..], n - 1);
    }
  }

  /** Dispatch to listeners that do nothing: every listener of the kind is
      invoked once, in registration order; the persistent ones stay and the
      one-shot ones are gone; every other kind is untouched. With no
      listeners at all, publishing is a no-op. */
  lemma PublishNoop(r: Registry, k: Kind)
    requires WellFormed(r) && k !in r.publishing
    requires forall e <- Entries(r, k) :: e.listener == Noop
    ensures var p := Publish(r, k);
      && p.called == Ids(Entries(r, k))
      && Entries(p.reg, k) == Persistent(Entries(r, k))
      && (forall j :: j != k ==> Entries(p.reg, j) == Entries(r, j))
      && p.reg.next == r.next && p.reg.publishing == r.publishing
  {
    var snap := Entries(r, k);
    var n := |snap|;
    var r0 := r.(publishing := r.publishing + {k});
    var f := Finish(r0, k, n);
    assert Publish(r, k) == Pass(f, Ids(snap)) by {
      assert Entries(r0, k) == snap;
      forall p | 0 <= p < n ensures snap[p].listener == Noop && !snap[p].erased {
        assert snap[p] in snap;
      }
      VisitNoop(r0, k, 0, n, []);
      assert snap[0..n] == snap;
    }
    assert Entries(f, k) == Persistent(snap) by {
      PruneKeepsPersistent(snap, n);
    }
    assert forall j :: j != k ==> Entries(f, j) == Entries(r0, j);
  }

  /** The test's `on` case, for any state: a listener registered with `on`
      is still there after an emit of its kind. */
  lemma OnSurvivesPublish(r: Registry, k: Kind)
    requires WellFormed(r) && k !in r.publishing
    requires forall e <- Entries(r, k) :: e.listener == Noop
    ensures !EmptyOf(Publish(Register(r, k, false, Noop), k).reg, k)
    ensures !Empty(Publish(Register(r, k, false, Noop), k).reg)
  {
    var r1 := Register(r, k, false, Noop);
    RegisterWellFormed(r, k, false, Noop);
    PublishNoop(r1, k);
    PersistentMembers(Entries(r1, k));
    assert Entry(r.next, false, false, Noop) in Entries(Publish(r1, k).reg, k);
  }

  /** The test's `once` case, for any state whose listeners of the kind are
      all one-shot: after an emit none is left. */
  lemma OnceGoneAfterPublish(r: Registry, k: Kind)
    requires WellFormed(r) && k !in r.publishing
    requires forall e <- Entries(r, k) :: e.listener == Noop && e.once
    ensures Entries(Publish(Register(r, k, true, Noop), k).reg, k) == []
    ensures forall j :: j != k ==> Entries(Publish(Register(r, k, true, Noop), k).reg, j) == Entries(r, j)
  {
    var r1 := Register(r, k, true, Noop);
    RegisterWellFormed(r, k, true, Noop);
    assert Entries(r1, k) == Entries(r, k) + [Entry(r.next, true, false, Noop)];
    PublishNoop(r1, k);
    PersistentOfOnce(Entries(r1, k));
  }

  /** A two-step script runs its steps in order. */
  lemma RunTwo(r: Registry, a: Step, b: Step)
    ensures Run(r, [a, b]) == Apply(Apply(r, a), b)
  {
    assert [a, b][1..] == [b];
    assert [b][1..] == [];
    assert Run(r, [a, b]) == Run(Apply(r, a), [b]);
    assert Run(Apply(r, a), [b]) == Run(Apply(Apply(r, a), b), []);
  }

  /** A pass whose first entry is live starts by running that entry's
      script; the rest of the pass goes on from position 1. */
  lemma PublishFirst(r: Registry, k: Kind)
    requires |Entries(r, k)| > 0 && !Entries(r, k)[0].erased
    ensures var es := Entries(r, k);
      var r0 := r.(publishing := r.publishing + {k});
      var p := Visit(Run(r0, es[0].listener.steps), k, 1, |es|, [es[0].id]);
      Publish(r, k) == Pass(Finish(p.reg, k, |es|), p.called)
  {
    var es := Entries(r, k);
    var r0 := r.(publishing := r.publishing + {k});
    assert Entries(r0, k) == es;
    assert [] + [es[0].id] == [es[0].id];
    assert Visit(r0, k, 0, |es|, []) == Visit(Run(r0, es[0].listener.steps), k, 1, |es|, [es[0].id]);
  }

  /** Compaction after a pass keeps an emptied emitter empty. */
  lemma FinishEmpty(r: Registry, k: Kind, n: nat)
    requires Empty(r)
    ensures Empty(Finish(r, k, n)) && Entries(Finish(r, k, n), k) == []
  {
    var f := Finish(r, k, n);
    PruneErased(Entries(r, k), n);
    assert Entries(f, k) == [];
    assert forall j :: j != k ==> Entries(f, j) == Entries(r, j);
  }

  /** The two reentrant scripts, run on a state. */
  lemma RunRegisterThenClear(r0: Registry, k: Kind)
    ensures Run(r0, RegisterThenClear(k).steps) == ClearAll(Register(r0, k, false, Noop))
  {
    assert RegisterThenClear(k).steps == [CallOn(k, Noop), CallClearAll];
    RunTwo(r0, CallOn(k, Noop), CallClearAll);
    var c := Apply(r0, CallOn(k, Noop));
    assert c == Register(r0, k, false, Noop);
    assert Apply(c, CallClearAll) == ClearAll(c);
  }

  lemma RunClearThenRegister(r0: Registry, k: Kind)
    ensures Run(r0, ClearThenRegister(k).steps) == Register(ClearAll(r0), k, false, Noop)
  {
    assert ClearThenRegister(k).steps == [CallClearAll, CallOn(k, Noop)];
    RunTwo(r0, CallClearAll, CallOn(k, Noop));
    var c := Apply(r0, CallClearAll);
    assert c == ClearAll(r0);
    assert Apply(c, CallOn(k, Noop)) == Register(c, k, false, Noop);
  }

  /** The state right after a clear-then-register callback: every earlier
      entry of `k` is tombstoned, the new entry follows them, and every other
      kind is empty. */
  lemma ClearThenRegisterState(r0: Registry, k: Kind)
    requires k in r0.publishing
    ensures var es := Entries(Register(ClearAll(r0), k, false, Noop), k);
      && |es| == |Entries(r0, k)| + 1
      && es[|Entries(r0, k)|] == Entry(r0.next, false, false, Noop)
      && (forall p :: 0 <= p < |Entries(r0, k)| ==> es[p].erased)
      && (forall j :: j != k ==> EmptyOf(Register(ClearAll(r0), k, false, Noop), j))
  {
  }

  /** Compaction after a clear-then-register pass keeps only the new entry. */
  lemma FinishClearThenRegister(r: Registry, k: Kind, n: nat, x: Entry)
    requires |Entries(r, k)| == n + 1 && Entries(r, k)[n] == x && !x.erased
    requires forall p :: 0 <= p < n ==> Entries(r, k)[p].erased
    ensures Entries(Finish(r, k, n), k) == [x]
  {
    var es := Entries(r, k);
    assert es == es[..n] + [x];
    PruneConcat(es[..n], [x], n);
    PruneErased(es[..n], n);
  }

  /** The state right after a register-then-clear callback: nothing live,
      and no list at all for a kind not under dispatch. */
  lemma RegisterThenClearState(r0: Registry, k: Kind)
    ensures var r1 := ClearAll(Register(r0, k, false, Noop));
      && Empty(r1)
      && forall j :: j !in r0.publishing ==> Entries(r1, j) == []
  {
  }

  /** A listener that registers a new listener and then calls `clear()`
      during its own invocation, when it is the first of its kind: after the
      pass the emitter is empty, only that listener was invoked, and one
      token was handed out. */
  lemma PublishRegisterThenClear(r: Registry, k: Kind)
    requires WellFormed(r) && k !in r.publishing
    requires |Entries(r, k)| > 0 && Entries(r, k)[0].listener == RegisterThenClear(k)
    ensures var p := Publish(r, k);
      && Empty(p.reg)
      && (forall j :: j !in r.publishing ==> Entries(p.reg, j) == [])
      && p.called == [Entries(r, k)[0].id]
      && p.reg.next == r.next + 1
  {
    var es := Entries(r, k);
    assert es[0] in es;
    PublishFirst(r, k);
    var r0 := r.(publishing := r.publishing + {k});
    RunRegisterThenClear(r0, k);
    RegisterThenClearState(r0, k);
    var r1 := Run(r0, es[0].listener.steps);
    VisitSkips(r1, k, 1, |es|, [es[0].id]);
    FinishEmpty(r1, k, |es|);
    var f := Finish(r1, k, |es|);
    assert Publish(r, k) == Pass(f, [es[0].id]);
  }

  /** The pass that starts with a clear-then-register listener runs that one
      listener and nothing else: the rest of the list is tombstoned by then. */
  lemma ClearThenRegisterPass(r: Registry, k: Kind)
    requires WellFormed(r) && k !in r.publishing
    requires |Entries(r, k)| > 0 && Entries(r, k)[0].listener == ClearThenRegister(k)
    ensures var r1 := Register(ClearAll(r.(publishing := r.publishing + {k})), k, false, Noop);
      Publish(r, k) == Pass(Finish(r1, k, |Entries(r, k)|), [Entries(r, k)[0].id])
  {
    var es := Entries(r, k);
    var r0 := r.(publishing := r.publishing + {k});
    var r1 := Register(ClearAll(r0), k, false, Noop);
    assert es[0] in es;
    PublishFirst(r, k);
    assert Entries(r0, k) == es;
    RunClearThenRegister(r0, k);
    ClearThenRegisterState(r0, k);
    VisitSkips(r1, k, 1, |es|, [es[0].id]);
  }

  /** A listener that calls `clear()` and then registers a new listener,
      when it is the first of its kind: after the pass exactly the new
      listener is left, every other kind is empty, and only the first
      listener was invoked. */
  lemma PublishClearThenRegister(r: Registry, k: Kind)
    requires WellFormed(r) && k !in r.publishing
    requires |Entries(r, k)| > 0 && Entries(r, k)[0].listener == ClearThenRegister(k)
    ensures var p := Publish(r, k);
      && Entries(p.reg, k) == [Entry(r.next, false, false, Noop)]
      && (forall j :: j != k ==> EmptyOf(p.reg, j))
      && (forall j :: j != k && j !in r.publishing ==> Entries(p.reg, j) == [])
      && p.called == [Entries(r, k)[0].id]
  {
    var n := |Entries(r, k)|;
    var r0 := r.(publishing := r.publishing + {k});
    var c := ClearAll(r0);
    var r1 := Register(c, k, false, Noop);
    var f := Finish(r1, k, n);
    ClearThenRegisterPass(r, k);
    assert Entries(f, k) == [Entry(r.next, false, false, Noop)] by {
      ClearThenRegisterState(r0, k);
      FinishClearThenRegister(r1, k, n, Entry(r.next, false, false, Noop));
    }
    assert forall j :: j != k ==> Entries(f, j) == Entries(c, j);
    assert EmptyOf(c, Error) && EmptyOf(c, Fake);
  }
}
