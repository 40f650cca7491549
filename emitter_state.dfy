/** The value-level state of a typed emitter: for each event kind an ordered
    list of listener entries, plus the operations that register, erase and
    clear them. The emitter class mirrors these functions field by field. */
module EmitterState {

  /** The event kinds a TestEmitter publishes. */
  datatype Kind = Error | Fake

  /** The token `on`/`once` return: the kind it belongs to and a unique id. */
  datatype Connection = Connection(kind: Kind, id: nat)

  /** What a listener callback does with the emitter it receives, one step
      after another: register, erase, clear one kind, or clear every kind. */
  datatype Step =
    | CallOn(kind: Kind, listener: Listener)
    | CallOnce(kind: Kind, listener: Listener)
    | CallErase(conn: Connection)
    | CallClear(kind: Kind)
    | CallClearAll

  /** A listener callback, as the script of what it does to the emitter. */
  datatype Listener = Listener(steps: seq<Step>)

  /** A callback that does nothing to the emitter. */
  const Noop: Listener := Listener([])

  /** Registers a do-nothing listener for `k`, then clears the emitter. */
  function RegisterThenClear(k: Kind): Listener {
    Listener([CallOn(k, Noop), CallClearAll])
  }

  /** Clears the emitter, then registers a do-nothing listener for `k`. */
  function ClearThenRegister(k: Kind): Listener {
    Listener([CallClearAll, CallOn(k, Noop)])
  }

  /** One registration: its token id, whether it is one-shot, whether it has
      been tombstoned, and its callback. */
  datatype Entry = Entry(id: nat, once: bool, erased: bool, listener: Listener)

  /** Per-kind listener lists (a kind without a list has no listeners), the
      next token id, and the kinds whose dispatch is in progress. */
  datatype Registry = Registry(lists: map<Kind, seq<Entry>>, next: nat, publishing: set<Kind>)

  function Entries(r: Registry, k: Kind): seq<Entry> {
    if k in r.lists then r.lists[k] else []
  }

  /** `empty<K>()`: no live (non-tombstoned) listener of kind `k`. */
  predicate EmptyOf(r: Registry, k: Kind)
    ensures Entries(r, k) == [] ==> EmptyOf(r, k)
  {
    forall e <- Entries(r, k) {:trigger e in Entries(r, k)} :: e.erased
  }

  /** Outside a dispatch of `k` there are no tombstones, so `empty<K>()`
      holds exactly when the list of `k` is empty. */
  lemma EmptyOfExact(r: Registry, k: Kind)
    requires WellFormed(r) && k !in r.publishing
    ensures EmptyOf(r, k) <==> Entries(r, k) == []
  {
    var es := Entries(r, k);
    assert es != [] ==> es[0] in es;
  }

  /** `empty()`: no live listener of any kind. */
  predicate Empty(r: Registry)
    ensures Empty(r) <==> EmptyOf(r, Error) && EmptyOf(r, Fake)
  {
    KindsAreErrorAndFake(r);
    forall k: Kind :: EmptyOf(r, k)
  }

  /** The kinds of a TestEmitter are exactly Error and Fake. */
  lemma KindsAreErrorAndFake(r: Registry)
    ensures (forall k: Kind :: EmptyOf(r, k)) <==> EmptyOf(r, Error) && EmptyOf(r, Fake)
  {
    if EmptyOf(r, Error) && EmptyOf(r, Fake) {
      forall k: Kind ensures EmptyOf(r, k) {
        if k == Error {} else {}
      }
    }
  }

  /** Token ids strictly increase along a list: registration order. */
  predicate Ascending(es: seq<Entry>) {
    forall i, j :: 0 <= i < j < |es| ==> es[i].id < es[j].id
  }

  /** The emitter's invariant: every id was handed out already, each list is
      in registration order, and tombstones exist only in a list whose
      dispatch is in progress. */
  predicate WellFormed(r: Registry) {
    && (forall k :: forall e <- Entries(r, k) {:trigger e in Entries(r, k)} :: e.id < r.next)
    && (forall k :: Ascending(Entries(r, k)))
    && (forall k :: k !in r.publishing ==> forall e <- Entries(r, k) {:trigger e in Entries(r, k)} :: !e.erased)
  }

  /** Starting the dispatch of a kind keeps the invariant. */
  lemma StartWellFormed(r: Registry, k: Kind)
    requires WellFormed(r)
    ensures WellFormed(r.(publishing := r.publishing + {k}))
  {
    var r0 := r.(publishing := r.publishing + {k});
    forall j ensures Entries(r0, j) == Entries(r, j) {
    }
    forall j, e | e in Entries(r0, j) ensures e.id < r.next && (j !in r0.publishing ==> !e.erased) {
      assert e in Entries(r, j);
    }
  }

  /** A freshly constructed emitter. */
  function New(): (r: Registry)
    ensures WellFormed(r) && Empty(r)
  {
    Registry(map[], 0, {})
  }

  /** `on<K>` (once == false) and `once<K>` (once == true): append a live
      entry with a fresh id. The connection handed back is Connection(k, r.next). */
  function Register(r: Registry, k: Kind, once: bool, l: Listener): (r': Registry)
    ensures !EmptyOf(r', k) && !Empty(r')
    ensures forall j :: j != k ==> Entries(r', j) == Entries(r, j)
    ensures Entry(r.next, once, false, l) in Entries(r', k)
    ensures Entries(r', k) == Entries(r, k) + [Entry(r.next, once, false, l)]
    ensures r'.publishing == r.publishing && r'.next == r.next + 1
  {
    var es := Entries(r, k);
    var x := Entry(r.next, once, false, l);
    var r' := r.(lists := r.lists[k := es + [x]], next := r.next + 1);
    assert Entries(r', k)[|es|] == x;
    assert x in Entries(r', k);
    r'
  }

  /** Registering keeps the invariant: the new id is the largest handed out. */
  lemma RegisterWellFormed(r: Registry, k: Kind, once: bool, l: Listener)
    requires WellFormed(r)
    ensures WellFormed(Register(r, k, once, l))
  {
    var r' := Register(r, k, once, l);
    var x := Entry(r.next, once, false, l);
    assert Entries(r', k) == Entries(r, k) + [x];
    forall i | 0 <= i < |Entries(r, k)| ensures Entries(r, k)[i].id < r.next {
      assert Entries(r, k)[i] in Entries(r, k);
    }
    forall j, e | e in Entries(r', j) ensures e.id < r'.next && (j !in r'.publishing ==> !e.erased) {
      if j == k {
        assert e in Entries(r, k) || e == x;
      } else {
        assert e in Entries(r, j);
      }
    }
  }

  /** Tombstones the entries whose id is `id`. */
  function Mark(es: seq<Entry>, id: nat): (ms: seq<Entry>)
    ensures |ms| == |es|
    ensures forall i :: 0 <= i < |es| ==> ms[i].id == es[i].id
  {
    seq(|es|, i requires 0 <= i < |es| => if es[i].id == id then es[i].(erased := true) else es[i])
  }

  /** Tombstones every entry. */
  function Tombstone(es: seq<Entry>): (ts: seq<Entry>)
    ensures |ts| == |es|
    ensures forall e <- ts {:trigger e in ts} :: e.erased
  {
    seq(|es|, i requires 0 <= i < |es| => es[i].(erased := true))
  }

  /** Compaction: drops every tombstoned entry, and every one-shot entry
      among the first `n` (the ones a finished dispatch has consumed). */
  function Prune(es: seq<Entry>, n: int): (kept: seq<Entry>)
    ensures |kept| <= |es|
    decreases |es|
  {
    if es == [] then []
    else
      var keep := !es[0].erased && !(es[0].once && n > 0);
      (if keep then [es[0]] else []) + Prune(es[1..], n - 1)
  }

  /** `erase(conn)`: tombstones the registration; outside its kind's dispatch
      the list is also compacted. Erasing a token that is gone is a no-op. */
  function EraseConn(r: Registry, c: Connection): (r': Registry)
    ensures forall e <- Entries(r', c.kind) {:trigger e in Entries(r', c.kind)} :: e.id == c.id ==> e.erased
    ensures forall j :: j != c.kind ==> Entries(r', j) == Entries(r, j)
    ensures r'.publishing == r.publishing && r'.next == r.next
  {
    var k := c.kind;
    var ms := Mark(Entries(r, k), c.id);
    var r' := r.(lists := r.lists[k := if k in r.publishing then ms else Prune(ms, 0)]);
    PruneMembers(ms, 0);
    assert Entries(r', k) == if k in r.publishing then ms else Prune(ms, 0);
    r'
  }

  /** Erasing keeps the invariant: compaction keeps registration order. */
  lemma EraseWellFormed(r: Registry, c: Connection)
    requires WellFormed(r)
    ensures WellFormed(EraseConn(r, c))
  {
    var es := Entries(r, c.kind);
    var ms := Mark(es, c.id);
    var r' := EraseConn(r, c);
    PruneMembers(ms, 0);
    PruneAscending(ms, 0);
    forall j, e | e in Entries(r', j) ensures e.id < r.next && (j !in r.publishing ==> !e.erased) {
      if j == c.kind {
        assert e in ms;
        var i :| 0 <= i < |ms| && ms[i] == e;
        assert es[i] in es;
      } else {
        assert e in Entries(r, j);
      }
    }
  }

  /** `clear<K>()`: outside a dispatch of `k` its list is emptied; during one
      its entries are tombstoned, so the pass calls none of them. */
  function ClearKind(r: Registry, k: Kind): (r': Registry)
    ensures EmptyOf(r', k)
    ensures forall j :: j != k ==> Entries(r', j) == Entries(r, j)
    ensures r'.publishing == r.publishing && r'.next == r.next
  {
    r.(lists := r.lists[k := if k in r.publishing then Tombstone(Entries(r, k)) else []])
  }

  /** Clearing one kind keeps the invariant. */
  lemma ClearKindWellFormed(r: Registry, k: Kind)
    requires WellFormed(r)
    ensures WellFormed(ClearKind(r, k))
  {
    var r' := ClearKind(r, k);
    forall j, e | e in Entries(r', j) ensures e.id < r.next && (j !in r.publishing ==> !e.erased) {
      if j == k {
        var es := Entries(r, k);
        var i :| 0 <= i < |es| && Entries(r', k)[i] == e;
        assert es[i] in es;
      } else {
        assert e in Entries(r, j);
      }
    }
  }

  /** `clear()`: `clear<K>()` for every kind that has a list. */
  function ClearAll(r: Registry): (r': Registry)
    ensures Empty(r')
    ensures forall j :: j in r.publishing ==> Entries(r', j) == Tombstone(Entries(r, j))
    ensures forall j :: j !in r.publishing ==> Entries(r', j) == []
    ensures r'.publishing == r.publishing && r'.next == r.next
  {
    var r' := r.(lists := map j | j in r.lists :: if j in r.publishing then Tombstone(r.lists[j]) else []);
    assert Tombstone([]) == [];
    r'
  }

  /** Clearing every kind keeps the invariant. */
  lemma ClearAllWellFormed(r: Registry)
    requires WellFormed(r)
    ensures WellFormed(ClearAll(r))
  {
    var r' := ClearAll(r);
    forall j, e | e in Entries(r', j) ensures e.id < r.next && (j !in r.publishing ==> !e.erased) {
      var es := Entries(r, j);
      var i :| 0 <= i < |es| && Entries(r', j)[i] == e;
      assert es[i] in es;
    }
  }

  /** What Prune keeps are live entries of the list. */
  lemma {:induction false} PruneMembers(es: seq<Entry>, n: int)
    ensures forall e <- Prune(es, n) :: e in es && !e.erased
    decreases |es|
  {
    if es != [] {
      PruneMembers(es[1..], n - 1);
    }
  }

  /** Compaction keeps registration order. */
  lemma {:induction false} PruneAscending(es: seq<Entry>, n: int)
    ensures Ascending(es) ==> Ascending(Prune(es, n))
    decreases |es|
  {
    if es != [] && Ascending(es) {
      PruneAscending(es[1..], n - 1);
      PruneMembers(es[1..], n - 1);
      var rest := Prune(es[1..], n - 1);
      forall e <- rest ensures es[0].id < e.id {
        var j :| 1 <= j < |es| && es[j] == e;
      }
    }
  }

  /** Compacting a concatenation compacts each part, with the consumed-prefix
      bound shifted for the second part. */
  lemma {:induction false} PruneConcat(a: seq<Entry>, b: seq<Entry>, n: int)
    ensures Prune(a + b, n) == Prune(a, n) + Prune(b, n - |a|)
    decreases |a|
  {
    if a != [] {
      assert (a + b)[0] == a[0];
      assert (a + b)[1..] == a[1..] + b;
      PruneConcat(a[1..], b, n - 1);
      var h := if !a[0].erased && !(a[0].once && n > 0) then [a[0]] else [];
      calc {
        Prune(a + b, n);
        h + Prune(a[1..] + b, n - 1);
        h + (Prune(a[1..], n - 1) + Prune(b, n - 1 - |a[1..]|));
        (h + Prune(a[1..], n - 1)) + Prune(b, n - |a|);
      }
    } else {
      assert a + b == b;
    }
  }

  /** A list with no tombstones is left as it is by compaction with no
      consumed prefix. */
  lemma {:induction false} PruneLive(es: seq<Entry>, n: int)
    requires forall e <- es :: !e.erased
    requires n <= 0
    ensures Prune(es, n) == es
    decreases |es|
  {
    if es != [] {
      PruneLive(es[1..], n - 1);
    }
  }

  /** A fully tombstoned list compacts to nothing. */
  lemma {:induction false} PruneErased(es: seq<Entry>, n: int)
    requires forall e <- es :: e.erased
    ensures Prune(es, n) == []
    decreases |es|
  {
    if es != [] {
      PruneErased(es[1..], n - 1);
    }
  }

  /** Erasing the token `on`/`once` just returned undoes that registration:
      outside a dispatch of `k` every list is as it was before. */
  lemma EraseUndoesRegister(r: Registry, k: Kind, once: bool, l: Listener)
    requires WellFormed(r) && k !in r.publishing
    ensures forall j :: Entries(EraseConn(Register(r, k, once, l), Connection(k, r.next)), j) == Entries(r, j)
  {
    var r1 := Register(r, k, once, l);
    forall j ensures Entries(EraseConn(r1, Connection(k, r.next)), j) == Entries(r, j) {
      if j == k {
        EraseRegisteredList(r, k, once, l);
      } else {
        assert Entries(r1, j) == Entries(r, j);
      }
    }
  }

  /** The list of `k` part of EraseUndoesRegister: the new entry is the
      only one carrying the fresh id, and compaction drops just it. */
  lemma EraseRegisteredList(r: Registry, k: Kind, once: bool, l: Listener)
    requires WellFormed(r) && k !in r.publishing
    ensures Entries(EraseConn(Register(r, k, once, l), Connection(k, r.next)), k) == Entries(r, k)
  {
    var es := Entries(r, k);
    var x := Entry(r.next, once, false, l);
    var ms := Mark(es + [x], r.next);
    assert Entries(Register(r, k, once, l), k) == es + [x];
    assert ms == es + [x.(erased := true)] by {
      forall i | 0 <= i < |es| ensures es[i].id < r.next {
        assert es[i] in es;
      }
    }
    PruneConcat(es, [x.(erased := true)], 0);
    PruneLive(es, 0);
  }

  /** Erasing a token whose registration is gone changes no list: erase is
      idempotent, and a second erase of the same token has no effect. */
  lemma EraseAbsent(r: Registry, c: Connection)
    requires WellFormed(r)
    requires forall e <- Entries(r, c.kind) :: e.id == c.id ==> e.erased
    ensures forall j :: Entries(EraseConn(r, c), j) == Entries(r, j)
  {
    var es := Entries(r, c.kind);
    var ms := Mark(es, c.id);
    assert ms == es;
    if c.kind !in r.publishing {
      PruneLive(es, 0);
    }
  }

  lemma EraseTwice(r: Registry, c: Connection)
    requires WellFormed(r)
    ensures forall j :: Entries(EraseConn(EraseConn(r, c), c), j) == Entries(EraseConn(r, c), j)
  {
    EraseWellFormed(r, c);
    EraseAbsent(EraseConn(r, c), c);
  }

  /** The list with the registrations of token `id` taken out, the others
      kept in order: what erasing a token outside a dispatch must leave. */
  function Without(es: seq<Entry>, id: nat): seq<Entry>
    decreases |es|
  {
    if es == [] then [] else (if es[0].id == id then [] else [es[0]]) + Without(es[1..], id)
  }

  /** An entry survives the removal of token `id` exactly when it is in the
      list and belongs to another token. */
  lemma {:induction false} WithoutMembers(es: seq<Entry>, id: nat)
    ensures forall e :: e in Without(es, id) <==> e in es && e.id != id
    decreases |es|
  {
    if es != [] {
      WithoutMembers(es[1..], id);
      assert forall e :: e in es <==> e == es[0] || e in es[1..];
    }
  }

  /** Tombstoning one token in a list without tombstones and compacting it
      takes exactly that token's entries out. */
  lemma {:induction false} PruneMark(es: seq<Entry>, id: nat, n: int)
    requires forall e <- es :: !e.erased
    requires n <= 0
    ensures Prune(Mark(es, id), n) == Without(es, id)
    decreases |es|
  {
    if es != [] {
      var ms := Mark(es, id);
      assert ms[0] == if es[0].id == id then es[0].(erased := true) else es[0];
      assert ms[1..] == Mark(es[1..], id);
      PruneMark(es[1..], id, n - 1);
    }
  }

  /** `erase(conn)` outside a dispatch of its kind removes that one
      registration: every other registration of the kind stays, in order. */
  lemma EraseOutsideDispatch(r: Registry, c: Connection)
    requires WellFormed(r) && c.kind !in r.publishing
    ensures Entries(EraseConn(r, c), c.kind) == Without(Entries(r, c.kind), c.id)
    ensures forall e :: e in Entries(EraseConn(r, c), c.kind) <==> e in Entries(r, c.kind) && e.id != c.id
  {
    PruneMark(Entries(r, c.kind), c.id, 0);
    WithoutMembers(Entries(r, c.kind), c.id);
  }

  /** `erase(conn)` during a dispatch of its kind only tombstones that
      registration: the list keeps its length and every other position. */
  lemma EraseDuringDispatch(r: Registry, c: Connection)
    requires c.kind in r.publishing
    ensures var es := Entries(r, c.kind);
      var es' := Entries(EraseConn(r, c), c.kind);
      && |es'| == |es|
      && (forall p :: 0 <= p < |es| && es[p].id != c.id ==> es'[p] == es[p])
      && (forall p :: 0 <= p < |es| && es[p].id == c.id ==> es'[p] == es[p].(erased := true))
  {
  }

  /** Compaction keeps every live entry except a one-shot entry among the
      first `n`: the converse of PruneMembers. */
  lemma {:induction false} PruneKeepsLive(es: seq<Entry>, n: int, q: nat)
    requires q < |es| && !es[q].erased && !(es[q].once && q < n)
    ensures es[q] in Prune(es, n)
    decreases q
  {
    if q > 0 {
      assert es[1..][q - 1] == es[q];
      PruneKeepsLive(es[1..], n - 1, q - 1);
    }
  }
}
