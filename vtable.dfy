/**
 * Dispatch tables.  `static_vtable` hands out one static array of K slots,
 * `poly`'s constructor fills slot N - 1 with the thunk for entry N of its
 * interface (`init<N, T>`), and `call_impl` applies slot N - 1 to the stored
 * pointer.
 */
module Vtable {
  import opened Registry
  import opened Memory

  /**
   * The lambda `init<N, T>` writes: `[](void* self, TArgs... args) {
   * TExpr{}(*static_cast<T*>(self), args...) }`, determined by the concrete
   * type and the registry entry.
   */
  datatype Thunk = Thunk(ty: TypeId, entry: Entry)

  /** One element of `static ptr_t vt[Size]{}`: null until `init` writes it. */
  datatype Slot = Empty | Fn(thunk: Thunk)

  /** A call argument. */
  datatype Arg = IntArg(i: int) | TextArg(s: string)

  /**
   * What applying an expression to an object does: the value it returns, the
   * text it writes to the stream it was given, and the object afterwards.
   */
  datatype Effect = Effect(ret: int, written: string, self: Obj)

  /** The meaning of each lambda `TExpr`: the concrete member it calls on `self`. */
  type Behavior = (ExprId, Obj, seq<Arg>) -> Effect

  /** The table `init<1..K, T>` leaves for interface `i`, type `t` and slot count `k`. */
  function Thunks(m: Table, i: Iface, t: TypeId, k: nat): (r: seq<Slot>)
    requires forall n :: 1 <= n <= k ==> Key(i, n) in m
    ensures |r| == k
  {
    seq(k, n requires 0 <= n < k => Fn(Thunk(t, m[Key(i, n + 1)])))
  }

  /** `vptr[N - 1](self, args...)`: the thunk applied to the object. */
  function Invoke(s: Slot, beh: Behavior, self: Obj, args: seq<Arg>): Effect
    requires s.Fn?
  {
    beh(s.thunk.entry.expr, self, args)
  }

  /**
   * Invoking slot N of a built table on an object is applying entry N of the
   * interface to that object directly.
   */
  lemma {:induction false} InvokeBuilt(m: Table, i: Iface, t: TypeId, n: nat, beh: Behavior, self: Obj, args: seq<Arg>)
    requires 1 <= n <= Size(m, i)
    ensures Thunks(m, i, t, Size(m, i))[n - 1].Fn?
    ensures Invoke(Thunks(m, i, t, Size(m, i))[n - 1], beh, self, args) == beh(m[Key(i, n)].expr, self, args)
  {
  }

  /** A built table stays right when the registry grows: the entries it was built from never change. */
  lemma ThunksGrow(m1: Table, m2: Table, i: Iface, t: TypeId, k: nat)
    requires forall n :: 1 <= n <= k ==> Key(i, n) in m1
    requires Grows(m1, m2)
    ensures Thunks(m1, i, t, k) == Thunks(m2, i, t, k)
  {
  }

  // ---------------------------------------------------------------------
  // Table identity as `static_vtable` has it: one static array per
  // (T, Size), whatever the interface.
  // ---------------------------------------------------------------------

  datatype SharedKey = SharedKey(ty: TypeId, size: nat)

  /**
   * Constructing a `poly<I>` from a `T` as written: I's thunks are written
   * into the table of (T, size(I)); every other table is left as it was.
   */
  function InstallShared(store: map<SharedKey, seq<Slot>>, m: Table, i: Iface, t: TypeId): (r: map<SharedKey, seq<Slot>>)
    ensures r.Keys == store.Keys + {SharedKey(t, Size(m, i))}
    ensures r[SharedKey(t, Size(m, i))] == Thunks(m, i, t, Size(m, i))
    ensures forall key :: key in store && key != SharedKey(t, Size(m, i)) ==> r[key] == store[key]
  {
    var k := Size(m, i);
    store[SharedKey(t, k) := Thunks(m, i, t, k)]
  }

  /**
   * Every shared table holds the thunks of the interface that last filled
   * it, `owner[key]`, for the table's type and size.
   */
  ghost predicate SharedMatches(store: map<SharedKey, seq<Slot>>, owner: map<SharedKey, Iface>, m: Table)
  {
    forall key :: key in store ==>
      key in owner &&
      (forall n :: 1 <= n <= key.size ==> Key(owner[key], n) in m) &&
      store[key] == Thunks(m, owner[key], key.ty, key.size)
  }

  /**
   * Building a shared table keeps every table described by its last filler,
   * and the filler of the rebuilt table is now the interface that built it,
   * whichever interface filled it before.
   */
  lemma InstallSharedMatches(store: map<SharedKey, seq<Slot>>, owner: map<SharedKey, Iface>, m1: Table, m2: Table, i: Iface, t: TypeId)
    requires SharedMatches(store, owner, m1) && Grows(m1, m2)
    ensures SharedMatches(InstallShared(store, m2, i, t), owner[SharedKey(t, Size(m2, i)) := i], m2)
  {
    var key0 := SharedKey(t, Size(m2, i));
    var r := InstallShared(store, m2, i, t);
    var o := owner[key0 := i];
    forall key | key in r
      ensures key in o && (forall n :: 1 <= n <= key.size ==> Key(o[key], n) in m2)
      ensures r[key] == Thunks(m2, o[key], key.ty, key.size)
    {
      if key != key0 {
        ThunksGrow(m1, m2, owner[key], key.ty, key.size);
      }
    }
  }

  /**
   * Two interfaces with the same slot count wrapping the same type share one
   * table: building the second rewrites the table the first one's values
   * point at, so they now dispatch to the second interface's expressions.
   */
  lemma SharedTableClobbered(store: map<SharedKey, seq<Slot>>, m: Table, i1: Iface, i2: Iface, t: TypeId)
    requires Size(m, i1) == Size(m, i2) > 0
    requires m[Key(i1, 1)] != m[Key(i2, 1)]
    ensures var after1 := InstallShared(store, m, i1, t);
      var after2 := InstallShared(after1, m, i2, t);
      after1[SharedKey(t, Size(m, i1))][0] == Fn(Thunk(t, m[Key(i1, 1)])) &&
      after2[SharedKey(t, Size(m, i1))][0] == Fn(Thunk(t, m[Key(i2, 1)])) &&
      after2[SharedKey(t, Size(m, i1))] != Thunks(m, i1, t, Size(m, i1))
  {
    var k := Size(m, i1);
    var after2 := InstallShared(InstallShared(store, m, i1, t), m, i2, t);
    assert after2[SharedKey(t, k)][0] != Thunks(m, i1, t, k)[0];
  }

  /** A concrete instance: interfaces 1 and 2 with one slot each, different expressions, one type. */
  lemma SharedTableExample()
    ensures var m := map[Key(1, 1) := Entry(10, []), Key(2, 1) := Entry(20, [])];
      Size(m, 1) == 1 && Size(m, 2) == 1 &&
      InstallShared(InstallShared(map[], m, 1, 7), m, 2, 7)[SharedKey(7, 1)] == [Fn(Thunk(7, Entry(20, [])))]
  {
    var m := map[Key(1, 1) := Entry(10, []), Key(2, 1) := Entry(20, [])];
    SizeFromUnique(m, 1, 1, 1);
    SizeFromUnique(m, 2, 1, 1);
  }

  // ---------------------------------------------------------------------
  // Table identity as intended: one table per (interface, type, size).
  // ---------------------------------------------------------------------

  datatype TableKey = TableKey(iface: Iface, ty: TypeId, size: nat)

  /** Every table holds exactly its own interface's thunks. */
  ghost predicate Matches(store: map<TableKey, seq<Slot>>, m: Table)
  {
    forall key :: key in store ==>
      (forall n :: 1 <= n <= key.size ==> Key(key.iface, n) in m) &&
      store[key] == Thunks(m, key.iface, key.ty, key.size)
  }

  /** Constructing a `poly<I>` from a `T` with the interface in the key: only the table of (I, T, size(I)) is written. */
  function Install(store: map<TableKey, seq<Slot>>, m: Table, i: Iface, t: TypeId): (r: map<TableKey, seq<Slot>>)
    ensures r.Keys == store.Keys + {TableKey(i, t, Size(m, i))}
    ensures r[TableKey(i, t, Size(m, i))] == Thunks(m, i, t, Size(m, i))
    ensures forall key :: key in store && key != TableKey(i, t, Size(m, i)) ==> r[key] == store[key]
  {
    var k := Size(m, i);
    store[TableKey(i, t, k) := Thunks(m, i, t, k)]
  }

  /**
   * With one table per interface, building any interface's table keeps every
   * table right, including tables built before the registry grew, and leaves
   * every other table as it was.
   */
  lemma InstallPreservesMatches(store: map<TableKey, seq<Slot>>, m1: Table, m2: Table, i: Iface, t: TypeId)
    requires Matches(store, m1) && Grows(m1, m2)
    ensures Matches(Install(store, m2, i, t), m2)
    ensures forall key :: key in store && key != TableKey(i, t, Size(m2, i)) ==>
      Install(store, m2, i, t)[key] == store[key]
  {
    forall key | key in store
      ensures (forall n :: 1 <= n <= key.size ==> Key(key.iface, n) in m2)
      ensures store[key] == Thunks(m2, key.iface, key.ty, key.size)
    {
      ThunksGrow(m1, m2, key.iface, key.ty, key.size);
    }
  }

  /** `init<N, T>` for N = 1..K: the fold that fills a table. */
  method Init(vt: array<Slot>, m: Table, i: Iface, t: TypeId)
    requires vt.Length == Size(m, i)
    modifies vt
    ensures vt[..] == Thunks(m, i, t, vt.Length)
  {
    var n := 0;
    while n < vt.Length
      invariant 0 <= n <= vt.Length
      invariant forall j :: 0 <= j < n ==> vt[j] == Fn(Thunk(t, m[Key(i, j + 1)]))
    {
      vt[n] := Fn(Thunk(t, m[Key(i, n + 1)]));
      n := n + 1;
    }
  }

  /**
   * The function-local static tables of `static_vtable`, one per (T, Size),
   * and, as ghost state, the interface whose `init` last wrote each of them.
   */
  class Vtables {
    var tables: map<SharedKey, array<Slot>>
    ghost var owner: map<SharedKey, Iface>
    ghost var Repr: set<array<Slot>>

    /** Each key has its own array of `size` slots. */
    ghost predicate Shaped()
      reads this
    {
      (forall key :: key in tables ==> tables[key] in Repr && tables[key].Length == key.size) &&
      (forall k1, k2 :: k1 in tables && k2 in tables && k1 != k2 ==> tables[k1] != tables[k2])
    }

    /** The tables' slots. */
    ghost function Contents(): map<SharedKey, seq<Slot>>
      reads this, Repr
      requires Shaped()
    {
      map key | key in tables :: tables[key][..]
    }

    /** Every table is fully built, from the registry `m`, by the interface that last filled it. */
    ghost predicate Valid(m: Table)
      reads this, Repr
    {
      Shaped() && SharedMatches(Contents(), owner, m)
    }

    constructor ()
      ensures Valid(map[]) && tables == map[] && owner == map[] && Repr == {}
    {
      tables := map[];
      owner := map[];
      Repr := {};
    }

    /** The tables stay built as the registry grows. */
    lemma ValidAfterGrowth(m1: Table, m2: Table)
      requires Valid(m1) && Grows(m1, m2)
      ensures Valid(m2)
    {
      forall key | key in Contents()
        ensures Contents()[key] == Thunks(m2, owner[key], key.ty, key.size)
      {
        ThunksGrow(m1, m2, owner[key], key.ty, key.size);
      }
    }

    /**
     * `static_vtable{t, vptr, K}`: the first construction for (T, K)
     * allocates its zero-filled table; later ones get the same array back.
     * The ghost `owner` records `filler`, the interface whose `init` is
     * about to write the table.
     */
    method Acquire(key: SharedKey, filler: Iface) returns (vt: array<Slot>)
      requires Shaped()
      modifies this
      ensures Shaped() && fresh(Repr - old(Repr)) && owner == old(owner)[key := filler]
      ensures key in old(tables) ==> vt == old(tables)[key] && tables == old(tables) && Repr == old(Repr)
      ensures key !in old(tables) ==> fresh(vt) && tables == old(tables)[key := vt] && Repr == old(Repr) + {vt}
      ensures key !in old(tables) ==> forall j :: 0 <= j < vt.Length ==> vt[j] == Empty
      ensures vt.Length == key.size
    {
      if key in tables {
        vt := tables[key];
      } else {
        vt := new Slot[key.size](_ => Empty);
        tables := tables[key := vt];
        Repr := Repr + {vt};
      }
      owner := owner[key := filler];
    }

    /**
     * `static_vtable` followed by `init`: the table for (T, size(I)) is
     * acquired and every slot is rewritten with I's thunks, even when
     * another interface filled it before; no other table changes.
     */
    method Build(m: Table, i: Iface, t: TypeId) returns (vt: array<Slot>)
      requires Valid(m) && Size(m, i) > 0
      modifies this, Repr
      ensures Valid(m) && fresh(Repr - old(Repr))
      ensures SharedKey(t, Size(m, i)) in tables && tables[SharedKey(t, Size(m, i))] == vt
      ensures SharedKey(t, Size(m, i)) in old(tables) ==> vt == old(tables)[SharedKey(t, Size(m, i))]
      ensures forall key :: key in old(tables) ==> key in tables && tables[key] == old(tables)[key]
      ensures Contents() == InstallShared(old(Contents()), m, i, t)
      ensures owner == old(owner)[SharedKey(t, Size(m, i)) := i]
    {
      var key := SharedKey(t, Size(m, i));
      ghost var before := Contents();
      ghost var filledBy := owner;
      vt := Acquire(key, i);
      ghost var others := tables - {key};
      assert forall k :: k in others ==> others[k] != vt && others[k][..] == before[k];
      Init(vt, m, i, t);
      assert forall k :: k in others ==> others[k][..] == before[k];
      Refilled(key, before, filledBy, m, i, t);
    }

    /** Proof step of `Build`: after `init` rewrote the table of `key` with I's thunks and nothing else changed. */
    lemma Refilled(key: SharedKey, before: map<SharedKey, seq<Slot>>, filledBy: map<SharedKey, Iface>, m: Table, i: Iface, t: TypeId)
      requires key == SharedKey(t, Size(m, i)) && SharedMatches(before, filledBy, m) && owner == filledBy[key := i]
      requires Shaped() && key in tables && tables[key][..] == Thunks(m, i, t, Size(m, i))
      requires forall k :: k in tables && k != key ==> k in before && tables[k][..] == before[k]
      requires forall k :: k in before ==> k in tables
      ensures Valid(m) && Contents() == InstallShared(before, m, i, t)
    {
      ContentsSplit(key, before, Thunks(m, i, t, Size(m, i)));
      InstallSharedMatches(before, filledBy, m, m, i, t);
    }

    /** Proof step of `Build`: the tables other than `key` unchanged from `before`, and `key` holding `s`. */
    lemma ContentsSplit(key: SharedKey, before: map<SharedKey, seq<Slot>>, s: seq<Slot>)
      requires Shaped() && key in tables && tables[key][..] == s
      requires forall k :: k in tables && k != key ==> k in before && tables[k][..] == before[k]
      requires forall k :: k in before ==> k in tables
      ensures Contents() == before[key := s]
    {
      var c := Contents();
      assert c.Keys == before.Keys + {key};
      forall k | k in c
        ensures c[k] == before[key := s][k]
      {
      }
    }
  }
}
