/**
 * `te::poly<I, TStorage>`: a `void_ptr` and a table pointer (the two members
 * of `poly_base`), plus the storage member.  Construction from a concrete
 * value materialises the object and fills the table; copy and move are the
 * member-wise defaults; `call` indexes the table.  The registry is passed
 * as the table `m` that compilation left behind: by the time a program runs,
 * every slot it will ever use has been set.
 */
module Erased {
  import opened Registry
  import opened Memory
  import opened Handle
  import opened Storage
  import opened Vtable

  /**
   * The storage part of the converting constructor: the storage member's
   * storage is claimed and its constructor fills a fresh handle.
   */
  method StoreArgument(s: Strategy, src: Source, ghost vts: Vtables, heap: Heap) returns (h: VoidPtr, d: Addr)
    requires Accepts(s, src) && heap.mem.Valid() && (src.Ref? ==> src.addr in heap.mem.live)
    requires vts.Shaped()
    modifies heap
    ensures fresh(h) && vts.Shaped() && vts.Contents() == old(vts.Contents())
    ensures var (m1, d0) := FreshStorage(old(heap.mem));
      var r := Materialize(s, src, m1, d0);
      d == d0 && heap.mem == r.mem && h.ptr == r.ptr && h.del == r.del && h.copy == r.copy
    ensures heap.mem.Valid() && h.ptr in heap.mem.live && heap.mem.live[h.ptr].ty == TypeOf(src, old(heap.mem))
    ensures h.del == DeleterOf(s) && h.copy == CopierOf(s)
  {
    ghost var m0 := heap.mem;
    h := new VoidPtr();
    d := heap.Reserve();
    Store(s, src, d, h, heap);
    MaterializeInstalls(s, src, FreshStorage(m0).0, d);
  }

  /**
   * The member initialisers of the converting constructor, in declaration
   * order: the storage member claims its storage and fills a fresh handle,
   * then `static_vtable` and `init` fill the table of (T, K) with I's thunks.
   */
  method Construct(i: Iface, s: Strategy, src: Source, m: Table, vts: Vtables, heap: Heap)
    returns (h: VoidPtr, d: Addr, vt: array<Slot>)
    requires Size(m, i) > 0
    requires Accepts(s, src) && heap.mem.Valid() && (src.Ref? ==> src.addr in heap.mem.live)
    requires vts.Valid(m)
    modifies vts, vts.Repr, heap
    ensures fresh(h) && h.del == DeleterOf(s) && h.copy == CopierOf(s) && vt.Length == Size(m, i)
    ensures vts.Valid(m) && fresh(vts.Repr - old(vts.Repr))
    ensures SharedKey(TypeOf(src, old(heap.mem)), vt.Length) in vts.tables && vts.tables[SharedKey(TypeOf(src, old(heap.mem)), vt.Length)] == vt
    ensures forall key :: key in old(vts.tables) ==> key in vts.tables && vts.tables[key] == old(vts.tables)[key]
    ensures vts.Contents() == InstallShared(old(vts.Contents()), m, i, TypeOf(src, old(heap.mem)))
    ensures vts.owner == old(vts.owner)[SharedKey(TypeOf(src, old(heap.mem)), vt.Length) := i]
    ensures var (m1, d0) := FreshStorage(old(heap.mem));
      var r := Materialize(s, src, m1, d0);
      d == d0 && heap.mem == r.mem && h.ptr == r.ptr
    ensures heap.mem.Valid() && h.ptr in heap.mem.live && heap.mem.live[h.ptr].ty == TypeOf(src, old(heap.mem))
  {
    var t := TypeOf(src, heap.mem);
    h, d := StoreArgument(s, src, vts, heap);
    vt := vts.Build(m, i, t);
  }

  class Poly {
    /** The interface `I` and the storage `TStorage` the `poly` is instantiated with. */
    const iface: Iface
    const strategy: Strategy
    /** `poly_base::ptr`, the handle this `poly` owns. */
    const handle: VoidPtr
    /** The address of this `poly`'s storage member (local_storage's `data`). */
    const data: Addr
    /** `poly_base::vptr`. */
    var vptr: array<Slot>
    /** The concrete type whose thunks `vptr` holds. */
    ghost var ty: TypeId

    /** `vptr` is the static table of (T, its length), shared by every interface of that size. */
    ghost predicate Dispatches(vts: Vtables)
      reads this, vts
    {
      SharedKey(ty, vptr.Length) in vts.tables && vts.tables[SharedKey(ty, vptr.Length)] == vptr
    }

    /**
     * The table `vptr` designates was last filled by this value's own
     * interface, so its slots hold I's thunks.
     */
    ghost predicate OwnsTable(vts: Vtables)
      reads this, vts
    {
      SharedKey(ty, vptr.Length) in vts.owner && vts.owner[SharedKey(ty, vptr.Length)] == iface
    }

    /** The handle holds the strategy's deleter and copier, and the table is a shared one. */
    ghost predicate Valid(vts: Vtables)
      reads this, handle, vts
    {
      handle.del == DeleterOf(strategy) && handle.copy == CopierOf(strategy) && Dispatches(vts)
    }

    /**
     * The converting constructor `poly(T&& t)`: `mappings_size<I>()` gives
     * K, which must be positive; the storage materialises the object, the
     * table of (T, K) is acquired and slots 1..K are written with I's
     * entries, so I is now the interface that last filled it.
     */
    constructor (i: Iface, s: Strategy, src: Source, m: Table, vts: Vtables, heap: Heap)
      requires Size(m, i) > 0
      requires Accepts(s, src) && heap.mem.Valid() && (src.Ref? ==> src.addr in heap.mem.live)
      requires vts.Valid(m)
      modifies vts, vts.Repr, heap
      ensures iface == i && strategy == s && fresh(handle)
      ensures ty == TypeOf(src, old(heap.mem)) && vptr.Length == Size(m, i)
      ensures Valid(vts) && vts.Valid(m) && fresh(vts.Repr - old(vts.Repr))
      ensures forall key :: key in old(vts.tables) ==> key in vts.tables && vts.tables[key] == old(vts.tables)[key]
      ensures vts.Contents() == InstallShared(old(vts.Contents()), m, i, TypeOf(src, old(heap.mem)))
      ensures vts.owner == old(vts.owner)[SharedKey(ty, vptr.Length) := i]
      ensures var (m1, d) := FreshStorage(old(heap.mem));
        var r := Materialize(s, src, m1, d);
        data == d && heap.mem == r.mem && handle.ptr == r.ptr
      ensures heap.mem.Valid() && handle.ptr in heap.mem.live && heap.mem.live[handle.ptr].ty == ty
    {
      var h, d, vt := Construct(i, s, src, m, vts, heap);
      iface, strategy, handle, data, vptr, ty := i, s, h, d, vt, TypeOf(src, old(heap.mem));
    }

    /**
     * `poly(poly const&) = default`: the handle is copy-constructed, so its
     * pointer is whatever the copier yields, and the table pointer is copied,
     * not rebuilt.
     */
    constructor CopyOf(other: Poly, heap: Heap)
      requires heap.mem.Valid() && CanCopy(other.handle.copy, heap.mem, other.handle.ptr)
      modifies heap
      ensures iface == other.iface && strategy == other.strategy && fresh(handle)
      ensures vptr == other.vptr && ty == other.ty
      ensures handle.del == other.handle.del && handle.copy == other.handle.copy
      ensures var (m1, d) := FreshStorage(old(heap.mem));
        data == d && (heap.mem, handle.ptr) == Copy(other.handle.copy, m1, other.handle.ptr)
    {
      var d := heap.Reserve();
      var h := new VoidPtr.CopyOf(other.handle, heap);
      iface, strategy, handle, data, vptr, ty := other.iface, other.strategy, h, d, other.vptr, other.ty;
    }

    /** `poly(poly&&) = default`: the handle is moved (the source's pointer becomes null), the table pointer copied. */
    constructor MoveFrom(other: Poly, heap: Heap)
      requires heap.mem.Valid()
      modifies other.handle, heap
      ensures iface == other.iface && strategy == other.strategy && fresh(handle)
      ensures vptr == other.vptr && ty == other.ty
      ensures handle.ptr == old(other.handle.ptr) && handle.del == old(other.handle.del) && handle.copy == old(other.handle.copy)
      ensures other.handle.ptr == Null && other.handle.del == old(other.handle.del) && other.handle.copy == old(other.handle.copy)
      ensures var (m1, d) := FreshStorage(old(heap.mem)); data == d && heap.mem == m1
    {
      var d := heap.Reserve();
      var h := new VoidPtr.MoveFrom(other.handle);
      iface, strategy, handle, data, vptr, ty := other.iface, other.strategy, h, d, other.vptr, other.ty;
    }

    /**
     * `call_impl`: `vptr[N - 1](ptr.get(), args...)`.  Slot N of the table of
     * (T, K) applies entry N of the interface that last filled that table to
     * the object the handle points at; whatever the expression does to
     * `*self` happens to that object.  That interface is this value's own
     * unless a value of another interface with K slots was built from a `T`
     * since.
     */
    method Call(n: nat, args: seq<Arg>, beh: Behavior, m: Table, vts: Vtables, heap: Heap)
      returns (ret: int, written: string)
      requires vts.Valid(m) && Dispatches(vts)
      requires 1 <= n <= vptr.Length
      requires heap.mem.Valid() && handle.ptr in heap.mem.live
      modifies heap
      ensures SharedKey(ty, vptr.Length) in vts.owner && Key(vts.owner[SharedKey(ty, vptr.Length)], n) in m
      ensures var e := beh(m[Key(vts.owner[SharedKey(ty, vptr.Length)], n)].expr, old(heap.mem).live[handle.ptr], args);
        ret == e.ret && written == e.written &&
        heap.mem == old(heap.mem).(live := old(heap.mem).live[handle.ptr := e.self])
    {
      var key := SharedKey(ty, vptr.Length);
      assert vts.Contents()[key] == vptr[..];
      assert vptr[n - 1] == Thunks(m, vts.owner[key], ty, vptr.Length)[n - 1];
      var slot := vptr[n - 1];
      var self := heap.mem.live[handle.ptr];
      var e := Invoke(slot, beh, self, args);
      heap.Update(handle.ptr, e.self);
      ret, written := e.ret, e.written;
    }

    /** `~poly()`: the handle's destructor, which runs the deleter on the held pointer. */
    method Destroy(heap: Heap)
      requires heap.mem.Valid() && handle.del != NullDeleter
      modifies handle, heap
      ensures heap.mem.Valid() && heap.mem == Delete(old(handle.del), old(heap.mem), old(handle.ptr))
      ensures handle.ptr == Null && handle.del == old(handle.del) && handle.copy == old(handle.copy)
    {
      handle.Destroy(heap);
    }

    /**
     * `operator=(poly const&) = default`: copy-assign the handle (copy first,
     * then destroy the old payload) and take the other's table pointer.
     */
    method CopyAssign(other: Poly, heap: Heap)
      requires other.iface == iface && other.strategy == strategy
      requires other == this || other.handle != handle
      requires heap.mem.Valid() && handle.del != NullDeleter
      requires CanCopy(other.handle.copy, heap.mem, other.handle.ptr)
      modifies this, handle, heap
      ensures vptr == old(other.vptr) && ty == old(other.ty)
      ensures var (m1, q) := Copy(old(other.handle.copy), old(heap.mem), old(other.handle.ptr));
        heap.mem == Delete(old(handle.del), m1, old(handle.ptr)) && handle.ptr == q
      ensures handle.del == old(other.handle.del) && handle.copy == old(other.handle.copy)
    {
      handle.CopyAssign(other.handle, heap);
      vptr, ty := other.vptr, other.ty;
    }

    /**
     * `operator=(poly&&) = default`: move-assign the handle (destroy the old
     * payload, take the other's, null the other's pointer) and take the
     * other's table pointer.  Moving a value into itself leaves it with a
     * null pointer, as `void_ptr`'s move assignment does.
     */
    method MoveAssign(other: Poly, heap: Heap)
      requires other.iface == iface && other.strategy == strategy
      requires other == this || other.handle != handle
      requires heap.mem.Valid() && handle.del != NullDeleter
      modifies this, handle, other.handle, heap
      ensures vptr == old(other.vptr) && ty == old(other.ty)
      ensures heap.mem.Valid() && heap.mem == Delete(old(handle.del), old(heap.mem), old(handle.ptr))
      ensures handle.ptr == (if other == this then Null else old(other.handle.ptr))
      ensures handle.del == old(other.handle.del) && handle.copy == old(other.handle.copy)
      ensures other.handle.ptr == Null && other.handle.del == old(other.handle.del) && other.handle.copy == old(other.handle.copy)
    {
      handle.MoveAssign(other.handle, heap);
      vptr, ty := other.vptr, other.ty;
    }

    /**
     * The end of a converting assignment: the temporary `other` is
     * move-assigned into this value and then destroyed, so its deleter runs
     * on the null pointer the move left it.
     */
    method TakeOver(other: Poly, ghost vts: Vtables, heap: Heap)
      requires other.iface == iface && other.strategy == strategy
      requires other != this && other.handle != handle
      requires heap.mem.Valid() && handle.del != NullDeleter && other.handle.del != NullDeleter
      requires vts.Shaped()
      modifies this, handle, other.handle, heap
      ensures vts.Shaped() && vts.Contents() == old(vts.Contents())
      ensures vptr == old(other.vptr) && ty == old(other.ty)
      ensures handle.ptr == old(other.handle.ptr)
      ensures handle.del == old(other.handle.del) && handle.copy == old(other.handle.copy)
      ensures heap.mem.Valid()
      ensures heap.mem == Delete(old(other.handle.del), Delete(old(handle.del), old(heap.mem), old(handle.ptr)), Null)
    {
      MoveAssign(other, heap);
      other.Destroy(heap);
    }

    /**
     * `drawable = Circle{}`: the converting constructor builds a temporary,
     * the temporary is move-assigned into this value, and then destroyed. The
     * pointer now designates the shared table of the new concrete type, which
     * the temporary's construction rewrote with I's thunks; the old payload
     * was destroyed by the old deleter, and the temporary's deleter ran on
     * null.
     */
    method Assign(src: Source, m: Table, vts: Vtables, heap: Heap)
      requires Valid(vts) && Size(m, iface) > 0
      requires Accepts(strategy, src) && heap.mem.Valid() && (src.Ref? ==> src.addr in heap.mem.live)
      requires vts.Valid(m)
      modifies this, handle, vts, vts.Repr, heap
      ensures Valid(vts) && vts.Valid(m) && fresh(vts.Repr - old(vts.Repr))
      ensures ty == TypeOf(src, old(heap.mem)) && vptr.Length == Size(m, iface)
      ensures forall key :: key in old(vts.tables) ==> key in vts.tables && vts.tables[key] == old(vts.tables)[key]
      ensures vts.Contents() == InstallShared(old(vts.Contents()), m, iface, TypeOf(src, old(heap.mem)))
      ensures vts.owner == old(vts.owner)[SharedKey(ty, vptr.Length) := iface]
      ensures var (m1, d) := FreshStorage(old(heap.mem));
        var r := Materialize(strategy, src, m1, d);
        handle.ptr == r.ptr &&
        heap.mem == Delete(DeleterOf(strategy), Delete(old(handle.del), r.mem, old(handle.ptr)), Null)
    {
      var tmp := Temporary(src, m, vts, heap);
      TakeOver(tmp, vts, heap);
    }

    /**
     * The temporary of a converting assignment: a value of this value's
     * interface and storage, built from `src` by the converting constructor.
     */
    method Temporary(src: Source, m: Table, vts: Vtables, heap: Heap) returns (tmp: Poly)
      requires Size(m, iface) > 0
      requires Accepts(strategy, src) && heap.mem.Valid() && (src.Ref? ==> src.addr in heap.mem.live)
      requires vts.Valid(m)
      modifies vts, vts.Repr, heap
      ensures fresh(tmp) && fresh(tmp.handle) && tmp.iface == iface && tmp.strategy == strategy
      ensures tmp.Valid(vts) && tmp.handle.del != NullDeleter
      ensures tmp.ty == TypeOf(src, old(heap.mem)) && tmp.vptr.Length == Size(m, iface)
      ensures vts.Valid(m) && fresh(vts.Repr - old(vts.Repr))
      ensures forall key :: key in old(vts.tables) ==> key in vts.tables && vts.tables[key] == old(vts.tables)[key]
      ensures vts.Contents() == InstallShared(old(vts.Contents()), m, iface, TypeOf(src, old(heap.mem)))
      ensures vts.owner == old(vts.owner)[SharedKey(tmp.ty, tmp.vptr.Length) := iface]
      ensures var (m1, d) := FreshStorage(old(heap.mem));
        var r := Materialize(strategy, src, m1, d);
        heap.mem == r.mem && tmp.handle.ptr == r.ptr && heap.mem.Valid()
    {
      tmp := new Poly(iface, strategy, src, m, vts, heap);
    }
  }
}
