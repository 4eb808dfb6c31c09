/**
 * The storage strategies.  Each is a constructor `(T&& t, void_ptr& ptr)`
 * that puts the object somewhere and installs (pointer, deleter, copier) in
 * the handle through the three-argument `reset`.
 */
module Storage {
  import opened Memory
  import opened Handle

  /** `non_owning_storage`, `dynamic_storage`, `local_storage<Size>`. */
  datatype Strategy = NonOwning | Dynamic | Local(capacity: nat)

  /**
   * What the converting constructor of `poly` is given: non-owning storage
   * keeps the address of the caller's object, the owning ones a value to
   * copy or move from, with its `sizeof`.
   */
  datatype Source = Ref(addr: Addr) | Val(obj: Obj, size: nat)

  /**
   * Whether the strategy accepts the argument: non-owning storage takes the
   * address of an existing object, the owning ones a value, and
   * `local_storage<Size>` statically asserts `sizeof(T) <= Size`.
   */
  predicate Accepts(s: Strategy, src: Source)
  {
    match s
    case NonOwning => src.Ref?
    case Dynamic => src.Val?
    case Local(capacity) => src.Val? && src.size <= capacity
  }

  /** The deleter each strategy installs. */
  function DeleterOf(s: Strategy): Deleter
  {
    match s
    case NonOwning => NoOpDelete
    case Dynamic => HeapDelete
    case Local(_) => DestroyInPlace
  }

  /** The copier each strategy installs. */
  function CopierOf(s: Strategy): Copier
  {
    match s
    case NonOwning => IdentityCopy
    case Dynamic => NewFromMoved
    case Local(_) => ReconstructInPlace
  }

  /** The concrete type of the object the argument names. */
  function TypeOf(src: Source, m: Mem): TypeId
    requires src.Ref? ==> src.addr in m.live
  {
    match src
    case Ref(a) => m.live[a].ty
    case Val(o, _) => o.ty
  }

  /** The handle fields and memory a storage constructor leaves behind. */
  datatype Installed = Installed(mem: Mem, ptr: Addr, del: Deleter, copy: Copier)

  /**
   * What each storage constructor does, given the memory and the address of
   * local_storage's own buffer `data`.  Constructing a storage destroys
   * nothing and leaves every object other than the one it points at alone.
   */
  function Materialize(s: Strategy, src: Source, m: Mem, data: Addr): (r: Installed)
    requires m.Valid() && Accepts(s, src) && 0 < data < m.next
    ensures r.mem.Valid() && r.mem.destroyed == m.destroyed
  {
    match s
    case NonOwning => Installed(m, src.addr, NoOpDelete, IdentityCopy)
    case Dynamic =>
      var (m1, a) := Allocate(m, src.obj);
      Installed(m1, a, HeapDelete, NewFromMoved)
    case Local(_) => Installed(Place(m, data, src.obj), data, DestroyInPlace, ReconstructInPlace)
  }

  /**
   * The handle ends up holding the strategy's deleter and copier and pointing
   * at an object of the argument's type.
   */
  lemma MaterializeInstalls(s: Strategy, src: Source, m: Mem, data: Addr)
    requires m.Valid() && Accepts(s, src) && 0 < data < m.next
    requires src.Ref? ==> src.addr in m.live
    ensures var r := Materialize(s, src, m, data);
      r.del == DeleterOf(s) && r.copy == CopierOf(s) &&
      r.ptr in r.mem.live && r.mem.live[r.ptr].ty == TypeOf(src, m) && r.ptr < r.mem.next
  {
  }

  /**
   * Non-owning storage views the caller's object and never destroys it; the
   * owning ones hold a copy of the value (dynamic storage in fresh heap
   * memory, local storage in its own buffer) and their deleter ends it.
   * Every installed deleter and copier is callable.
   */
  lemma MaterializeOwnership(s: Strategy, src: Source, m: Mem, data: Addr)
    requires m.Valid() && Accepts(s, src) && 0 < data < m.next
    ensures var r := Materialize(s, src, m, data);
      r.del != NullDeleter && r.copy != NullCopier &&
      (s.NonOwning? ==> r.mem == m && r.ptr == src.addr && Delete(r.del, r.mem, r.ptr) == m) &&
      (s.Dynamic? ==> r.ptr !in m.live && r.mem.live == m.live[r.ptr := src.obj]) &&
      (s.Local? ==> r.ptr == data && r.mem.live == m.live[data := src.obj]) &&
      (!s.NonOwning? ==> r.ptr in r.mem.live && r.ptr !in Delete(r.del, r.mem, r.ptr).live)
  {
  }

  /** `non_owning_storage{t, ptr}`: `ptr.reset(&t, no-op, identity)`. */
  method NonOwningStorage(addr: Addr, vp: VoidPtr)
    modifies vp
    ensures vp.ptr == addr && vp.del == NoOpDelete && vp.copy == IdentityCopy
  {
    vp.Install(addr, NoOpDelete, IdentityCopy);
  }

  /** `dynamic_storage{t, ptr}`: `ptr.reset(new T_{t}, delete, new-from-moved)`. */
  method DynamicStorage(o: Obj, vp: VoidPtr, heap: Heap)
    requires heap.mem.Valid()
    modifies vp, heap
    ensures heap.mem.Valid() && (heap.mem, vp.ptr) == Allocate(old(heap.mem), o)
    ensures vp.del == HeapDelete && vp.copy == NewFromMoved
  {
    var a := heap.New(o);
    vp.Install(a, HeapDelete, NewFromMoved);
  }

  /** `local_storage<Size>{t, ptr}`: placement-new into `data`, then `ptr.reset(&data, destroy, reconstruct)`. */
  method LocalStorage(o: Obj, size: nat, capacity: nat, data: Addr, vp: VoidPtr, heap: Heap)
    requires size <= capacity
    requires heap.mem.Valid() && 0 < data < heap.mem.next
    modifies vp, heap
    ensures heap.mem.Valid() && heap.mem == Place(old(heap.mem), data, o)
    ensures vp.ptr == data && vp.del == DestroyInPlace && vp.copy == ReconstructInPlace
  {
    heap.Construct(data, o);
    vp.Install(data, DestroyInPlace, ReconstructInPlace);
  }

  /** The storage member's constructor, for whichever strategy the `poly` names. */
  method Store(s: Strategy, src: Source, data: Addr, vp: VoidPtr, heap: Heap)
    requires heap.mem.Valid() && Accepts(s, src) && 0 < data < heap.mem.next
    modifies vp, heap
    ensures var r := Materialize(s, src, old(heap.mem), data);
      heap.mem == r.mem && vp.ptr == r.ptr && vp.del == r.del && vp.copy == r.copy
  {
    match s
    case NonOwning => NonOwningStorage(src.addr, vp);
    case Dynamic => DynamicStorage(src.obj, vp, heap);
    case Local(capacity) => LocalStorage(src.obj, src.size, capacity, data, vp, heap);
  }
}
