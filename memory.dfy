/**
 * An abstract memory for the type-erased handle: addresses instead of raw
 * pointers, the objects alive at them, and a log of the destructor calls.
 * The handle's function pointers `del_t` and `copy_t` are represented by the
 * small datatypes below, one constructor per lambda the header installs.
 */
module Memory {

  /** An address; 0 stands for `nullptr`. */
  type Addr = nat

  const Null: Addr := 0

  /** A concrete type `T`, named by an opaque identifier. */
  type TypeId = nat

  /**
   * An object of concrete type `ty`.  `val` stands for its data members (the
   * `value` of the mutable square, the `i_` of the calculator); `moved` is set
   * on an object whose contents were handed to another by a move constructor.
   */
  datatype Obj = Obj(ty: TypeId, val: int, moved: bool)

  /** What a move constructor leaves behind in its source. */
  function MovedFrom(o: Obj): Obj
  {
    o.(moved := true)
  }

  /**
   * `del_t`, as installed by the storages:
   * NullDeleter    the zero-initialised pointer of a default `void_ptr`;
   * NoOpDelete     non_owning_storage's empty lambda;
   * HeapDelete     dynamic_storage's `delete static_cast<T_*>(ptr)`;
   * DestroyInPlace local_storage's `static_cast<T_*>(ptr)->~T_()`.
   */
  datatype Deleter = NullDeleter | NoOpDelete | HeapDelete | DestroyInPlace

  /**
   * `copy_t`, as installed by the storages:
   * NullCopier         the zero-initialised pointer of a default `void_ptr`;
   * IdentityCopy       non_owning_storage: the same pointer back;
   * NewFromMoved       dynamic_storage: `new T_{std::move(*ptr)}`;
   * ReconstructInPlace local_storage: `new (ptr) T_{std::move(*ptr)}`.
   */
  datatype Copier = NullCopier | IdentityCopy | NewFromMoved | ReconstructInPlace

  /**
   * The memory: the live objects by address, the addresses whose object's
   * destructor has run (in order), and the next address never handed out.
   */
  datatype Mem = Mem(live: map<Addr, Obj>, destroyed: seq<Addr>, next: Addr) {
    ghost predicate Valid()
    {
      next > 0 && forall a :: a in live ==> 0 < a < next
    }
  }

  const Empty: Mem := Mem(map[], [], 1)

  /** Storage that has never been used: a stack variable, a buffer member, a `new` allocation. */
  function FreshStorage(m: Mem): (r: (Mem, Addr))
    requires m.Valid()
    ensures r.0.Valid()
    ensures r.1 != Null && r.1 !in m.live && r.1 >= m.next
    ensures r.0.live == m.live && r.0.destroyed == m.destroyed && r.0.next > r.1
  {
    (m.(next := m.next + 1), m.next)
  }

  /** Constructs `o` in storage at `a` (placement new, or the object a caller declares). */
  function Place(m: Mem, a: Addr, o: Obj): (r: Mem)
    requires m.Valid() && 0 < a < m.next
    ensures r.Valid()
  {
    m.(live := m.live[a := o])
  }

  /** `new T_{o}`: fresh storage holding `o`. */
  function Allocate(m: Mem, o: Obj): (r: (Mem, Addr))
    requires m.Valid()
    ensures r.0.Valid()
    ensures r.1 != Null && r.1 !in m.live
    ensures r.0.live == m.live[r.1 := o] && r.0.destroyed == m.destroyed
  {
    var (m1, a) := FreshStorage(m);
    (Place(m1, a, o), a)
  }

  /** Ends the life of the object at `a` and records that its destructor ran. */
  function Destruct(m: Mem, a: Addr): (r: Mem)
    requires m.Valid()
    ensures r.Valid()
  {
    m.(live := m.live - {a}, destroyed := m.destroyed + [a])
  }

  /**
   * Calls the deleter on `p`.  `delete` of a null pointer does nothing; the
   * in-place destructor runs on whatever pointer it is given, null included.
   */
  function Delete(d: Deleter, m: Mem, p: Addr): (r: Mem)
    requires d != NullDeleter && m.Valid()
    ensures r.Valid()
  {
    match d
    case NoOpDelete => m
    case HeapDelete => if p == Null then m else Destruct(m, p)
    case DestroyInPlace => Destruct(m, p)
  }

  /** What a copier needs: the two that dereference `p` need an object there. */
  ghost predicate CanCopy(c: Copier, m: Mem, p: Addr)
  {
    c != NullCopier && (c == NewFromMoved || c == ReconstructInPlace ==> p in m.live)
  }

  /**
   * Calls the copier on `p` and returns the memory and the pointer it yields.
   * dynamic_storage's copier move-constructs a new heap object, so its source
   * is left moved-from; local_storage's reconstructs the object over itself
   * and yields the very address it was given.
   */
  function Copy(c: Copier, m: Mem, p: Addr): (r: (Mem, Addr))
    requires m.Valid() && CanCopy(c, m, p)
    ensures r.0.Valid()
  {
    match c
    case IdentityCopy => (m, p)
    case NewFromMoved =>
      var o := m.live[p];
      Allocate(m.(live := m.live[p := MovedFrom(o)]), o)
    case ReconstructInPlace => (m, p)
  }

  /** The no-op deleter and identity copier never touch memory: a non-owning copy views the caller's object. */
  lemma NonOwningAliases(m: Mem, p: Addr)
    requires m.Valid()
    ensures Copy(IdentityCopy, m, p) == (m, p)
    ensures Delete(NoOpDelete, m, p) == m
  {
  }

  /**
   * A dynamic copy is a second, independent object with the source's value;
   * deleting the copy leaves the (moved-from) source alive, and deleting the
   * source leaves the copy alive.
   */
  lemma {:induction false} DynamicCopyIndependent(m: Mem, p: Addr)
    requires m.Valid() && p in m.live
    ensures var (m1, q) := Copy(NewFromMoved, m, p);
      q != p && q !in m.live && m1.live[q] == m.live[p] &&
      m1.live[p] == MovedFrom(m.live[p]) &&
      p in Delete(HeapDelete, m1, q).live && q in Delete(HeapDelete, m1, p).live
  {
    var (m1, q) := Copy(NewFromMoved, m, p);
    assert q !in m.live;
  }

  /**
   * A local copy is the same object: the copier yields the source's address and
   * leaves the object as it was, so destroying the source and then the copy
   * runs the destructor on that one address twice.
   */
  lemma LocalCopyAliases(m: Mem, p: Addr)
    requires m.Valid() && p in m.live
    ensures Copy(ReconstructInPlace, m, p) == (m, p)
    ensures var twice := Delete(DestroyInPlace, Delete(DestroyInPlace, m, p), p);
      p !in twice.live && twice.destroyed == m.destroyed + [p, p]
  {
  }

  /** Destroying a moved-from handle: `delete nullptr` is harmless, the in-place destructor still runs. */
  lemma DeleteNull(m: Mem)
    requires m.Valid()
    ensures Delete(HeapDelete, m, Null) == m
    ensures Delete(DestroyInPlace, m, Null).destroyed == m.destroyed + [Null]
  {
  }

  /** No deleter ever brings an object to life or alters one it does not destroy. */
  lemma DeleteOnlyRemoves(d: Deleter, m: Mem, p: Addr, a: Addr)
    requires d != NullDeleter && m.Valid()
    ensures a in Delete(d, m, p).live ==> a in m.live && Delete(d, m, p).live[a] == m.live[a]
    ensures a in m.live && a != p ==> a in Delete(d, m, p).live
  {
  }

  /**
   * The memory as one mutable object that all handles share, so that an object
   * reached through two handles is the same object.
   */
  class Heap {
    var mem: Mem

    constructor ()
      ensures mem == Empty && mem.Valid()
    {
      mem := Empty;
    }

    /** Storage that no object occupies yet. */
    method Reserve() returns (a: Addr)
      requires mem.Valid()
      modifies this
      ensures mem.Valid() && (mem, a) == FreshStorage(old(mem))
    {
      var r := FreshStorage(mem);
      mem, a := r.0, r.1;
    }

    /** An object placed at storage `a`. */
    method Construct(a: Addr, o: Obj)
      requires mem.Valid() && 0 < a < mem.next
      modifies this
      ensures mem.Valid() && mem == Place(old(mem), a, o)
    {
      mem := Place(mem, a, o);
    }

    /** `new T_{o}`. */
    method New(o: Obj) returns (a: Addr)
      requires mem.Valid()
      modifies this
      ensures mem.Valid() && (mem, a) == Allocate(old(mem), o)
    {
      var r := Allocate(mem, o);
      mem, a := r.0, r.1;
    }

    /** Invokes a `del_t`. */
    method CallDelete(d: Deleter, p: Addr)
      requires mem.Valid() && d != NullDeleter
      modifies this
      ensures mem.Valid() && mem == Delete(d, old(mem), p)
    {
      mem := Delete(d, mem, p);
    }

    /** Invokes a `copy_t`. */
    method CallCopy(c: Copier, p: Addr) returns (q: Addr)
      requires mem.Valid() && CanCopy(c, mem, p)
      modifies this
      ensures mem.Valid() && (mem, q) == Copy(c, old(mem), p)
    {
      var r := Copy(c, mem, p);
      mem, q := r.0, r.1;
    }

    /** Replaces the object at a live address (a capability that mutates `*self`). */
    method Update(a: Addr, o: Obj)
      requires mem.Valid() && a in mem.live
      modifies this
      ensures mem.Valid() && mem == old(mem).(live := old(mem).live[a := o])
    {
      mem := mem.(live := mem.live[a := o]);
    }
  }
}
