/**
 * `detail::void_ptr`: a raw pointer with the deleter and copier that give an
 * object of unknown type value semantics.  Every member is `noexcept` in the
 * header; none of them can fail here either.
 */
module Handle {
  import opened Memory

  class VoidPtr {
    var ptr: Addr
    var del: Deleter
    var copy: Copier

    /**
     * `void_ptr() noexcept = default`, value-initialised as the `ptr{}` member
     * of `poly_base`: a null pointer and two null function pointers.
     */
    constructor ()
      ensures ptr == Null && del == NullDeleter && copy == NullCopier
    {
      ptr, del, copy := Null, NullDeleter, NullCopier;
    }

    /** `reinterpret_cast<T*>(ptr)`: the address held. */
    function Get(): Addr
      reads this
    {
      ptr
    }

    /** The copy constructor: the new pointer is whatever `other.copy(other.ptr)` yields. */
    constructor CopyOf(other: VoidPtr, heap: Heap)
      requires heap.mem.Valid() && CanCopy(other.copy, heap.mem, other.ptr)
      modifies heap
      ensures heap.mem.Valid()
      ensures (heap.mem, ptr) == Copy(other.copy, old(heap.mem), other.ptr)
      ensures del == other.del && copy == other.copy
    {
      var q := heap.CallCopy(other.copy, other.ptr);
      ptr, del, copy := q, other.del, other.copy;
    }

    /** The move constructor: takes all three fields and nulls the source's pointer. */
    constructor MoveFrom(other: VoidPtr)
      modifies other
      ensures ptr == old(other.ptr) && del == old(other.del) && copy == old(other.copy)
      ensures other.ptr == Null && other.del == old(other.del) && other.copy == old(other.copy)
    {
      ptr, del, copy := other.ptr, other.del, other.copy;
      new;
      other.ptr := Null;
    }

    /** One-argument `reset`: runs the current deleter on the current pointer, then stores `newPtr`. */
    method Reset(newPtr: Addr, heap: Heap)
      requires heap.mem.Valid() && del != NullDeleter
      modifies this, heap
      ensures heap.mem.Valid() && heap.mem == Delete(old(del), old(heap.mem), old(ptr))
      ensures ptr == newPtr && del == old(del) && copy == old(copy)
    {
      heap.CallDelete(del, ptr);
      ptr := newPtr;
    }

    /** Three-argument `reset`: overwrites all three fields and calls no deleter. */
    method Install(newPtr: Addr, newDel: Deleter, newCopy: Copier)
      modifies this
      ensures ptr == newPtr && del == newDel && copy == newCopy
    {
      ptr, del, copy := newPtr, newDel, newCopy;
    }

    /** `~void_ptr()`: `reset()`, so the deleter runs on the held pointer (null after a move). */
    method Destroy(heap: Heap)
      requires heap.mem.Valid() && del != NullDeleter
      modifies this, heap
      ensures heap.mem.Valid() && heap.mem == Delete(old(del), old(heap.mem), old(ptr))
      ensures ptr == Null && del == old(del) && copy == old(copy)
    {
      Reset(Null, heap);
    }

    /**
     * Copy assignment: `reset(other.copy(other.ptr))`, then take other's deleter
     * and copier.  The copy is made first and the old payload destroyed after.
     */
    method CopyAssign(other: VoidPtr, heap: Heap)
      requires heap.mem.Valid() && del != NullDeleter && CanCopy(other.copy, heap.mem, other.ptr)
      modifies this, heap
      ensures heap.mem.Valid()
      ensures var (m1, q) := Copy(old(other.copy), old(heap.mem), old(other.ptr));
        heap.mem == Delete(old(del), m1, old(ptr)) && ptr == q
      ensures del == old(other.del) && copy == old(other.copy)
    {
      var q := heap.CallCopy(other.copy, other.ptr);
      Reset(q, heap);
      del := other.del;
      copy := other.copy;
    }

    /**
     * Move assignment: `reset(std::move(other.ptr))` destroys the old payload,
     * then the deleter and copier are taken over and `other.ptr` is nulled.
     * Assigning a handle to itself therefore leaves it null.
     */
    method MoveAssign(other: VoidPtr, heap: Heap)
      requires heap.mem.Valid() && del != NullDeleter
      modifies this, other, heap
      ensures heap.mem.Valid() && heap.mem == Delete(old(del), old(heap.mem), old(ptr))
      ensures ptr == (if other == this then Null else old(other.ptr))
      ensures del == old(other.del) && copy == old(other.copy)
      ensures other.ptr == Null && other.del == old(other.del) && other.copy == old(other.copy)
    {
      var p := other.ptr;
      Reset(p, heap);
      del := other.del;
      copy := other.copy;
      other.ptr := Null;
    }
  }
}
