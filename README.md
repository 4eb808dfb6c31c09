# boost-ext/te engine, modelled in Dafny

This project models the run-time-polymorphism engine of boost-ext/te: the
single header `include/boost/te.hpp`. It proves properties of that model. The
header is made of four pieces, and each gets its own module:

- **Registry** (`registry.dfy`): the slot registry.
  - `mappings<I, N>::set` installs an entry (an expression and its argument
    types) at index N of interface I.
  - `mappings_size<I>` is the length of the unbroken run of set indices
    starting at 1.
  - Every new `te::call` site registers at size + 1.
  - `extends<Base>(derived)` copies Base's entries 1..size(Base) into Derived.
  - In C++ this happens at compile time through friend injection. Here it is
    a `SlotRegistry` object, and its methods are the registration steps taken
    in instantiation order.
- **Memory and Handle** (`memory.dfy`, `handle.dfy`):
  - `Memory` is an abstract memory: live objects by address, a log of the
    destructor runs and a fresh-address counter.
  - The `del_t` and `copy_t` lambdas are small datatypes with one constructor
    per lambda the header installs.
  - `Handle.VoidPtr` is `detail::void_ptr`: its three fields, its default,
    copy and move constructors, its assignments, both `reset`s and its
    destructor.
- **Storage** (`storage.dfy`): `non_owning_storage`, `dynamic_storage` and
  `local_storage<Size>`. Each is a constructor that installs
  (pointer, deleter, copier) through the three-argument `reset`.
- **Vtable** (`vtable.dfy`): the dispatch tables.
  - `static_vtable` hands out a function-local static array. There is one
    per (concrete type T, slot count K), whatever the interface, so the
    `Vtables` object keys its arrays by (T, K).
  - The `init` fold writes slot N - 1 with the thunk for entry N. Every
    construction rewrites all K slots, so a table holds the thunks of the
    interface that built a value from T last. A ghost map, `owner`, records
    that interface for each table.
  - `call_impl` applies slot N - 1 to the stored pointer.
  - The same module also defines the table store with the interface in the
    key (`Install`), which is what the Findings section calls intended.
- **Erased** (`poly.dfy`): `te::poly<I, TStorage>`.
  - The converting constructor runs in C++'s member order: storage first, then
    the table, then `init`.
  - Copy and move are member-wise.
  - `poly = T{...}` builds a temporary, move-assigns it and destroys it.
  - A call dispatches through the table, to the expression of the table's
    `owner`.
- **Scenarios** (`scenarios.dfy`): the header's tests played through the model.
  Each scenario's `ensures` holds the values the test expects.

The header keeps these oddities, and the model keeps them too:

- `dynamic_storage`'s copier move-constructs from its source
  (include/boost/te.hpp:162-164).
- `local_storage`'s copier reconstructs the object over itself and returns the
  same address, so a copy aliases the original (include/boost/te.hpp:176-177).
- A moved-from local handle still runs the in-place destructor, on null.
- Two interfaces with the same slot count over one concrete type share a
  table, so building the second redirects values of the first
  (include/boost/te.hpp:189-194; see Findings).
- test/te.cpp:201-210 and test/te.cpp:242-251 expect copying a `poly` over a
  move-only payload to throw. Every `void_ptr` operation is `noexcept`
  (include/boost/te.hpp:85-133), and both copiers move rather than copy. The
  copy therefore succeeds: under dynamic storage it leaves the source
  moved-from, and under local storage it aliases the source. The model follows
  the header: `CopyAssign` has no failure case.

Memory errors are not flagged as errors. A double destruction, or a destructor
run on null, shows up as entries in the `destroyed` log. The undefined
behaviour that preconditions exclude instead is listed under "Left out".

Some behaviour comes in from outside the model:

- What an interface's expression does to an object is a parameter, the
  `Behavior` function. The scenarios instantiate it with the test types' member
  functions.
- A stream is the string an expression writes.
- Interfaces, types and expressions are numbered identifiers.

## Model

| member | source | states |
|---|---|---|
| Registry.SizeFrom | include/boost/te.hpp:39-48 | indices n .. n+r-1 of the interface are all set and index n+r is not: the result is the length of the unbroken run from n |
| Registry.Size | include/boost/te.hpp:50-53 | indices 1..r are set and r+1 is not: the run starts at index 1 |
| Registry.SizeFromUnique | include/boost/te.hpp:39-48 | any r with a set run n..n+r-1 followed by an unset index is exactly the size from n |
| Registry.SizeFromAgree | include/boost/te.hpp:39-48 | the size from n depends only on which indices >= n of that interface are set |
| Registry.SizeAtLeast | include/boost/te.hpp:50-53 | a set run 1..r makes the size at least r |
| Registry.SizeMonotone | include/boost/te.hpp:30-53 | adding mappings never shrinks any interface's size |
| Registry.SizeIgnores | include/boost/te.hpp:50-53 | setting index 0, or any index of another interface, leaves the size unchanged |
| Registry.SizeAfterAppend | include/boost/te.hpp:279-288 | setting index size+1 makes the size size + 1 + the length of the run that followed the gap |
| Registry.SizeAfterAppendDense | include/boost/te.hpp:279-288 | with nothing set at size+2, registering at size+1 grows the size by exactly one |
| Registry.Lookup | include/boost/te.hpp:30-37 | `get(mappings<I, N>)` is defined exactly when the key is set, and yields the installed entry |
| Registry.LookupAfterSet | include/boost/te.hpp:30-37 | after setting (I, N), lookup there yields the entry and every other key's lookup is unchanged |
| Registry.CopyPrefixStep | include/boost/te.hpp:263-268 | one more step of the `extends_impl` fold extends the copied prefix by one index |
| Registry.CopyPrefixEntries | include/boost/te.hpp:263-268 | after the `extends_impl` fold over 1..n, Derived's indices 1..n hold Base's entries at the same index, every other binding is kept, and no other key is bound |
| Registry.ExtendCompatible | include/boost/te.hpp:263-268 | true exactly when extending keeps every existing binding, that is, when no index 1..size(Base) of Derived already holds a different entry |
| Registry.Extended | include/boost/te.hpp:290-294 | Derived's indices 1..size(Base) hold Base's entries, and every binding outside them is kept |
| Registry.ExtendedEntries | include/boost/te.hpp:263-268 | extending keeps every existing mapping, puts Base's entry k at Derived's index k for k in 1..size(Base), and adds no other key |
| Registry.ExtendedSize | include/boost/te.hpp:290-294 | after `extends<Base>(d)` Derived's size is at least Base's, and Base's size is unchanged |
| Registry.ExtendedSizeExact | include/boost/te.hpp:290-294 | with nothing registered for Derived past size(Base), Derived's size is exactly Base's |
| Registry.ExtendedThenCall | include/boost/te.hpp:279-294 | a Derived that extends Base and then adds its own call site gets Base's entries at 1..size(Base) and the new site at size(Base)+1, and grows to size(Base)+1 |
| Registry.SlotRegistry.constructor | include/boost/te.hpp:30-37 | the registry starts with no mapping and no call site |
| Registry.SlotRegistry.ValidAfterGrowth | include/boost/te.hpp:30-53 | every registered site keeps its slot, inside its interface's run, as the table grows |
| Registry.SlotRegistry.Set | include/boost/te.hpp:33-36 | `set` succeeds exactly when the key is unset or already holds the same entry; on success the key holds the entry, otherwise (a redefinition) nothing changes |
| Registry.SlotRegistry.Register | include/boost/te.hpp:254-260 | a first-seen call site is installed at size(I)+1 and remembered; a seen site keeps its earlier slot; either way the slot lies in the run and holds the site's entry, and the table only grows |
| Registry.SlotRegistry.Extends | include/boost/te.hpp:290-294 | succeeds exactly when no index 1..size(Base) of Derived holds a different entry; then the table becomes the extended table, otherwise nothing changes |
| Registry.SlotRegistry.CopyEntries | include/boost/te.hpp:263-268 | the fold over 1..size(Base) leaves exactly the extended table |
| Memory.FreshStorage | include/boost/te.hpp:182 | a storage address that holds no object, past every address in use, with nothing else changed |
| Memory.Place | include/boost/te.hpp:174 | placement new keeps the memory well formed |
| Memory.Allocate | include/boost/te.hpp:160 | `new T_{o}` yields a non-null address that held no object and now holds `o`, and touches nothing else |
| Memory.Destruct | include/boost/te.hpp:175 | ending an object's life keeps the memory well formed |
| Memory.Delete | include/boost/te.hpp:147-183 | every deleter keeps the memory well formed |
| Memory.Copy | include/boost/te.hpp:147-183 | every copier keeps the memory well formed |
| Memory.NonOwningAliases | include/boost/te.hpp:151-152 | the no-op deleter and identity copier leave memory alone and return the pointer they are given |
| Memory.DynamicCopyIndependent | include/boost/te.hpp:160-164 | the dynamic copier yields a new address holding the source's value, leaves the source moved-from, and the two survive each other's deletion |
| Memory.LocalCopyAliases | include/boost/te.hpp:174-178 | the local copier yields the same address and leaves the object unchanged, so destroying source and copy runs the destructor twice on one address |
| Memory.DeleteNull | include/boost/te.hpp:159-178 | `delete` of null does nothing, while the in-place destructor runs on null |
| Memory.DeleteOnlyRemoves | include/boost/te.hpp:147-183 | no deleter creates or alters an object, and none removes an object other than the one at its pointer |
| Memory.Heap.Reserve | include/boost/te.hpp:182 | claims fresh storage |
| Memory.Heap.Construct | include/boost/te.hpp:174 | the object is placed at the given storage |
| Memory.Heap.New | include/boost/te.hpp:160 | the object is allocated at a fresh address |
| Memory.Heap.CallDelete | include/boost/te.hpp:125 | `del(ptr)`: the memory becomes what the deleter makes of it |
| Memory.Heap.CallCopy | include/boost/te.hpp:98 | `copy(ptr)`: the memory and the pointer are what the copier yields |
| Memory.Heap.Update | include/boost/te.hpp:244-245 | an expression applied to `*self` replaces the object at that address and nothing else |
| Handle.VoidPtr.constructor | include/boost/te.hpp:86 | the default handle is null with null deleter and copier |
| Handle.VoidPtr.CopyOf | include/boost/te.hpp:97-98 | the pointer is whatever `other.copy(other.ptr)` yields, and the deleter and copier are taken from `other` |
| Handle.VoidPtr.MoveFrom | include/boost/te.hpp:100-105 | all three fields are taken over and the source's pointer is left null |
| Handle.VoidPtr.Reset | include/boost/te.hpp:124-127 | runs the old deleter on the old pointer, then holds the new pointer with the same deleter and copier |
| Handle.VoidPtr.Install | include/boost/te.hpp:129-133 | overwrites all three fields and calls no deleter |
| Handle.VoidPtr.Destroy | include/boost/te.hpp:122 | the destructor runs the deleter on the held pointer and leaves it null |
| Handle.VoidPtr.CopyAssign | include/boost/te.hpp:107-112 | copies `other`'s payload first, then destroys the old one, then takes `other`'s deleter and copier |
| Handle.VoidPtr.MoveAssign | include/boost/te.hpp:114-120 | destroys the old payload, takes `other`'s pointer, deleter and copier, and nulls `other`'s pointer (so self-assignment ends null) |
| Storage.MaterializeInstalls | include/boost/te.hpp:147-183 | each strategy installs its own deleter and copier and points the handle at a live object of the argument's type |
| Storage.MaterializeOwnership | include/boost/te.hpp:147-183 | non-owning storage views the caller's object and never destroys it; dynamic storage puts a copy in fresh memory; local storage puts it in its own buffer; an owning deleter ends the object |
| Storage.Materialize | include/boost/te.hpp:147-183 | whatever the strategy, materialising the argument keeps the memory well formed and runs no destructor |
| Storage.NonOwningStorage | include/boost/te.hpp:147-154 | the handle holds the caller's address with the no-op deleter and the identity copier |
| Storage.DynamicStorage | include/boost/te.hpp:156-166 | the handle holds a freshly allocated copy with the heap deleter and the new-from-moved copier |
| Storage.LocalStorage | include/boost/te.hpp:168-183 | requires sizeof(T) <= Size; the object is placed in the buffer and the handle holds the buffer's address with the in-place destructor and the reconstructing copier |
| Storage.Store | include/boost/te.hpp:249 | the storage member's constructor does what the strategy's `Materialize` says |
| Vtable.Thunks | include/boost/te.hpp:237-239 | the table built for a slot count K has K slots |
| Vtable.InvokeBuilt | include/boost/te.hpp:259-260 | invoking slot N of a table built for I from T applies entry N of I to the object directly |
| Vtable.ThunksGrow | include/boost/te.hpp:237-239 | a built table stays right as the registry grows |
| Vtable.InstallShared | include/boost/te.hpp:189-194 | building a `poly<I>` from a T writes I's thunks into the table of (T, size(I)), whichever interface filled it before; every other table is kept and no other key appears |
| Vtable.InstallSharedMatches | include/boost/te.hpp:189-194 | every table keeps holding the thunks of the interface that last filled it, even across registry growth, and the rebuilt table's filler becomes I |
| Vtable.SharedTableClobbered | include/boost/te.hpp:189-194 | with the table keyed by (T, size), building two interfaces of equal size over one type leaves the first one's values dispatching to the second interface's expressions |
| Vtable.SharedTableExample | include/boost/te.hpp:189-194 | a concrete instance: interfaces 1 and 2 with one slot each over type 7 end up sharing interface 2's table |
| Vtable.Install | include/boost/te.hpp:189-194 | with the interface in the key, building writes only the table of (I, T, size(I)), with I's thunks, and keeps every other table |
| Vtable.InstallPreservesMatches | include/boost/te.hpp:189-194 | with one table per (interface, type, size), building any table keeps every table right, even across registry growth, and leaves all other tables untouched |
| Vtable.Init | include/boost/te.hpp:237-247 | the `init` fold leaves slot N-1 holding the thunk for entry N of I on T, for every N in 1..K |
| Vtable.Vtables.constructor | include/boost/te.hpp:192 | no static table exists before the first construction |
| Vtable.Vtables.ValidAfterGrowth | include/boost/te.hpp:237-239 | every built table stays right as the registry grows |
| Vtable.Vtables.Acquire | include/boost/te.hpp:189-194 | the first request for (T, K) allocates a zero-filled table of K slots; later requests get the same array back; the requesting interface is recorded as the table's filler |
| Vtable.Vtables.Build | include/boost/te.hpp:227-247 | acquires the table of (T, size(I)) and rewrites every slot: the contents become `InstallShared` of the old contents, I becomes that table's filler, every other table is unchanged, and every table still holds its filler's thunks |
| Erased.StoreArgument | include/boost/te.hpp:232 | the storage member fills a fresh handle exactly as its strategy says |
| Erased.Construct | include/boost/te.hpp:226-240 | the member initialisers in declaration order: the object is materialised per the storage, then the table of (T, size(I)) is acquired and filled with I's thunks, and I becomes its filler |
| Erased.Poly.constructor | include/boost/te.hpp:210-240 | requires size(I) > 0; the object is materialised per the storage, the handle points at an object of T, and the shared table of (T, size(I)) is rewritten with I's thunks and records I as its filler, with every other table kept |
| Erased.Poly.CopyOf | include/boost/te.hpp:216 | the handle is copy-constructed and the table pointer is copied, not rebuilt |
| Erased.Poly.MoveFrom | include/boost/te.hpp:218 | the handle is moved (the source is left null) and the table pointer is copied |
| Erased.Poly.Call | include/boost/te.hpp:254-260 | calling slot N applies entry N of the interface that last filled the table to the held object: the result, the output and the object's new value are that expression's, and nothing else in memory changes |
| Erased.Poly.Destroy | include/boost/te.hpp:198-201 | destroying the poly runs its handle's deleter on the held pointer |
| Erased.Poly.CopyAssign | include/boost/te.hpp:217 | copy-assigns the handle and takes the other's table pointer |
| Erased.Poly.MoveAssign | include/boost/te.hpp:219 | move-assigns the handle and takes the other's table pointer; the old payload is destroyed, and moving a value into itself leaves it holding null |
| Erased.Poly.TakeOver | include/boost/te.hpp:219 | the temporary is move-assigned in and then destroyed, so its deleter runs on null |
| Erased.Poly.Temporary | include/boost/te.hpp:210-240 | the temporary of `p = T{...}`: a new `poly` of the same interface and storage, built from the argument by the converting constructor |
| Erased.Poly.Assign | include/boost/te.hpp:210-219 | `p = T{...}`: the handle points at the new object, the pointer designates the table of (T, size(I)), which now holds I's thunks and records I as its filler, the old payload is destroyed by the old deleter and the temporary's deleter runs on null |
| Scenarios.Semantics | test/te.cpp:41-57 | what each test lambda does on each payload type (also test/te.cpp:352-373, 409-418 and 652-667, plus the `Person` type of the shared-table scenario): no lambda changes an object's type, only the mutable `draw` on a `SquareMutable` changes an object (it increments `value`), and only `add` returns a non-zero result |
| Scenarios.CompileOne | include/boost/te.hpp:279-288 | a single call site of an interface gets slot 1 and the interface's size becomes 1 |
| Scenarios.CompileTwo | include/boost/te.hpp:279-288 | two distinct call sites of an interface get slots 1 and 2 in first-use order |
| Scenarios.CompileDisjoint | include/boost/te.hpp:279-288 | call sites of two different interfaces each get slot 1 of their own interface |
| Scenarios.Start | include/boost/te.hpp:192 | a run starts with no table built and no live object |
| Scenarios.Launch | include/boost/te.hpp:279-288 | a compiled one-site program at the start of its run |
| Scenarios.Erase | include/boost/te.hpp:210-240 | an owning `poly` holds a new object equal to the value, its table was last filled by its own interface, and every other object and table is left alone |
| Scenarios.Hold | include/boost/te.hpp:210-240 | a one-site program holding one owning `poly` of the given value |
| Scenarios.HoldAddable | test/te.cpp:352-362 | the tests' `Addable` has `add(i)` at slot 1 and `add(a, b)` at slot 2, and the program holds one owning `poly<Addable>` of the given value |
| Scenarios.Reassign | include/boost/te.hpp:204-219 | after `p = T{...}` with dynamic storage, `p` holds the new value and the old object is gone |
| Scenarios.Duplicate | include/boost/te.hpp:216 | a copy of an owning `poly` dispatches through the same table and sees an equal object: a different one under dynamic storage, the same one under local storage |
| Scenarios.Draw | test/te.cpp:41-57 | `draw` writes the shape's name and changes no object |
| Scenarios.DrawTagged | test/te.cpp:409-419 | the versioned `draw(out, v)` writes v, "::", the shape's name and a space, and changes no object |
| Scenarios.DrawMutable | test/te.cpp:652-667 | DrawableMutable's `self.draw(out)` on a `SquareMutable` writes "Square Mutable" and increments its `value`; on another shape it writes that shape's name and changes nothing |
| Scenarios.AddOne | test/te.cpp:352-373 | `add(i)` returns i + i_ |
| Scenarios.AddTwo | test/te.cpp:352-373 | `add(a, b)` returns (a + b) + i_ |
| Scenarios.EraseAndReassign | test/te.cpp:59-74 | a `poly<Drawable>` of a Square draws "Square"; after `= Circle{}` it draws "Circle" and the square is destroyed |
| Scenarios.Overloads | test/te.cpp:375-379 | `add(3)` and `add(1, 2)` on `Calc{2}` both give 5, through two slots |
| Scenarios.DynamicCopy | test/te.cpp:608-612 | with dynamic storage, `add(40, 2)` through slot 2 of the two-overload `Addable` gives 42 on the original and on its copy, which is a different object |
| Scenarios.DynamicMove | test/te.cpp:614-615 | the moved-to value gives 42 for `add(40, 2)` through slot 2, owns the very object, and leaves the source null |
| Scenarios.LocalCopy | test/te.cpp:619-623 | with `local_storage<16>`, `add(40, 2)` through slot 2 on `Calc{4}` gives 46 on the original and on its copy, which aliases the original's buffer |
| Scenarios.NonOwningMutation | test/te.cpp:681-694 | a non-owning `poly` over `SquareMutable b` writes "Square Mutable" and increments `b.value` itself, to 1 |
| Scenarios.CallAfterRebuild | include/boost/te.hpp:237-260 | once another `poly` of an interface with the same slot count has been built from the same type, a call through slot 1 applies that interface's expression to the held object |
| Scenarios.Greet | include/boost/te.hpp:254-260 | `hello(out)` or `bye(out)` on a `poly` over a Person writes "Hello" or "Bye", by the entry its own interface installed, and changes no object |
| Scenarios.SharedTableOverwrite | include/boost/te.hpp:189-247 | a `poly<Greeter>` of a Person says "Hello"; after a `poly<Leaver>` of a Person is built from an rvalue too, the first one's `hello` runs `Person::bye` and says "Bye" |
| Scenarios.OverrideBase | test/te.cpp:390-394 | after `extends<v1::Drawable>` for v2, v1 and v2 have one slot each, both holding v1's expression |
| Scenarios.OverrideSlots | test/te.cpp:381-405 | v1 and v2 have one slot holding v1's expression; v3 inherits it at slot 1 and registers its own `draw` at slot 2 |
| Scenarios.OverrideTable | test/te.cpp:381-405 | the registry of the overrides program with those slot counts and entries |
| Scenarios.DrawTemporary | test/te.cpp:421-425 | `draw(te::poly<I>{T{}}, str)` through a versioned slot writes the tag, "::", the shape's name and a space |
| Scenarios.DrawBoth | test/te.cpp:421-426 | drawing a Circle and then a Square writes "tag::Circle tag::Square " |
| Scenarios.Overrides | test/te.cpp:407-442 | in one run, `poly<v1::Drawable>` and `poly<v2::Drawable>` both write "v1::Circle v1::Square ", and `poly<v3::Drawable>` writes "v3::Circle v3::Square " |
| Scenarios.MappingsSize | test/te.cpp:29-39 | the size is 0 with nothing set, is 3 after indices 1-3 are set, and stays 3 when index 0 is set too |

## Left out

- Type-level checks that have no run-time behaviour are not modelled:
  `is_complete`, `requires__`/`requires_impl`, the `var`/`conceptify` concepts,
  the `REQUIRES` macro and `expr_wrapper`'s cast of an empty lambda. The ones
  with an effect are kept as preconditions: size(I) > 0 on the converting
  constructor, and sizeof(T) <= Size for local storage.
- The converting constructor's `enable_if` is not modelled: the model never
  converts one `poly` into another. The construction of a `poly<Addable>` from
  a moved `poly<Addable, local_storage<16>>` (test/te.cpp:625) is such a
  conversion, and it is therefore not modelled.
- The static asserts that T is destructible and copy- or move-constructible are
  not modelled: every modelled object can be copied and moved.
- Raw memory is not modelled: `reinterpret_cast` of function pointers,
  alignment, object sizes, and the buffer member being `std::aligned_storage`
  itself rather than its `::type`. Memory is abstract addresses, and a
  `Source.Val` carries its `sizeof` as a number.
- Storage lifetime is not modelled. Only object lifetime is. A handle that
  points into the buffer of a `local_storage` that has gone away, after a move
  or after `Assign` from a temporary, still sees the object.
- Vtable.Vtables.Build: the table's key holds the concrete type after
  `std::decay_t`. The header instantiates `static_vtable` with the forwarded
  `T` (include/boost/te.hpp:189-191 and 231), so in C++ a `poly` built from an
  lvalue and one built from an rvalue of the same type use two different
  arrays. The model gives them one array, so it also reports an overwrite
  between two such values that the program does not perform.
- The template constructor `void_ptr(T *ptr, del_t del, copy_t copy)`,
  with its default deleter and copier (include/boost/te.hpp:88-95), is not
  modelled. The header itself never calls it: every handle starts from the
  default constructor and is filled by the three-argument `reset`.
- Three undefined-behaviour cases are excluded by preconditions rather than
  logged in `destroyed`:
  - Memory.Copy, and every copy built on it, requires `Memory.CanCopy`. The
    copier must not be null, and the dynamic and local copiers dereference
    their source, so an object must live there (include/boost/te.hpp:163
    and 177).
  - Memory.Delete, Handle.VoidPtr.Reset, Handle.VoidPtr.Destroy,
    Handle.VoidPtr.CopyAssign and Handle.VoidPtr.MoveAssign require a deleter
    other than `NullDeleter`. A default-constructed `void_ptr` holds a null
    `del`, and calling it (include/boost/te.hpp:125) is undefined. No `poly`
    holds such a handle once its storage is built.
  - Erased.Poly.Call requires `handle.ptr in heap.mem.live`, so it excludes
    calling through a handle whose payload is null or destroyed, which
    dereferences it (include/boost/te.hpp:259-260). Two such `poly`s are
    reachable in the model: one left null by `p = std::move(p)`, and one
    after `p = p` under local storage. There, `reset(copy(ptr))`
    reconstructs the object at `ptr` and then `del(ptr)` destroys it, so the
    handle ends on a dead object.
- Erased.Poly.Call models a call through a slot that another interface filled
  as a well-defined call of the filler's expression, even when that entry's
  argument types or return type differ from the caller's. The header casts
  the slot to the caller's `R (*)(void *, Ts...)` (include/boost/te.hpp:259),
  and calling a function through a pointer of another type is undefined. The
  model does not compare the two signatures.
- Memory.Copy treats the local copier's self-reconstruction,
  `new (ptr) T_{std::move(*ptr)}` (include/boost/te.hpp:176-178), as leaving
  the object unchanged. In C++, constructing over the object ends its lifetime
  before the move reads it, which is undefined. The result matches the model
  only for trivially copyable payloads, such as the tests' `Calc`.
  Memory.LocalCopyAliases inherits this.
- The remaining undefined behaviour the model reaches is logged, not
  reported: a double destruction, or a destructor run on null, is recorded
  in `destroyed`.
- `std::ostream` output is the string an expression returns. What each
  expression does is the `Behavior` parameter.
- Compile-time evaluation is not modelled. The friend-injection registry is a
  state machine run before the program, and `Poly` takes the finished table.
  A redefinition that would not compile is an `ok == false` result that
  changes nothing.
- `sbo_storage`, `shared_storage`, the one-argument storage constructors, and
  throwing copies of move-only payloads appear only in the tests and are not
  defined in the header. Their tests are not modelled.
- Containers of `poly` are not modelled: the `std::vector` in
  test/te.cpp:337-350 and test/te.cpp:685. NonOwningMutation constructs the
  non-owning value directly. The vector's copy of it goes through the identity
  copier, which `Memory.NonOwningAliases` shows returns the same pointer.
- `Handle.VoidPtr.Get` has no contract: it is the field read and nothing else.
- `Vtable.Invoke` has no contract of its own: it applies a slot's thunk, and
  what that means is stated by `Vtable.InvokeBuilt` and `Erased.Poly.Call`.
  `Registry.CopyPrefix` is stated by `Registry.CopyPrefixEntries` and
  `Registry.CopyPrefixStep`.
- `example/injection.cpp` depends on boost/di, which is not part of this model.
  The other examples only print, and `conanfile.py` is packaging.
- Concurrency is not modelled; the header has none.
- Scenarios.OverrideSlots builds the overrides registry from the registry's
  functions rather than by driving `SlotRegistry`. `SlotRegistry.Extends` and
  `SlotRegistry.Register` are proved against those same functions.
- Scenarios.DrawTemporary does not destroy the temporary `poly` at the end of
  the full expression. Its destructor would only delete the object, which the
  test never reads again.
- The tag a versioned `draw` writes ("v1" or "v3") is passed by the scenario,
  because the argument list of a `te::call` site is not part of a registry
  entry here.

## Findings

| source | as written | input that shows it | evidently intended | confidence | as-written member | corrected member |
|---|---|---|---|---|---|---|
| include/boost/te.hpp:189-194 | `static_vtable` keeps one static array per (T, Size), whatever the interface, and each `poly` construction rewrites all its slots | interfaces `Greeter { hello(out) }` and `Leaver { bye(out) }`, each with one `te::call` site, and a type `Person` whose `hello` writes "Hello" and `bye` writes "Bye": `te::poly<Greeter> a{Person{}}; te::poly<Leaver> b{Person{}}; a.hello(out)` writes "Bye" | one table per (interface, concrete type), so building one interface's table never changes another's | not executed | Vtable.SharedTableClobbered, Scenarios.SharedTableOverwrite | Vtable.InstallPreservesMatches |

The stateful model, `Vtable.Vtables` and `Erased.Poly`, follows the header as
written: its tables are keyed by (T, K), and a call reaches the table's last
filler. The intended store is `Vtable.Install`, keyed by (I, T, K), and
`Vtable.InstallPreservesMatches` proves that with it no construction changes
what another interface's values dispatch to.

No test in test/te.cpp shows the overwrite. Where interfaces of one size
share a table there, such as Drawable and the macro-declared Drawable over
Square (test/te.cpp:101-110), their lambdas call the same member, so an
overwritten slot behaves as before. DrawableMutable is non-owning and is built from lvalues, whose
forwarded type is a reference, so its tables are never the ones a `poly` built
from an rvalue uses.
