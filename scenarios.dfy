/**
 * Client code of the library, as its tests use it: interfaces whose
 * member functions each contain one `te::call` site, concrete types that
 * provide those members, and `poly` values built from them.  Each method
 * plays one test through the model and states what the test expects.
 */
module Scenarios {
  import opened Registry
  import opened Memory
  import opened Handle
  import opened Storage
  import opened Vtable
  import opened Erased

  // Interfaces.
  const Drawable: Iface := 1
  const Addable: Iface := 2
  const DrawableMutable: Iface := 3

  const V1Drawable: Iface := 4
  const V2Drawable: Iface := 5
  const V3Drawable: Iface := 6

  /** Two one-slot interfaces whose lambdas call different members: `self.hello(out)` and `self.bye(out)`. */
  const Greeter: Iface := 7
  const Leaver: Iface := 8

  // Concrete types.
  const Square: TypeId := 1
  const Circle: TypeId := 2
  const Triangle: TypeId := 3
  const Calc: TypeId := 4
  const SquareMutable: TypeId := 5
  /** A type with both `hello(out)`, which writes "Hello", and `bye(out)`, which writes "Bye". */
  const Person: TypeId := 6

  // The lambdas at the `te::call` sites.
  const DrawExpr: ExprId := 1
  const AddOneExpr: ExprId := 2
  const AddTwoExpr: ExprId := 3
  const DrawMutExpr: ExprId := 4
  const V1DrawExpr: ExprId := 5
  const V3DrawExpr: ExprId := 6
  const HelloExpr: ExprId := 7
  const ByeExpr: ExprId := 8

  // Parameter types.
  const OStream: ArgType := 1
  const Int: ArgType := 2
  const Text: ArgType := 3

  /** The text a shape's `draw` writes. */
  function ShapeName(t: TypeId): string
  {
    if t == Square then "Square"
    else if t == Circle then "Circle"
    else if t == Triangle then "Triangle"
    else ""
  }

  /**
   * What each lambda does on each concrete type.  Drawable's
   * `self.draw(out)` writes the shape's name.  DrawableMutable's lambda is
   * also `self.draw(out)`, on a non-const `self`: it runs
   * `SquareMutable::draw`, which writes "Square Mutable" and increments
   * `value`, and on any other shape that shape's own `draw`.
   * `self.draw(out, v)` of the versioned interfaces writes `v`, "::", the
   * shape's name and a space; `self.add(args...)` is `Calc::add`, the
   * arguments plus `i_`; `self.hello(out)` and `self.bye(out)` are a
   * Person's members.
   */
  function Semantics(e: ExprId, self: Obj, args: seq<Arg>): (r: Effect)
    ensures r.self.ty == self.ty
    ensures r.self != self ==> e == DrawMutExpr && self.ty == SquareMutable && r.self.val == self.val + 1
    ensures r.ret != 0 ==> e == AddOneExpr || e == AddTwoExpr
  {
    if e == DrawExpr then Effect(0, ShapeName(self.ty), self)
    else if e == DrawMutExpr then
      if self.ty == SquareMutable then Effect(0, "Square Mutable", self.(val := self.val + 1))
      else Effect(0, ShapeName(self.ty), self)
    else if (e == V1DrawExpr || e == V3DrawExpr) && |args| == 1 && args[0].TextArg? then
      Effect(0, args[0].s + "::" + ShapeName(self.ty) + " ", self)
    else if e == AddOneExpr && |args| == 1 && args[0].IntArg? then
      Effect(args[0].i + self.val, "", self)
    else if e == AddTwoExpr && |args| == 2 && args[0].IntArg? && args[1].IntArg? then
      Effect((args[0].i + args[1].i) + self.val, "", self)
    else if e == HelloExpr && self.ty == Person then Effect(0, "Hello", self)
    else if e == ByeExpr && self.ty == Person then Effect(0, "Bye", self)
    else Effect(0, "", self)
  }

  /**
   * What compiling a program does to the registry before it runs, for an
   * interface with one `te::call` site: the site is instantiated and gets
   * slot 1.
   */
  method CompileOne(s: Site) returns (reg: SlotRegistry)
    ensures fresh(reg) && reg.Valid() && reg.sites == map[s := 1]
    ensures reg.table.Keys == {Key(s.iface, 1)} && reg.table[Key(s.iface, 1)] == s.entry && Size(reg.table, s.iface) == 1
  {
    reg := new SlotRegistry();
    SizeFromUnique(map[], s.iface, 1, 0);
    var slot := reg.Register(s);
    SizeAfterAppendDense(map[], s.iface, s.entry);
  }

  /** The same for an interface with two distinct `te::call` sites, instantiated in order: slots 1 and 2. */
  method CompileTwo(s1: Site, s2: Site) returns (reg: SlotRegistry)
    requires s1.iface == s2.iface && s1 != s2
    ensures fresh(reg) && reg.Valid() && Size(reg.table, s1.iface) == 2
    ensures reg.table[Key(s1.iface, 1)] == s1.entry && reg.table[Key(s1.iface, 2)] == s2.entry
  {
    reg := CompileOne(s1);
    ghost var before := reg.table;
    var slot := reg.Register(s2);
    SizeAfterAppendDense(before, s1.iface, s2.entry);
  }

  /**
   * Two interfaces with one `te::call` site each, compiled one after the
   * other: each gets slot 1 of its own.
   */
  method CompileDisjoint(s1: Site, s2: Site) returns (m: Table)
    requires s1.iface != s2.iface
    ensures Size(m, s1.iface) == 1 && Key(s1.iface, 1) in m && m[Key(s1.iface, 1)] == s1.entry
    ensures Size(m, s2.iface) == 1 && Key(s2.iface, 1) in m && m[Key(s2.iface, 1)] == s2.entry
  {
    var reg := CompileOne(s1);
    ghost var before := reg.table;
    SizeFromUnique(before, s2.iface, 1, 0);
    var slot := reg.Register(s2);
    SizeAfterAppendDense(before, s2.iface, s2.entry);
    SizeIgnores(before, s1.iface, Key(s2.iface, 1), s2.entry);
    m := reg.table;
  }

  /** The start of a run: no table built yet and an empty memory. */
  method Start(m: Table) returns (vts: Vtables, heap: Heap)
    ensures fresh(vts) && fresh(heap) && vts.Repr == {}
    ensures vts.Valid(m) && heap.mem == Memory.Empty && heap.mem.Valid()
  {
    vts := new Vtables();
    vts.ValidAfterGrowth(map[], m);
    heap := new Heap();
  }

  /** A compiled program with one call site, at the start of its run. */
  method Launch(s: Site) returns (m: Table, vts: Vtables, heap: Heap)
    ensures Size(m, s.iface) == 1 && Key(s.iface, 1) in m && m[Key(s.iface, 1)] == s.entry
    ensures fresh(vts) && fresh(heap) && vts.Repr == {}
    ensures vts.Valid(m) && heap.mem == Memory.Empty && heap.mem.Valid()
  {
    var reg := CompileOne(s);
    m := reg.table;
    vts, heap := Start(m);
  }

  /**
   * What the members below need: `p` dispatches through a built table that
   * its own interface filled last, and holds a live object.
   */
  ghost predicate Ready(p: Poly, slot: nat, m: Table, vts: Vtables, heap: Heap)
    reads p, p.handle, vts, vts.Repr, heap
  {
    vts.Valid(m) && p.Dispatches(vts) && p.OwnsTable(vts) && 1 <= slot <= p.vptr.Length &&
    heap.mem.Valid() && p.handle.ptr in heap.mem.live && Key(p.iface, slot) in m
  }

  /**
   * `te::poly<I, TStorage> p{T{...}}` for an owning storage: the value is
   * stored, `p` dispatches through the table of (T, size(I)), which I has
   * just filled, and holds an object equal to the value, together with the
   * storage's deleter and copier.  Every other table is as it was.
   */
  method Erase(i: Iface, s: Strategy, o: Obj, size: nat, m: Table, vts: Vtables, heap: Heap) returns (p: Poly)
    requires !s.NonOwning? && Accepts(s, Val(o, size)) && Size(m, i) > 0
    requires vts.Valid(m) && heap.mem.Valid()
    modifies vts, vts.Repr, heap
    ensures fresh(p) && fresh(p.handle) && p.iface == i && p.strategy == s && p.ty == o.ty
    ensures vts.Valid(m) && p.Valid(vts) && p.vptr.Length == Size(m, i) && fresh(vts.Repr - old(vts.Repr))
    ensures p.OwnsTable(vts) && forall key :: key in old(vts.tables) ==> key in vts.tables && vts.tables[key] == old(vts.tables)[key]
    ensures heap.mem.Valid() && p.handle.ptr in heap.mem.live && heap.mem.live[p.handle.ptr] == o
    ensures p.handle.ptr !in old(heap.mem).live
    ensures forall a :: a in old(heap.mem).live ==> a in heap.mem.live && heap.mem.live[a] == old(heap.mem).live[a]
  {
    ghost var m0 := heap.mem;
    p := new Poly(i, s, Val(o, size), m, vts, heap);
    MaterializeOwnership(s, Val(o, size), FreshStorage(m0).0, FreshStorage(m0).1);
  }

  /**
   * A compiled program with one call site that has just built
   * `te::poly<I, TStorage> p{T{...}}` for an owning storage.
   */
  method Hold(site: Site, s: Strategy, o: Obj, size: nat) returns (m: Table, vts: Vtables, heap: Heap, p: Poly)
    requires !s.NonOwning? && Accepts(s, Val(o, size))
    ensures Size(m, site.iface) == 1 && Key(site.iface, 1) in m && m[Key(site.iface, 1)] == site.entry
    ensures fresh(vts) && fresh(vts.Repr) && fresh(heap) && fresh(p) && fresh(p.handle)
    ensures p.iface == site.iface && p.strategy == s && vts.Valid(m) && p.Valid(vts) && p.OwnsTable(vts) && p.vptr.Length == 1
    ensures heap.mem.Valid() && p.handle.ptr in heap.mem.live && heap.mem.live[p.handle.ptr] == o
  {
    m, vts, heap := Launch(site);
    p := Erase(site.iface, s, o, size, m, vts, heap);
  }

  /**
   * `p = T{...}` with dynamic storage: `p` now holds an object equal to the
   * new value, the object it held before has been deleted, and it dispatches
   * through the table for the new type.
   */
  method Reassign(p: Poly, o: Obj, size: nat, m: Table, vts: Vtables, heap: Heap)
    requires p.strategy == Dynamic && p.Valid(vts) && Size(m, p.iface) > 0
    requires vts.Valid(m) && heap.mem.Valid() && p.handle.ptr in heap.mem.live
    modifies p, p.handle, vts, vts.Repr, heap
    ensures vts.Valid(m) && p.Valid(vts) && p.OwnsTable(vts) && p.vptr.Length == Size(m, p.iface) && fresh(vts.Repr - old(vts.Repr))
    ensures heap.mem.Valid() && p.handle.ptr in heap.mem.live && heap.mem.live[p.handle.ptr] == o
    ensures old(p.handle.ptr) !in heap.mem.live
  {
    ghost var m0 := heap.mem;
    ghost var old0 := p.handle.ptr;
    p.Assign(Val(o, size), m, vts, heap);
    MaterializeOwnership(Dynamic, Val(o, size), FreshStorage(m0).0, FreshStorage(m0).1);
  }

  /**
   * `auto b = a;` for an owning storage: `b` dispatches through `a`'s table
   * and holds an object of `a`'s type and value.  With dynamic storage that is
   * a second object (the source left moved-from), with local storage the
   * very object `a` holds.
   */
  method Duplicate(p: Poly, m: Table, vts: Vtables, heap: Heap) returns (q: Poly)
    requires !p.strategy.NonOwning? && p.Valid(vts)
    requires heap.mem.Valid() && p.handle.ptr in heap.mem.live
    modifies heap
    ensures fresh(q) && fresh(q.handle) && q.iface == p.iface && q.Dispatches(vts) && q.vptr == p.vptr && q.ty == p.ty
    ensures heap.mem.Valid() && p.handle.ptr in heap.mem.live && q.handle.ptr in heap.mem.live
    ensures heap.mem.live[q.handle.ptr].ty == old(heap.mem).live[p.handle.ptr].ty
    ensures heap.mem.live[q.handle.ptr].val == old(heap.mem).live[p.handle.ptr].val
    ensures p.strategy.Dynamic? ==> q.handle.ptr != p.handle.ptr
    ensures p.strategy.Local? ==> q.handle.ptr == p.handle.ptr
  {
    ghost var m0 := heap.mem;
    q := new Poly.CopyOf(p, heap);
    if p.strategy.Dynamic? {
      DynamicCopyIndependent(FreshStorage(m0).0, p.handle.ptr);
    } else {
      LocalCopyAliases(FreshStorage(m0).0, p.handle.ptr);
    }
  }

  /** `Drawable::draw(out)`: the shape's name, and no object changes. */
  method Draw(p: Poly, slot: nat, m: Table, vts: Vtables, heap: Heap) returns (written: string)
    requires Ready(p, slot, m, vts, heap) && m[Key(p.iface, slot)].expr == DrawExpr
    modifies heap
    ensures heap.mem == old(heap.mem)
    ensures written == ShapeName(heap.mem.live[p.handle.ptr].ty)
  {
    var _, w := p.Call(slot, [], Semantics, m, vts, heap);
    written := w;
  }

  /**
   * The versioned `draw(out)`: its `te::call` passes the text `v` ("v1" or
   * "v3") and the shape writes `v`, "::", its name and a space.
   */
  method DrawTagged(p: Poly, slot: nat, tag: string, m: Table, vts: Vtables, heap: Heap) returns (written: string)
    requires Ready(p, slot, m, vts, heap)
    requires m[Key(p.iface, slot)].expr == V1DrawExpr || m[Key(p.iface, slot)].expr == V3DrawExpr
    modifies heap
    ensures heap.mem == old(heap.mem)
    ensures written == tag + "::" + ShapeName(heap.mem.live[p.handle.ptr].ty) + " "
  {
    var _, w := p.Call(slot, [TextArg(tag)], Semantics, m, vts, heap);
    written := w;
  }

  /**
   * `DrawableMutable::draw(out)`: on a `SquareMutable` it writes "Square
   * Mutable" and increments the object's `value`; on another shape it writes
   * that shape's name and changes nothing.
   */
  method DrawMutable(p: Poly, slot: nat, m: Table, vts: Vtables, heap: Heap) returns (written: string)
    requires Ready(p, slot, m, vts, heap) && m[Key(p.iface, slot)].expr == DrawMutExpr
    modifies heap
    ensures var o := old(heap.mem).live[p.handle.ptr];
      if o.ty == SquareMutable then
        written == "Square Mutable" &&
        heap.mem == old(heap.mem).(live := old(heap.mem).live[p.handle.ptr := o.(val := o.val + 1)])
      else
        written == ShapeName(o.ty) && heap.mem == old(heap.mem)
  {
    var _, w := p.Call(slot, [], Semantics, m, vts, heap);
    written := w;
  }

  /** `Addable::add(i)`: `i + i_`, and no object changes. */
  method AddOne(p: Poly, slot: nat, i: int, m: Table, vts: Vtables, heap: Heap) returns (r: int)
    requires Ready(p, slot, m, vts, heap) && m[Key(p.iface, slot)].expr == AddOneExpr
    modifies heap
    ensures heap.mem == old(heap.mem)
    ensures r == i + heap.mem.live[p.handle.ptr].val
  {
    var v, _ := p.Call(slot, [IntArg(i)], Semantics, m, vts, heap);
    r := v;
  }

  /** `Addable::add(a, b)`: `(a + b) + i_`, and no object changes. */
  method AddTwo(p: Poly, slot: nat, a: int, b: int, m: Table, vts: Vtables, heap: Heap) returns (r: int)
    requires Ready(p, slot, m, vts, heap) && m[Key(p.iface, slot)].expr == AddTwoExpr
    modifies heap
    ensures heap.mem == old(heap.mem)
    ensures r == (a + b) + heap.mem.live[p.handle.ptr].val
  {
    var v, _ := p.Call(slot, [IntArg(a), IntArg(b)], Semantics, m, vts, heap);
    r := v;
  }

  /**
   * `te::poly<Drawable> drawable{Square{}}` draws "Square"; after
   * `drawable = Circle{}` the same value draws "Circle", and the square has
   * been destroyed.
   */
  method EraseAndReassign() returns (first: string, second: string, squareGone: bool)
    ensures first == "Square" && second == "Circle" && squareGone
  {
    var m, vts, heap, drawable := Hold(Site(Drawable, 0, Entry(DrawExpr, [OStream])), Dynamic, Obj(Square, 0, false), 1);
    var square := drawable.handle.ptr;
    first := Draw(drawable, 1, m, vts, heap);
    Reassign(drawable, Obj(Circle, 0, false), 1, m, vts, heap);
    second := Draw(drawable, 1, m, vts, heap);
    squareGone := square !in heap.mem.live;
  }

  /**
   * The tests' `Addable`, with its two overloads `add(i)` and `add(a, b)`
   * registered at slots 1 and 2, holding `te::poly<Addable, TStorage>{Calc{...}}`
   * for an owning storage.
   */
  method HoldAddable(s: Strategy, o: Obj, size: nat) returns (m: Table, vts: Vtables, heap: Heap, p: Poly)
    requires !s.NonOwning? && Accepts(s, Val(o, size))
    ensures Size(m, Addable) == 2 && Key(Addable, 1) in m && Key(Addable, 2) in m
    ensures m[Key(Addable, 1)].expr == AddOneExpr && m[Key(Addable, 2)].expr == AddTwoExpr
    ensures fresh(vts) && fresh(vts.Repr) && fresh(heap) && fresh(p) && fresh(p.handle)
    ensures p.iface == Addable && p.strategy == s && vts.Valid(m) && p.Valid(vts) && p.OwnsTable(vts) && p.vptr.Length == 2
    ensures heap.mem.Valid() && p.handle.ptr in heap.mem.live && heap.mem.live[p.handle.ptr] == o
  {
    var reg := CompileTwo(Site(Addable, Int, Entry(AddOneExpr, [Int])), Site(Addable, Int, Entry(AddTwoExpr, [Int, Int])));
    m := reg.table;
    vts, heap := Start(m);
    p := Erase(Addable, s, o, size, m, vts, heap);
  }

  /** `te::poly<Addable> addable{Calc{2}}`: `add(3)` and `add(1, 2)` both give 5, through two slots. */
  method Overloads() returns (one: int, two: int)
    ensures one == 5 && two == 5
  {
    var m, vts, heap, addable := HoldAddable(Dynamic, Obj(Calc, 2, false), 1);
    one := AddOne(addable, 1, 3, m, vts, heap);
    two := AddTwo(addable, 2, 1, 2, m, vts, heap);
  }

  /**
   * With dynamic storage, `add(40, 2)` on `Calc{}` gives 42 on the original
   * and on a copy, and the copy is a different object.
   */
  method DynamicCopy() returns (orig: int, copied: int, distinct: bool)
    ensures orig == 42 && copied == 42 && distinct
  {
    var m, vts, heap, a := HoldAddable(Dynamic, Obj(Calc, 0, false), 1);
    orig := AddTwo(a, 2, 40, 2, m, vts, heap);
    var b := Duplicate(a, m, vts, heap);
    distinct := a.handle.ptr != b.handle.ptr;
    copied := AddTwo(b, 2, 40, 2, m, vts, heap);
  }

  /**
   * With dynamic storage, a value moved from `te::poly<Addable>{Calc{}}`
   * gives 42 for `add(40, 2)` and owns the very object, while the source's
   * handle is left null.
   */
  method DynamicMove() returns (moved: int, same: bool, sourceNull: bool)
    ensures moved == 42 && same && sourceNull
  {
    var m, vts, heap, a := HoldAddable(Dynamic, Obj(Calc, 0, false), 1);
    var held := a.handle.ptr;
    var c := new Poly.MoveFrom(a, heap);
    same, sourceNull := c.handle.ptr == held, a.handle.ptr == Null;
    moved := AddTwo(c, 2, 40, 2, m, vts, heap);
  }

  /**
   * With `local_storage<16>`, `add(40, 2)` on `Calc{4}` gives 46 on the
   * original and on a copy, and the copy's handle points at the original's
   * buffer.
   */
  method LocalCopy() returns (orig: int, copied: int, aliased: bool)
    ensures orig == 46 && copied == 46 && aliased
  {
    var m, vts, heap, a := HoldAddable(Local(16), Obj(Calc, 4, false), 4);
    orig := AddTwo(a, 2, 40, 2, m, vts, heap);
    var b := Duplicate(a, m, vts, heap);
    aliased := a.handle.ptr == b.handle.ptr;
    copied := AddTwo(b, 2, 40, 2, m, vts, heap);
  }

  /**
   * A non-owning `DrawableMutable` over a caller's `SquareMutable b{}`:
   * drawing writes "Square Mutable" and increments `b.value` itself.
   */
  method NonOwningMutation() returns (written: string, value: int)
    ensures written == "Square Mutable" && value == 1
  {
    var m, vts, heap := Launch(Site(DrawableMutable, 0, Entry(DrawMutExpr, [OStream])));
    var b := heap.Reserve();
    heap.Construct(b, Obj(SquareMutable, 0, false));
    var drawable := new Poly(DrawableMutable, NonOwning, Ref(b), m, vts, heap);
    written := DrawMutable(drawable, 1, m, vts, heap);
    value := heap.mem.live[b].val;
  }

  /** `Greeter::hello(out)` or `Leaver::bye(out)` on a Person: the member's text, and no object changes. */
  method Greet(p: Poly, slot: nat, m: Table, vts: Vtables, heap: Heap) returns (written: string)
    requires Ready(p, slot, m, vts, heap) && heap.mem.live[p.handle.ptr].ty == Person
    requires m[Key(p.iface, slot)].expr == HelloExpr || m[Key(p.iface, slot)].expr == ByeExpr
    modifies heap
    ensures heap.mem == old(heap.mem)
    ensures written == if m[Key(p.iface, slot)].expr == HelloExpr then "Hello" else "Bye"
  {
    var _, w := p.Call(slot, [], Semantics, m, vts, heap);
    written := w;
  }

  /**
   * `te::poly<I> q{T{...}}` built while `p` is alive, with `q`'s concrete
   * type and slot count those of `p`, followed by a call of `p` through slot
   * 1: the table `p` points at now holds I's thunks, so the call applies
   * I's first expression to the object `p` holds.
   */
  method CallAfterRebuild(p: Poly, i: Iface, o: Obj, m: Table, vts: Vtables, heap: Heap) returns (written: string)
    requires Size(m, i) == p.vptr.Length == 1 && o.ty == p.ty
    requires vts.Valid(m) && heap.mem.Valid() && p.Dispatches(vts) && p.handle.ptr in heap.mem.live
    modifies vts, vts.Repr, heap
    ensures Key(i, 1) in m && p.handle.ptr in heap.mem.live
    ensures var e := Semantics(m[Key(i, 1)].expr, old(heap.mem).live[p.handle.ptr], []);
      written == e.written && heap.mem.live[p.handle.ptr] == e.self
  {
    var q := Erase(i, Dynamic, o, 1, m, vts, heap);
    var _, w := p.Call(1, [], Semantics, m, vts, heap);
    written := w;
  }

  /**
   * `te::poly<Greeter> a{Person{}}` says "Hello".  Once
   * `te::poly<Leaver> b{Person{}}` has been built, the static table of
   * (Person, 1) that both share holds Leaver's thunk, so `a.hello(out)` now
   * runs `Person::bye` and says "Bye".
   */
  method SharedTableOverwrite() returns (before: string, after: string)
    ensures before == "Hello" && after == "Bye"
  {
    var m := CompileDisjoint(Site(Greeter, 0, Entry(HelloExpr, [OStream])), Site(Leaver, 0, Entry(ByeExpr, [OStream])));
    var vts, heap := Start(m);
    var a := Erase(Greeter, Dynamic, Obj(Person, 0, false), 1, m, vts, heap);
    before := Greet(a, 1, m, vts, heap);
    after := CallAfterRebuild(a, Leaver, Obj(Person, 0, false), m, vts, heap);
  }

  /**
   * The registry the overrides program leaves: v1's site at slot 1,
   * `extends<v1::Drawable>` for v2, `extends<v2::Drawable>` for v3, then v3's
   * own site.
   */
  function OverrideRegistry(): Table
  {
    var m1 := map[Key(V1Drawable, 1) := Entry(V1DrawExpr, [OStream, Text])];
    var m3 := Extended(Extended(m1, V1Drawable, V2Drawable), V2Drawable, V3Drawable);
    m3[Key(V3Drawable, Size(m3, V3Drawable) + 1) := Entry(V3DrawExpr, [OStream, Text])]
  }

  /** After `extends<v1::Drawable>` for v2: v1 and v2 have one slot each, holding v1's entry, and v3 has none. */
  lemma OverrideBase()
    ensures var m2 := Extended(map[Key(V1Drawable, 1) := Entry(V1DrawExpr, [OStream, Text])], V1Drawable, V2Drawable);
      Size(m2, V1Drawable) == 1 && Size(m2, V2Drawable) == 1 &&
      Key(V1Drawable, 1) in m2 && m2[Key(V1Drawable, 1)].expr == V1DrawExpr &&
      Key(V2Drawable, 1) in m2 && m2[Key(V2Drawable, 1)].expr == V1DrawExpr &&
      ExtendCompatible(m2, V2Drawable, V3Drawable) &&
      Key(V3Drawable, 2) !in m2 && Key(V3Drawable, 3) !in m2
  {
    var m1 := map[Key(V1Drawable, 1) := Entry(V1DrawExpr, [OStream, Text])];
    SizeFromUnique(m1, V1Drawable, 1, 1);
    var m2 := Extended(m1, V1Drawable, V2Drawable);
    ExtendedEntries(m1, V1Drawable, V2Drawable);
    ExtendedSizeExact(m1, V1Drawable, V2Drawable);
    ExtendedSize(m1, V1Drawable, V2Drawable);
    assert Key(V3Drawable, 1) !in m2 && Key(V3Drawable, 2) !in m2 && Key(V3Drawable, 3) !in m2;
  }

  /**
   * `v2::Drawable` extends `v1::Drawable`, and `v3::Drawable` extends
   * `v2::Drawable` and declares its own `draw`.  v1 and v2 have one slot,
   * which holds v1's expression, so the `draw` v2 inherits reaches it; v3's
   * own `draw` is registered after the copied slot, at slot 2, so it reaches
   * v3's expression.
   */
  lemma OverrideSlots()
    ensures var m := OverrideRegistry();
      Size(m, V1Drawable) == 1 && Size(m, V2Drawable) == 1 && Size(m, V3Drawable) == 2 &&
      Key(V1Drawable, 1) in m && m[Key(V1Drawable, 1)].expr == V1DrawExpr &&
      Key(V2Drawable, 1) in m && m[Key(V2Drawable, 1)].expr == V1DrawExpr &&
      Key(V3Drawable, 1) in m && m[Key(V3Drawable, 1)].expr == V1DrawExpr &&
      Key(V3Drawable, 2) in m && m[Key(V3Drawable, 2)].expr == V3DrawExpr
  {
    var e3 := Entry(V3DrawExpr, [OStream, Text]);
    var m2 := Extended(map[Key(V1Drawable, 1) := Entry(V1DrawExpr, [OStream, Text])], V1Drawable, V2Drawable);
    OverrideBase();
    ExtendedThenCall(m2, V2Drawable, V3Drawable, e3);
    var m3 := Extended(m2, V2Drawable, V3Drawable);
    ExtendedEntries(m2, V2Drawable, V3Drawable);
    ExtendedSize(m2, V2Drawable, V3Drawable);
    assert Key(V1Drawable, 2) !in m3;
    SizeFromUnique(m3, V1Drawable, 1, 1);
    SizeIgnores(m3, V1Drawable, Key(V3Drawable, 2), e3);
    SizeIgnores(m3, V2Drawable, Key(V3Drawable, 2), e3);
  }

  /** The registry of the overrides program, with the facts its run needs. */
  method OverrideTable() returns (m: Table)
    ensures Size(m, V1Drawable) == 1 && Size(m, V2Drawable) == 1 && Size(m, V3Drawable) == 2
    ensures m[Key(V1Drawable, 1)].expr == V1DrawExpr && m[Key(V2Drawable, 1)].expr == V1DrawExpr
    ensures m[Key(V3Drawable, 2)].expr == V3DrawExpr
  {
    m := OverrideRegistry();
    OverrideSlots();
  }

  /**
   * `draw(te::poly<I>{Circle{}}, str); draw(te::poly<I>{Square{}}, str);`
   * where I's `draw` calls through `slot` and passes `tag`.
   */
  method DrawBoth(i: Iface, slot: nat, tag: string, m: Table, vts: Vtables, heap: Heap) returns (written: string)
    requires 1 <= slot <= Size(m, i)
    requires m[Key(i, slot)].expr == V1DrawExpr || m[Key(i, slot)].expr == V3DrawExpr
    requires vts.Valid(m) && heap.mem.Valid()
    modifies vts, vts.Repr, heap
    ensures vts.Valid(m) && heap.mem.Valid() && fresh(vts.Repr - old(vts.Repr))
    ensures written == tag + "::Circle " + tag + "::Square "
  {
    var w1 := DrawTemporary(i, Circle, slot, tag, m, vts, heap);
    var w2 := DrawTemporary(i, Square, slot, tag, m, vts, heap);
    written := w1 + w2;
  }

  /** `draw(te::poly<I>{T{}}, str)`, where I's `draw` calls through `slot` and passes `tag`. */
  method DrawTemporary(i: Iface, t: TypeId, slot: nat, tag: string, m: Table, vts: Vtables, heap: Heap) returns (written: string)
    requires 1 <= slot <= Size(m, i)
    requires m[Key(i, slot)].expr == V1DrawExpr || m[Key(i, slot)].expr == V3DrawExpr
    requires vts.Valid(m) && heap.mem.Valid()
    modifies vts, vts.Repr, heap
    ensures vts.Valid(m) && heap.mem.Valid() && fresh(vts.Repr - old(vts.Repr))
    ensures written == tag + "::" + ShapeName(t) + " "
  {
    var p := Erase(i, Dynamic, Obj(t, 0, false), 1, m, vts, heap);
    written := DrawTagged(p, slot, tag, m, vts, heap);
  }

  /**
   * The overrides test: in one run, `te::poly<v1::Drawable>` and
   * `te::poly<v2::Drawable>` both write "v1::Circle v1::Square ", and
   * `te::poly<v3::Drawable>` writes "v3::Circle v3::Square ".
   */
  method Overrides() returns (w1: string, w2: string, w3: string)
    ensures w1 == "v1" + "::Circle " + "v1" + "::Square " && w2 == w1
    ensures w3 == "v3" + "::Circle " + "v3" + "::Square "
  {
    var m := OverrideTable();
    var vts, heap := Start(m);
    w1 := DrawBoth(V1Drawable, 1, "v1", m, vts, heap);
    w2 := DrawBoth(V2Drawable, 1, "v1", m, vts, heap);
    w3 := DrawBoth(V3Drawable, 2, "v3", m, vts, heap);
  }

  /**
   * `mappings_size` of an interface with nothing set is 0; after indices 1, 2
   * and 3 are set it is 3, and setting index 0 as well changes nothing.
   */
  lemma MappingsSize(i: Iface, e0: Entry, e1: Entry, e2: Entry, e3: Entry)
    ensures Size(map[], i) == 0
    ensures var m := map[Key(i, 1) := e1, Key(i, 2) := e2, Key(i, 3) := e3];
      Size(m, i) == 3 && Size(m[Key(i, 0) := e0], i) == 3
  {
    var m := map[Key(i, 1) := e1, Key(i, 2) := e2, Key(i, 3) := e3];
    SizeFromUnique(m, i, 1, 3);
    SizeIgnores(m, i, Key(i, 0), e0);
  }
}
