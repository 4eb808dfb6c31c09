/**
 * The slot registry: an append-only table from (interface, index) to the
 * expression installed at that index, together with the "size" query that
 * tells the next call site which index it gets.  In the header this table is
 * built at compile time by friend injection (`mappings<I, N>::set<...>`); here
 * it is an object whose methods are the registration steps, run in the order
 * the compiler instantiates them.
 */
module Registry {

  /** An interface type `I`, named by an opaque identifier. */
  type Iface = nat

  /** The type of a capture-less lambda (`TExpr`), named by an identifier. */
  type ExprId = nat

  /** One forwarded argument type of a call site (`Ts...`), named by an identifier. */
  type ArgType = nat

  /** What `mappings<I, N>::set<type_list<TExpr, Ts...>>` installs. */
  datatype Entry = Entry(expr: ExprId, args: seq<ArgType>)

  /** The template arguments `<I, N>` of `mappings`. */
  datatype Key = Key(iface: Iface, index: nat)

  type Table = map<Key, Entry>

  /**
   * One instantiation of `call<R>(expr, interface, args...)`: the compiler
   * instantiates it once per distinct interface, return type, lambda and
   * argument types, and only that first instantiation registers a slot.
   */
  datatype Site = Site(iface: Iface, ret: nat, entry: Entry)

  /** The table `m2` holds every binding of `m1` unchanged: the registry only grows. */
  ghost predicate Grows(m1: Table, m2: Table)
  {
    forall k :: k in m1 ==> k in m2 && m2[k] == m1[k]
  }

  /** The keys of interface `i` at index `n` or above. */
  ghost function KeysFrom(m: Table, i: Iface, n: nat): set<Key>
  {
    set k | k in m.Keys && k.iface == i && k.index >= n
  }

  /**
   * `mappings_size_impl<N, I>`: 1 + the size from N + 1 when `get(mappings<I, N>)`
   * is defined, 0 otherwise.  The result is the length of the unbroken run of
   * set indices starting at `n`.
   */
  function SizeFrom(m: Table, i: Iface, n: nat): (r: nat)
    ensures forall k :: n <= k < n + r ==> Key(i, k) in m
    ensures Key(i, n + r) !in m
    decreases KeysFrom(m, i, n)
  {
    if Key(i, n) in m then
      assert Key(i, n) in KeysFrom(m, i, n) && Key(i, n) !in KeysFrom(m, i, n + 1);
      1 + SizeFrom(m, i, n + 1)
    else
      0
  }

  /** `mappings_size<I>()`: the run starts at index 1, so index 0 never counts. */
  function Size(m: Table, i: Iface): (r: nat)
    ensures forall k :: 1 <= k <= r ==> Key(i, k) in m
    ensures Key(i, r + 1) !in m
  {
    SizeFrom(m, i, 1)
  }

  /** The two facts in SizeFrom's contract determine its value. */
  lemma {:induction false} SizeFromUnique(m: Table, i: Iface, n: nat, r: nat)
    requires forall k :: n <= k < n + r ==> Key(i, k) in m
    requires Key(i, n + r) !in m
    ensures SizeFrom(m, i, n) == r
    decreases r
  {
    if r > 0 {
      SizeFromUnique(m, i, n + 1, r - 1);
    }
  }

  /** Two tables that agree on which indices >= n of `i` are set have the same size from n. */
  lemma {:induction false} SizeFromAgree(m1: Table, m2: Table, i: Iface, n: nat)
    requires forall k :: k >= n ==> (Key(i, k) in m1 <==> Key(i, k) in m2)
    ensures SizeFrom(m1, i, n) == SizeFrom(m2, i, n)
  {
    var r := SizeFrom(m1, i, n);
    SizeFromUnique(m2, i, n, r);
  }

  /** An unbroken run 1..r of set indices makes the size at least r. */
  lemma {:induction false} SizeAtLeast(m: Table, i: Iface, r: nat)
    requires forall k :: 1 <= k <= r ==> Key(i, k) in m
    ensures Size(m, i) >= r
  {
    var s := Size(m, i);
    assert Key(i, s + 1) !in m;
  }

  /** Growing the table never shrinks any interface's size. */
  lemma SizeMonotone(m1: Table, m2: Table, i: Iface)
    requires Grows(m1, m2)
    ensures Size(m2, i) >= Size(m1, i)
  {
    SizeAtLeast(m2, i, Size(m1, i));
  }

  /** Setting index 0 of any interface, or any index of another interface, leaves `Size(i)` alone. */
  lemma SizeIgnores(m: Table, i: Iface, k: Key, e: Entry)
    requires k.index == 0 || k.iface != i
    ensures Size(m[k := e], i) == Size(m, i)
  {
    SizeFromAgree(m, m[k := e], i, 1);
  }

  /**
   * Setting the index just past the run joins it to whatever run follows:
   * the size grows by one plus the length of the run that started at s + 2.
   */
  lemma SizeAfterAppend(m: Table, i: Iface, e: Entry)
    ensures Size(m[Key(i, Size(m, i) + 1) := e], i)
         == Size(m, i) + 1 + SizeFrom(m, i, Size(m, i) + 2)
  {
    var s := Size(m, i);
    var m2 := m[Key(i, s + 1) := e];
    var t := SizeFrom(m, i, s + 2);
    assert forall k :: s + 2 <= k < s + 2 + t ==> Key(i, k) in m2;
    SizeFromUnique(m2, i, 1, s + 1 + t);
  }

  /** With nothing set past the run, appending grows the size by exactly one. */
  lemma SizeAfterAppendDense(m: Table, i: Iface, e: Entry)
    requires Key(i, Size(m, i) + 2) !in m
    ensures Size(m[Key(i, Size(m, i) + 1) := e], i) == Size(m, i) + 1
  {
    SizeAfterAppend(m, i, e);
  }

  /** `get(mappings<I, N>{})`: the installed entry, or None where the friend is not defined. */
  function Lookup(m: Table, k: Key): (r: Option<Entry>)
    ensures r.Some? <==> k in m
    ensures r.Some? ==> r.value == m[k]
  {
    if k in m then Some(m[k]) else None
  }

  datatype Option<T> = None | Some(value: T)

  /** Setting a key makes lookup there return the entry and leaves every other lookup unchanged. */
  lemma LookupAfterSet(m: Table, k: Key, e: Entry, k2: Key)
    ensures Lookup(m[k := e], k) == Some(e)
    ensures k2 != k ==> Lookup(m[k := e], k2) == Lookup(m, k2)
  {
  }

  /**
   * `extends_impl`'s precondition for compiling: no index 1..n of `d` is
   * already bound differently.  That is exactly the condition under which
   * extending redefines no existing friend function.
   */
  ghost function ExtendCompatible(m: Table, b: Iface, d: Iface): (r: bool)
    ensures r <==> Grows(m, Extended(m, b, d))
  {
    var x := Extended(m, b, d);
    assert forall k :: 1 <= k <= Size(m, b) && Key(d, k) in m ==> x[Key(d, k)] == m[Key(b, k)];
    forall k :: 1 <= k <= Size(m, b) && Key(d, k) in m ==> m[Key(d, k)] == m[Key(b, k)]
  }

  /** The table after copying b's entries 1..n into d at the same indices. */
  function CopyPrefix(m: Table, b: Iface, d: Iface, n: nat): (r: Table)
    requires forall k :: 1 <= k <= n ==> Key(b, k) in m
  {
    map key | key in m.Keys + (set k | 1 <= k <= n :: Key(d, k)) ::
      if key.iface == d && 1 <= key.index <= n then m[Key(b, key.index)] else m[key]
  }

  /**
   * After the copy, d's indices 1..n hold b's entries, every other binding is
   * as it was, and nothing else is bound.
   */
  lemma CopyPrefixEntries(m: Table, b: Iface, d: Iface, n: nat)
    requires forall k :: 1 <= k <= n ==> Key(b, k) in m
    ensures var r := CopyPrefix(m, b, d, n);
      (forall k :: 1 <= k <= n ==> Key(d, k) in r && r[Key(d, k)] == m[Key(b, k)]) &&
      (forall key :: key in m && !(key.iface == d && 1 <= key.index <= n) ==> key in r && r[key] == m[key]) &&
      (forall key :: key in r ==> key in m || (key.iface == d && 1 <= key.index <= n))
  {
  }

  /** Copying one more index extends the prefix by that index. */
  lemma CopyPrefixStep(m: Table, b: Iface, d: Iface, j: nat)
    requires forall k :: 1 <= k <= j + 1 ==> Key(b, k) in m
    ensures CopyPrefix(m, b, d, j)[Key(d, j + 1) := m[Key(b, j + 1)]] == CopyPrefix(m, b, d, j + 1)
  {
    var lhs := CopyPrefix(m, b, d, j)[Key(d, j + 1) := m[Key(b, j + 1)]];
    var rhs := CopyPrefix(m, b, d, j + 1);
    assert lhs.Keys == rhs.Keys;
    forall key | key in lhs.Keys
      ensures lhs[key] == rhs[key]
    {
    }
  }

  /**
   * `extends<Base>(derived)`: copy Base's entries 1..size(Base) into Derived
   * and keep every other binding.
   */
  function Extended(m: Table, b: Iface, d: Iface): (r: Table)
    ensures forall k :: 1 <= k <= Size(m, b) ==> Key(d, k) in r && r[Key(d, k)] == m[Key(b, k)]
    ensures forall key :: key in m && !(key.iface == d && 1 <= key.index <= Size(m, b)) ==> key in r && r[key] == m[key]
  {
    CopyPrefixEntries(m, b, d, Size(m, b));
    CopyPrefix(m, b, d, Size(m, b))
  }

  /** Extending copies each of Base's entries to the same index of Derived and keeps the rest. */
  lemma ExtendedEntries(m: Table, b: Iface, d: Iface)
    requires ExtendCompatible(m, b, d)
    ensures Grows(m, Extended(m, b, d))
    ensures forall k :: 1 <= k <= Size(m, b) ==>
              Key(d, k) in Extended(m, b, d) && Extended(m, b, d)[Key(d, k)] == m[Key(b, k)]
    ensures forall key :: key in Extended(m, b, d) && (key.iface != d || key.index == 0 || key.index > Size(m, b))
                ==> key in m
  {
  }

  /** After `extends<Base>(d)` Derived is at least as large as Base, and Base is unchanged. */
  lemma ExtendedSize(m: Table, b: Iface, d: Iface)
    ensures Size(Extended(m, b, d), d) >= Size(m, b)
    ensures Size(Extended(m, b, d), b) == Size(m, b)
  {
    var x := Extended(m, b, d);
    SizeAtLeast(x, d, Size(m, b));
    if b != d {
      SizeFromAgree(m, x, b, 1);
    } else {
      assert x == m;
    }
  }

  /** A Derived interface with nothing registered past Base's size gets exactly Base's size. */
  lemma ExtendedSizeExact(m: Table, b: Iface, d: Iface)
    requires ExtendCompatible(m, b, d)
    requires Key(d, Size(m, b) + 1) !in m
    ensures Size(Extended(m, b, d), d) == Size(m, b)
  {
    ExtendedEntries(m, b, d);
    SizeFromUnique(Extended(m, b, d), d, 1, Size(m, b));
  }

  /**
   * A Derived interface that extends Base and then declares its own call site:
   * Base's entries sit at 1..size(Base), and the new site is installed just
   * past them, at size(Base) + 1, growing Derived by exactly one.
   */
  lemma ExtendedThenCall(m: Table, b: Iface, d: Iface, e: Entry)
    requires ExtendCompatible(m, b, d)
    requires Key(d, Size(m, b) + 1) !in m && Key(d, Size(m, b) + 2) !in m
    ensures var x := Extended(m, b, d);
      Size(x, d) == Size(m, b) &&
      var y := x[Key(d, Size(x, d) + 1) := e];
      Size(y, d) == Size(m, b) + 1 && y[Key(d, Size(m, b) + 1)] == e &&
      forall k :: 1 <= k <= Size(m, b) ==> Key(d, k) in y && y[Key(d, k)] == m[Key(b, k)]
  {
    ExtendedEntries(m, b, d);
    ExtendedSizeExact(m, b, d);
    var x := Extended(m, b, d);
    assert Key(d, Size(x, d) + 2) !in x;
    SizeAfterAppendDense(x, d, e);
  }

  /**
   * The registry as the compiler builds it: `table` holds the installed
   * `mappings`, `sites` the call-site instantiations seen so far with the
   * slot each one received.
   */
  class SlotRegistry {
    var table: Table
    var sites: map<Site, nat>

    /** Every instantiated call site owns a slot inside its interface's run, bound to its entry. */
    ghost predicate Valid()
      reads this
    {
      forall s :: s in sites ==>
        1 <= sites[s] <= Size(table, s.iface) &&
        Key(s.iface, sites[s]) in table && table[Key(s.iface, sites[s])] == s.entry
    }

    constructor ()
      ensures Valid() && table == map[] && sites == map[]
    {
      table := map[];
      sites := map[];
    }

    /** Sizes and site slots survive any growth of the table. */
    lemma ValidAfterGrowth(oldTable: Table)
      requires Grows(oldTable, table)
      requires forall s :: s in sites ==>
        1 <= sites[s] <= Size(oldTable, s.iface) &&
        Key(s.iface, sites[s]) in oldTable && oldTable[Key(s.iface, sites[s])] == s.entry
      ensures Valid()
    {
      forall s | s in sites
        ensures sites[s] <= Size(table, s.iface)
      {
        SizeMonotone(oldTable, table, s.iface);
      }
    }

    /**
     * `mappings<I, N>::set<T>`: defines `get` for the key.  Defining it again
     * with the same entry is the same instantiation; with another entry it is
     * a redefinition the compiler rejects, so nothing changes and ok is false.
     */
    method Set(k: Key, e: Entry) returns (ok: bool)
      requires Valid()
      modifies this
      ensures Valid()
      ensures ok <==> (k !in old(table) || old(table)[k] == e)
      ensures table == (if ok then old(table)[k := e] else old(table))
      ensures sites == old(sites)
    {
      ok := k !in table || table[k] == e;
      if ok {
        ghost var before := table;
        table := table[k := e];
        ValidAfterGrowth(before);
      }
    }

    /**
     * The registration inside `call`: a call site seen for the first time is
     * installed at `mappings_size<I>() + 1`; a site already instantiated keeps
     * the slot it got then.  Either way the slot holds the site's entry.
     */
    method Register(s: Site) returns (slot: nat)
      requires Valid()
      modifies this
      ensures Valid()
      ensures s in old(sites) ==> slot == old(sites)[s] && table == old(table) && sites == old(sites)
      ensures s !in old(sites) ==>
        slot == Size(old(table), s.iface) + 1 &&
        table == old(table)[Key(s.iface, slot) := s.entry] &&
        sites == old(sites)[s := slot]
      ensures 1 <= slot <= Size(table, s.iface)
      ensures Key(s.iface, slot) in table && table[Key(s.iface, slot)] == s.entry
      ensures Grows(old(table), table)
    {
      if s in sites {
        slot := sites[s];
      } else {
        ghost var before := table;
        slot := Size(table, s.iface) + 1;
        table := table[Key(s.iface, slot) := s.entry];
        SizeAfterAppend(before, s.iface, s.entry);
        ValidAfterGrowth(before);
        sites := sites[s := slot];
      }
    }

    /**
     * `extends<Base>(derived)`: the fold of `extends_impl` sets Derived's index
     * k to Base's entry k for k = 1..size(Base).  When one of those indices of
     * Derived is already bound to something else the program does not compile;
     * the model then reports false and changes nothing.
     */
    method Extends(b: Iface, d: Iface) returns (ok: bool)
      requires Valid()
      modifies this
      ensures Valid()
      ensures ok <==> ExtendCompatible(old(table), b, d)
      ensures table == (if ok then Extended(old(table), b, d) else old(table))
      ensures sites == old(sites)
    {
      ok := forall k :: 1 <= k <= Size(table, b) && Key(d, k) in table ==> table[Key(d, k)] == table[Key(b, k)];
      if !ok {
        return;
      }
      ghost var before := table;
      CopyEntries(b, d);
      ExtendedEntries(before, b, d);
      ValidAfterGrowth(before);
    }

    /** The fold of `extends_impl`: index k of `d` takes `b`'s entry k, for k = 1..size(b), in turn. */
    method CopyEntries(b: Iface, d: Iface)
      modifies this
      ensures table == Extended(old(table), b, d) && sites == old(sites)
    {
      var src := table;
      var n := Size(src, b);
      var j := 0;
      while j < n
        invariant 0 <= j <= n
        invariant table == CopyPrefix(src, b, d, j)
        invariant sites == old(sites)
      {
        CopyPrefixStep(src, b, d, j);
        table := table[Key(d, j + 1) := src[Key(b, j + 1)]];
        j := j + 1;
      }
    }
  }
}
