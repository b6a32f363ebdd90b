/** The storage cell and operation tables behind the type-erased callable
    wrapper: the inline-versus-heap placement rule, the empty table, the
    inline and heap tables of one concrete callable type, and the storage
    that is always bound to exactly one of them.

    Each table operation is given twice: as a function on values (a `Cell`
    and a `Heap`), which states what the operation does, and as a method on
    `Storage` and `Memory` objects, which does it step by step and is proved
    to agree with the function. */
module FunctionDetail {

  /** Size and alignment of the inline buffer: one machine word,
      `sizeof(void*)` and `alignof(void*)` on a 64-bit target. */
  const SIZE: nat := 8
  const ALIGN: nat := 8

  /** `alignof(T)` is never zero. */
  type Alignment = n: nat | n > 0 witness 1

  /** A concrete callable type T: its identity, `sizeof(T)`, `alignof(T)`
      and whether its move constructor is declared non-throwing. */
  datatype TypeInfo = TypeInfo(id: nat, size: nat, align: Alignment, nothrowMove: bool)

  /** `fits_small_buf<T>`: T may live in the inline buffer. */
  predicate FitsSmallBuf(t: TypeInfo) {
    t.size <= SIZE && ALIGN % t.align == 0 && t.nothrowMove
  }

  /** Which of the two table variants of `ops_traits<T>` a type gets. */
  datatype Placement = Inline | Dynamic

  /** An operation table: the canonical empty table, or the one table of a
      concrete type. Equality of `Ops` values is the pointer comparison of
      the source. */
  datatype Ops = Empty | Table(ty: TypeInfo, placement: Placement)

  /** `ops_traits<T>::get_ops()`: the table of T, inline exactly when T fits. */
  function GetOps(t: TypeInfo): (o: Ops)
    ensures o.Table? && o.ty == t
    ensures o.placement == Inline <==> t.size <= SIZE && ALIGN % t.align == 0 && t.nothrowMove
  {
    Table(t, if FitsSmallBuf(t) then Inline else Dynamic)
  }

  /** One table per concrete type: table identity is type identity. */
  lemma TableIdentity(t: TypeInfo, u: TypeInfo)
    ensures GetOps(t) == GetOps(u) <==> t == u
    ensures GetOps(t) != Empty
  {
  }

  /** A callable object: its type and the state it captured. What it
      computes when called is left abstract. */
  datatype Callable = Callable(ty: TypeInfo, state: seq<int>)

  /** A heap pointer: null, or the address of an allocation. */
  datatype Addr = Null | At(id: nat)

  /** The word-sized buffer: no live object in it, an inline object, or a
      pointer to a heap object. */
  datatype Buf = Vacant | Object(obj: Callable) | Pointer(ptr: Addr)

  /** The value of a `storage`: its bound table and its buffer. */
  datatype Cell = Cell(ops: Ops, buf: Buf)

  /** A default-constructed `storage`: value-initialised buffer, empty table. */
  const Default: Cell := Cell(Empty, Vacant)

  /** The free store: the live heap objects by address, and the next fresh
      address. Addresses are never reused, so `next` counts allocations. */
  datatype Heap = Heap(objects: map<nat, Callable>, next: nat)

  ghost predicate HeapValid(h: Heap) {
    forall id :: id in h.objects ==> id < h.next
  }

  datatype Option<T> = None | Some(value: T)

  /** The two failure conditions of the component. */
  datatype Error = BadFunctionCall | CopyThrew

  datatype Result<T> = Ok(value: T) | Err(error: Error)

  datatype Outcome = Pass | Fail(error: Error)

  /** `bad_function_call::what()`. */
  function What(e: Error): string
    requires e == BadFunctionCall
  {
    "bad function call"
  }

  /** The cell is bound to a heap-variant table. */
  predicate IsDynamic(c: Cell) {
    c.ops.Table? && c.ops.placement == Dynamic
  }

  /** The cell's buffer agrees with its table: the table is the one of its
      type, an inline table has an object of that type in the buffer, a heap
      table a pointer to a live heap object of that type. */
  ghost predicate Bound(c: Cell, h: Heap) {
    match c.ops
    case Empty => true
    case Table(t, p) =>
      c.ops == GetOps(t) &&
      if p == Inline then
        c.buf.Object? && c.buf.obj.ty == t
      else
        c.buf.Pointer? && c.buf.ptr.At? && c.buf.ptr.id in h.objects && h.objects[c.buf.ptr.id].ty == t
  }

  /** The heap object the cell is responsible for releasing, if any. */
  function Owned(c: Cell): set<nat> {
    if IsDynamic(c) && c.buf.Pointer? && c.buf.ptr.At? then {c.buf.ptr.id} else {}
  }

  /** Two cells may take part in one copy or move. */
  ghost predicate Compatible(from: Cell, to: Cell, h: Heap) {
    HeapValid(h) && Bound(from, h) && Bound(to, h) && Owned(from) !! Owned(to)
  }

  /** The callable a bound, non-empty cell holds. */
  function Held(c: Cell, h: Heap): (x: Callable)
    requires Bound(c, h) && c.ops.Table?
    ensures x.ty == c.ops.ty
  {
    if c.ops.placement == Inline then c.buf.obj else h.objects[c.buf.ptr.id]
  }

  /** `storage::get<T>()`: where T would be found. For an inline T that is
      the buffer itself, for a heap T the object the buffer points at; `None`
      stands for a null pointer or a buffer that holds no such object. */
  function Get(c: Cell, h: Heap, t: TypeInfo): (r: Option<Callable>)
    ensures Bound(c, h) && c.ops == GetOps(t) ==> r == Some(Held(c, h))
    ensures r.Some? && FitsSmallBuf(t) ==> c.buf == Object(r.value)
    ensures r.Some? && !FitsSmallBuf(t) ==> c.buf.Pointer? && c.buf.ptr.At? && c.buf.ptr.id in h.objects && h.objects[c.buf.ptr.id] == r.value
  {
    if FitsSmallBuf(t) then
      if c.buf.Object? then Some(c.buf.obj) else None
    else if c.buf.Pointer? && c.buf.ptr.At? && c.buf.ptr.id in h.objects then
      Some(h.objects[c.buf.ptr.id])
    else
      None
  }

  /** The `invoke` entry of the bound table; `apply` is what a callable
      object computes from its arguments. */
  function Invoke<A, R>(c: Cell, h: Heap, args: A, apply: (Callable, A) -> R): (r: Result<R>)
    requires Bound(c, h)
    ensures r.Err? <==> c.ops == Empty
    ensures r.Err? ==> r.error == BadFunctionCall && What(r.error) == "bad function call"
    ensures c.ops.Table? ==> Get(c, h, c.ops.ty).Some? && r == Ok(apply(Get(c, h, c.ops.ty).value, args))
  {
    match c.ops
    case Empty => Err(BadFunctionCall)
    case Table(_, _) => Ok(apply(Held(c, h), args))
  }

  /** A cell together with the heap after an operation. */
  datatype Placed = Placed(cell: Cell, heap: Heap)

  /** `storage(T&& func)`: the callable is placed inline, or in the one heap
      allocation the constructor makes, and the cell is bound to its table. */
  function ConstructCell(x: Callable, h: Heap): (r: Placed)
    requires HeapValid(h)
    ensures HeapValid(r.heap) && Bound(r.cell, r.heap)
    ensures r.cell.ops == GetOps(x.ty) && Held(r.cell, r.heap) == x
    ensures FitsSmallBuf(x.ty) ==> r.heap == h && Owned(r.cell) == {}
    ensures !FitsSmallBuf(x.ty) ==>
      r.heap == Heap(h.objects[h.next := x], h.next + 1) && Owned(r.cell) == {h.next} && h.next !in h.objects
  {
    if FitsSmallBuf(x.ty) then
      Placed(Cell(GetOps(x.ty), Object(x)), h)
    else
      Placed(Cell(GetOps(x.ty), Pointer(At(h.next))), Heap(h.objects[h.next := x], h.next + 1))
  }

  /** The `destroy` entry of the bound table. */
  function DestroyCell(c: Cell, h: Heap): (r: Placed)
    requires Bound(c, h)
    ensures r.cell.ops == Empty && Owned(r.cell) == {}
    ensures r.heap == Heap(h.objects - Owned(c), h.next)
    ensures c.ops == Empty ==> r == Placed(c, h)
    ensures IsDynamic(c) ==> r.cell.buf == Pointer(Null) && Owned(c) <= h.objects.Keys
    ensures c.ops.Table? && c.ops.placement == Inline ==> r.cell.buf == Vacant && r.heap == h
  {
    match c.ops
    case Empty => Placed(c, h)
    case Table(_, Inline) => Placed(Cell(Empty, Vacant), h)
    case Table(_, Dynamic) => Placed(Cell(Empty, Pointer(Null)), Heap(h.objects - {c.buf.ptr.id}, h.next))
  }

  /** `to` and the heap after a copy, and whether the copy threw. */
  datatype Copied = Copied(to: Cell, heap: Heap, outcome: Outcome)

  /** The `copy` entry of `from`'s table. `throws` says whether constructing
      the copy fails (the callable's copy constructor, or the allocation of
      the heap variant). */
  function CopyCell(from: Cell, to: Cell, h: Heap, throws: bool): (r: Copied)
    requires Compatible(from, to, h)
    ensures HeapValid(r.heap) && Bound(r.to, r.heap) && Bound(from, r.heap)
    ensures r.outcome.Fail? <==> from.ops.Table? && throws
    ensures r.outcome.Fail? ==>
      r.outcome.error == CopyThrew && r.to == DestroyCell(to, h).cell && r.heap == DestroyCell(to, h).heap
    ensures from.ops == Empty ==> r.to == to.(ops := Empty) && r.heap == h
    ensures from.ops.Table? && !throws ==>
      r.to.ops == from.ops && Held(r.to, r.heap) == Held(from, h) &&
      Owned(r.to) !! h.objects.Keys &&
      r.heap.objects - Owned(r.to) == h.objects - Owned(to)
    ensures from.ops.Table? && !throws && from.ops.placement == Inline ==>
      r.to == from && r.heap == Heap(h.objects - Owned(to), h.next)
    ensures from.ops.Table? && !throws && from.ops.placement == Dynamic ==>
      r.to == Cell(from.ops, Pointer(At(h.next))) &&
      r.heap == Heap((h.objects - Owned(to))[h.next := Held(from, h)], h.next + 1)
  {
    match from.ops
    case Empty => Copied(to.(ops := Empty), h, Pass)
    case Table(_, p) =>
      var d := DestroyCell(to, h);
      if throws then
        Copied(d.cell, d.heap, Fail(CopyThrew))
      else if p == Inline then
        Copied(Cell(from.ops, Object(from.buf.obj)), d.heap, Pass)
      else
        var x := h.objects[from.buf.ptr.id];
        Copied(Cell(from.ops, Pointer(At(d.heap.next))),
               Heap(d.heap.objects[d.heap.next := x], d.heap.next + 1), Pass)
  }

  /** Both cells and the heap after a move. */
  datatype Moved = Moved(from: Cell, to: Cell, heap: Heap)

  /** The `move` entry of `from`'s table. */
  function MoveCell(from: Cell, to: Cell, h: Heap): (r: Moved)
    requires Compatible(from, to, h)
    ensures HeapValid(r.heap) && Bound(r.from, r.heap) && Bound(r.to, r.heap)
    ensures r.from.ops == Empty && r.heap.next == h.next
    ensures from.ops == Empty ==> r.from == from && r.to == to.(ops := Empty) && r.heap == h
    ensures from.ops.Table? ==>
      r.to == from && r.from == from.(ops := Empty) && r.heap == DestroyCell(to, h).heap
  {
    match from.ops
    case Empty => Moved(from, to.(ops := Empty), h)
    case Table(_, p) =>
      var d := DestroyCell(to, h);
      if p == Inline then
        Moved(from.(ops := Empty), Cell(from.ops, Object(from.buf.obj)), d.heap)
      else
        Moved(from.(ops := Empty), Cell(from.ops, Pointer(from.buf.ptr)), d.heap)
  }

  /** Destroying twice is the same as destroying once. */
  lemma DestroyIdempotent(c: Cell, h: Heap)
    requires Bound(c, h)
    ensures var d := DestroyCell(c, h); Bound(d.cell, d.heap) && DestroyCell(d.cell, d.heap) == d
  {
  }

  /** The free store, as an object that the operations update in place. */
  class Memory {
    var objects: map<nat, Callable>
    var next: nat

    function View(): Heap
      reads this
    {
      Heap(objects, next)
    }

    constructor ()
      ensures View() == Heap(map[], 0) && HeapValid(View())
    {
      objects, next := map[], 0;
    }

    /** `new T(...)`: a fresh address holding `x`. */
    method Allocate(x: Callable) returns (id: nat)
      modifies this
      ensures id == old(next) && View() == Heap(old(objects)[id := x], old(next) + 1)
    {
      id := next;
      objects := objects[id := x];
      next := next + 1;
    }

    /** `delete p` for a non-null `p`. */
    method Free(id: nat)
      modifies this
      ensures View() == Heap(old(objects) - {id}, old(next))
    {
      objects := objects - {id};
    }
  }

  /** `storage<R, Args...>`: the buffer and the pointer to the bound table. */
  class Storage {
    var ops: Ops
    var buf: Buf

    function View(): Cell
      reads this
    {
      Cell(ops, buf)
    }

    /** `storage()`: bound to the empty table. */
    constructor ()
      ensures View() == Default
    {
      ops, buf := Empty, Vacant;
    }

    /** `storage(T&& func)`. */
    constructor FromCallable(x: Callable, mem: Memory)
      requires HeapValid(mem.View())
      modifies mem
      ensures Placed(View(), mem.View()) == ConstructCell(x, old(mem.View()))
    {
      if FitsSmallBuf(x.ty) {
        buf := Object(x);
      } else {
        var id := mem.Allocate(x);
        buf := Pointer(At(id));
      }
      ops := GetOps(x.ty);
    }

    /** `~storage()`: runs the bound table's `destroy`. */
    method Destruct(mem: Memory)
      requires Bound(View(), mem.View())
      modifies this, mem
      ensures Placed(View(), mem.View()) == DestroyCell(old(View()), old(mem.View()))
    {
      Destroy(this, mem);
    }
  }

  /** `destroy` of an inline table: rebind to empty, run the destructor in place. */
  method InlineDestroy(s: Storage)
    requires s.ops.Table? && s.ops.placement == Inline
    modifies s
    ensures s.View() == Cell(Empty, Vacant)
  {
    s.ops := Empty;
    s.buf := Vacant;
  }

  /** `destroy` of a heap table: rebind to empty, delete the object, null the pointer. */
  method DynamicDestroy(s: Storage, mem: Memory)
    requires IsDynamic(s.View()) && Bound(s.View(), mem.View())
    modifies s, mem
    ensures s.View() == Cell(Empty, Pointer(Null))
    ensures mem.View() == Heap(old(mem.objects) - Owned(old(s.View())), old(mem.next))
  {
    s.ops := Empty;
    mem.Free(s.buf.ptr.id);
    s.buf := Pointer(Null);
  }

  /** `ops->destroy(s)`; the empty table's `destroy` does nothing. */
  method Destroy(s: Storage, mem: Memory)
    requires Bound(s.View(), mem.View())
    modifies s, mem
    ensures Placed(s.View(), mem.View()) == DestroyCell(old(s.View()), old(mem.View()))
  {
    match s.ops
    case Empty =>
    case Table(_, Inline) => InlineDestroy(s);
    case Table(_, Dynamic) => DynamicDestroy(s, mem);
  }

  /** `copy` of the empty table: rebind `to` to empty, and nothing else. */
  method EmptyCopy(from: Storage, to: Storage)
    requires from.ops == Empty
    modifies to
    ensures to.View() == old(to.View()).(ops := Empty)
  {
    to.ops := Empty;
  }

  /** `copy` of an inline table. */
  method InlineCopy(from: Storage, to: Storage, mem: Memory, throws: bool) returns (outcome: Outcome)
    requires from != to && from.ops.Table? && from.ops.placement == Inline
    requires Compatible(from.View(), to.View(), mem.View())
    modifies to, mem
    ensures Copied(to.View(), mem.View(), outcome) == CopyCell(old(from.View()), old(to.View()), old(mem.View()), throws)
  {
    Destroy(to, mem);
    if throws {
      return Fail(CopyThrew);
    }
    to.buf := Object(from.buf.obj);
    to.ops := from.ops;
    outcome := Pass;
  }

  /** `copy` of a heap table. */
  method DynamicCopy(from: Storage, to: Storage, mem: Memory, throws: bool) returns (outcome: Outcome)
    requires from != to && IsDynamic(from.View())
    requires Compatible(from.View(), to.View(), mem.View())
    modifies to, mem
    ensures Copied(to.View(), mem.View(), outcome) == CopyCell(old(from.View()), old(to.View()), old(mem.View()), throws)
  {
    Destroy(to, mem);
    if throws {
      return Fail(CopyThrew);
    }
    var id := mem.Allocate(mem.objects[from.buf.ptr.id]);
    to.buf := Pointer(At(id));
    to.ops := from.ops;
    outcome := Pass;
  }

  /** `ops->copy(from, to)` through `from`'s table. */
  method Copy(from: Storage, to: Storage, mem: Memory, throws: bool) returns (outcome: Outcome)
    requires from != to && Compatible(from.View(), to.View(), mem.View())
    modifies to, mem
    ensures Copied(to.View(), mem.View(), outcome) == CopyCell(old(from.View()), old(to.View()), old(mem.View()), throws)
  {
    match from.ops
    case Empty =>
      EmptyCopy(from, to);
      outcome := Pass;
    case Table(_, Inline) =>
      outcome := InlineCopy(from, to, mem, throws);
    case Table(_, Dynamic) =>
      outcome := DynamicCopy(from, to, mem, throws);
  }

  /** `move` of the empty table: rebind `to` to empty, and nothing else. */
  method EmptyMove(from: Storage, to: Storage)
    requires from.ops == Empty
    modifies to
    ensures to.View() == old(to.View()).(ops := Empty)
  {
    to.ops := Empty;
  }

  /** `move` of an inline table: the moved-from object stays in `from`'s buffer. */
  method InlineMove(from: Storage, to: Storage, mem: Memory)
    requires from != to && from.ops.Table? && from.ops.placement == Inline
    requires Compatible(from.View(), to.View(), mem.View())
    modifies from, to, mem
    ensures Moved(from.View(), to.View(), mem.View()) == MoveCell(old(from.View()), old(to.View()), old(mem.View()))
  {
    Destroy(to, mem);
    to.buf := Object(from.buf.obj);
    to.ops := from.ops;
    from.ops := Empty;
  }

  /** `move` of a heap table: a pointer hand-off, no allocation. */
  method DynamicMove(from: Storage, to: Storage, mem: Memory)
    requires from != to && IsDynamic(from.View())
    requires Compatible(from.View(), to.View(), mem.View())
    modifies from, to, mem
    ensures Moved(from.View(), to.View(), mem.View()) == MoveCell(old(from.View()), old(to.View()), old(mem.View()))
  {
    Destroy(to, mem);
    to.buf := Pointer(from.buf.ptr);
    to.ops := from.ops;
    from.ops := Empty;
  }

  /** `ops->move(from, to)` through `from`'s table. */
  method Move(from: Storage, to: Storage, mem: Memory)
    requires from != to && Compatible(from.View(), to.View(), mem.View())
    modifies from, to, mem
    ensures Moved(from.View(), to.View(), mem.View()) == MoveCell(old(from.View()), old(to.View()), old(mem.View()))
  {
    match from.ops
    case Empty => EmptyMove(from, to);
    case Table(_, Inline) => InlineMove(from, to, mem);
    case Table(_, Dynamic) => DynamicMove(from, to, mem);
  }
}
