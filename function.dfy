/** The public wrapper `function<R(Args...)>`: it owns one storage cell and
    does everything through the table that cell is bound to. */
module Wrapper {
  import opened FunctionDetail

  /** Copy assignment on values: move the old value aside into `backup`,
      copy `other` in, move `backup` back if the copy threw, and finally
      destroy `backup` (at the end of its scope, on both paths). */
  function CopyAssignCells(self: Cell, other: Cell, h: Heap, throws: bool): (r: Copied)
    requires Compatible(other, self, h)
    ensures HeapValid(r.heap) && Bound(r.to, r.heap)
    ensures r.outcome.Fail? <==> other.ops.Table? && throws
    ensures r.outcome.Fail? ==> r.outcome.error == CopyThrew && r.to == self && r.heap == h
    ensures r.outcome.Pass? ==> r.to.ops == other.ops && r.heap.next >= h.next
    ensures r.outcome.Pass? && other.ops == Empty ==>
      Owned(r.to) == {} && r.heap == Heap(h.objects - Owned(self), h.next)
    ensures r.outcome.Pass? && other.ops.Table? ==>
      Held(r.to, r.heap) == Held(other, h) && Owned(r.to) !! h.objects.Keys &&
      r.heap.objects - Owned(r.to) == h.objects - Owned(self)
  {
    var aside := MoveCell(self, Default, h);
    var copied := CopyCell(other, aside.from, aside.heap, throws);
    if copied.outcome.Fail? then
      var back := MoveCell(aside.to, copied.to, copied.heap);
      var gone := DestroyCell(back.from, back.heap);
      Copied(back.to, gone.heap, copied.outcome)
    else
      assert Owned(aside.to) !! Owned(copied.to);
      assert Bound(aside.to, copied.heap) by {
        if IsDynamic(aside.to) {
          assert aside.to.buf.ptr.id in aside.heap.objects - Owned(aside.from);
        }
      }
      var gone := DestroyCell(aside.to, copied.heap);
      Copied(copied.to, gone.heap, copied.outcome)
  }

  /** `function<R(Args...)>`. The storage is a member subobject, so two
      distinct wrappers never share one. */
  class Function {
    const storage: Storage

    /** The wrapper is well formed over the free store `mem`. */
    ghost predicate Valid(mem: Memory)
      reads this, storage, mem
    {
      HeapValid(mem.View()) && Bound(storage.View(), mem.View())
    }

    /** `function()`: empty. */
    constructor ()
      ensures fresh(storage) && storage.View() == Default && !AsBool()
    {
      storage := new Storage();
    }

    /** `function(T func)`: the callable is moved into a fresh storage. */
    constructor FromCallable(x: Callable, mem: Memory)
      requires HeapValid(mem.View())
      modifies mem
      ensures fresh(storage)
      ensures Placed(storage.View(), mem.View()) == ConstructCell(x, old(mem.View()))
    {
      storage := new Storage.FromCallable(x, mem);
    }

    /** `function(function const& other)`: a default storage that `other`'s
        table copies into. If the copy throws, the half-built wrapper's
        storage is destroyed and no wrapper results. */
    static method CopyOf(other: Function, mem: Memory, throws: bool) returns (r: Result<Function>)
      requires other.Valid(mem)
      modifies mem
      ensures var c := CopyCell(old(other.storage.View()), Default, old(mem.View()), throws);
        mem.View() == c.heap && (r.Ok? <==> c.outcome.Pass?) &&
        (r.Ok? ==> fresh(r.value) && fresh(r.value.storage) && r.value.storage.View() == c.to) &&
        (r.Err? ==> r.error == CopyThrew)
      ensures other.storage.View() == old(other.storage.View())
    {
      var f := new Function();
      var outcome := Copy(other.storage, f.storage, mem, throws);
      if outcome.Fail? {
        Destroy(f.storage, mem);
        r := Err(outcome.error);
      } else {
        r := Ok(f);
      }
    }

    /** `function(function&& other)`: `other`'s table moves into a default storage. */
    constructor Move(other: Function, mem: Memory)
      requires other.Valid(mem)
      modifies other.storage, mem
      ensures fresh(storage)
      ensures Moved(other.storage.View(), storage.View(), mem.View()) ==
              MoveCell(old(other.storage.View()), Default, old(mem.View()))
    {
      storage := new Storage();
      new;
      FunctionDetail.Move(other.storage, storage, mem);
    }

    /** `~function()`: the storage's destructor. */
    method Destruct(mem: Memory)
      requires Valid(mem)
      modifies storage, mem
      ensures Placed(storage.View(), mem.View()) == DestroyCell(old(storage.View()), old(mem.View()))
    {
      storage.Destruct(mem);
    }

    /** `operator=(function const& other)`. */
    method CopyAssign(other: Function, mem: Memory, throws: bool) returns (outcome: Outcome)
      requires Valid(mem) && other.Valid(mem)
      requires this != other ==> storage != other.storage && Owned(storage.View()) !! Owned(other.storage.View())
      modifies storage, mem
      ensures this == other ==>
        storage.View() == old(storage.View()) && mem.View() == old(mem.View()) && outcome == Pass
      ensures this != other ==>
        Copied(storage.View(), mem.View(), outcome) ==
        CopyAssignCells(old(storage.View()), old(other.storage.View()), old(mem.View()), throws)
      ensures other.storage.View() == old(other.storage.View())
    {
      outcome := Pass;
      if this != other {
        var backup := new Function.Move(this, mem);
        outcome := Copy(other.storage, storage, mem, throws);
        if outcome.Fail? {
          FunctionDetail.Move(backup.storage, storage, mem);
        }
        backup.Destruct(mem);
      }
    }

    /** `operator=(function&& other)`: `other`'s table moves straight into
        this storage. When `other` is empty, this storage is rebound to the
        empty table without its old callable being destroyed. */
    method MoveAssign(other: Function, mem: Memory)
      requires Valid(mem) && other.Valid(mem)
      requires this != other ==> storage != other.storage && Owned(storage.View()) !! Owned(other.storage.View())
      modifies storage, other.storage, mem
      ensures this == other ==> storage.View() == old(storage.View()) && mem.View() == old(mem.View())
      ensures this != other ==>
        Moved(other.storage.View(), storage.View(), mem.View()) ==
        MoveCell(old(other.storage.View()), old(storage.View()), old(mem.View()))
    {
      if this != other {
        FunctionDetail.Move(other.storage, storage, mem);
      }
    }

    /** `explicit operator bool()`. */
    function AsBool(): (b: bool)
      reads this, storage
      ensures b <==> storage.ops != Empty
    {
      storage.ops != Empty
    }

    /** `operator()(Args&&...)`: the bound table's `invoke`. */
    function Call<A, R>(args: A, apply: (Callable, A) -> R, mem: Memory): (r: Result<R>)
      reads this, storage, mem
      requires Valid(mem)
      ensures r.Err? <==> !AsBool()
      ensures r.Err? ==> r.error == BadFunctionCall
      ensures r.Ok? ==> TargetConst(storage.ops.ty, mem).Some? &&
                        r.value == apply(TargetConst(storage.ops.ty, mem).value, args)
    {
      Invoke(storage.View(), mem.View(), args, apply)
    }

    /** `target<T>() const`: the held object when the wrapper is bound to
        T's table, and null otherwise. */
    function TargetConst(t: TypeInfo, mem: Memory): (r: Option<Callable>)
      reads this, storage, mem
      requires Valid(mem)
      ensures r.Some? <==> storage.ops == GetOps(t)
      ensures r.Some? ==> r.value.ty == t && r.value == Held(storage.View(), mem.View())
      ensures !AsBool() ==> r == None
    {
      if storage.ops == GetOps(t) then Get(storage.View(), mem.View(), t) else None
    }

    /** `target<T>()`, the non-const overload: agrees with the const one. */
    method Target(t: TypeInfo, mem: Memory) returns (r: Option<Callable>)
      requires Valid(mem)
      ensures r == TargetConst(t, mem)
    {
      if storage.ops == GetOps(t) {
        r := Get(storage.View(), mem.View(), t);
      } else {
        r := None;
      }
    }
  }
}
