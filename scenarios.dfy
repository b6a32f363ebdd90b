/** Clients of the wrapper that use nothing but the contracts: where a few
    concrete types are placed, and one run over a single free store. */
module Scenarios {
  import opened FunctionDetail
  import opened Wrapper

  /** A word-sized, word-aligned, nothrow-movable callable. */
  const Small: TypeInfo := TypeInfo(1, 8, 8, true)
  /** A callable capturing a buffer larger than one word. */
  const Large: TypeInfo := TypeInfo(2, 64, 8, true)

  /** Each of the three conditions alone sends a type to the heap. */
  lemma PlacementBoundary()
    ensures GetOps(Small).placement == Inline
    ensures GetOps(Large).placement == Dynamic
    ensures GetOps(TypeInfo(3, 4, 16, true)).placement == Dynamic
    ensures GetOps(TypeInfo(4, 4, 4, false)).placement == Dynamic
    ensures GetOps(TypeInfo(5, 1, 1, true)).placement == Inline
  {
  }

  method HeapCallableRun(apply: (Callable, int) -> int) {
    var mem := new Memory();
    var big := Callable(Large, [1, 2, 3]);

    // Heap placement: exactly one allocation.
    var a := new Function.FromCallable(big, mem);
    assert mem.next == 1 && mem.objects == map[0 := big];
    var t := a.Target(Large, mem);
    assert t == Some(big);
    assert a.TargetConst(Small, mem) == None;
    assert a.Call(7, apply, mem) == Ok(apply(big, 7));

    // A copy is an independent heap object with the same callable.
    var copied := Function.CopyOf(a, mem, false);
    assert copied.Ok? && mem.objects == map[0 := big, 1 := big];
    var b := copied.value;
    assert b.storage.View() == Cell(GetOps(Large), Pointer(At(1)));

    // A thrown copy-assignment leaves the target as it was.
    var e := new Function();
    var small := new Function.FromCallable(Callable(Small, [9]), mem);
    assert mem.next == 2;
    var outcome := small.CopyAssign(a, mem, true);
    assert outcome == Fail(CopyThrew);
    assert small.storage.View() == Cell(GetOps(Small), Object(Callable(Small, [9])));
    assert mem.objects == map[0 := big, 1 := big];

    // Moving `a` into `b` releases `b`'s object and empties `a`.
    b.MoveAssign(a, mem);
    assert mem.objects == map[0 := big] && !a.AsBool();
    assert a.Call(7, apply, mem) == Err(BadFunctionCall);

    // Moving the empty `e` into `b` empties `b` but releases nothing.
    b.MoveAssign(e, mem);
    assert !b.AsBool() && mem.objects == map[0 := big];
  }
}
