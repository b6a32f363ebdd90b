# A verified model of a type-erased callable wrapper

The repository is one component, `function<R(Args...)>`: a wrapper that holds
any callable of a given signature behind a table of four operations (invoke,
destroy, copy, move). A callable that fits one machine word and cannot throw
while being moved is kept inline in a word-sized buffer. Any other callable
is kept in a heap object, and the buffer holds a pointer to it. The wrapper
is always bound to exactly one table: the canonical empty table, or the one
table of the concrete type it holds.

The model has four modules:

- `FunctionDetail` (`function_detail.dfy`) models `function_detail.h`.
  - `TypeInfo` describes a concrete type: its identity, size, alignment and
    whether its move constructor is non-throwing.
  - `FitsSmallBuf` and `GetOps` give the placement rule and the table of a type.
  - `Ops` is a table. It is `Empty`, or `Table(type, Inline | Dynamic)`.
    Comparing two `Ops` values stands for comparing table pointers.
  - `Cell` is the value of a storage: its table and its buffer. The buffer
    is `Vacant`, an inline `Object`, or a `Pointer`.
  - `Heap` is the value of the free store: the live objects by address, and
    the next fresh address.
  - Each table operation is a function on these values (`DestroyCell`,
    `CopyCell`, `MoveCell`, `ConstructCell`, `Invoke`, `Get`). Its contract
    states what the operation promises.
  - The same operations are also methods on `Storage` and `Memory` objects,
    one method per table entry (`InlineCopy`, `DynamicMove`, ...), plus the
    dispatchers `Destroy`, `Copy` and `Move` that go through the bound table.
    Each method is proved to produce exactly what its function describes.
- `Wrapper` (`function.dfy`) models `function.h`. It has the class `Function`,
  which owns one `Storage`. It also has `CopyAssignCells`, the value-level
  spec of the backup, copy and roll-back sequence of copy assignment.
- `Ownership` (`ownership.dfy`) models a program that holds several wrappers
  over one free store. `Sound` says that every live heap object is owned by
  exactly one wrapper. The lemmas prove which wrapper operations keep that
  property, and that one operation breaks it.
- `Scenarios` (`scenarios.dfy`) is a client. It proves facts about concrete
  types and one concrete run, using only the contracts.

Modelling choices:

- Failure to build a copy is a `throws` flag given to `copy`. It covers both
  the callable's copy constructor throwing and the `new` in the heap variant
  failing. It yields `Fail(CopyThrew)` and not an exception.
- Calling an empty wrapper yields `Err(BadFunctionCall)`. Its message is
  "bad function call".
- What a callable computes is a parameter `apply: (Callable, A) -> R`.
- The word is 8 bytes, with 8-byte alignment (a 64-bit target).
- The copy constructor can fail, and a Dafny constructor cannot report
  failure. So the copy constructor is the static method `Function.CopyOf`,
  which returns `Result<Function>`.

Behaviour modelled as written, not corrected:

- The empty table's `copy` and `move` only rebind `to` to the empty table.
  They never run `to`'s `destroy` (function_detail.h:45-51).
- So move-assigning an empty wrapper into one that holds a heap callable
  (function.h:36-41) leaves that heap object live and owned by no one: a leak.
  `Ownership.EmptyMoveAssignLeaks` proves this, and `Scenarios.HeapCallableRun`
  shows it on a concrete run.
- When the target holds an inline callable, the same path skips that
  callable's destructor. The buffer keeps the live object while the cell is
  bound to the empty table (`FunctionDetail.MoveCell`, first case).
- The inline `move` never destroys the moved-from object in `from`'s buffer.
  The model leaves that object where it was.
- Copy assignment never reaches the empty `copy` while the target still
  holds a value, because the target's value is first moved into `backup`.
  So copy assignment does not leak (`Ownership.CopyAssignKeepsSound`).

## Model

| member | source | states |
|---|---|---|
| FunctionDetail.GetOps | function_detail.h:13-17 | T's table is a non-empty table of T. It is the inline variant exactly when `sizeof(T) <= SIZE`, `ALIGN % alignof(T) == 0` and T is nothrow-move-constructible; otherwise it is the heap variant |
| FunctionDetail.TableIdentity | function_detail.h:59-66 | one table per concrete type: two types' tables are equal iff the types are equal, and no type's table is the empty table |
| FunctionDetail.Get | function_detail.h:148-155 | for an inline T, `get` yields the object in the buffer; for a heap T, the object the buffer points at. On a cell bound to T's table it yields exactly the held callable |
| FunctionDetail.Invoke | function_detail.h:37-41 | invoke fails iff the cell is bound to the empty table, and the failure is `bad_function_call` with message "bad function call". Otherwise it applies the callable that `get` finds (function_detail.h:68-70, 103-105) |
| FunctionDetail.ConstructCell | function_detail.h:134-142 | the new cell is bound to T's table and holds the callable. Inline placement leaves the heap unchanged. Heap placement makes exactly one allocation, at a fresh address |
| FunctionDetail.Storage.constructor | function_detail.h:132 | a default storage is bound to the empty table with a vacant buffer |
| FunctionDetail.Storage.FromCallable | function_detail.h:134-142 | the converting storage constructor produces exactly `ConstructCell`'s cell and heap |
| FunctionDetail.Storage.Destruct | function_detail.h:144-146 | the storage destructor runs the bound table's destroy: the result is `DestroyCell` of the old cell and heap |
| FunctionDetail.DestroyCell | function_detail.h:107-111 | destroy always leaves the cell bound to the empty table and owning nothing, and frees exactly the heap object the cell owned. The empty destroy changes nothing (line 43). Inline destroy leaves a vacant buffer (72-75). Heap destroy nulls the pointer |
| FunctionDetail.DestroyIdempotent | function_detail.h:43 | a second destroy after a destroy changes nothing |
| FunctionDetail.InlineDestroy | function_detail.h:72-75 | inline destroy rebinds to the empty table and ends the object's lifetime in the buffer |
| FunctionDetail.DynamicDestroy | function_detail.h:107-111 | heap destroy rebinds to the empty table, frees the owned heap object, and stores a null pointer |
| FunctionDetail.Destroy | function_detail.h:27 | `ops->destroy` dispatches on the bound table and produces `DestroyCell`'s result |
| FunctionDetail.CopyCell | function_detail.h:113-117 | copy through the empty table rebinds `to` to empty, without destroying `to` and without touching the heap. A non-empty copy that throws leaves `to` destroyed and bound to empty. A non-empty copy that succeeds gives `to` `from`'s table and a copy of `from`'s callable. For the heap case, that copy is one fresh allocation owned by no one else, and `to`'s old object is released (inline case: lines 77-81) |
| FunctionDetail.EmptyCopy | function_detail.h:45-47 | the empty table's copy only rebinds `to` to the empty table |
| FunctionDetail.InlineCopy | function_detail.h:77-81 | inline copy destroys `to`, then copy-constructs into its buffer and binds `to` to `from`'s table. The result is exactly `CopyCell`'s, success and failure alike |
| FunctionDetail.DynamicCopy | function_detail.h:113-117 | heap copy destroys `to`, then allocates a copy and binds `to` to `from`'s table. The result is exactly `CopyCell`'s, success and failure alike |
| FunctionDetail.Copy | function_detail.h:28 | `ops->copy` dispatches on `from`'s table and produces `CopyCell`'s result. It modifies only `to` and the heap |
| FunctionDetail.MoveCell | function_detail.h:119-124 | a non-empty move gives `to` exactly `from`'s table and buffer, rebinds `from` to empty, releases `to`'s old object, and makes no allocation (inline case: lines 83-88). An empty move rebinds `to` to empty, destroys nothing, and leaves `from` as it was |
| FunctionDetail.EmptyMove | function_detail.h:49-51 | the empty table's move only rebinds `to` to the empty table |
| FunctionDetail.InlineMove | function_detail.h:83-88 | inline move destroys `to`, move-constructs `from`'s object into it, binds it to `from`'s table, then rebinds `from` to empty. The result is exactly `MoveCell`'s |
| FunctionDetail.DynamicMove | function_detail.h:119-124 | heap move destroys `to`, hands over `from`'s pointer, binds `to` to `from`'s table, and rebinds `from` to empty. The result is exactly `MoveCell`'s |
| FunctionDetail.Move | function_detail.h:29 | `ops->move` dispatches on `from`'s table and produces `MoveCell`'s result |
| Wrapper.Function.constructor | function.h:10 | a default wrapper has a default storage and `operator bool` is false |
| Wrapper.Function.FromCallable | function.h:13-14 | the converting constructor builds its storage as `ConstructCell` says |
| Wrapper.Function.CopyOf | function.h:16-18 | copy construction copies `other` into a default storage through `other`'s table, and leaves `other` unchanged. If the copy throws, no wrapper results and the heap is as before |
| Wrapper.Function.Move | function.h:19-21 | move construction moves `other` into a default storage: the new wrapper holds `other`'s table and callable, and `other` is left empty |
| Wrapper.Function.Destruct | function.h:11 | the wrapper's destructor is its storage's destroy |
| Wrapper.CopyAssignCells | function.h:23-34 | a failed copy assignment restores the target exactly and leaves the heap exactly as it was. A successful one gives the target `other`'s table and callable. For a heap callable that is a fresh object. The target's old object is released exactly once |
| Wrapper.Function.CopyAssign | function.h:23-34 | self-assignment changes nothing. Otherwise the backup, copy, move-back and destroy-backup steps produce exactly `CopyAssignCells`'s result, and `other` is unchanged |
| Wrapper.Function.MoveAssign | function.h:36-41 | self-assignment changes nothing. Otherwise this is `other`'s table's move into this storage, with `MoveCell`'s result, including the empty-`other` case that drops the old callable |
| Wrapper.Function.AsBool | function.h:43-45 | `operator bool` is true iff the bound table is not the empty table |
| Wrapper.Function.Call | function.h:47-49 | a call fails with `bad_function_call` iff `operator bool` is false. Otherwise it applies the callable that `target` returns for the bound type |
| Wrapper.Function.TargetConst | function.h:60-67 | `target<T>() const` is non-null iff the wrapper is bound to T's table, so it is null for an empty wrapper. When non-null it is the held callable, of type T |
| Wrapper.Function.Target | function.h:51-58 | the non-const `target<T>()` returns the same as the const overload |
| Ownership.ConstructKeepsSound | function.h:13-14 | constructing a wrapper from a callable keeps every live heap object owned exactly once |
| Ownership.CopyConstructKeepsSound | function.h:16-18 | a copy construction that succeeds adds a wrapper that owns only a fresh object. One that throws leaves the heap unchanged |
| Ownership.MoveConstructKeepsSound | function.h:19-21 | move construction passes ownership to the new wrapper and keeps the world sound |
| Ownership.DestroyKeepsSound | function_detail.h:144-146 | destroying a wrapper at the end of its lifetime releases its object exactly once and keeps the rest sound |
| Ownership.CopyAssignKeepsSound | function.h:23-34 | copy assignment between two distinct wrappers keeps the world sound, whether the copy succeeds or throws |
| Ownership.MoveAssignKeepsSound | function.h:36-41 | move assignment from a non-empty wrapper releases the target's object, passes ownership, and keeps the world sound |
| Ownership.EmptyMoveAssignLeaks | function_detail.h:49-51 | move-assigning an empty wrapper into one that owns a heap object leaves that object live and owned by no wrapper. So the world is no longer sound |
| Scenarios.PlacementBoundary | function_detail.h:13-17 | a word-sized, word-aligned, nothrow-movable type is inline. Too large, over-aligned, or throwing-move types go to the heap |

## Left out

- Byte-level representation: `std::aligned_storage_t`, `reinterpret_cast` and placement `new`. The buffer is a sum of "vacant", "inline object" and "pointer". Over-aligned or oversized bytes are not represented.
- Templates, variadic arguments and perfect forwarding. Arguments and results are type parameters `A` and `R`, and what a callable computes is the parameter `apply`.
- Exceptions thrown by the callable itself when it is invoked. Exceptions from the converting constructor: `new T` or T's move constructor throwing in the heap path leaves no wrapper behind, so there is no state to model.
- Wrapper.Function.Target: the object behind the non-const pointer can be changed by the caller. The model returns the held value and does not model writes through that pointer.
- The number of destructor runs of inline objects. The model records only whether a live object sits in the buffer and which table the cell is bound to. A destructor skipped on a path shows up in the cell's state, not in a count.
- Address reuse by the allocator. Fresh addresses are always new, so `next` counts allocations.
- Copying or moving a storage into itself. Every caller in the source passes two distinct storages, so the table-op methods require `from != to`.
- Thread safety and concurrent invocation: the component has none.
- The word size is fixed at 8 bytes with 8-byte alignment. Other targets differ only in the constants `SIZE` and `ALIGN`.
