/** The resource discipline of a program that holds several wrappers over
    one free store: every live heap object is owned by exactly one wrapper.
    The lemmas show which wrapper operations keep that discipline and that
    move-assigning an empty wrapper breaks it. */
module Ownership {
  import opened FunctionDetail
  import Wrapper

  /** The heap objects the wrappers of `w` own, counted with multiplicity. */
  function OwnedIds(w: seq<Cell>): multiset<nat> {
    if w == [] then multiset{} else multiset(Owned(w[0])) + OwnedIds(w[1..])
  }

  /** Every wrapper of `w` is bound over `h`. */
  ghost predicate AllBound(w: seq<Cell>, h: Heap) {
    forall i :: 0 <= i < |w| ==> Bound(w[i], h)
  }

  /** Every wrapper is bound, and the live heap objects are exactly the
      owned ones, each owned once: nothing leaked, nothing released twice. */
  ghost predicate Sound(w: seq<Cell>, h: Heap) {
    HeapValid(h) && AllBound(w, h) && OwnedIds(w) == multiset(h.objects.Keys)
  }

  lemma {:induction false} OwnedIdsUpdate(w: seq<Cell>, i: nat, c: Cell)
    requires i < |w|
    ensures multiset(Owned(w[i])) <= OwnedIds(w)
    ensures OwnedIds(w[i := c]) == OwnedIds(w) - multiset(Owned(w[i])) + multiset(Owned(c))
  {
    if i > 0 {
      assert w[i := c][1..] == w[1..][i - 1 := c];
      OwnedIdsUpdate(w[1..], i - 1, c);
    }
  }

  lemma {:induction false} OwnedIdsAppend(w: seq<Cell>, c: Cell)
    ensures OwnedIds(w + [c]) == OwnedIds(w) + multiset(Owned(c))
  {
    if w != [] {
      assert (w + [c])[1..] == w[1..] + [c];
      OwnedIdsAppend(w[1..], c);
    }
  }

  lemma {:induction false} OwnedIdsRemove(w: seq<Cell>, i: nat)
    requires i < |w|
    ensures OwnedIds(w[..i] + w[i + 1..]) == OwnedIds(w) - multiset(Owned(w[i]))
  {
    if i == 0 {
      assert w[..i] + w[i + 1..] == w[1..];
    } else {
      assert (w[..i] + w[i + 1..])[1..] == w[1..][..i - 1] + w[1..][i..];
      OwnedIdsRemove(w[1..], i - 1);
      OwnedIdsUpdate(w[1..], i - 1, w[i]);
    }
  }

  /** Two distinct wrappers own at most what the whole world owns. */
  lemma {:induction false} OwnedPair(w: seq<Cell>, i: nat, j: nat)
    requires i < |w| && j < |w| && i != j
    ensures multiset(Owned(w[i])) + multiset(Owned(w[j])) <= OwnedIds(w)
  {
    if i == 0 {
      OwnedIdsUpdate(w[1..], j - 1, w[j]);
    } else if j == 0 {
      OwnedIdsUpdate(w[1..], i - 1, w[i]);
    } else {
      OwnedPair(w[1..], i - 1, j - 1);
    }
  }

  /** In a sound world two distinct wrappers never own the same object. */
  lemma SoundDisjoint(w: seq<Cell>, h: Heap, i: nat, j: nat)
    requires Sound(w, h) && i < |w| && j < |w| && i != j
    ensures Owned(w[i]) !! Owned(w[j])
    ensures Compatible(w[i], w[j], h)
  {
    OwnedPair(w, i, j);
    forall id | id in Owned(w[i]) ensures id !in Owned(w[j]) {
      assert multiset(Owned(w[i]))[id] == 1;
      assert multiset(h.objects.Keys)[id] <= 1;
      assert multiset(Owned(w[j]))[id] == 0;
    }
  }

  lemma MultisetOfMinus(s: set<nat>, t: set<nat>)
    requires t <= s
    ensures multiset(s - t) == multiset(s) - multiset(t)
  {
  }

  lemma MultisetOfUnion(s: set<nat>, t: set<nat>)
    requires s !! t
    ensures multiset(s + t) == multiset(s) + multiset(t)
  {
  }

  /** When an operation on `w[i]` changes the heap only at the object
      `w[i]` owns and at addresses not live before, every other wrapper
      stays bound. */
  lemma OthersStayBound(w: seq<Cell>, h: Heap, h': Heap, i: nat)
    requires Sound(w, h) && i < |w|
    requires forall id :: id in h.objects && id !in Owned(w[i]) ==> id in h'.objects && h'.objects[id] == h.objects[id]
    ensures forall k :: 0 <= k < |w| && k != i ==> Bound(w[k], h')
  {
    forall k | 0 <= k < |w| && k != i
      ensures Bound(w[k], h')
    {
      SoundDisjoint(w, h, i, k);
      assert Bound(w[k], h);
      if IsDynamic(w[k]) {
        assert w[k].buf.ptr.id in Owned(w[k]);
      }
    }
  }

  /** Replacing `w[i]` by `c`: the world stays sound when the live objects
      change from those of `w[i]` to those of `c` and nothing else moves. */
  lemma ReplaceKeepsSound(w: seq<Cell>, h: Heap, h': Heap, i: nat, c: Cell)
    requires Sound(w, h) && i < |w| && HeapValid(h') && Bound(c, h')
    requires forall id :: id in h.objects && id !in Owned(w[i]) ==> id in h'.objects && h'.objects[id] == h.objects[id]
    requires h'.objects.Keys == (h.objects.Keys - Owned(w[i])) + Owned(c)
    requires Owned(c) !! h.objects.Keys - Owned(w[i])
    ensures Sound(w[i := c], h')
  {
    OthersStayBound(w, h, h', i);
    OwnedIdsUpdate(w, i, c);
    assert Owned(w[i]) <= h.objects.Keys by {
      assert Bound(w[i], h);
    }
    MultisetOfMinus(h.objects.Keys, Owned(w[i]));
    MultisetOfUnion(h.objects.Keys - Owned(w[i]), Owned(c));
  }

  /** Adding a wrapper `c` whose objects are exactly the new live ones. */
  lemma AppendKeepsSound(w: seq<Cell>, h: Heap, h': Heap, c: Cell)
    requires Sound(w, h) && HeapValid(h') && Bound(c, h')
    requires forall id :: id in h.objects ==> id in h'.objects && h'.objects[id] == h.objects[id]
    requires h'.objects.Keys == h.objects.Keys + Owned(c) && Owned(c) !! h.objects.Keys
    ensures Sound(w + [c], h')
  {
    OwnedIdsAppend(w, c);
    MultisetOfUnion(h.objects.Keys, Owned(c));
    forall k | 0 <= k < |w| + 1 ensures Bound((w + [c])[k], h') {
      if k < |w| {
        assert (w + [c])[k] == w[k];
        assert Bound(w[k], h);
        if IsDynamic(w[k]) {
          assert w[k].buf.ptr.id in h.objects;
        }
      }
    }
  }

  /** `function(T func)` adds a wrapper and keeps the world sound. */
  lemma ConstructKeepsSound(w: seq<Cell>, h: Heap, x: Callable)
    requires Sound(w, h)
    ensures var r := ConstructCell(x, h); Sound(w + [r.cell], r.heap)
  {
    var r := ConstructCell(x, h);
    AppendKeepsSound(w, h, r.heap, r.cell);
  }

  /** `function(function const& other)` keeps the world sound, whether the
      copy succeeds (a new owner of a fresh object) or throws (no change). */
  lemma CopyConstructKeepsSound(w: seq<Cell>, h: Heap, i: nat, throws: bool)
    requires Sound(w, h) && i < |w|
    ensures Compatible(w[i], Default, h)
    ensures var r := CopyCell(w[i], Default, h, throws);
      (r.outcome.Pass? ==> Sound(w + [r.to], r.heap)) &&
      (r.outcome.Fail? ==> r.heap == h)
  {
    assert Bound(w[i], h);
    var r := CopyCell(w[i], Default, h, throws);
    if r.outcome.Pass? {
      if IsDynamic(w[i]) {
        assert r.heap.objects.Keys == h.objects.Keys + {h.next};
      }
      AppendKeepsSound(w, h, r.heap, r.to);
    }
  }

  /** `function(function&& other)` keeps the world sound: ownership passes
      from `w[i]` to the new wrapper. */
  lemma MoveConstructKeepsSound(w: seq<Cell>, h: Heap, i: nat)
    requires Sound(w, h) && i < |w|
    ensures Compatible(w[i], Default, h)
    ensures var r := MoveCell(w[i], Default, h); Sound(w[i := r.from] + [r.to], r.heap)
  {
    assert Bound(w[i], h);
    var r := MoveCell(w[i], Default, h);
    var w' := w[i := r.from];
    OwnedIdsUpdate(w, i, r.from);
    OwnedIdsAppend(w', r.to);
    assert r.heap == h;
    forall k | 0 <= k < |w'| + 1 ensures Bound((w' + [r.to])[k], h) {
      if k < |w'| {
        assert (w' + [r.to])[k] == w'[k];
        if k != i { assert w'[k] == w[k]; }
      }
    }
  }

  /** `~function()` at the end of a wrapper's scope keeps the world sound:
      its object, if any, is released exactly once. */
  lemma DestroyKeepsSound(w: seq<Cell>, h: Heap, i: nat)
    requires Sound(w, h) && i < |w|
    ensures var r := DestroyCell(w[i], h); Sound(w[..i] + w[i + 1..], r.heap)
  {
    assert Bound(w[i], h);
    var r := DestroyCell(w[i], h);
    var w' := w[..i] + w[i + 1..];
    OwnedIdsRemove(w, i);
    MultisetOfMinus(h.objects.Keys, Owned(w[i]));
    assert r.heap.objects.Keys == h.objects.Keys - Owned(w[i]);
    OthersStayBound(w, h, r.heap, i);
    forall k | 0 <= k < |w'| ensures Bound(w'[k], r.heap) {
      assert w'[k] == w[if k < i then k else k + 1];
    }
  }

  /** `operator=(function const& other)` between two distinct wrappers
      keeps the world sound, on success and on a thrown copy. */
  lemma CopyAssignKeepsSound(w: seq<Cell>, h: Heap, i: nat, j: nat, throws: bool)
    requires Sound(w, h) && i < |w| && j < |w| && i != j
    ensures Compatible(w[j], w[i], h)
    ensures var r := Wrapper.CopyAssignCells(w[i], w[j], h, throws); Sound(w[i := r.to], r.heap)
  {
    SoundDisjoint(w, h, j, i);
    var r := Wrapper.CopyAssignCells(w[i], w[j], h, throws);
    if r.outcome.Pass? {
      forall id | id in h.objects && id !in Owned(w[i])
        ensures id in r.heap.objects && r.heap.objects[id] == h.objects[id]
      {
        assert id in (h.objects - Owned(w[i]));
        assert id in (r.heap.objects - Owned(r.to));
      }
      assert Owned(r.to) <= r.heap.objects.Keys;
      assert r.heap.objects.Keys == (h.objects.Keys - Owned(w[i])) + Owned(r.to) by {
        assert r.heap.objects.Keys - Owned(r.to) == (r.heap.objects - Owned(r.to)).Keys;
        assert h.objects.Keys - Owned(w[i]) == (h.objects - Owned(w[i])).Keys;
      }
      ReplaceKeepsSound(w, h, r.heap, i, r.to);
    } else {
      assert w[i := r.to] == w;
    }
  }

  /** The bookkeeping of a move from `w[j]` into `w[i]`: `w[i]`'s objects
      are no longer owned, `w[j]`'s pass to `w[i]`. */
  lemma MoveAccounts(w: seq<Cell>, i: nat, j: nat)
    requires i < |w| && j < |w| && i != j
    ensures OwnedIds(w[i := w[j]][j := w[j].(ops := Empty)]) == OwnedIds(w) - multiset(Owned(w[i]))
  {
    var w1 := w[i := w[j]];
    OwnedIdsUpdate(w, i, w[j]);
    OwnedIdsUpdate(w1, j, w[j].(ops := Empty));
    OwnedPair(w, i, j);
    assert Owned(w[j].(ops := Empty)) == {};
  }

  /** `operator=(function&& other)` from a non-empty wrapper keeps the
      world sound: the target's object is released and ownership passes. */
  lemma MoveAssignKeepsSound(w: seq<Cell>, h: Heap, i: nat, j: nat)
    requires Sound(w, h) && i < |w| && j < |w| && i != j && w[j].ops.Table?
    ensures Compatible(w[j], w[i], h)
    ensures var r := MoveCell(w[j], w[i], h); Sound(w[i := r.to][j := r.from], r.heap)
  {
    SoundDisjoint(w, h, j, i);
    var r := MoveCell(w[j], w[i], h);
    assert r.to == w[j] && r.from == w[j].(ops := Empty);
    var w2 := w[i := r.to][j := r.from];
    MoveAccounts(w, i, j);
    assert Owned(w[i]) <= h.objects.Keys by {
      assert Bound(w[i], h);
    }
    MultisetOfMinus(h.objects.Keys, Owned(w[i]));
    assert r.heap == Heap(h.objects - Owned(w[i]), h.next);
    assert OwnedIds(w2) == multiset(r.heap.objects.Keys) by {
      assert r.heap.objects.Keys == h.objects.Keys - Owned(w[i]);
    }
    OthersStayBound(w, h, r.heap, i);
    assert AllBound(w2, r.heap) by {
      forall k | 0 <= k < |w2| ensures Bound(w2[k], r.heap) {
        if k != i && k != j {
          assert w2[k] == w[k];
        }
      }
    }
  }

  /** `operator=(function&& other)` from an empty wrapper into one that owns
      a heap object leaves that object live but owned by nobody: the empty
      table's `move` never runs the target's `destroy`. */
  lemma EmptyMoveAssignLeaks(w: seq<Cell>, h: Heap, i: nat, j: nat)
    requires Sound(w, h) && i < |w| && j < |w| && i != j
    requires w[j].ops == Empty && IsDynamic(w[i])
    ensures Compatible(w[j], w[i], h)
    ensures var r := MoveCell(w[j], w[i], h); var w' := w[i := r.to][j := r.from];
      r.heap == h && w[i].buf.ptr.id in r.heap.objects &&
      w[i].buf.ptr.id !in OwnedIds(w') && !Sound(w', r.heap)
  {
    SoundDisjoint(w, h, j, i);
    var r := MoveCell(w[j], w[i], h);
    var w1 := w[i := r.to];
    var w' := w1[j := r.from];
    var id := w[i].buf.ptr.id;
    assert Bound(w[i], h);
    assert Owned(w[i]) == {id};
    OwnedIdsUpdate(w, i, r.to);
    OwnedIdsUpdate(w1, j, r.from);
    assert OwnedIds(w') == OwnedIds(w) - multiset{id};
    assert multiset(h.objects.Keys)[id] == 1;
  }
}
