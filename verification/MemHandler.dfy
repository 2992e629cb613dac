/** The tracking allocator of src/memhdlr.c: every block libmsr allocates is recorded in a doubling
    array, so that finalizing can free what is left. Addresses are numbers; 0 is NULL. */
module MemHandler {

  const NULL: nat := 0

  // ----- what the slots say about the heap

  /** The tracked addresses are the live blocks, each in one slot. */
  ghost predicate Mirrors(slots: seq<nat>, live: set<nat>) {
    && NULL !in live
    && (forall i :: 0 <= i < |slots| && slots[i] != NULL ==> slots[i] in live)
    && (forall p :: p in live ==> p in slots)
    && (forall i, j :: 0 <= i < j < |slots| && slots[i] != NULL ==> slots[i] != slots[j])
  }

  /** LIBMSR_REALLOC, and with b == NULL the slots after LIBMSR_FREE: every slot holding a gets b. */
  function Replace(slots: seq<nat>, a: nat, b: nat): (r: seq<nat>)
    ensures |r| == |slots|
    ensures forall i :: 0 <= i < |slots| ==> r[i] == if slots[i] == a then b else slots[i]
    decreases |slots|
  {
    if slots == [] then []
    else Replace(slots[..|slots| - 1], a, b) + [if slots[|slots| - 1] == a then b else slots[|slots| - 1]]
  }

  /** The blocks a finalize frees, in order. */
  function NonNull(slots: seq<nat>): seq<nat>
    decreases |slots|
  {
    if slots == [] then []
    else
      var p := slots[|slots| - 1];
      NonNull(slots[..|slots| - 1]) + if p != NULL then [p] else []
  }

  /** Finalizing frees each live block exactly once. */
  lemma {:induction false} FreesEachOnce(slots: seq<nat>, live: set<nat>)
    requires Mirrors(slots, live)
    ensures multiset(NonNull(slots)) == multiset(live)
    decreases |slots|
  {
    if slots == [] {
      assert live == {};
    } else {
      var n := |slots| - 1;
      MirrorsBefore(slots, live);
      FreesEachOnce(slots[..n], live - {slots[n]});
      if slots[n] != NULL {
        assert multiset(live) == multiset(live - {slots[n]}) + multiset{slots[n]};
      } else {
        assert live - {slots[n]} == live;
      }
    }
  }

  lemma MirrorsBefore(slots: seq<nat>, live: set<nat>)
    requires slots != [] && Mirrors(slots, live)
    ensures Mirrors(slots[..|slots| - 1], live - {slots[|slots| - 1]})
    ensures slots[|slots| - 1] != NULL ==> slots[|slots| - 1] in live
  {
    var n := |slots| - 1;
    forall p | p in live - {slots[n]}
      ensures p in slots[..n]
    {
      var i :| 0 <= i < |slots| && slots[i] == p;
      assert slots[..n][i] == p;
    }
  }

  lemma AppendMirrors(slots: seq<nat>, live: set<nat>, p: nat)
    requires Mirrors(slots, live) && p != NULL && p !in live
    ensures Mirrors(slots + [p], live + {p})
  {
    forall q | q in live + {p}
      ensures q in slots + [p]
    {
      if q == p {
        assert (slots + [p])[|slots|] == p;
      }
    }
  }

  /** Reallocating a tracked block keeps the mirror, whether or not the block moves. */
  lemma ReplaceMirrors(slots: seq<nat>, live: set<nat>, a: nat, b: nat)
    requires Mirrors(slots, live) && a in live && b != NULL && b !in live - {a}
    ensures Mirrors(Replace(slots, a, b), live - {a} + {b})
  {
    var r := Replace(slots, a, b);
    forall p | p in live - {a} + {b}
      ensures p in r
    {
      var q := if p == b then a else p;
      var i :| 0 <= i < |slots| && slots[i] == q;
      assert r[i] == p;
    }
  }

  lemma RemoveMirrors(slots: seq<nat>, live: set<nat>, a: nat)
    requires Mirrors(slots, live)
    ensures Mirrors(Replace(slots, a, NULL), live - {a})
  {
    var r := Replace(slots, a, NULL);
    forall p | p in live - {a}
      ensures p in r
    {
      var i :| 0 <= i < |slots| && slots[i] == p;
      assert r[i] == p;
    }
  }

  predicate SoleNull(slots: seq<nat>, i: nat) {
    i < |slots| && forall j :: 0 <= j < |slots| ==> (slots[j] == NULL <==> j == i)
  }

  /** Reallocating NULL tracks the new block exactly when one slot, and only one, is free for it: with
      none the block is lost, with more it is recorded twice. */
  lemma ReplaceNullExactly(slots: seq<nat>, live: set<nat>, b: nat)
    requires Mirrors(slots, live) && b != NULL && b !in live
    ensures Mirrors(Replace(slots, NULL, b), live + {b}) <==> exists i: nat :: SoleNull(slots, i)
  {
    var r := Replace(slots, NULL, b);
    if i: nat :| SoleNull(slots, i) {
      forall p | p in live + {b}
        ensures p in r
      {
        if p == b {
          assert r[i] == p;
        } else {
          var k :| 0 <= k < |slots| && slots[k] == p;
          assert r[k] == p;
        }
      }
    }
    if Mirrors(r, live + {b}) {
      var i :| 0 <= i < |r| && r[i] == b;
      assert SoleNull(slots, i);
    }
  }

  // ----- the allocator

  class Handler {
    // The static variables of memory_handler.
    var arrays: array?<nat>
    var last: nat
    var size: nat
    // The C heap: the blocks obtained through the wrappers that have not been freed, and those freed,
    // in order.
    var live: set<nat>
    var freed: seq<nat>

    predicate Shaped()
      reads this
    {
      size > 0 && last <= size && if arrays == null then last == 0 else arrays.Length == size
    }

    function Slots(): seq<nat>
      requires Shaped()
      reads this, arrays
    {
      if arrays == null then [] else arrays[..last]
    }

    ghost predicate Valid()
      reads this, arrays
    {
      Shaped() && Mirrors(Slots(), live)
    }

    constructor ()
      ensures Valid() && arrays == null && live == {} && freed == []
    {
      arrays, last, size := null, 0, 16;
      live, freed := {}, [];
    }

    /** free: defined for NULL and for a live block. */
    method CFree(p: nat)
      requires p == NULL || p in live
      modifies this`live, this`freed
      ensures live == old(live) - {p}
      ensures freed == old(freed) + if p != NULL then [p] else []
    {
      if p != NULL {
        freed := freed + [p];
      }
      live := live - {p};
    }

    /** LIBMSR_MALLOC and LIBMSR_CALLOC: record a block in the next slot, doubling the array when it is
        full. */
    method Track(address: nat)
      requires Shaped() && address != NULL
      modifies this, arrays
      ensures Shaped() && Slots() == old(Slots()) + [address]
      ensures live == old(live) && freed == old(freed)
      ensures arrays == old(arrays) || fresh(arrays)
    {
      if arrays == null {
        arrays := new nat[size];
      }
      if last >= size {
        var temp := new nat[size * 2];
        forall i | 0 <= i < last {
          temp[i] := arrays[i];
        }
        size := size * 2;
        arrays := temp;
      }
      arrays[last] := address;
      last := last + 1;
    }

    /** LIBMSR_REALLOC: every slot holding the old address gets the new one. */
    method Retrack(address: nat, oldaddr: nat)
      requires Shaped()
      modifies arrays
      ensures Slots() == Replace(old(Slots()), oldaddr, address)
    {
      var i := 0;
      while i < last
        invariant 0 <= i <= last
        invariant arrays != null ==> forall k :: 0 <= k < i ==>
          arrays[k] == if old(arrays[k]) == oldaddr then address else old(arrays[k])
        invariant arrays != null ==> forall k :: i <= k < last ==> arrays[k] == old(arrays[k])
      {
        if arrays[i] == oldaddr {
          arrays[i] := address;
        }
        i := i + 1;
      }
    }

    /** LIBMSR_FREE: every slot holding the address frees it. */
    method Untrack(oldaddr: nat)
      requires Valid()
      modifies this`live, this`freed, arrays
      ensures Shaped() && Slots() == Replace(old(Slots()), oldaddr, NULL)
      ensures live == old(live) - {oldaddr}
      ensures freed == old(freed) + if oldaddr in old(live) then [oldaddr] else []
    {
      ghost var slots := Slots();
      var i := 0;
      while i < last
        invariant 0 <= i <= last && Cleared(slots, oldaddr, i)
        invariant live == old(live) - Held(slots[..i], oldaddr)
        invariant freed == old(freed) + if oldaddr != NULL && oldaddr in slots[..i] then [oldaddr] else []
      {
        HeldOnce(slots, old(live), oldaddr, i);
        if arrays[i] == oldaddr {
          CFree(oldaddr);
          arrays[i] := NULL;
        }
        i := i + 1;
      }
      assert slots[..i] == slots;
    }

    /** The block of the address, if some slot holds it. */
    ghost function Held(slots: seq<nat>, a: nat): set<nat> {
      if a in slots then {a} else {}
    }

    /** No slot before one that holds a block holds it too. */
    lemma HeldOnce(slots: seq<nat>, blocks: set<nat>, a: nat, i: nat)
      requires Mirrors(slots, blocks) && i < |slots|
      ensures slots[..i + 1] == slots[..i] + [slots[i]]
      ensures slots[i] == a ==> a == NULL || (a in blocks && a !in slots[..i])
      ensures NULL !in blocks
    {
    }

    /** The first n slots have been cleared of the address, the others are as they were. */
    ghost predicate Cleared(slots: seq<nat>, oldaddr: nat, n: nat)
      requires Shaped() && n <= last
      reads this, arrays
    {
      && |slots| == last
      && (arrays != null ==> forall k :: 0 <= k < n ==> arrays[k] == if slots[k] == oldaddr then NULL else slots[k])
      && (arrays != null ==> forall k :: n <= k < last ==> arrays[k] == slots[k])
    }

    /** LIBMSR_FINALIZE: free what is left. (The array itself is freed too; it is not a tracked block.) */
    method FreeAll()
      requires Valid()
      modifies this`live, this`freed
      ensures freed == old(freed) + NonNull(Slots()) && live == {}
    {
      ghost var slots := Slots();
      var i := 0;
      while i < last
        invariant 0 <= i <= last
        invariant freed == old(freed) + NonNull(slots[..i])
        invariant live <= old(live)
        invariant forall p :: p in old(live) ==> (p in live <==> p !in slots[..i])
      {
        assert slots[..i + 1] == slots[..i] + [slots[i]];
        assert slots[..i + 1][..i] == slots[..i];
        if arrays[i] != NULL {
          CFree(arrays[i]);
        }
        i := i + 1;
      }
      assert slots[..last] == slots;
    }

    // ----- the wrappers, given the address the C allocator returns

    /** libmsr_malloc and libmsr_calloc; malloc returns a block that is not in use. */
    method LibmsrMalloc(result: nat)
      requires Valid() && result != NULL && result !in live
      modifies this, arrays
      ensures Valid() && live == old(live) + {result} && freed == old(freed)
      ensures arrays == old(arrays) || fresh(arrays)
    {
      AppendMirrors(Slots(), live, result);
      live := live + {result};
      Track(result);
    }

    /** libmsr_realloc of a tracked block, or of NULL; the result may be the same block. The record stays right
        for a tracked block, and for NULL if and only if exactly one slot is NULL. */
    method LibmsrRealloc(addr: nat, result: nat)
      requires Valid() && (addr == NULL || addr in live) && result != NULL && result !in live - {addr}
      modifies this`live, arrays
      ensures Shaped() && live == old(live) - {addr} + {result} && freed == old(freed)
      ensures Slots() == Replace(old(Slots()), addr, result)
      ensures Valid() <==> addr != NULL || exists i: nat :: SoleNull(old(Slots()), i)
    {
      if addr == NULL {
        ReplaceNullExactly(Slots(), live, result);
        assert live - {addr} == live;
      } else {
        ReplaceMirrors(Slots(), live, addr, result);
      }
      live := live - {addr} + {result};
      Retrack(result, addr);
    }

    /** libmsr_free: frees a tracked block once, and ignores any other address. */
    method LibmsrFree(addr: nat)
      requires Valid()
      modifies this`live, this`freed, arrays
      ensures Valid() && live == old(live) - {addr}
      ensures freed == old(freed) + if addr in old(live) then [addr] else []
    {
      RemoveMirrors(Slots(), live, addr);
      Untrack(addr);
    }

    /** memhdlr_finalize: frees each live block exactly once. */
    method MemhdlrFinalize()
      requires Valid()
      modifies this`live, this`freed
      ensures live == {} && multiset(freed) == multiset(old(freed)) + multiset(old(live))
    {
      FreesEachOnce(Slots(), live);
      FreeAll();
    }
  }
}
