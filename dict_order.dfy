/**
 * Enumeration order of a .NET `Dictionary<int, _>`, which the service
 * relies on for the roster, the order of notifications and the winner's
 * tie-break.  The dictionary keeps its entries in a slot array and
 * enumerates the occupied slots from first to last.  `Remove` empties the
 * key's slot and pushes it on a free list; `Add` reuses the most recently
 * freed slot when there is one and otherwise appends a new slot.  Without
 * removals the order is therefore insertion order; after one, a new key
 * takes the place of the last key removed.
 */
module DictOrder {
  import opened Wrappers

  /** The keys held in the slot array (None for a free slot) and the free list, most recently freed first. */
  datatype Slots = Slots(entries: seq<Option<int>>, free: seq<nat>)

  /** The empty dictionary. */
  function Empty(): Slots
  {
    Slots([], [])
  }

  /** The keys in enumeration order: the occupied slots from first to last. */
  function Order(e: seq<Option<int>>): seq<int>
  {
    if e == [] then []
    else Order(e[..|e| - 1]) + (if e[|e| - 1].Some? then [e[|e| - 1].value] else [])
  }

  predicate Distinct(s: seq<int>)
  {
    forall i, j :: 0 <= i < j < |s| ==> s[i] != s[j]
  }

  /** The free list holds distinct indices of free slots. */
  predicate FreeListValid(e: seq<Option<int>>, free: seq<nat>)
  {
    (forall i :: 0 <= i < |free| ==> free[i] < |e| && e[free[i]].None?) &&
    (forall i, j :: 0 <= i < j < |free| ==> free[i] != free[j])
  }

  /** Keys are distinct, and the free list holds distinct indices of free slots. */
  predicate Valid(d: Slots)
  {
    Distinct(Order(d.entries)) && FreeListValid(d.entries, d.free)
  }

  /** The keys of `s` other than `k`, in the same order. */
  function Without(s: seq<int>, k: int): (r: seq<int>)
    ensures forall x :: x in r <==> x in s && x != k
    ensures |r| <= |s|
  {
    if s == [] then []
    else Without(s[..|s| - 1], k) + (if s[|s| - 1] != k then [s[|s| - 1]] else [])
  }

  // ---------------------------------------------------------------------
  // Facts about Order and Without

  lemma {:induction false} OrderConcat(a: seq<Option<int>>, b: seq<Option<int>>)
    ensures Order(a + b) == Order(a) + Order(b)
    decreases |b|
  {
    if b == [] {
      assert a + b == a;
    } else {
      OrderConcat(a, b[..|b| - 1]);
      assert (a + b)[..|a + b| - 1] == a + b[..|b| - 1];
    }
  }

  /** Order viewed around slot `i`: the keys before it, its own key, the keys after it. */
  lemma {:induction false} OrderSplit(e: seq<Option<int>>, i: int)
    requires 0 <= i < |e|
    ensures Order(e) == Order(e[..i]) + Order([e[i]]) + Order(e[i + 1..])
  {
    var before, slot, after := e[..i], [e[i]], e[i + 1..];
    assert e == before + slot + after;
    OrderConcat(before + slot, after);
    OrderConcat(before, slot);
  }

  lemma OrderSingle(x: Option<int>)
    ensures Order([x]) == if x.Some? then [x.value] else []
  {
    assert [x][..0] == [];
  }

  lemma {:induction false} OrderMembership(e: seq<Option<int>>, k: int)
    ensures k in Order(e) <==> exists i :: 0 <= i < |e| && e[i] == Some(k)
  {
    if e != [] {
      var u := e[..|e| - 1];
      OrderMembership(u, k);
      if k in Order(u) {
        var i :| 0 <= i < |u| && u[i] == Some(k);
        assert e[i] == Some(k);
      }
      if exists i :: 0 <= i < |e| && e[i] == Some(k) {
        var i :| 0 <= i < |e| && e[i] == Some(k);
        if i < |e| - 1 { assert u[i] == Some(k); }
      }
    }
  }

  lemma {:induction false} WithoutAbsent(s: seq<int>, k: int)
    requires k !in s
    ensures Without(s, k) == s
  {
    if s != [] {
      WithoutAbsent(s[..|s| - 1], k);
      assert s[..|s| - 1] + [s[|s| - 1]] == s;
    }
  }

  lemma {:induction false} WithoutConcat(a: seq<int>, b: seq<int>, k: int)
    ensures Without(a + b, k) == Without(a, k) + Without(b, k)
    decreases |b|
  {
    if b == [] {
      assert a + b == a;
    } else {
      WithoutConcat(a, b[..|b| - 1], k);
      assert (a + b)[..|a + b| - 1] == a + b[..|b| - 1];
    }
  }

  lemma WithoutSingle(x: int, k: int)
    ensures Without([x], k) == if x == k then [] else [x]
  {
    assert [x][..0] == [];
  }

  lemma DistinctParts(a: seq<int>, k: int, b: seq<int>)
    requires Distinct(a + [k] + b)
    ensures k !in a && k !in b
  {
    var s := a + [k] + b;
    forall i | 0 <= i < |a| ensures a[i] != k {
      assert a[i] == s[i] && s[|a|] == k;
    }
    forall j | 0 <= j < |b| ensures b[j] != k {
      assert b[j] == s[|a| + 1 + j] && s[|a|] == k;
    }
  }

  /** A distinct sequence with one key removed stays distinct. */
  lemma DistinctWithoutMiddle(a: seq<int>, k: int, b: seq<int>)
    requires Distinct(a + [k] + b)
    ensures Distinct(a + b)
  {
    var s, t := a + [k] + b, a + b;
    forall i, j | 0 <= i < j < |t| ensures t[i] != t[j] {
      var i', j' := if i < |a| then i else i + 1, if j < |a| then j else j + 1;
      assert t[i] == s[i'] && t[j] == s[j'];
    }
  }

  /** Adding a key that is absent from both parts keeps the sequence distinct. */
  lemma DistinctInsertMiddle(a: seq<int>, k: int, b: seq<int>)
    requires Distinct(a + b) && k !in a && k !in b
    ensures Distinct(a + [k] + b)
  {
    var s, t := a + [k] + b, a + b;
    forall i, j | 0 <= i < j < |s| ensures s[i] != s[j] {
      if i < |a| {
        if j < |a| { assert s[i] == t[i] && s[j] == t[j]; }
        else if j > |a| { assert s[i] == t[i] && s[j] == t[j - 1]; }
        else { assert s[i] in a; }
      } else if i == |a| {
        assert s[j] == b[j - |a| - 1];
      } else {
        assert s[i] == t[i - 1] && s[j] == t[j - 1];
      }
    }
  }

  // ---------------------------------------------------------------------
  // Add and Remove

  /** Order around slot `i`: the keys before it, then the keys from it on. */
  lemma {:induction false} OrderAt(e: seq<Option<int>>, i: int)
    requires 0 <= i < |e|
    ensures Order(e) == Order(e[..i]) + Order(e[i..])
    ensures Order(e[i..]) == Order([e[i]]) + Order(e[i + 1..])
  {
    var before, rest, slot, after := e[..i], e[i..], [e[i]], e[i + 1..];
    assert before + rest == e;
    OrderConcat(before, rest);
    assert rest == slot + after;
    OrderConcat(slot, after);
  }

  /** Order after overwriting slot `i`. */
  lemma OrderUpdate(e: seq<Option<int>>, i: int, x: Option<int>)
    requires 0 <= i < |e|
    ensures Order(e[i := x]) == Order(e[..i]) + Order([x]) + Order(e[i + 1..])
  {
    var f := e[i := x];
    OrderSplit(f, i);
    assert f[..i] == e[..i] && f[i + 1..] == e[i + 1..] && f[i] == x;
  }

  /** Taking a slot off the free list and filling it keeps the rest of the free list valid. */
  lemma FreeListPop(e: seq<Option<int>>, free: seq<nat>, k: int)
    requires FreeListValid(e, free) && free != []
    ensures FreeListValid(e[free[0] := Some(k)], free[1..])
  {
    var f, r := e[free[0] := Some(k)], free[1..];
    forall j | 0 <= j < |r| ensures r[j] < |f| && f[r[j]].None? {
      assert r[j] == free[j + 1] != free[0];
    }
    forall j, j' | 0 <= j < j' < |r| ensures r[j] != r[j'] {
      assert r[j] == free[j + 1] && r[j'] == free[j' + 1];
    }
  }

  /** Freeing an occupied slot and pushing it on the free list keeps the free list valid. */
  lemma FreeListPush(e: seq<Option<int>>, free: seq<nat>, i: int)
    requires FreeListValid(e, free) && 0 <= i < |e| && e[i].Some?
    ensures FreeListValid(e[i := None], [i] + free)
  {
    var f, r := e[i := None], [i] + free;
    forall j | 0 <= j < |free| ensures free[j] != i {
      assert e[free[j]].None?;
    }
    forall j | 0 <= j < |r| ensures r[j] < |f| && f[r[j]].None? {
      if j > 0 { assert r[j] == free[j - 1]; }
    }
    forall j, j' | 0 <= j < j' < |r| ensures r[j] != r[j'] {
      assert r[j'] == free[j' - 1];
      if j > 0 { assert r[j] == free[j - 1]; }
    }
  }

  /** Slot `Add` uses for a new key: the head of the free list, or a new slot at the end. */
  function AddSlot(d: Slots): nat
  {
    if d.free != [] then d.free[0] else |d.entries|
  }

  /**
   * `Add(k, _)` for a key not present: reuse the most recently freed slot,
   * or append a slot when none is free.  The key is enumerated at the
   * position of that slot, and the other keys keep their order.
   */
  function Add(d: Slots, k: int): (r: Slots)
    requires Valid(d) && k !in Order(d.entries)
    ensures Valid(r)
    ensures Order(r.entries) ==
      Order(d.entries[..AddSlot(d)]) + [k] + Order(d.entries[AddSlot(d)..])
    ensures Order(d.entries) == Order(d.entries[..AddSlot(d)]) + Order(d.entries[AddSlot(d)..])
    ensures d.free == [] ==> Order(r.entries) == Order(d.entries) + [k]
  {
    if d.free != [] then
      var r := Slots(d.entries[d.free[0] := Some(k)], d.free[1..]);
      AddToFreeSlot(d, k);
      r
    else
      var r := Slots(d.entries + [Some(k)], []);
      AddToNewSlot(d, k);
      r
  }

  lemma AddToFreeSlot(d: Slots, k: int)
    requires Valid(d) && k !in Order(d.entries) && d.free != []
    ensures var r := Slots(d.entries[d.free[0] := Some(k)], d.free[1..]);
      Valid(r) &&
      Order(r.entries) == Order(d.entries[..d.free[0]]) + [k] + Order(d.entries[d.free[0]..]) &&
      Order(d.entries) == Order(d.entries[..d.free[0]]) + Order(d.entries[d.free[0]..])
  {
    var e, i := d.entries, d.free[0];
    var a, b := Order(e[..i]), Order(e[i + 1..]);
    OrderAt(e, i);
    OrderSingle(e[i]);
    OrderUpdate(e, i, Some(k));
    OrderSingle(Some(k));
    assert Order(e[i..]) == b;
    DistinctInsertMiddle(a, k, b);
    FreeListPop(e, d.free, k);
  }

  lemma AddToNewSlot(d: Slots, k: int)
    requires Valid(d) && k !in Order(d.entries) && d.free == []
    ensures var r := Slots(d.entries + [Some(k)], []);
      Valid(r) &&
      Order(r.entries) == Order(d.entries) + [k] &&
      Order(d.entries[..|d.entries|]) == Order(d.entries) && Order(d.entries[|d.entries|..]) == []
  {
    var e := d.entries;
    OrderConcat(e, [Some(k)]);
    OrderSingle(Some(k));
    assert e[..|e|] == e && e[|e|..] == [];
    DistinctInsertMiddle(Order(e), k, []);
    assert Order(e) + [k] + [] == Order(e) + [k];
  }

  /** The slot holding key `k`, or -1. */
  function SlotOf(e: seq<Option<int>>, k: int): (i: int)
    ensures -1 <= i < |e|
    ensures i >= 0 ==> e[i] == Some(k)
    ensures i < 0 ==> forall j :: 0 <= j < |e| ==> e[j] != Some(k)
  {
    if e == [] then -1
    else if e[|e| - 1] == Some(k) then |e| - 1
    else SlotOf(e[..|e| - 1], k)
  }

  /**
   * `Remove(k)`: free the key's slot and push it on the free list; a key
   * that is not present leaves the dictionary as it is.  The remaining
   * keys keep their order.
   */
  function Remove(d: Slots, k: int): (r: Slots)
    requires Valid(d)
    ensures Valid(r)
    ensures Order(r.entries) == Without(Order(d.entries), k)
  {
    var i := SlotOf(d.entries, k);
    if i < 0 then
      OrderMembership(d.entries, k);
      WithoutAbsent(Order(d.entries), k);
      d
    else
      var r := Slots(d.entries[i := None], [i] + d.free);
      RemoveProperties(d, k, i, r);
      r
  }

  lemma RemoveProperties(d: Slots, k: int, i: int, r: Slots)
    requires Valid(d) && 0 <= i < |d.entries| && d.entries[i] == Some(k)
    requires r == Slots(d.entries[i := None], [i] + d.free)
    ensures Valid(r)
    ensures Order(r.entries) == Without(Order(d.entries), k)
  {
    var e := d.entries;
    var a, b := Order(e[..i]), Order(e[i + 1..]);
    OrderSplit(e, i);
    OrderSingle(e[i]);
    OrderUpdate(e, i, None);
    OrderSingle(None);
    assert Order(e) == a + [k] + b;
    assert Order(r.entries) == a + b;
    DistinctParts(a, k, b);
    DistinctWithoutMiddle(a, k, b);
    WithoutMiddle(a, k, b);
    FreeListPush(e, d.free, i);
  }

  /** Dropping `k` from `a + [k] + b`, where neither part holds it, leaves `a + b`. */
  lemma WithoutMiddle(a: seq<int>, k: int, b: seq<int>)
    requires k !in a && k !in b
    ensures Without(a + [k] + b, k) == a + b
  {
    var l := a + [k];
    WithoutAbsent(a, k);
    WithoutSingle(k, k);
    WithoutConcat(a, [k], k);
    assert Without(l, k) == a;
    WithoutAbsent(b, k);
    WithoutConcat(l, b, k);
  }

  /** Removing a key just added restores the order of the other keys. */
  lemma RemoveUndoesAdd(d: Slots, k: int)
    requires Valid(d) && k !in Order(d.entries)
    ensures Order(Remove(Add(d, k), k).entries) == Order(d.entries)
  {
    var r := Add(d, k);
    var i := AddSlot(d);
    var a, b := Order(d.entries[..i]), Order(d.entries[i..]);
    assert Order(d.entries) == a + b;
    assert k !in a && k !in b;
    WithoutMiddle(a, k, b);
  }

  /** A key just added is present, and it was not counted before. */
  lemma AddCount(d: Slots, k: int)
    requires Valid(d) && k !in Order(d.entries)
    ensures k in Order(Add(d, k).entries)
    ensures |Order(Add(d, k).entries)| == |Order(d.entries)| + 1
  {
  }

  /** Removing a present key makes the count drop by one. */
  lemma {:induction false} WithoutDistinctCount(s: seq<int>, k: int)
    requires Distinct(s) && k in s
    ensures |Without(s, k)| == |s| - 1
  {
    var n := |s| - 1;
    var u := s[..n];
    assert Distinct(u) by {
      forall i, j | 0 <= i < j < |u| ensures u[i] != u[j] { assert u[i] == s[i] && u[j] == s[j]; }
    }
    if s[n] == k {
      assert k !in u by {
        forall i | 0 <= i < |u| ensures u[i] != k { assert u[i] == s[i]; }
      }
      WithoutAbsent(u, k);
    } else {
      assert k in u by {
        var i :| 0 <= i < |s| && s[i] == k;
        assert u[i] == k;
      }
      WithoutDistinctCount(u, k);
    }
  }
}
