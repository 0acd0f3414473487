/**
  Inventory bookkeeping of `RoamerEventHandler`: the stack-merging insert
  (`addToInventory`), the cyclic rotation of sapling slots
  (`rotateSaplingsInInventory`), the per-item sapling count snapshot
  (`updateSaplingCountSnapshot`) and the bone-meal slot search and use shared
  with `SaplingPlacementHelper`. An inventory is the sequence of its slots.
 */
module Inventory {
  import opened Base

  // ---------------------------------------------------------------- counting lemmas

  lemma {:induction false} CountOfAppend(a: seq<Stack>, b: seq<Stack>, it: Item)
    ensures CountOf(a + b, it) == CountOf(a, it) + CountOf(b, it)
    decreases |a|
  {
    if |a| == 0 {
      assert a + b == b;
    } else {
      assert (a + b)[1..] == a[1..] + b;
      CountOfAppend(a[1..], b, it);
    }
  }

  /** `it` is held in some amount exactly when some non-empty slot holds it. */
  lemma {:induction false} CountOfPositive(inv: seq<Stack>, it: Item)
    ensures CountOf(inv, it) > 0 <==> exists i :: 0 <= i < |inv| && !IsEmpty(inv[i]) && inv[i].item == it
    decreases |inv|
  {
    if |inv| > 0 {
      CountOfPositive(inv[1..], it);
      if exists i :: 0 <= i < |inv| && !IsEmpty(inv[i]) && inv[i].item == it {
        var i :| 0 <= i < |inv| && !IsEmpty(inv[i]) && inv[i].item == it;
        if i > 0 {
          assert inv[1..][i - 1] == inv[i];
        }
      }
      if exists i :: 0 <= i < |inv[1..]| && !IsEmpty(inv[1..][i]) && inv[1..][i].item == it {
        var i :| 0 <= i < |inv[1..]| && !IsEmpty(inv[1..][i]) && inv[1..][i].item == it;
        assert inv[i + 1] == inv[1..][i];
      }
    }
  }

  // ---------------------------------------------------------------- addToInventory

  /** Slots that differ between `a` and `b` hold no `it` on either side, so the count of `it` agrees. */
  lemma {:induction false} CountOfUnaffected(a: seq<Stack>, b: seq<Stack>, it: Item)
    requires |a| == |b|
    requires forall j :: 0 <= j < |a| ==> a[j] == b[j] || (Contrib(a[j], it) == 0 && Contrib(b[j], it) == 0)
    ensures CountOf(a, it) == CountOf(b, it)
    decreases |a|
  {
    if |a| > 0 {
      assert forall j :: 0 <= j < |a| - 1 ==> a[1..][j] == a[j + 1] && b[1..][j] == b[j + 1];
      CountOfUnaffected(a[1..], b[1..], it);
    }
  }

  /** Result of the slot scan inside `addToInventory`. */
  datatype Added = Added(ok: bool, inv: seq<Stack>, rest: Stack)

  /**
    The slot scan of `addToInventory` from slot `i` on: an empty slot takes a
    copy of what is left of `stack`; a slot of the same item below its maximum
    takes as much as fits, shrinking `stack`, and the scan succeeds once
    `stack` is used up.
   */
  function AddFrom(inv: seq<Stack>, stack: Stack, i: nat): (r: Added)
    requires i <= |inv|
    requires !IsEmpty(stack)
    ensures |r.inv| == |inv|
    ensures r.rest.item == stack.item && r.rest.count <= stack.count
    ensures forall j :: 0 <= j < i ==> r.inv[j] == inv[j]
    ensures forall j :: 0 <= j < |inv| && r.inv[j] != inv[j] ==>
              && r.inv[j].item == stack.item
              && (IsEmpty(inv[j]) || (inv[j].item == stack.item && inv[j].count < r.inv[j].count <= MaxStackSize(stack.item)))
    ensures !r.ok ==> !IsEmpty(r.rest)
    ensures !r.ok ==> forall j :: i <= j < |inv| ==>
              !IsEmpty(inv[j]) && (inv[j].item == stack.item ==> r.inv[j].count >= MaxStackSize(stack.item))
    decreases |inv| - i
  {
    if i == |inv| then
      Added(false, inv, stack)
    else if IsEmpty(inv[i]) then
      Added(true, inv[i := stack], stack)
    else if inv[i].item == stack.item && inv[i].count < MaxStackSize(inv[i].item) then
      var canAdd := Min(stack.count, MaxStackSize(inv[i].item) - inv[i].count);
      var slot := Stack(inv[i].item, inv[i].count + canAdd);
      var stack' := Stack(stack.item, stack.count - canAdd);
      if IsEmpty(stack') then Added(true, inv[i := slot], stack')
      else AddFrom(inv[i := slot], stack', i + 1)
    else
      AddFrom(inv, stack, i + 1)
  }

  /**
    Conservation in the slot scan: on success the inventory gained the whole
    stack; otherwise it gained exactly what was shrunk off the stack.
   */
  lemma {:induction false} AddFromCount(inv: seq<Stack>, stack: Stack, i: nat)
    requires i <= |inv|
    requires !IsEmpty(stack)
    ensures var r := AddFrom(inv, stack, i);
            && (r.ok ==> CountOf(r.inv, stack.item) == CountOf(inv, stack.item) + stack.count)
            && (!r.ok ==> CountOf(r.inv, stack.item) + r.rest.count == CountOf(inv, stack.item) + stack.count)
    decreases |inv| - i
  {
    if i == |inv| {
    } else if IsEmpty(inv[i]) {
      assert AddFrom(inv, stack, i) == Added(true, inv[i := stack], stack);
      CountOfUpdate(inv, i, stack, stack.item);
    } else if inv[i].item == stack.item && inv[i].count < MaxStackSize(inv[i].item) {
      var canAdd := Min(stack.count, MaxStackSize(inv[i].item) - inv[i].count);
      var slot := Stack(inv[i].item, inv[i].count + canAdd);
      var stack' := Stack(stack.item, stack.count - canAdd);
      CountOfUpdate(inv, i, slot, stack.item);
      if IsEmpty(stack') {
        assert AddFrom(inv, stack, i) == Added(true, inv[i := slot], stack');
      } else {
        assert AddFrom(inv, stack, i) == AddFrom(inv[i := slot], stack', i + 1);
        AddFromCount(inv[i := slot], stack', i + 1);
      }
    } else {
      assert AddFrom(inv, stack, i) == AddFrom(inv, stack, i + 1);
      AddFromCount(inv, stack, i + 1);
    }
  }

  /** Result of `addToInventory`: the boolean it returns, the roamer's inventory
      afterwards (absent when the roamer has none) and the caller's stack. */
  datatype AddOutcome = AddOutcome(added: bool, inv: Option<seq<Stack>>, rest: Stack)

  /**
    `addToInventory`: with no inventory or an empty stack nothing happens and
    the answer is false. Otherwise the inventory gains exactly the whole stack
    when the answer is true and exactly what was shrunk off the stack when it is
    false; no other item changes, a merge never lifts a slot above its maximum
    stack size, and false means every slot is occupied and every slot of the
    item is full.
   */
  function AddToInventory(inv: Option<seq<Stack>>, stack: Stack): (r: AddOutcome)
    ensures inv.None? || IsEmpty(stack) ==> r == AddOutcome(false, inv, stack)
    ensures inv.Some? && !IsEmpty(stack) ==>
      && r.inv.Some?
      && |r.inv.value| == |inv.value|
      && r.rest.item == stack.item
      && (forall it :: it != stack.item ==> CountOf(r.inv.value, it) == CountOf(inv.value, it))
      && (r.added ==> CountOf(r.inv.value, stack.item) == CountOf(inv.value, stack.item) + stack.count)
      && (!r.added ==> CountOf(r.inv.value, stack.item) == CountOf(inv.value, stack.item) + (stack.count - r.rest.count))
      && (forall j :: 0 <= j < |inv.value| ==> r.inv.value[j] == inv.value[j] || r.inv.value[j].item == stack.item)
      && (forall j :: 0 <= j < |inv.value| && !IsEmpty(inv.value[j]) && r.inv.value[j] != inv.value[j] ==>
            r.inv.value[j].count <= MaxStackSize(stack.item))
      && (!r.added ==> forall j :: 0 <= j < |inv.value| ==>
            !IsEmpty(inv.value[j]) && (inv.value[j].item == stack.item ==> r.inv.value[j].count >= MaxStackSize(stack.item)))
  {
    if inv.None? || IsEmpty(stack) then AddOutcome(false, inv, stack)
    else
      var a := AddFrom(inv.value, stack, 0);
      AddFromCount(inv.value, stack, 0);
      forall it | it != stack.item ensures CountOf(a.inv, it) == CountOf(inv.value, it) {
        CountOfUnaffected(a.inv, inv.value, it);
      }
      AddOutcome(a.ok, Some(a.inv), a.rest)
  }

  // ---------------------------------------------------------------- bone meal slots

  /** `findFirstBonemealSlot`: index of the first non-empty bone meal slot, or -1. */
  function FirstBonemealSlot(inv: seq<Stack>): (r: int)
    ensures -1 <= r < |inv|
    ensures r == -1 <==> forall i :: 0 <= i < |inv| ==> !IsBonemealStack(inv[i])
    ensures r >= 0 ==> IsBonemealStack(inv[r]) && forall j :: 0 <= j < r ==> !IsBonemealStack(inv[j])
  {
    FirstIndex(inv, s => IsBonemealStack(s))
  }

  /** No bone meal is held exactly when no slot is a bone meal stack. */
  lemma NoBonemealSlot(inv: seq<Stack>)
    ensures FirstBonemealSlot(inv) == -1 <==> CountOf(inv, BoneMeal) == 0
  {
    CountOfPositive(inv, BoneMeal);
  }

  /** Takes one item off slot `i`; a slot that runs out is replaced by the empty stack. */
  function ShrinkSlot(inv: seq<Stack>, i: nat): (r: seq<Stack>)
    requires i < |inv| && !IsEmpty(inv[i])
    ensures |r| == |inv|
    ensures forall j :: 0 <= j < |inv| && j != i ==> r[j] == inv[j]
    ensures IsEmpty(r[i]) ==> r[i] == EMPTY
    ensures !IsEmpty(r[i]) ==> r[i].item == inv[i].item && r[i].count + 1 == inv[i].count
    ensures CountOf(r, inv[i].item) + 1 == CountOf(inv, inv[i].item)
    ensures forall it :: it != inv[i].item ==> CountOf(r, it) == CountOf(inv, it)
  {
    var s := if inv[i].count == 1 then EMPTY else Stack(inv[i].item, inv[i].count - 1);
    assert forall it :: CountOf(inv[i := s], it) + Contrib(inv[i], it) == CountOf(inv, it) + Contrib(s, it) by {
      forall it { CountOfUpdate(inv, i, s, it); }
    }
    inv[i := s]
  }

  // ---------------------------------------------------------------- rotateSaplingsInInventory

  /** The sapling stacks of `inv`, in slot order. */
  function SaplingStacks(inv: seq<Stack>): (r: seq<Stack>)
    ensures |r| <= |inv|
    ensures forall k :: 0 <= k < |r| ==> IsSaplingStack(r[k])
  {
    if |inv| == 0 then []
    else (if IsSaplingStack(inv[0]) then [inv[0]] else []) + SaplingStacks(inv[1..])
  }

  /** `inv` with its sapling slots, in order, overwritten by `vals`. */
  function Fill(inv: seq<Stack>, vals: seq<Stack>): (r: seq<Stack>)
    requires |vals| == |SaplingStacks(inv)|
    ensures |r| == |inv|
    ensures forall i :: 0 <= i < |inv| && !IsSaplingStack(inv[i]) ==> r[i] == inv[i]
    decreases |inv|
  {
    if |inv| == 0 then []
    else if IsSaplingStack(inv[0]) then [vals[0]] + Fill(inv[1..], vals[1..])
    else [inv[0]] + Fill(inv[1..], vals)
  }

  predicate AllSaplings(vals: seq<Stack>)
  {
    forall k :: 0 <= k < |vals| ==> IsSaplingStack(vals[k])
  }

  lemma {:induction false} FillShape(inv: seq<Stack>, vals: seq<Stack>)
    requires |vals| == |SaplingStacks(inv)|
    requires AllSaplings(vals)
    ensures SaplingStacks(Fill(inv, vals)) == vals
    ensures forall i :: 0 <= i < |inv| ==> (IsSaplingStack(Fill(inv, vals)[i]) <==> IsSaplingStack(inv[i]))
    decreases |inv|
  {
    if |inv| > 0 {
      var f := Fill(inv, vals);
      if IsSaplingStack(inv[0]) {
        FillShape(inv[1..], vals[1..]);
        assert f[1..] == Fill(inv[1..], vals[1..]);
        assert vals == [vals[0]] + vals[1..];
      } else {
        FillShape(inv[1..], vals);
        assert f[1..] == Fill(inv[1..], vals);
      }
      forall i | 1 <= i < |inv| ensures IsSaplingStack(f[i]) <==> IsSaplingStack(inv[i]) {
        assert f[i] == f[1..][i - 1];
        assert inv[i] == inv[1..][i - 1];
      }
    }
  }

  function Occ(s: seq<Stack>, x: Stack): nat
  {
    multiset(s)[x]
  }

  lemma OccCons(a: Stack, s: seq<Stack>, x: Stack)
    ensures Occ([a] + s, x) == (if a == x then 1 else 0) + Occ(s, x)
  {
    assert multiset([a] + s) == multiset{a} + multiset(s);
  }

  lemma OccHead(s: seq<Stack>, x: Stack)
    requires |s| > 0
    ensures Occ(s, x) == (if s[0] == x then 1 else 0) + Occ(s[1..], x)
  {
    assert s == [s[0]] + s[1..];
    OccCons(s[0], s[1..], x);
  }

  lemma {:induction false} FillMultiset(inv: seq<Stack>, vals: seq<Stack>, x: Stack)
    requires |vals| == |SaplingStacks(inv)|
    ensures Occ(Fill(inv, vals), x) + Occ(SaplingStacks(inv), x) == Occ(inv, x) + Occ(vals, x)
    decreases |inv|
  {
    if |inv| > 0 {
      var rest := inv[1..];
      OccHead(inv, x);
      if IsSaplingStack(inv[0]) {
        FillMultiset(rest, vals[1..], x);
        assert Fill(inv, vals) == [vals[0]] + Fill(rest, vals[1..]);
        OccCons(vals[0], Fill(rest, vals[1..]), x);
        assert SaplingStacks(inv) == [inv[0]] + SaplingStacks(rest);
        OccCons(inv[0], SaplingStacks(rest), x);
        OccHead(vals, x);
      } else {
        FillMultiset(rest, vals, x);
        assert Fill(inv, vals) == [inv[0]] + Fill(rest, vals);
        OccCons(inv[0], Fill(rest, vals), x);
        assert SaplingStacks(inv) == SaplingStacks(rest);
      }
    }
  }

  lemma {:induction false} FillCount(inv: seq<Stack>, vals: seq<Stack>, it: Item)
    requires |vals| == |SaplingStacks(inv)|
    ensures CountOf(Fill(inv, vals), it) + CountOf(SaplingStacks(inv), it) == CountOf(inv, it) + CountOf(vals, it)
    decreases |inv|
  {
    if |inv| > 0 {
      var f := Fill(inv, vals);
      if IsSaplingStack(inv[0]) {
        FillCount(inv[1..], vals[1..], it);
        assert f == [vals[0]] + Fill(inv[1..], vals[1..]);
        assert f[1..] == Fill(inv[1..], vals[1..]);
        var ss := SaplingStacks(inv);
        assert ss == [inv[0]] + SaplingStacks(inv[1..]);
        assert ss[1..] == SaplingStacks(inv[1..]);
        assert CountOf(ss, it) == Contrib(inv[0], it) + CountOf(SaplingStacks(inv[1..]), it);
      } else {
        FillCount(inv[1..], vals, it);
        assert f == [inv[0]] + Fill(inv[1..], vals);
        assert f[1..] == Fill(inv[1..], vals);
        assert SaplingStacks(inv) == SaplingStacks(inv[1..]);
      }
    }
  }

  /** Filling the sapling slots with their own contents changes nothing. */
  lemma {:induction false} FillOwn(inv: seq<Stack>)
    ensures Fill(inv, SaplingStacks(inv)) == inv
    decreases |inv|
  {
    if |inv| > 0 {
      FillOwn(inv[1..]);
      var ss := SaplingStacks(inv);
      if IsSaplingStack(inv[0]) {
        assert ss == [inv[0]] + SaplingStacks(inv[1..]);
        assert ss[0] == inv[0];
        assert ss[1..] == SaplingStacks(inv[1..]);
        assert Fill(inv, ss) == [inv[0]] + Fill(inv[1..], SaplingStacks(inv[1..]));
      } else {
        assert ss == SaplingStacks(inv[1..]);
        assert Fill(inv, ss) == [inv[0]] + Fill(inv[1..], SaplingStacks(inv[1..]));
      }
      assert inv == [inv[0]] + inv[1..];
    }
  }

  /** Filling twice keeps only the second filling. */
  lemma {:induction false} FillTwice(inv: seq<Stack>, a: seq<Stack>, b: seq<Stack>)
    requires |a| == |SaplingStacks(inv)| && AllSaplings(a)
    requires |b| == |a|
    ensures SaplingStacks(Fill(inv, a)) == a && Fill(Fill(inv, a), b) == Fill(inv, b)
    decreases |inv|
  {
    FillShape(inv, a);
    if |inv| > 0 {
      var f := Fill(inv, a);
      if IsSaplingStack(inv[0]) {
        assert f[1..] == Fill(inv[1..], a[1..]);
        FillShape(inv[1..], a[1..]);
        FillTwice(inv[1..], a[1..], b[1..]);
      } else {
        assert f[1..] == Fill(inv[1..], a);
        FillShape(inv[1..], a);
        FillTwice(inv[1..], a, b);
      }
    }
  }

  function RotateLeft<T>(s: seq<T>): seq<T>
  {
    if |s| == 0 then s else s[1..] + [s[0]]
  }

  /**
    `rotateSaplingsInInventory`: with fewer than two sapling slots the
    inventory is unchanged; otherwise the sapling slots keep their places while
    their contents rotate left by one, every other slot is untouched and the
    multiset of stacks is preserved.
   */
  function Rotate(inv: seq<Stack>): (r: seq<Stack>)
    ensures |r| == |inv|
    ensures |SaplingStacks(inv)| < 2 ==> r == inv
    ensures |SaplingStacks(inv)| >= 2 ==>
              SaplingStacks(r) == SaplingStacks(inv)[1..] + [SaplingStacks(inv)[0]]
    ensures forall i :: 0 <= i < |inv| ==> (IsSaplingStack(r[i]) <==> IsSaplingStack(inv[i]))
    ensures forall i :: 0 <= i < |inv| && !IsSaplingStack(inv[i]) ==> r[i] == inv[i]
    ensures multiset(r) == multiset(inv)
  {
    var ss := SaplingStacks(inv);
    if |ss| < 2 then inv
    else
      var vals := ss[1..] + [ss[0]];
      FillShape(inv, vals);
      assert ss == [ss[0]] + ss[1..];
      assert multiset(vals) == multiset(ss);
      assert multiset(Fill(inv, vals)) == multiset(inv) by {
        forall x ensures multiset(Fill(inv, vals))[x] == multiset(inv)[x] {
          FillMultiset(inv, vals, x);
        }
      }
      Fill(inv, vals)
  }

  /** `k` successive rotations, one every 600 ticks. */
  function RotateN(inv: seq<Stack>, k: nat): seq<Stack>
  {
    if k == 0 then inv else Rotate(RotateN(inv, k - 1))
  }

  lemma RotateLeftOfSplit<T>(ss: seq<T>, k: nat)
    requires 0 < k <= |ss|
    ensures var a := ss[k - 1..] + ss[..k - 1];
            |a| == |ss| && a[1..] + [a[0]] == ss[k..] + ss[..k]
  {
    var a := ss[k - 1..] + ss[..k - 1];
    assert a[0] == ss[k - 1];
    assert a[1..] == ss[k..] + ss[..k - 1];
    assert ss[..k] == ss[..k - 1] + [ss[k - 1]];
  }

  lemma SplitAllSaplings(ss: seq<Stack>, k: nat)
    requires AllSaplings(ss) && k <= |ss|
    ensures AllSaplings(ss[k..] + ss[..k])
  {
    var a := ss[k..] + ss[..k];
    forall j | 0 <= j < |a| ensures IsSaplingStack(a[j]) {
      if j < |ss| - k {
        assert a[j] == ss[k + j];
      } else {
        assert a[j] == ss[j - (|ss| - k)];
      }
    }
  }

  /** One rotation of an inventory whose sapling slots were filled with `a`. */
  lemma RotateFilled(inv: seq<Stack>, a: seq<Stack>)
    requires |a| == |SaplingStacks(inv)| && |a| >= 2 && AllSaplings(a)
    ensures Rotate(Fill(inv, a)) == Fill(inv, a[1..] + [a[0]])
  {
    FillShape(inv, a);
    FillTwice(inv, a, a[1..] + [a[0]]);
  }

  /** `ss` turned left by `k` places. */
  function Turned<T>(ss: seq<T>, k: nat): (r: seq<T>)
    requires k <= |ss|
    ensures |r| == |ss|
  {
    ss[k..] + ss[..k]
  }

  lemma RotateNStep(inv: seq<Stack>, k: nat)
    requires |SaplingStacks(inv)| >= 2
    requires 0 < k <= |SaplingStacks(inv)|
    requires RotateN(inv, k - 1) == Fill(inv, Turned(SaplingStacks(inv), k - 1))
    ensures RotateN(inv, k) == Fill(inv, Turned(SaplingStacks(inv), k))
  {
    var ss := SaplingStacks(inv);
    var a := Turned(ss, k - 1);
    SplitAllSaplings(ss, k - 1);
    RotateFilled(inv, a);
    RotateLeftOfSplit(ss, k);
    assert a[1..] + [a[0]] == Turned(ss, k);
  }

  lemma {:induction false} RotateNIsFill(inv: seq<Stack>, k: nat)
    requires |SaplingStacks(inv)| >= 2
    requires k <= |SaplingStacks(inv)|
    ensures RotateN(inv, k) == Fill(inv, Turned(SaplingStacks(inv), k))
  {
    if k == 0 {
      var ss := SaplingStacks(inv);
      assert Turned(ss, 0) == ss;
      FillOwn(inv);
    } else {
      RotateNIsFill(inv, k - 1);
      RotateNStep(inv, k);
    }
  }

  /**
    Rotation makes every sapling slot take its turn at the front: after `k`
    rotations (fewer than the number of sapling slots) the first sapling slot
    holds the `k`-th sapling stack.
   */
  lemma RotationFront(inv: seq<Stack>, k: nat)
    requires |SaplingStacks(inv)| >= 2
    requires k < |SaplingStacks(inv)|
    ensures |SaplingStacks(RotateN(inv, k))| == |SaplingStacks(inv)|
    ensures SaplingStacks(RotateN(inv, k))[0] == SaplingStacks(inv)[k]
  {
    var ss := SaplingStacks(inv);
    var a := Turned(ss, k);
    RotateNIsFill(inv, k);
    SplitAllSaplings(ss, k);
    FillShape(inv, a);
  }

  /** As many rotations as there are sapling slots bring the inventory back to where it started. */
  lemma RotationCycles(inv: seq<Stack>)
    requires |SaplingStacks(inv)| >= 2
    ensures RotateN(inv, |SaplingStacks(inv)|) == inv
  {
    var ss := SaplingStacks(inv);
    RotateNIsFill(inv, |ss|);
    assert Turned(ss, |ss|) == ss;
    FillOwn(inv);
  }

  // ---------------------------------------------------------------- updateSaplingCountSnapshot

  /**
    The snapshot taken by `updateSaplingCountSnapshot`: exactly the sapling
    items held in some non-empty slot, each mapped to the sum of the counts of
    all slots holding it.
   */
  function SaplingCountSnapshot(inv: seq<Stack>): (m: map<Item, nat>)
    ensures forall it :: it in m <==> exists i :: 0 <= i < |inv| && IsSaplingStack(inv[i]) && inv[i].item == it
    ensures forall it :: it in m ==> m[it] == CountOf(inv, it)
    decreases |inv|
  {
    if |inv| == 0 then map[]
    else
      var m := SaplingCountSnapshot(inv[1..]);
      assert forall i :: 1 <= i < |inv| ==> inv[i] == inv[1..][i - 1];
      assert forall i :: 0 <= i < |inv[1..]| ==> inv[1..][i] == inv[i + 1];
      if IsSaplingStack(inv[0]) then
        var it := inv[0].item;
        CountOfPositive(inv[1..], it);
        m[it := inv[0].count + (if it in m then m[it] else 0)]
      else m
  }

  /** The per-roamer table of snapshots after `updateSaplingCountSnapshot(e, inv)`. */
  function UpdateSaplingCountSnapshot(table: map<EntityId, map<Item, nat>>, e: EntityId, inv: seq<Stack>)
    : (r: map<EntityId, map<Item, nat>>)
    ensures r.Keys == table.Keys + {e}
    ensures forall e' :: e' in table && e' != e ==> r[e'] == table[e']
    ensures forall it :: it in r[e] <==> it.Sapling? && CountOf(inv, it) > 0
    ensures forall it :: it in r[e] ==> r[e][it] == CountOf(inv, it)
  {
    var m := SaplingCountSnapshot(inv);
    forall it ensures it in m <==> it.Sapling? && CountOf(inv, it) > 0 {
      CountOfPositive(inv, it);
    }
    table[e := m]
  }

  /** Two inventories holding the same number of every item have the same snapshot. */
  lemma SnapshotOfCounts(a: seq<Stack>, b: seq<Stack>)
    requires forall it :: CountOf(a, it) == CountOf(b, it)
    ensures SaplingCountSnapshot(a) == SaplingCountSnapshot(b)
  {
    var m1 := SaplingCountSnapshot(a);
    var m2 := SaplingCountSnapshot(b);
    forall it ensures it in m1 <==> it in m2 {
      CountOfPositive(a, it);
      CountOfPositive(b, it);
    }
  }

  /** Rotating the sapling slots keeps the number held of every item. */
  lemma RotateKeepsCounts(inv: seq<Stack>, it: Item)
    ensures CountOf(Rotate(inv), it) == CountOf(inv, it)
  {
    var ss := SaplingStacks(inv);
    if |ss| >= 2 {
      var vals := ss[1..] + [ss[0]];
      FillCount(inv, vals, it);
      CountOfAppend(ss[1..], [ss[0]], it);
      CountOfAppend([ss[0]], ss[1..], it);
      assert ss == [ss[0]] + ss[1..];
    }
  }

  /** Rotating the sapling slots never changes the count snapshot. */
  lemma RotateKeepsSnapshot(inv: seq<Stack>)
    ensures SaplingCountSnapshot(Rotate(inv)) == SaplingCountSnapshot(inv)
  {
    forall it ensures CountOf(Rotate(inv), it) == CountOf(inv, it) {
      RotateKeepsCounts(inv, it);
    }
    SnapshotOfCounts(Rotate(inv), inv);
  }
}
