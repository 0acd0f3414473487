/**
  `scatterSaplingsAlternating` of `SaplingPlacementHelper`: the ring of
  candidate columns around a centre, the grouping of the given stacks by
  sapling kind, the round-robin placement over the kinds and the bone meal
  given to the saplings just placed.

  `Collections.shuffle` is the input `perm`, a permutation of the candidate
  indices; bone meal growth is the oracle `grows`, indexed by the running
  number of applications.
 */
module Scatter {
  import opened Base
  import opened Placement

  // ---------------------------------------------------------------- generateScatterPositions

  /**
    The offset `(dx, dz)` is a scatter candidate for radius `r`: inside the
    square of half-side `r`, outside the 7x7 square kept free around the
    centre, and inside the disc of radius `r`.
   */
  predicate InRing(r: int, dx: int, dz: int)
  {
    && -r <= dx <= r && -r <= dz <= r
    && !(Abs(dx) <= 3 && Abs(dz) <= 3)
    && Sq(dx) + Sq(dz) <= Sq(r)
  }

  function Sq(a: int): int { a * a }

  /** The candidates of row `x`, from column `z` up to `r`, in loop order. */
  function RingRow(r: int, x: int, z: int): (s: seq<(int, int)>)
    requires -r <= x <= r && -r <= z
    ensures forall k :: 0 <= k < |s| ==> s[k].0 == x && z <= s[k].1 <= r && InRing(r, x, s[k].1)
    ensures forall k, l :: 0 <= k < l < |s| ==> s[k].1 < s[l].1
    decreases r - z
  {
    if z > r then []
    else
      var rest := RingRow(r, x, z + 1);
      if Abs(x) <= 3 && Abs(z) <= 3 then rest
      else if Sq(x) + Sq(z) <= Sq(r) then [(x, z)] + rest
      else rest
  }

  /** Every ring offset of row `x` from column `z` on is visited. */
  lemma {:induction false} RingRowCovers(r: int, x: int, z: int, b: int)
    requires -r <= x <= r && -r <= z <= b && InRing(r, x, b)
    ensures (x, b) in RingRow(r, x, z)
    decreases r - z
  {
    if b > z {
      RingRowCovers(r, x, z + 1, b);
    }
  }

  /** The candidates of rows `x` up to `r`, in loop order. */
  function RingRows(r: int, x: int): (s: seq<(int, int)>)
    requires -r <= x
    ensures forall k :: 0 <= k < |s| ==> x <= s[k].0 <= r && InRing(r, s[k].0, s[k].1)
    ensures forall k, l :: 0 <= k < l < |s| ==> s[k] != s[l]
    decreases r - x
  {
    if x > r then []
    else
      var row, rest := RingRow(r, x, -r), RingRows(r, x + 1);
      var s := row + rest;
      assert forall k, l :: 0 <= k < l < |s| ==> s[k] != s[l] by {
        forall k, l | 0 <= k < l < |s| ensures s[k] != s[l] {
          if l < |row| {
          } else if k < |row| {
            assert s[k].0 == x < s[l].0;
          } else {
            assert s[k] == rest[k - |row|] && s[l] == rest[l - |row|];
          }
        }
      }
      s
  }

  /** Every ring offset of rows `x` up to `r` is visited. */
  lemma {:induction false} RingRowsCovers(r: int, x: int, a: int, b: int)
    requires -r <= x <= a && InRing(r, a, b)
    ensures (a, b) in RingRows(r, x)
    decreases r - x
  {
    var row, rest := RingRow(r, x, -r), RingRows(r, x + 1);
    assert x <= r && RingRows(r, x) == row + rest;
    if a == x {
      RingRowCovers(r, x, -r, b);
      assert (a, b) in row;
    } else {
      RingRowsCovers(r, x + 1, a, b);
      assert (a, b) in rest;
    }
  }

  /** All candidate offsets for radius `r`, in the order the nested loops visit them. */
  function RingOffsets(r: int): (s: seq<(int, int)>)
    ensures forall k :: 0 <= k < |s| ==> InRing(r, s[k].0, s[k].1)
    ensures forall k, l :: 0 <= k < l < |s| ==> s[k] != s[l]
  {
    RingRows(r, -r)
  }

  /** Every offset in the ring is a candidate offset. */
  lemma RingOffsetsCover(r: int, a: int, b: int)
    requires InRing(r, a, b)
    ensures (a, b) in RingOffsets(r)
  {
    RingRowsCovers(r, -r, a, b);
  }

  /** `perm` lists every index below `n` exactly once. */
  predicate IsPermutation(perm: seq<nat>, n: nat)
  {
    && |perm| == n
    && (forall i :: 0 <= i < n ==> perm[i] < n)
    && (forall i, j :: 0 <= i < j < n ==> perm[i] != perm[j])
    && (forall k :: 0 <= k < n ==> k in perm)
  }

  /** The column `(dx, dz)` away from `center`, at the centre's height. */
  function Candidate(center: Pos, d: (int, int)): Pos
  {
    Offset(center, d.0, 0, d.1)
  }

  /** `p` is one of the candidate positions around `center`. */
  predicate IsCandidate(center: Pos, radius: int, p: Pos)
  {
    p.y == center.y && InRing(radius, p.x - center.x, p.z - center.z)
  }

  /** `p` and `q` lie in the same column of blocks. */
  predicate SameColumn(p: Pos, q: Pos)
  {
    p.x == q.x && p.z == q.z
  }

  /** The positions from `i` on lie in pairwise different columns. */
  predicate DistinctColumns(ps: seq<Pos>, i: nat)
  {
    forall a, b :: i <= a < b < |ps| ==> !SameColumn(ps[a], ps[b])
  }

  /** The candidate positions in the order the nested loops add them, before the shuffle. */
  function Candidates(center: Pos, radius: int): (cs: seq<Pos>)
    ensures |cs| == |RingOffsets(radius)|
    ensures forall k :: 0 <= k < |cs| ==> cs[k] == Candidate(center, RingOffsets(radius)[k])
  {
    var ring := RingOffsets(radius);
    seq(|ring|, k requires 0 <= k < |ring| => Candidate(center, ring[k]))
  }

  /** Each candidate is at the centre's height with its offset in the ring. */
  lemma CandidateInRing(center: Pos, radius: int, k: nat)
    requires k < |Candidates(center, radius)|
    ensures IsCandidate(center, radius, Candidates(center, radius)[k])
  {
    var d, c := RingOffsets(radius)[k], Candidates(center, radius)[k];
    assert c.x - center.x == d.0 && c.z - center.z == d.1;
  }

  /** Every offset of the ring gives a candidate. */
  lemma CandidateCovers(center: Pos, radius: int, a: int, b: int)
    requires InRing(radius, a, b)
    ensures Candidate(center, (a, b)) in Candidates(center, radius)
  {
    var ring := RingOffsets(radius);
    RingOffsetsCover(radius, a, b);
    var k :| 0 <= k < |ring| && ring[k] == (a, b);
    assert Candidates(center, radius)[k] == Candidate(center, (a, b));
  }

  /** No two candidates share a column. */
  lemma CandidatesDistinct(center: Pos, radius: int)
    ensures DistinctColumns(Candidates(center, radius), 0)
  {
    var ring, cs := RingOffsets(radius), Candidates(center, radius);
    forall a, b | 0 <= a < b < |cs| ensures !SameColumn(cs[a], cs[b]) {
      assert ring[a] != ring[b];
      assert ring[a].0 != ring[b].0 || ring[a].1 != ring[b].1;
    }
  }

  /** `s` reordered by the permutation `perm`: what `Collections.shuffle` may leave. */
  function Shuffle<T>(s: seq<T>, perm: seq<nat>): (r: seq<T>)
    requires IsPermutation(perm, |s|)
    ensures |r| == |s|
    ensures forall i :: 0 <= i < |r| ==> r[i] == s[perm[i]]
  {
    seq(|s|, i requires 0 <= i < |s| => s[perm[i]])
  }

  /** A shuffle keeps every element. */
  lemma ShuffleKeeps<T>(s: seq<T>, perm: seq<nat>, x: T)
    requires IsPermutation(perm, |s|)
    requires x in s
    ensures x in Shuffle(s, perm)
  {
    var k :| 0 <= k < |s| && s[k] == x;
    assert k in perm;
    var i :| 0 <= i < |perm| && perm[i] == k;
    assert Shuffle(s, perm)[i] == x;
  }

  /** A shuffle of positions in distinct columns is in distinct columns. */
  lemma ShuffleDistinctColumns(s: seq<Pos>, perm: seq<nat>)
    requires IsPermutation(perm, |s|)
    requires DistinctColumns(s, 0)
    ensures DistinctColumns(Shuffle(s, perm), 0)
  {
    var r := Shuffle(s, perm);
    forall a, b | 0 <= a < b < |r| ensures !SameColumn(r[a], r[b]) {
      if perm[a] < perm[b] {
        assert !SameColumn(s[perm[a]], s[perm[b]]);
      } else {
        assert perm[a] != perm[b];
        assert !SameColumn(s[perm[b]], s[perm[a]]);
      }
    }
  }

  /**
    `generateScatterPositions(center, radius)`: the candidate positions, in
    the order the shuffle `perm` leaves them.
   */
  function GenerateScatterPositions(center: Pos, radius: int, perm: seq<nat>): (ps: seq<Pos>)
    requires IsPermutation(perm, |RingOffsets(radius)|)
    ensures |ps| == |RingOffsets(radius)|
    ensures forall i :: 0 <= i < |ps| ==> ps[i].y == center.y
  {
    Shuffle(Candidates(center, radius), perm)
  }

  /** Every scatter position is at the centre's height with its offset in the ring. */
  lemma ScatterInRing(center: Pos, radius: int, perm: seq<nat>, i: nat)
    requires IsPermutation(perm, |RingOffsets(radius)|)
    requires i < |perm|
    ensures IsCandidate(center, radius, GenerateScatterPositions(center, radius, perm)[i])
  {
    CandidateInRing(center, radius, perm[i]);
  }

  /** Every offset of the ring is among the scatter positions. */
  lemma ScatterCoversRing(center: Pos, radius: int, perm: seq<nat>, a: int, b: int)
    requires IsPermutation(perm, |RingOffsets(radius)|)
    requires InRing(radius, a, b)
    ensures Candidate(center, (a, b)) in GenerateScatterPositions(center, radius, perm)
  {
    CandidateCovers(center, radius, a, b);
    ShuffleKeeps(Candidates(center, radius), perm, Candidate(center, (a, b)));
  }

  /** No two scatter positions share a column. */
  lemma ScatterDistinctColumns(center: Pos, radius: int, perm: seq<nat>)
    requires IsPermutation(perm, |RingOffsets(radius)|)
    ensures DistinctColumns(GenerateScatterPositions(center, radius, perm), 0)
  {
    CandidatesDistinct(center, radius);
    ShuffleDistinctColumns(Candidates(center, radius), perm);
  }

  // ---------------------------------------------------------------- grouping by sapling kind

  /** `s` is a non-empty stack of the sapling of species `sp`. */
  predicate HoldsSapling(s: Stack, sp: Species)
  {
    IsSaplingStack(s) && s.item == Sapling(sp)
  }

  /**
    The sapling kinds of `stacks` in order of first appearance, as the keys of
    the insertion-ordered map the source groups the stacks into. Empty stacks
    and stacks of anything but a sapling are skipped.
   */
  function Types(stacks: seq<Stack>): (r: seq<Species>)
    ensures forall i :: 0 <= i < |stacks| && IsSaplingStack(stacks[i]) ==> stacks[i].item.species in r
    ensures forall k :: 0 <= k < |r| ==> exists i :: 0 <= i < |stacks| && HoldsSapling(stacks[i], r[k])
    ensures forall k, l :: 0 <= k < l < |r| ==> r[k] != r[l]
    decreases |stacks|
  {
    if |stacks| == 0 then []
    else
      var init := stacks[..|stacks| - 1];
      var last := stacks[|stacks| - 1];
      var r := Types(init);
      assert forall i :: 0 <= i < |init| ==> init[i] == stacks[i];
      if IsSaplingStack(last) && last.item.species !in r then r + [last.item.species] else r
  }

  /** Grouping a longer list keeps the kinds already found, in the same order: first-appearance order. */
  lemma {:induction false} TypesPrefix(stacks: seq<Stack>, n: nat)
    requires n <= |stacks|
    ensures Types(stacks[..n]) <= Types(stacks)
    decreases |stacks|
  {
    if n < |stacks| {
      var init := stacks[..|stacks| - 1];
      assert init[..n] == stacks[..n];
      TypesPrefix(init, n);
    } else {
      assert stacks[..n] == stacks;
    }
  }

  /** Index of the first stack `stacks` holds of the sapling of `sp`, or -1: the stack the source shrinks for that kind. */
  function StackFor(stacks: seq<Stack>, sp: Species): (r: int)
    ensures -1 <= r < |stacks|
    ensures r >= 0 ==> HoldsSapling(stacks[r], sp)
    decreases |stacks|
  {
    if |stacks| == 0 then -1
    else if HoldsSapling(stacks[0], sp) then 0
    else
      var k := StackFor(stacks[1..], sp);
      if k == -1 then -1 else k + 1
  }

  /** `StackFor` finds the first stack of that sapling, and -1 exactly when there is none. */
  lemma {:induction false} StackForFirst(stacks: seq<Stack>, sp: Species)
    ensures var r := StackFor(stacks, sp);
            && (r == -1 <==> forall j :: 0 <= j < |stacks| ==> !HoldsSapling(stacks[j], sp))
            && (r >= 0 ==> forall j :: 0 <= j < r ==> !HoldsSapling(stacks[j], sp))
    decreases |stacks|
  {
    if |stacks| > 0 && !HoldsSapling(stacks[0], sp) {
      StackForFirst(stacks[1..], sp);
      assert forall j :: 1 <= j < |stacks| ==> stacks[j] == stacks[1..][j - 1];
    }
  }


  /** Some kind of `types` still has a non-empty stack. */
  predicate HasAnySaplings(stacks: seq<Stack>, types: seq<Species>)
  {
    exists k :: 0 <= k < |types| && StackFor(stacks, types[k]) >= 0
  }

  // ---------------------------------------------------------------- round-robin over the kinds

  /**
    Outcome of the `while (attempts < #types)` loop at one candidate column:
    either a sapling of `kind` went to `spot`, taken from slot `slot`, after
    `skipped` kinds were passed over, or nothing was placed. `next` is the
    kind index the loop leaves behind.
   */
  datatype Attempt =
    | Placed(spot: Pos, slot: nat, kind: Species, skipped: nat, next: nat)
    | NoSpot(next: nat)

  /** `(typeIndex + 1) % #types`: the next kind, wrapping to the first. */
  function NextIndex(ti: nat, n: nat): (r: nat)
    requires ti < n
    ensures r < n
    ensures r == if ti + 1 == n then 0 else ti + 1
  {
    (ti + 1) % n
  }

  /** The kind index `e` steps after `start`, going round `n` kinds at most once. */
  function Cyc(start: nat, e: nat, n: nat): (r: nat)
    requires start < n && e <= n
  {
    if start + e < n then start + e else start + e - n
  }

  /** The kind of `types` tried at attempt `e` of a loop that began at `start` has a non-empty stack. */
  predicate Stocked(stacks: seq<Stack>, types: seq<Species>, start: nat, e: nat)
    requires start < |types| && e < |types|
  {
    StackFor(stacks, types[Cyc(start, e, |types|)]) >= 0
  }

  /**
    The round-robin loop at one candidate column, from attempt `d` on, the
    kind index being `ti`. A kind is tried only when it has a non-empty
    stack. `found` is what `findValidSaplingPosition` answers for the column:
    the level does not change inside this loop, so every attempt that
    searches gets that same answer.
   */
  function TryTypes(found: Option<Pos>, stacks: seq<Stack>, types: seq<Species>, ti: nat, d: nat): (r: Attempt)
    requires 0 < |types| && ti < |types| && d <= |types|
    ensures r.next < |types|
    ensures r.Placed? ==> r.slot < |stacks| && HoldsSapling(stacks[r.slot], r.kind) && r.kind in types
    ensures r.Placed? ==> found == Some(r.spot)
    decreases |types| - d
  {
    if d == |types| then NoSpot(ti)
    else
      var kind := types[ti];
      var slot := StackFor(stacks, kind);
      if slot >= 0 && found.Some? then
        Placed(found.value, slot, kind, d, NextIndex(ti, |types|))
      else
        TryTypes(found, stacks, types, NextIndex(ti, |types|), d + 1)
  }

  /**
    When the loop at a column, started with kind index `start`, places a
    sapling, it is of the first kind, going round from `start`, that still
    has a stack, and the index then moves one past that kind.
   */
  lemma {:induction false} TryTypesPlaced(found: Option<Pos>, stacks: seq<Stack>, types: seq<Species>, start: nat, d: nat)
    requires 0 < |types| && start < |types| && d <= |types|
    ensures var r := TryTypes(found, stacks, types, Cyc(start, d, |types|), d);
            r.Placed? ==>
              && d <= r.skipped < |types|
              && r.kind == types[Cyc(start, r.skipped, |types|)]
              && r.next == NextIndex(Cyc(start, r.skipped, |types|), |types|)
              && r.slot == StackFor(stacks, r.kind)
              && found == Some(r.spot)
              && Stocked(stacks, types, start, r.skipped)
              && forall e :: d <= e < r.skipped ==> !Stocked(stacks, types, start, e)
    decreases |types| - d
  {
    var n := |types|;
    if d < n {
      assert NextIndex(Cyc(start, d, n), n) == Cyc(start, d + 1, n);
      TryTypesPlaced(found, stacks, types, start, d + 1);
    }
  }

  /**
    When the loop places nothing, the column has no valid spot or no kind
    has a stack left, and the index has gone round once, back to `start`.
   */
  lemma {:induction false} TryTypesNoSpot(found: Option<Pos>, stacks: seq<Stack>, types: seq<Species>, start: nat, d: nat)
    requires 0 < |types| && start < |types| && d <= |types|
    ensures var r := TryTypes(found, stacks, types, Cyc(start, d, |types|), d);
            r.NoSpot? ==>
              && r.next == start
              && (found.None? ||
                  forall e :: d <= e < |types| ==> !Stocked(stacks, types, start, e))
    decreases |types| - d
  {
    var n := |types|;
    if d < n {
      assert NextIndex(Cyc(start, d, n), n) == Cyc(start, d + 1, n);
      TryTypesNoSpot(found, stacks, types, start, d + 1);
    }
  }

  /**
    When some kind still has a sapling and the column has a valid spot, the
    loop places one: it never gives up a column it could have used.
   */
  lemma PlacesWhenPossible(found: Option<Pos>, stacks: seq<Stack>, types: seq<Species>, start: nat)
    requires 0 < |types| && start < |types|
    requires HasAnySaplings(stacks, types)
    requires found.Some?
    ensures TryTypes(found, stacks, types, start, 0).Placed?
  {
    var n := |types|;
    var k :| 0 <= k < n && StackFor(stacks, types[k]) >= 0;
    var e := if k >= start then k - start else k + n - start;
    assert Cyc(start, e, n) == k;
    assert Stocked(stacks, types, start, e);
    assert Cyc(start, 0, n) == start;
    TryTypesNoSpot(found, stacks, types, start, 0);
  }

  // ---------------------------------------------------------------- the placement loop

  /** `stacks` after `shrink(1)` on slot `slot`; the item stays, so a stack shrunk to 0 reads empty. */
  function ShrinkOne(stacks: seq<Stack>, slot: nat): (r: seq<Stack>)
    requires slot < |stacks| && stacks[slot].count > 0
    ensures |r| == |stacks|
    ensures r[slot].item == stacks[slot].item && r[slot].count + 1 == stacks[slot].count
  {
    stacks[slot := Stack(stacks[slot].item, stacks[slot].count - 1)]
  }

  /** The level, the stacks and the saplings placed so far, and the kind index. */
  datatype Scattered = Scattered(world: World, stacks: seq<Stack>, placed: seq<Pos>, kinds: seq<Species>, typeIndex: nat)

  /**
    The `for (basePos : potentialPositions)` loop from candidate `i` on: it
    stops as soon as no kind has a sapling left, and otherwise searches the
    candidate's column in the current level and runs the round-robin there,
    planting the chosen sapling at the spot found and shrinking its stack by
    one.
   */
  function PlaceFrom(w: World, stacks: seq<Stack>, types: seq<Species>, ps: seq<Pos>, i: nat, ti: nat): (r: Scattered)
    requires 0 < |types| && ti < |types| && i <= |ps|
    ensures |r.placed| == |r.kinds| && |r.stacks| == |stacks|
    decreases |ps| - i
  {
    if i == |ps| || !HasAnySaplings(stacks, types) then Scattered(w, stacks, [], [], ti)
    else
      match TryTypes(FindValidSaplingPosition(w, ps[i]), stacks, types, ti, 0)
      case NoSpot(_) => PlaceFrom(w, stacks, types, ps, i + 1, ti)
      case Placed(spot, slot, kind, _, next) =>
        var rest := PlaceFrom(SetBlock(w, spot, SaplingBlock(kind)), ShrinkOne(stacks, slot), types, ps, i + 1, next);
        Scattered(rest.world, rest.stacks, [spot] + rest.placed, [kind] + rest.kinds, rest.typeIndex)
  }

  /** The level after planting a sapling of `kinds[k]` at `spots[k]`, in order. */
  function Plant(w: World, spots: seq<Pos>, kinds: seq<Species>): World
    requires |spots| == |kinds|
  {
    if |spots| == 0 then w
    else Plant(SetBlock(w, spots[0], SaplingBlock(kinds[0])), spots[1..], kinds[1..])
  }

  /**
    The same loop over the answers `finds` the column searches give, without
    the level. `from[k]` is the candidate the `k`-th sapling went to.
   */
  datatype Placing = Placing(stacks: seq<Stack>, placed: seq<Pos>, kinds: seq<Species>, from: seq<nat>, typeIndex: nat)

  function Place(finds: seq<Option<Pos>>, stacks: seq<Stack>, types: seq<Species>, i: nat, ti: nat): (r: Placing)
    requires 0 < |types| && ti < |types| && i <= |finds|
    ensures |r.stacks| == |stacks|
    ensures |r.placed| == |r.kinds| == |r.from| <= |finds| - i
    ensures r.typeIndex < |types|
    decreases |finds| - i
  {
    if i == |finds| || !HasAnySaplings(stacks, types) then Placing(stacks, [], [], [], ti)
    else
      match TryTypes(finds[i], stacks, types, ti, 0)
      case NoSpot(_) => Place(finds, stacks, types, i + 1, ti)
      case Placed(spot, slot, kind, _, next) =>
        var rest := Place(finds, ShrinkOne(stacks, slot), types, i + 1, next);
        Placing(rest.stacks, [spot] + rest.placed, [kind] + rest.kinds, [i] + rest.from, rest.typeIndex)
  }

  /** The `k`-th sapling went to the spot the search found at candidate `from[k]`. */
  lemma {:induction false} PlaceSpot(finds: seq<Option<Pos>>, stacks: seq<Stack>, types: seq<Species>, i: nat, ti: nat, k: nat)
    requires 0 < |types| && ti < |types| && i <= |finds|
    requires k < |Place(finds, stacks, types, i, ti).placed|
    ensures var r := Place(finds, stacks, types, i, ti);
            i <= r.from[k] < |finds| && finds[r.from[k]] == Some(r.placed[k])
    decreases |finds| - i
  {
    assert i < |finds| && HasAnySaplings(stacks, types);
    var a := TryTypes(finds[i], stacks, types, ti, 0);
    var r := Place(finds, stacks, types, i, ti);
    if a.NoSpot? {
      PlaceSpot(finds, stacks, types, i + 1, ti, k);
      var rest := Place(finds, stacks, types, i + 1, ti);
      assert r.from == rest.from && r.placed == rest.placed;
    } else {
      var shrunk := ShrinkOne(stacks, a.slot);
      var rest := Place(finds, shrunk, types, i + 1, a.next);
      assert r.from == [i] + rest.from && r.placed == [a.spot] + rest.placed;
      if k > 0 {
        PlaceSpot(finds, shrunk, types, i + 1, a.next, k - 1);
        assert r.from[k] == rest.from[k - 1] && r.placed[k] == rest.placed[k - 1];
      }
    }
  }

  /** Every kind placed is one of the grouped kinds. */
  lemma {:induction false} PlaceKindGrouped(finds: seq<Option<Pos>>, stacks: seq<Stack>, types: seq<Species>, i: nat, ti: nat, k: nat)
    requires 0 < |types| && ti < |types| && i <= |finds|
    requires k < |Place(finds, stacks, types, i, ti).kinds|
    ensures Place(finds, stacks, types, i, ti).kinds[k] in types
    decreases |finds| - i
  {
    assert i < |finds| && HasAnySaplings(stacks, types);
    var a := TryTypes(finds[i], stacks, types, ti, 0);
    var r := Place(finds, stacks, types, i, ti);
    if a.NoSpot? {
      PlaceKindGrouped(finds, stacks, types, i + 1, ti, k);
      assert r.kinds == Place(finds, stacks, types, i + 1, ti).kinds;
    } else {
      var shrunk := ShrinkOne(stacks, a.slot);
      var rest := Place(finds, shrunk, types, i + 1, a.next);
      assert r.kinds == [a.kind] + rest.kinds;
      if k > 0 {
        PlaceKindGrouped(finds, shrunk, types, i + 1, a.next, k - 1);
        assert r.kinds[k] == rest.kinds[k - 1];
      }
    }
  }

  /** Consecutive saplings went to increasing candidates. */
  lemma {:induction false} PlaceFromStep(finds: seq<Option<Pos>>, stacks: seq<Stack>, types: seq<Species>, i: nat, ti: nat, k: nat)
    requires 0 < |types| && ti < |types| && i <= |finds|
    requires 0 < k < |Place(finds, stacks, types, i, ti).placed|
    ensures Place(finds, stacks, types, i, ti).from[k - 1] < Place(finds, stacks, types, i, ti).from[k]
    decreases |finds| - i
  {
    assert i < |finds| && HasAnySaplings(stacks, types);
    var a := TryTypes(finds[i], stacks, types, ti, 0);
    var r := Place(finds, stacks, types, i, ti);
    if a.NoSpot? {
      PlaceFromStep(finds, stacks, types, i + 1, ti, k);
      assert r.from == Place(finds, stacks, types, i + 1, ti).from;
    } else {
      var shrunk := ShrinkOne(stacks, a.slot);
      var rest := Place(finds, shrunk, types, i + 1, a.next);
      assert r.from == [i] + rest.from;
      if k == 1 {
        PlaceSpot(finds, shrunk, types, i + 1, a.next, 0);
        assert r.from[0] == i && r.from[1] == rest.from[0];
      } else {
        PlaceFromStep(finds, shrunk, types, i + 1, a.next, k - 1);
        assert r.from[k - 1] == rest.from[k - 2] && r.from[k] == rest.from[k - 1];
      }
    }
  }

  /** The candidates used come in strictly increasing order, so no candidate gets two saplings. */
  lemma {:induction false} PlaceFromIncreasing(finds: seq<Option<Pos>>, stacks: seq<Stack>, types: seq<Species>, i: nat, ti: nat, k: nat, l: nat)
    requires 0 < |types| && ti < |types| && i <= |finds|
    requires k < l < |Place(finds, stacks, types, i, ti).placed|
    ensures Place(finds, stacks, types, i, ti).from[k] < Place(finds, stacks, types, i, ti).from[l]
    decreases l - k
  {
    PlaceFromStep(finds, stacks, types, i, ti, l);
    if k < l - 1 {
      PlaceFromIncreasing(finds, stacks, types, i, ti, k, l - 1);
    }
  }

  /** Planting takes one item from the stacks per sapling placed, and nothing else. */
  lemma {:induction false} PlaceTotal(finds: seq<Option<Pos>>, stacks: seq<Stack>, types: seq<Species>, i: nat, ti: nat)
    requires 0 < |types| && ti < |types| && i <= |finds|
    ensures TotalCount(stacks) == TotalCount(Place(finds, stacks, types, i, ti).stacks) + |Place(finds, stacks, types, i, ti).placed|
    decreases |finds| - i
  {
    var r := Place(finds, stacks, types, i, ti);
    if i == |finds| || !HasAnySaplings(stacks, types) {
      assert r.stacks == stacks && r.placed == [];
    } else {
      var a := TryTypes(finds[i], stacks, types, ti, 0);
      if a.NoSpot? {
        PlaceTotal(finds, stacks, types, i + 1, ti);
        var rest := Place(finds, stacks, types, i + 1, ti);
        assert r.stacks == rest.stacks && r.placed == rest.placed;
      } else {
        var shrunk := ShrinkOne(stacks, a.slot);
        var rest := Place(finds, shrunk, types, i + 1, a.next);
        PlaceTotal(finds, shrunk, types, i + 1, a.next);
        TotalCountUpdate(stacks, a.slot, shrunk[a.slot]);
        assert shrunk == stacks[a.slot := shrunk[a.slot]];
        assert r.stacks == rest.stacks && |r.placed| == 1 + |rest.placed|;
      }
    }
  }

  /** What shrinking slot `slot` takes from the count of one item. */
  lemma ShrinkOneCount(stacks: seq<Stack>, slot: nat, sp: Species, it: Item)
    requires slot < |stacks| && HoldsSapling(stacks[slot], sp)
    ensures CountOf(stacks, it) == CountOf(ShrinkOne(stacks, slot), it) + (if it == Sapling(sp) then 1 else 0)
  {
    var shrunk := ShrinkOne(stacks, slot);
    assert shrunk == stacks[slot := shrunk[slot]];
    CountOfUpdate(stacks, slot, shrunk[slot], it);
  }

  /**
    For every kind, the saplings of that kind planted are exactly the ones
    taken from its stacks.
   */
  lemma {:induction false} PlacePerKind(finds: seq<Option<Pos>>, stacks: seq<Stack>, types: seq<Species>, i: nat, ti: nat, sp: Species)
    requires 0 < |types| && ti < |types| && i <= |finds|
    ensures CountOf(stacks, Sapling(sp)) ==
              CountOf(Place(finds, stacks, types, i, ti).stacks, Sapling(sp)) + multiset(Place(finds, stacks, types, i, ti).kinds)[sp]
    decreases |finds| - i
  {
    var r := Place(finds, stacks, types, i, ti);
    if i == |finds| || !HasAnySaplings(stacks, types) {
      assert r.stacks == stacks && r.kinds == [];
    } else {
      var a := TryTypes(finds[i], stacks, types, ti, 0);
      if a.NoSpot? {
        PlacePerKind(finds, stacks, types, i + 1, ti, sp);
        var rest := Place(finds, stacks, types, i + 1, ti);
        assert r.stacks == rest.stacks && r.kinds == rest.kinds;
      } else {
        var shrunk := ShrinkOne(stacks, a.slot);
        var rest := Place(finds, shrunk, types, i + 1, a.next);
        PlacePerKind(finds, shrunk, types, i + 1, a.next, sp);
        ShrinkOneCount(stacks, a.slot, a.kind, Sapling(sp));
        assert r.stacks == rest.stacks && r.kinds == [a.kind] + rest.kinds;
        assert multiset(r.kinds)[sp] == (if a.kind == sp then 1 else 0) + multiset(rest.kinds)[sp];
      }
    }
  }

  /**
    A slot only ever shrinks: it keeps its item, and a slot that holds no
    sapling of a grouped kind is left as it was.
   */
  lemma {:induction false} PlaceShrinks(finds: seq<Option<Pos>>, stacks: seq<Stack>, types: seq<Species>, i: nat, ti: nat, j: nat)
    requires 0 < |types| && ti < |types| && i <= |finds| && j < |stacks|
    ensures var r := Place(finds, stacks, types, i, ti);
            && r.stacks[j].item == stacks[j].item
            && r.stacks[j].count <= stacks[j].count
            && (!IsSaplingStack(stacks[j]) || stacks[j].item.species !in types ==> r.stacks[j] == stacks[j])
    decreases |finds| - i
  {
    var r := Place(finds, stacks, types, i, ti);
    if i == |finds| || !HasAnySaplings(stacks, types) {
      assert r.stacks == stacks;
    } else {
      var a := TryTypes(finds[i], stacks, types, ti, 0);
      if a.NoSpot? {
        PlaceShrinks(finds, stacks, types, i + 1, ti, j);
        assert r.stacks == Place(finds, stacks, types, i + 1, ti).stacks;
      } else {
        var shrunk := ShrinkOne(stacks, a.slot);
        PlaceShrinks(finds, shrunk, types, i + 1, a.next, j);
        assert r.stacks == Place(finds, shrunk, types, i + 1, a.next).stacks;
        assert IsSaplingStack(shrunk[j]) ==> IsSaplingStack(stacks[j]);
      }
    }
  }

  /** The answers of the column searches at the candidates, all in level `w`. */
  function Finds(w: World, ps: seq<Pos>): (r: seq<Option<Pos>>)
    ensures |r| == |ps|
    ensures forall m :: 0 <= m < |ps| ==> r[m] == FindValidSaplingPosition(w, ps[m])
  {
    seq(|ps|, m requires 0 <= m < |ps| => FindValidSaplingPosition(w, ps[m]))
  }

  /**
    Placing a sapling in one candidate's column changes no other candidate's
    search: with the candidates in distinct columns, the loop that searches
    the level as it changes does exactly what the loop over the searches in
    the original level does, and leaves the level with those saplings
    planted.
   */
  lemma {:induction false} PlaceFromIsPlace(w: World, stacks: seq<Stack>, types: seq<Species>, ps: seq<Pos>, finds: seq<Option<Pos>>, i: nat, ti: nat)
    requires 0 < |types| && ti < |types| && i <= |ps| && |finds| == |ps|
    requires DistinctColumns(ps, i)
    requires forall m :: i <= m < |ps| ==> finds[m] == FindValidSaplingPosition(w, ps[m])
    ensures var r, c := PlaceFrom(w, stacks, types, ps, i, ti), Place(finds, stacks, types, i, ti);
            && r.stacks == c.stacks && r.placed == c.placed && r.kinds == c.kinds && r.typeIndex == c.typeIndex
            && r.world == Plant(w, c.placed, c.kinds)
    decreases |ps| - i
  {
    var r, c := PlaceFrom(w, stacks, types, ps, i, ti), Place(finds, stacks, types, i, ti);
    if i == |ps| || !HasAnySaplings(stacks, types) {
      assert r.stacks == c.stacks && r.placed == c.placed == [] && r.kinds == c.kinds == [] && r.typeIndex == c.typeIndex;
      assert r.world == w;
    } else {
      var a := TryTypes(finds[i], stacks, types, ti, 0);
      assert a == TryTypes(FindValidSaplingPosition(w, ps[i]), stacks, types, ti, 0);
      if a.NoSpot? {
        PlaceFromIsPlace(w, stacks, types, ps, finds, i + 1, ti);
        var r', c' := PlaceFrom(w, stacks, types, ps, i + 1, ti), Place(finds, stacks, types, i + 1, ti);
        assert r.world == r'.world && r.stacks == r'.stacks && r.placed == r'.placed && r.kinds == r'.kinds && r.typeIndex == r'.typeIndex;
        assert c.stacks == c'.stacks && c.placed == c'.placed && c.kinds == c'.kinds && c.typeIndex == c'.typeIndex;
      } else {
        var w' := SetBlock(w, a.spot, SaplingBlock(a.kind));
        var shrunk := ShrinkOne(stacks, a.slot);
        assert SameColumn(a.spot, ps[i]);
        forall m | i + 1 <= m < |ps| ensures finds[m] == FindValidSaplingPosition(w', ps[m]) {
          assert !SameColumn(ps[i], ps[m]);
          FindReadsOwnColumn(w, w', ps[m]);
        }
        PlaceFromIsPlace(w', shrunk, types, ps, finds, i + 1, a.next);
        var r', c' := PlaceFrom(w', shrunk, types, ps, i + 1, a.next), Place(finds, shrunk, types, i + 1, a.next);
        assert r.world == r'.world && r.stacks == r'.stacks && r.placed == [a.spot] + r'.placed && r.kinds == [a.kind] + r'.kinds && r.typeIndex == r'.typeIndex;
        assert c.stacks == c'.stacks && c.placed == [a.spot] + c'.placed && c.kinds == [a.kind] + c'.kinds && c.typeIndex == c'.typeIndex;
        assert c.placed[1..] == c'.placed && c.kinds[1..] == c'.kinds;
      }
    }
  }

  /** A kind with some sapling left in the stacks has a stack to take from. */
  lemma {:induction false} StackForStocked(stacks: seq<Stack>, sp: Species)
    requires CountOf(stacks, Sapling(sp)) > 0
    ensures StackFor(stacks, sp) >= 0
    decreases |stacks|
  {
    if !HoldsSapling(stacks[0], sp) {
      StackForStocked(stacks[1..], sp);
    }
  }

  /** The kind index after moving on `k` times from `ti`, as the loop's `(typeIndex + 1) % size` does. */
  function Turn(ti: nat, k: nat, n: nat): (r: nat)
    requires ti < n
    ensures r < n
    decreases k
  {
    if k == 0 then ti else Turn(NextIndex(ti, n), k - 1, n)
  }

  /** Within one round, moving on `k` times wraps past the end at most once. */
  lemma {:induction false} TurnCyc(ti: nat, k: nat, n: nat)
    requires ti < n && k <= n
    ensures Turn(ti, k, n) == Cyc(ti, k, n)
    decreases k
  {
    if k > 0 {
      TurnCyc(NextIndex(ti, n), k - 1, n);
    }
  }

  /** A whole round of `n` moves comes back to the same kind. */
  lemma {:induction false} TurnPeriodic(ti: nat, k: nat, n: nat)
    requires ti < n
    ensures Turn(ti, k + n, n) == Turn(ti, k, n)
    decreases k
  {
    if k == 0 {
      TurnCyc(ti, n, n);
    } else {
      TurnPeriodic(NextIndex(ti, n), k - 1, n);
    }
  }

  /** With a spot and a stocked current kind, the round-robin places that kind at once. */
  lemma TryTypesFirst(found: Option<Pos>, stacks: seq<Stack>, types: seq<Species>, ti: nat)
    requires 0 < |types| && ti < |types| && found.Some? && StackFor(stacks, types[ti]) >= 0
    ensures TryTypes(found, stacks, types, ti, 0) == Placed(found.value, StackFor(stacks, types[ti]), types[ti], 0, NextIndex(ti, |types|))
  {
  }

  /** Taking one sapling leaves every kind at least one sapling fewer. */
  lemma ShrinkKeepsStock(stacks: seq<Stack>, types: seq<Species>, slot: nat, sp: Species, m: nat)
    requires slot < |stacks| && HoldsSapling(stacks[slot], sp)
    requires forall t :: t in types ==> CountOf(stacks, Sapling(t)) >= m + 1
    ensures forall t :: t in types ==> CountOf(ShrinkOne(stacks, slot), Sapling(t)) >= m
  {
    forall t | t in types ensures CountOf(ShrinkOne(stacks, slot), Sapling(t)) >= m {
      ShrinkOneCount(stacks, slot, sp, Sapling(t));
    }
  }

  /**
    The kinds alternate. When every column from `i` on has a spot and every
    kind has a sapling left for each of those columns, the loop fills every
    column, and the `k`-th sapling is of the kind `k` moves on from `ti`.
   */
  lemma {:induction false} PlaceAlternates(finds: seq<Option<Pos>>, stacks: seq<Stack>, types: seq<Species>, i: nat, ti: nat)
    requires 0 < |types| && ti < |types| && i <= |finds|
    requires forall m :: i <= m < |finds| ==> finds[m].Some?
    requires forall t :: t in types ==> CountOf(stacks, Sapling(t)) >= |finds| - i
    ensures var r := Place(finds, stacks, types, i, ti);
            && |r.kinds| == |finds| - i
            && forall k :: 0 <= k < |r.kinds| ==> r.kinds[k] == types[Turn(ti, k, |types|)]
    decreases |finds| - i
  {
    var r := Place(finds, stacks, types, i, ti);
    if i < |finds| {
      var n := |types|;
      StackForStocked(stacks, types[ti]);
      assert Stocked(stacks, types, ti, 0) && Cyc(ti, 0, n) == ti;
      assert HasAnySaplings(stacks, types);
      TryTypesFirst(finds[i], stacks, types, ti);
      var a := TryTypes(finds[i], stacks, types, ti, 0);
      var shrunk := ShrinkOne(stacks, a.slot);
      ShrinkKeepsStock(stacks, types, a.slot, a.kind, |finds| - (i + 1));
      PlaceAlternates(finds, shrunk, types, i + 1, a.next);
      var rest := Place(finds, shrunk, types, i + 1, a.next);
      assert r.kinds == [a.kind] + rest.kinds;
      forall k | 0 < k < |r.kinds| ensures r.kinds[k] == types[Turn(ti, k, n)] {
        assert r.kinds[k] == rest.kinds[k - 1];
      }
    } else {
      assert r.kinds == [];
    }
  }

  // ---------------------------------------------------------------- the level after the loop

  /** Planting leaves every block outside the spots as it was. */
  lemma {:induction false} PlantFrame(w: World, spots: seq<Pos>, kinds: seq<Species>, q: Pos)
    requires |spots| == |kinds| && q !in spots
    ensures Plant(w, spots, kinds)(q) == w(q)
    decreases |spots|
  {
    if |spots| > 0 {
      assert q != spots[0] && q !in spots[1..];
      PlantFrame(SetBlock(w, spots[0], SaplingBlock(kinds[0])), spots[1..], kinds[1..], q);
    }
  }

  /** With the spots pairwise different, each holds the sapling planted there. */
  lemma {:induction false} PlantHolds(w: World, spots: seq<Pos>, kinds: seq<Species>, k: nat)
    requires |spots| == |kinds| && k < |spots|
    requires forall a, b :: 0 <= a < b < |spots| ==> spots[a] != spots[b]
    ensures Plant(w, spots, kinds)(spots[k]) == SaplingBlock(kinds[k])
    decreases |spots|
  {
    var w' := SetBlock(w, spots[0], SaplingBlock(kinds[0]));
    if k == 0 {
      assert spots[0] !in spots[1..] by {
        forall j | 0 <= j < |spots| - 1 ensures spots[1..][j] != spots[0] {
          assert spots[1..][j] == spots[j + 1];
        }
      }
      PlantFrame(w', spots[1..], kinds[1..], spots[0]);
    } else {
      assert spots[k] == spots[1..][k - 1];
      PlantHolds(w', spots[1..], kinds[1..], k - 1);
    }
  }

  /**
    Every sapling the loop plants went to the spot the column search finds,
    in the original level, at one of the candidates.
   */
  lemma PlaceFromSpot(w: World, stacks: seq<Stack>, types: seq<Species>, ps: seq<Pos>, ti: nat, k: nat)
    requires 0 < |types| && ti < |types| && DistinctColumns(ps, 0)
    requires k < |PlaceFrom(w, stacks, types, ps, 0, ti).placed|
    ensures exists m :: 0 <= m < |ps| && FindValidSaplingPosition(w, ps[m]) == Some(PlaceFrom(w, stacks, types, ps, 0, ti).placed[k])
  {
    var finds := Finds(w, ps);
    PlaceFromIsPlace(w, stacks, types, ps, finds, 0, ti);
    PlaceSpot(finds, stacks, types, 0, ti, k);
    var m := Place(finds, stacks, types, 0, ti).from[k];
    assert FindValidSaplingPosition(w, ps[m]) == Some(PlaceFrom(w, stacks, types, ps, 0, ti).placed[k]);
  }

  /** No two saplings the loop plants share a column. */
  lemma PlaceFromDistinct(w: World, stacks: seq<Stack>, types: seq<Species>, ps: seq<Pos>, ti: nat, k: nat, l: nat)
    requires 0 < |types| && ti < |types| && DistinctColumns(ps, 0)
    requires k < l < |PlaceFrom(w, stacks, types, ps, 0, ti).placed|
    ensures !SameColumn(PlaceFrom(w, stacks, types, ps, 0, ti).placed[k], PlaceFrom(w, stacks, types, ps, 0, ti).placed[l])
  {
    var finds := Finds(w, ps);
    PlaceFromIsPlace(w, stacks, types, ps, finds, 0, ti);
    PlaceSpot(finds, stacks, types, 0, ti, k);
    PlaceSpot(finds, stacks, types, 0, ti, l);
    PlaceFromIncreasing(finds, stacks, types, 0, ti, k, l);
    var c := Place(finds, stacks, types, 0, ti);
    assert !SameColumn(ps[c.from[k]], ps[c.from[l]]);
  }

  /** After the loop each planted spot holds its sapling, and every other block is as it was. */
  lemma PlaceFromLevel(w: World, stacks: seq<Stack>, types: seq<Species>, ps: seq<Pos>, ti: nat)
    requires 0 < |types| && ti < |types| && DistinctColumns(ps, 0)
    ensures var r := PlaceFrom(w, stacks, types, ps, 0, ti);
            && (forall q :: q !in r.placed ==> r.world(q) == w(q))
            && (forall k :: 0 <= k < |r.placed| ==> r.world(r.placed[k]) == SaplingBlock(r.kinds[k]))
  {
    var r := PlaceFrom(w, stacks, types, ps, 0, ti);
    var finds := Finds(w, ps);
    PlaceFromIsPlace(w, stacks, types, ps, finds, 0, ti);
    forall q | q !in r.placed ensures r.world(q) == w(q) {
      PlantFrame(w, r.placed, r.kinds, q);
    }
    forall a, b | 0 <= a < b < |r.placed| ensures r.placed[a] != r.placed[b] {
      PlaceFromDistinct(w, stacks, types, ps, ti, a, b);
    }
    forall k | 0 <= k < |r.placed| ensures r.world(r.placed[k]) == SaplingBlock(r.kinds[k]) {
      PlantHolds(w, r.placed, r.kinds, k);
    }
  }
}
