/**
  `scatterSaplingsAlternating` as a whole: the sapling stacks grouped by kind,
  the placement loop over the shuffled candidates around the centre, and the
  bone meal then given to the saplings placed, up to three each.

  The shuffle is the permutation `perm`; whether one application of bone
  meal makes a sapling grow is the oracle `grows`, consulted once per
  application in order. A grown sapling is modelled as the log of its
  species at the sapling's spot; the shape of the tree is not modelled.
 */
module Alternating {
  import opened Base
  import opened Placement
  import opened Scatter

  /** Bone meal applications each placed sapling may receive. */
  const BONEMEAL_PER_SAPLING: nat := 3

  function Sum(s: seq<nat>): nat
  {
    if |s| == 0 then 0 else s[0] + Sum(s[1..])
  }

  // ---------------------------------------------------------------- bone meal at one sapling

  /** The block at the spot, the bone meal stack, and the applications made. */
  datatype Meal = Meal(block: Block, stack: Stack, used: nat)

  /**
    The inner loop at one sapling with `left` applications to go: while the
    stack has items and the spot still holds a sapling, one application is
    made, taking one item; draw `k` of the oracle says whether it grew.
   */
  function FeedSpot(b: Block, bm: Stack, left: nat, grows: set<nat>, k: nat): (r: Meal)
    ensures r.used <= left && r.used <= bm.count
    ensures r.stack == Stack(bm.item, bm.count - r.used)
    ensures r.block == b || (b.SaplingBlock? && r.block == Grown(b))
    ensures r.used > 0 ==> b.SaplingBlock?
    ensures r.used < left ==> r.stack.count == 0 || !r.block.SaplingBlock?
    decreases left
  {
    if left == 0 || bm.count == 0 || !b.SaplingBlock? then Meal(b, bm, 0)
    else
      var rest := FeedSpot(AfterBonemeal(b, k in grows), Stack(bm.item, bm.count - 1), left - 1, grows, k + 1);
      Meal(rest.block, rest.stack, rest.used + 1)
  }

  /** A sapling that does not grow takes every application the stack can pay for. */
  lemma {:induction false} FeedSpotNoGrowth(b: Block, bm: Stack, left: nat, grows: set<nat>, k: nat)
    requires b.SaplingBlock?
    requires forall j :: k <= j < k + left ==> j !in grows
    ensures FeedSpot(b, bm, left, grows, k).used == Min(left, bm.count)
    ensures FeedSpot(b, bm, left, grows, k).block == b
    decreases left
  {
    if left > 0 && bm.count > 0 {
      FeedSpotNoGrowth(b, Stack(bm.item, bm.count - 1), left - 1, grows, k + 1);
    }
  }

  /** A sapling that grows at the first application takes that one only. */
  lemma FeedSpotGrows(b: Block, bm: Stack, left: nat, grows: set<nat>, k: nat)
    requires b.SaplingBlock? && 0 < left && 0 < bm.count && k in grows
    ensures FeedSpot(b, bm, left, grows, k) == Meal(Grown(b), Stack(bm.item, bm.count - 1), 1)
  {
    assert FeedSpot(Grown(b), Stack(bm.item, bm.count - 1), left - 1, grows, k + 1).used == 0;
  }

  // ---------------------------------------------------------------- bone meal over the placed saplings

  /** The level, the bone meal stack, and the applications each sapling received, in order. */
  datatype Meals = Meals(world: World, stack: Stack, uses: seq<nat>)

  /**
    The outer loop over the placed saplings: it stops once the stack is
    empty, and otherwise runs the inner loop at the next sapling in the
    level as it stands.
   */
  function FeedAll(w: World, spots: seq<Pos>, bm: Stack, per: nat, grows: set<nat>, k: nat): (r: Meals)
    ensures |r.uses| <= |spots|
    decreases |spots|
  {
    if |spots| == 0 || IsEmpty(bm) then Meals(w, bm, [])
    else
      var f := FeedSpot(w(spots[0]), bm, per, grows, k);
      var rest := FeedAll(SetBlock(w, spots[0], f.block), spots[1..], f.stack, per, grows, k + f.used);
      Meals(rest.world, rest.stack, [f.used] + rest.uses)
  }

  /** The blocks, the bone meal stack, and the applications, of the same loop run over the blocks at the spots. */
  datatype Feeding = Feeding(blocks: seq<Block>, stack: Stack, uses: seq<nat>)

  /**
    The outer loop over the blocks `bs` found at the placed spots, without
    the level: `blocks[j]` is what the `j`-th spot holds afterwards.
   */
  function FeedBlocks(bs: seq<Block>, bm: Stack, per: nat, grows: set<nat>, k: nat): (r: Feeding)
    ensures |r.blocks| == |r.uses| <= |bs|
    decreases |bs|
  {
    if |bs| == 0 || IsEmpty(bm) then Feeding([], bm, [])
    else
      var f := FeedSpot(bs[0], bm, per, grows, k);
      var rest := FeedBlocks(bs[1..], f.stack, per, grows, k + f.used);
      Feeding([f.block] + rest.blocks, rest.stack, [f.used] + rest.uses)
  }

  /** One item of the bone meal stack per application, and no more. */
  lemma {:induction false} FeedBlocksAccounting(bs: seq<Block>, bm: Stack, per: nat, grows: set<nat>, k: nat)
    ensures var r := FeedBlocks(bs, bm, per, grows, k);
            r.stack.item == bm.item && r.stack.count + Sum(r.uses) == bm.count
    decreases |bs|
  {
    var r := FeedBlocks(bs, bm, per, grows, k);
    if |bs| > 0 && !IsEmpty(bm) {
      var f := FeedSpot(bs[0], bm, per, grows, k);
      var rest := FeedBlocks(bs[1..], f.stack, per, grows, k + f.used);
      assert r == Feeding([f.block] + rest.blocks, rest.stack, [f.used] + rest.uses);
      FeedBlocksAccounting(bs[1..], f.stack, per, grows, k + f.used);
      assert Sum(r.uses) == f.used + Sum(rest.uses) by {
        assert r.uses[1..] == rest.uses;
      }
    }
  }

  /** The loop leaves spots unvisited only once the bone meal stack is empty. */
  lemma {:induction false} FeedBlocksStops(bs: seq<Block>, bm: Stack, per: nat, grows: set<nat>, k: nat)
    ensures var r := FeedBlocks(bs, bm, per, grows, k);
            |r.uses| < |bs| ==> IsEmpty(r.stack)
    decreases |bs|
  {
    if |bs| > 0 && !IsEmpty(bm) {
      var f := FeedSpot(bs[0], bm, per, grows, k);
      var rest := FeedBlocks(bs[1..], f.stack, per, grows, k + f.used);
      assert FeedBlocks(bs, bm, per, grows, k) == Feeding([f.block] + rest.blocks, rest.stack, [f.used] + rest.uses);
      FeedBlocksStops(bs[1..], f.stack, per, grows, k + f.used);
    }
  }

  /**
    At the `j`-th spot the loop reached, the block is left as it was or
    grown, and at most three applications are made, only to a sapling.
   */
  lemma {:induction false} FeedBlocksAt(bs: seq<Block>, bm: Stack, per: nat, grows: set<nat>, k: nat, j: nat)
    requires j < |FeedBlocks(bs, bm, per, grows, k).uses|
    ensures var r := FeedBlocks(bs, bm, per, grows, k);
            && (r.blocks[j] == bs[j] || (bs[j].SaplingBlock? && r.blocks[j] == Grown(bs[j])))
            && r.uses[j] <= per
            && (r.uses[j] > 0 ==> bs[j].SaplingBlock?)
    decreases |bs|
  {
    var r := FeedBlocks(bs, bm, per, grows, k);
    var f := FeedSpot(bs[0], bm, per, grows, k);
    var rest := FeedBlocks(bs[1..], f.stack, per, grows, k + f.used);
    assert r == Feeding([f.block] + rest.blocks, rest.stack, [f.used] + rest.uses);
    if j > 0 {
      FeedBlocksAt(bs[1..], f.stack, per, grows, k + f.used, j - 1);
      assert r.blocks[j] == rest.blocks[j - 1] && r.uses[j] == rest.uses[j - 1] && bs[j] == bs[1..][j - 1];
    }
  }

  /**
    A sapling the loop reached that received fewer than three applications
    has grown, or the bone meal ran out there.
   */
  lemma {:induction false} FeedBlocksShort(bs: seq<Block>, bm: Stack, per: nat, grows: set<nat>, k: nat, j: nat)
    requires j < |FeedBlocks(bs, bm, per, grows, k).uses|
    ensures var r := FeedBlocks(bs, bm, per, grows, k);
            r.uses[j] < per ==> !r.blocks[j].SaplingBlock? || r.stack.count == 0
    decreases |bs|
  {
    var r := FeedBlocks(bs, bm, per, grows, k);
    var f := FeedSpot(bs[0], bm, per, grows, k);
    var rest := FeedBlocks(bs[1..], f.stack, per, grows, k + f.used);
    assert r == Feeding([f.block] + rest.blocks, rest.stack, [f.used] + rest.uses);
    if j == 0 {
      if f.stack.count == 0 {
        assert rest == Feeding([], f.stack, []);
      }
    } else {
      FeedBlocksShort(bs[1..], f.stack, per, grows, k + f.used, j - 1);
      assert r.blocks[j] == rest.blocks[j - 1] && r.uses[j] == rest.uses[j - 1];
    }
  }

  /**
    With bone meal for three applications at every spot and no growth, the
    loop reaches every spot and every sapling receives three.
   */
  lemma {:induction false} FeedBlocksNoGrowth(bs: seq<Block>, bm: Stack, per: nat, grows: set<nat>, k: nat)
    requires 0 < per && bm.item != Air && bm.count >= per * |bs|
    requires forall m :: 0 <= m < |bs| ==> bs[m].SaplingBlock?
    requires forall j :: k <= j ==> j !in grows
    ensures |FeedBlocks(bs, bm, per, grows, k).uses| == |bs|
    ensures forall m :: 0 <= m < |bs| ==> FeedBlocks(bs, bm, per, grows, k).uses[m] == per
    decreases |bs|
  {
    if |bs| > 0 {
      var f := FeedSpot(bs[0], bm, per, grows, k);
      assert per * |bs| == per * (|bs| - 1) + per;
      FeedSpotNoGrowth(bs[0], bm, per, grows, k);
      assert forall m :: 0 <= m < |bs[1..]| ==> bs[1..][m] == bs[m + 1];
      FeedBlocksNoGrowth(bs[1..], f.stack, per, grows, k + f.used);
      var r, rest := FeedBlocks(bs, bm, per, grows, k), FeedBlocks(bs[1..], f.stack, per, grows, k + f.used);
      assert r.uses == [f.used] + rest.uses;
      forall m | 0 <= m < |bs| ensures r.uses[m] == per {
        if m > 0 { assert r.uses[m] == rest.uses[m - 1] && bs[m] == bs[1..][m - 1]; }
      }
    }
  }

  /** Spots pairwise different. */
  predicate Distinct(spots: seq<Pos>)
  {
    forall a, b :: 0 <= a < b < |spots| ==> spots[a] != spots[b]
  }

  /** The blocks at the spots. */
  function BlocksAt(w: World, spots: seq<Pos>): (r: seq<Block>)
    ensures |r| == |spots|
    ensures forall m :: 0 <= m < |spots| ==> r[m] == w(spots[m])
  {
    seq(|spots|, m requires 0 <= m < |spots| => w(spots[m]))
  }

  /** The level after setting `blocks[m]` at `spots[m]`, in order. */
  function Paint(w: World, spots: seq<Pos>, blocks: seq<Block>): World
    requires |spots| == |blocks|
    decreases |spots|
  {
    if |spots| == 0 then w else Paint(SetBlock(w, spots[0], blocks[0]), spots[1..], blocks[1..])
  }

  /** Painting leaves every block outside the spots as it was. */
  lemma {:induction false} PaintFrame(w: World, spots: seq<Pos>, blocks: seq<Block>, q: Pos)
    requires |spots| == |blocks| && q !in spots
    ensures Paint(w, spots, blocks)(q) == w(q)
    decreases |spots|
  {
    if |spots| > 0 {
      assert q != spots[0] && q !in spots[1..];
      PaintFrame(SetBlock(w, spots[0], blocks[0]), spots[1..], blocks[1..], q);
    }
  }

  lemma TailNotIn(spots: seq<Pos>)
    requires Distinct(spots) && |spots| > 0
    ensures spots[0] !in spots[1..] && Distinct(spots[1..])
  {
    forall m | 0 <= m < |spots| - 1 ensures spots[1..][m] != spots[0] {
      assert spots[1..][m] == spots[m + 1];
    }
  }

  /** With the spots pairwise different, each holds the block painted there. */
  lemma {:induction false} PaintHolds(w: World, spots: seq<Pos>, blocks: seq<Block>, m: nat)
    requires |spots| == |blocks| && m < |spots| && Distinct(spots)
    ensures Paint(w, spots, blocks)(spots[m]) == blocks[m]
    decreases |spots|
  {
    var w' := SetBlock(w, spots[0], blocks[0]);
    TailNotIn(spots);
    if m == 0 {
      PaintFrame(w', spots[1..], blocks[1..], spots[0]);
    } else {
      assert spots[m] == spots[1..][m - 1];
      PaintHolds(w', spots[1..], blocks[1..], m - 1);
    }
  }

  /**
    Feeding one sapling changes no other spot, so with the spots pairwise
    different the loop that reads the level as it changes does what the loop
    over the blocks of the original level does, and leaves the level with
    the blocks it computes painted at the spots it reached.
   */
  lemma {:induction false} FeedAllIsFeedBlocks(w: World, spots: seq<Pos>, bm: Stack, per: nat, grows: set<nat>, k: nat)
    requires Distinct(spots)
    ensures var r, c := FeedAll(w, spots, bm, per, grows, k), FeedBlocks(BlocksAt(w, spots), bm, per, grows, k);
            && r.stack == c.stack && r.uses == c.uses
            && r.world == Paint(w, spots[..|c.uses|], c.blocks)
    decreases |spots|
  {
    var bs := BlocksAt(w, spots);
    var r, c := FeedAll(w, spots, bm, per, grows, k), FeedBlocks(bs, bm, per, grows, k);
    if |spots| == 0 || IsEmpty(bm) {
      assert r == Meals(w, bm, []) && c == Feeding([], bm, []);
      assert spots[..0] == [];
    } else {
      assert |bs| > 0 && bs[0] == w(spots[0]);
      var f := FeedSpot(bs[0], bm, per, grows, k);
      var w1 := SetBlock(w, spots[0], f.block);
      TailNotIn(spots);
      assert BlocksAt(w1, spots[1..]) == bs[1..];
      FeedAllIsFeedBlocks(w1, spots[1..], f.stack, per, grows, k + f.used);
      var r', c' := FeedAll(w1, spots[1..], f.stack, per, grows, k + f.used), FeedBlocks(bs[1..], f.stack, per, grows, k + f.used);
      assert r == Meals(r'.world, r'.stack, [f.used] + r'.uses);
      assert c == Feeding([f.block] + c'.blocks, c'.stack, [f.used] + c'.uses);
      var S, B := spots[..|c.uses|], c.blocks;
      assert S[0] == spots[0] && B[0] == f.block;
      assert S[1..] == spots[1..][..|c'.uses|] && B[1..] == c'.blocks;
      assert Paint(w, S, B) == Paint(w1, S[1..], B[1..]);
    }
  }

  /**
    Bone meal over saplings of the given kinds planted at pairwise different
    spots: no other block changes, each sapling reached is left as it was
    or grown after at most three applications, stopping short of three only
    when it grew or the stack ran out, and the saplings not reached are
    left as they were.
   */
  lemma FeedLevel(w: World, spots: seq<Pos>, kinds: seq<Species>, bm: Stack, per: nat, grows: set<nat>)
    requires |kinds| == |spots| && Distinct(spots)
    requires forall k :: 0 <= k < |spots| ==> w(spots[k]) == SaplingBlock(kinds[k])
    ensures var m := FeedAll(w, spots, bm, per, grows, 0);
            && (forall q :: q !in spots ==> m.world(q) == w(q))
            && (forall k :: |m.uses| <= k < |spots| ==> m.world(spots[k]) == SaplingBlock(kinds[k]))
            && (forall k :: 0 <= k < |m.uses| ==>
                  && (m.world(spots[k]) == SaplingBlock(kinds[k]) || m.world(spots[k]) == Grown(SaplingBlock(kinds[k])))
                  && m.uses[k] <= per
                  && (m.uses[k] < per ==> m.world(spots[k]) == Grown(SaplingBlock(kinds[k])) || m.stack.count == 0))
  {
    var m := FeedAll(w, spots, bm, per, grows, 0);
    var bs := BlocksAt(w, spots);
    var c := FeedBlocks(bs, bm, per, grows, 0);
    FeedAllIsFeedBlocks(w, spots, bm, per, grows, 0);
    var n := |c.uses|;
    var S := spots[..n];
    assert m.world == Paint(w, S, c.blocks);
    forall q | q !in spots ensures m.world(q) == w(q) {
      assert q !in S;
      PaintFrame(w, S, c.blocks, q);
    }
    forall k | n <= k < |spots| ensures m.world(spots[k]) == SaplingBlock(kinds[k]) {
      assert spots[k] !in S by {
        forall j | 0 <= j < n ensures S[j] != spots[k] { assert S[j] == spots[j]; }
      }
      PaintFrame(w, S, c.blocks, spots[k]);
    }
    forall k | 0 <= k < n
      ensures && (m.world(spots[k]) == SaplingBlock(kinds[k]) || m.world(spots[k]) == Grown(SaplingBlock(kinds[k])))
              && m.uses[k] <= per
              && (m.uses[k] < per ==> m.world(spots[k]) == Grown(SaplingBlock(kinds[k])) || m.stack.count == 0)
    {
      assert Distinct(S) && S[k] == spots[k];
      PaintHolds(w, S, c.blocks, k);
      FeedBlocksAt(bs, bm, per, grows, 0, k);
      FeedBlocksShort(bs, bm, per, grows, 0, k);
    }
  }

  // ---------------------------------------------------------------- the whole call

  /** The level, the sapling stacks, the bone meal stack, the saplings placed with their kinds, and the bone meal each received. */
  datatype Outcome = Outcome(world: World, stacks: seq<Stack>, bonemeal: Option<Stack>,
                             placed: seq<Pos>, kinds: seq<Species>, uses: seq<nat>)

  /** The placement phase: the kinds grouped, the candidates shuffled, and the loop over them from the first kind. */
  function Planting(w: World, center: Pos, radius: int, stacks: seq<Stack>, perm: seq<nat>): Scattered
    requires IsPermutation(perm, |RingOffsets(radius)|) && 0 < |Types(stacks)|
  {
    PlaceFrom(w, stacks, Types(stacks), GenerateScatterPositions(center, radius, perm), 0, 0)
  }

  /** The bone meal phase, run over the saplings the placement phase planted, when the bone meal stack is present and not empty. */
  function Bonemealing(p: Scattered, bonemeal: Option<Stack>, grows: set<nat>): (r: Outcome)
    ensures r.stacks == p.stacks && r.placed == p.placed && r.kinds == p.kinds && |r.uses| <= |p.placed|
    ensures bonemeal.None? <==> r.bonemeal.None?
    ensures bonemeal.None? || IsEmpty(bonemeal.value) ==> r == Outcome(p.world, p.stacks, bonemeal, p.placed, p.kinds, [])
  {
    if bonemeal.None? || IsEmpty(bonemeal.value) then Outcome(p.world, p.stacks, bonemeal, p.placed, p.kinds, [])
    else
      var m := FeedAll(p.world, p.placed, bonemeal.value, BONEMEAL_PER_SAPLING, grows, 0);
      Outcome(m.world, p.stacks, Some(m.stack), p.placed, p.kinds, m.uses)
  }

  /**
    `scatterSaplingsAlternating(level, centerPos, radius, saplingStacks,
    bonemealStack)`; `None` stands for a null bone meal stack, and a level
    that is not client-side is taken to be a server level.
   */
  function ScatterSaplingsAlternating(w: World, clientSide: bool, center: Pos, radius: int, stacks: seq<Stack>,
                                     bonemeal: Option<Stack>, perm: seq<nat>, grows: set<nat>): (r: Outcome)
    requires IsPermutation(perm, |RingOffsets(radius)|)
    ensures clientSide || |Types(stacks)| == 0 ==> r == Outcome(w, stacks, bonemeal, [], [], [])
    ensures |r.stacks| == |stacks| && |r.kinds| == |r.placed| && |r.uses| <= |r.placed|
    ensures bonemeal.None? <==> r.bonemeal.None?
    ensures bonemeal.None? || IsEmpty(bonemeal.value) ==> r.bonemeal == bonemeal && r.uses == []
  {
    if clientSide || |stacks| == 0 || |Types(stacks)| == 0 then Outcome(w, stacks, bonemeal, [], [], [])
    else Bonemealing(Planting(w, center, radius, stacks, perm), bonemeal, grows)
  }

  /** Saplings of their kinds stand at the spots, which are pairwise different. */
  predicate Planted(p: Scattered)
  {
    && |p.kinds| == |p.placed| && Distinct(p.placed)
    && forall k :: 0 <= k < |p.placed| ==> p.world(p.placed[k]) == SaplingBlock(p.kinds[k])
  }

  /**
    The placement phase does what the column searches on the original level
    decide: its stacks, spots and kinds are those of the loop over the search
    results, and the level is the original with those saplings planted.
   */
  lemma PlantingIsPlace(w: World, center: Pos, radius: int, stacks: seq<Stack>, perm: seq<nat>)
    requires IsPermutation(perm, |RingOffsets(radius)|) && 0 < |Types(stacks)|
    ensures var p, ps := Planting(w, center, radius, stacks, perm), GenerateScatterPositions(center, radius, perm);
            var c := Place(Finds(w, ps), stacks, Types(stacks), 0, 0);
            p.stacks == c.stacks && p.placed == c.placed && p.kinds == c.kinds && p.world == Plant(w, c.placed, c.kinds)
  {
    var ps := GenerateScatterPositions(center, radius, perm);
    ScatterDistinctColumns(center, radius, perm);
    PlaceFromIsPlace(w, stacks, Types(stacks), ps, Finds(w, ps), 0, 0);
  }

  /**
    The placement phase plants at most one sapling per candidate, no two in
    one column, and changes no block but the spots it plants.
   */
  lemma PlantingPlants(w: World, center: Pos, radius: int, stacks: seq<Stack>, perm: seq<nat>)
    requires IsPermutation(perm, |RingOffsets(radius)|) && 0 < |Types(stacks)|
    ensures var p := Planting(w, center, radius, stacks, perm);
            && Planted(p)
            && |p.placed| <= |RingOffsets(radius)|
            && (forall k, l :: 0 <= k < l < |p.placed| ==> !SameColumn(p.placed[k], p.placed[l]))
            && (forall q :: q !in p.placed ==> p.world(q) == w(q))
  {
    var p := Planting(w, center, radius, stacks, perm);
    var ps := GenerateScatterPositions(center, radius, perm);
    ScatterDistinctColumns(center, radius, perm);
    PlantingIsPlace(w, center, radius, stacks, perm);
    forall k, l | 0 <= k < l < |p.placed| ensures !SameColumn(p.placed[k], p.placed[l]) {
      PlaceFromDistinct(w, stacks, Types(stacks), ps, 0, k, l);
    }
    PlaceFromLevel(w, stacks, Types(stacks), ps, 0);
  }

  /** Every sapling planted stands on valid ground within five blocks of the centre's height, in the column of a candidate. */
  lemma PlantingSpots(w: World, center: Pos, radius: int, stacks: seq<Stack>, perm: seq<nat>)
    requires IsPermutation(perm, |RingOffsets(radius)|) && 0 < |Types(stacks)|
    ensures var p := Planting(w, center, radius, stacks, perm);
            forall k :: 0 <= k < |p.placed| ==>
              && IsValidSaplingSpot(w, p.placed[k])
              && center.y - 5 <= p.placed[k].y <= center.y + 5
              && IsCandidate(center, radius, Pos(p.placed[k].x, center.y, p.placed[k].z))
  {
    var p := Planting(w, center, radius, stacks, perm);
    var ps := GenerateScatterPositions(center, radius, perm);
    ScatterDistinctColumns(center, radius, perm);
    forall k | 0 <= k < |p.placed|
      ensures && IsValidSaplingSpot(w, p.placed[k])
              && center.y - 5 <= p.placed[k].y <= center.y + 5
              && IsCandidate(center, radius, Pos(p.placed[k].x, center.y, p.placed[k].z))
    {
      PlaceFromSpot(w, stacks, Types(stacks), ps, 0, k);
      var m :| 0 <= m < |ps| && FindValidSaplingPosition(w, ps[m]) == Some(p.placed[k]);
      ScatterInRing(center, radius, perm, m);
      assert Pos(p.placed[k].x, center.y, p.placed[k].z) == ps[m];
    }
  }

  /**
    The bone meal phase changes no block but the planted spots; a sapling
    it reached is left as it was or grown, and one it did not reach stays.
   */
  lemma BonemealingLevel(p: Scattered, bonemeal: Option<Stack>, grows: set<nat>)
    requires Planted(p)
    ensures var r := Bonemealing(p, bonemeal, grows);
            && (forall q :: q !in p.placed ==> r.world(q) == p.world(q))
            && (forall k :: |r.uses| <= k < |p.placed| ==> r.world(p.placed[k]) == SaplingBlock(p.kinds[k]))
            && (forall k :: 0 <= k < |r.uses| ==>
                  r.world(p.placed[k]) == SaplingBlock(p.kinds[k]) || r.world(p.placed[k]) == Grown(SaplingBlock(p.kinds[k])))
  {
    if bonemeal.Some? && !IsEmpty(bonemeal.value) {
      FeedLevel(p.world, p.placed, p.kinds, bonemeal.value, BONEMEAL_PER_SAPLING, grows);
    }
  }

  /**
    The bone meal phase spends one item per application: the stack keeps
    its item and loses exactly the applications made, each sapling receives
    at most three, one that received fewer has grown or the stack ran out
    there, and saplings are left unfed only once the stack is empty.
   */
  lemma BonemealingSpends(p: Scattered, bonemeal: Option<Stack>, grows: set<nat>)
    requires Planted(p)
    ensures var r := Bonemealing(p, bonemeal, grows);
            bonemeal.Some? ==>
              && r.bonemeal.value.item == bonemeal.value.item
              && r.bonemeal.value.count + Sum(r.uses) == bonemeal.value.count
              && (forall k :: 0 <= k < |r.uses| ==> r.uses[k] <= BONEMEAL_PER_SAPLING)
              && (forall k :: 0 <= k < |r.uses| && r.uses[k] < BONEMEAL_PER_SAPLING ==>
                    r.world(p.placed[k]) == Grown(SaplingBlock(p.kinds[k])) || r.bonemeal.value.count == 0)
              && (|r.uses| < |p.placed| ==> IsEmpty(r.bonemeal.value))
  {
    if bonemeal.Some? && !IsEmpty(bonemeal.value) {
      var bs := BlocksAt(p.world, p.placed);
      FeedAllIsFeedBlocks(p.world, p.placed, bonemeal.value, BONEMEAL_PER_SAPLING, grows, 0);
      FeedBlocksAccounting(bs, bonemeal.value, BONEMEAL_PER_SAPLING, grows, 0);
      FeedBlocksStops(bs, bonemeal.value, BONEMEAL_PER_SAPLING, grows, 0);
      FeedLevel(p.world, p.placed, p.kinds, bonemeal.value, BONEMEAL_PER_SAPLING, grows);
    }
  }

  /** Without growth, and with bone meal for three applications per sapling, every sapling receives all three. */
  lemma BonemealingFull(p: Scattered, bonemeal: Option<Stack>, grows: set<nat>)
    requires Planted(p) && grows == {}
    requires bonemeal.Some? && bonemeal.value.item != Air
    requires bonemeal.value.count >= BONEMEAL_PER_SAPLING * |p.placed|
    ensures var r := Bonemealing(p, bonemeal, grows);
            && |r.uses| == |p.placed|
            && forall k :: 0 <= k < |r.uses| ==> r.uses[k] == BONEMEAL_PER_SAPLING
  {
    if !IsEmpty(bonemeal.value) {
      var bs := BlocksAt(p.world, p.placed);
      FeedAllIsFeedBlocks(p.world, p.placed, bonemeal.value, BONEMEAL_PER_SAPLING, grows, 0);
      FeedBlocksNoGrowth(bs, bonemeal.value, BONEMEAL_PER_SAPLING, grows, 0);
    }
  }

  // ---------------------------------------------------------------- properties of the whole call

  /**
    Every sapling placed stands on valid ground within five blocks of the
    centre's height, in the column of a candidate, and no two share a column.
   */
  lemma ScatterSpots(w: World, clientSide: bool, center: Pos, radius: int, stacks: seq<Stack>,
                     bonemeal: Option<Stack>, perm: seq<nat>, grows: set<nat>)
    requires IsPermutation(perm, |RingOffsets(radius)|)
    ensures var r := ScatterSaplingsAlternating(w, clientSide, center, radius, stacks, bonemeal, perm, grows);
            && (forall k :: 0 <= k < |r.placed| ==>
                  && IsValidSaplingSpot(w, r.placed[k])
                  && center.y - 5 <= r.placed[k].y <= center.y + 5
                  && IsCandidate(center, radius, Pos(r.placed[k].x, center.y, r.placed[k].z)))
            && (forall k, l :: 0 <= k < l < |r.placed| ==> !SameColumn(r.placed[k], r.placed[l]))
  {
    if !clientSide && |stacks| > 0 && |Types(stacks)| > 0 {
      PlantingSpots(w, center, radius, stacks, perm);
      PlantingPlants(w, center, radius, stacks, perm);
    }
  }

  /**
    No block changes but the spots where saplings were placed; each holds
    its sapling or, where bone meal made it grow, the tree's log, and a
    sapling the bone meal did not reach stays a sapling.
   */
  lemma ScatterLevel(w: World, clientSide: bool, center: Pos, radius: int, stacks: seq<Stack>,
                     bonemeal: Option<Stack>, perm: seq<nat>, grows: set<nat>)
    requires IsPermutation(perm, |RingOffsets(radius)|)
    ensures var r := ScatterSaplingsAlternating(w, clientSide, center, radius, stacks, bonemeal, perm, grows);
            && (forall q :: q !in r.placed ==> r.world(q) == w(q))
            && (forall k :: |r.uses| <= k < |r.placed| ==> r.world(r.placed[k]) == SaplingBlock(r.kinds[k]))
            && (forall k :: 0 <= k < |r.uses| ==>
                  r.world(r.placed[k]) == SaplingBlock(r.kinds[k]) || r.world(r.placed[k]) == Grown(SaplingBlock(r.kinds[k])))
  {
    if !clientSide && |stacks| > 0 && |Types(stacks)| > 0 {
      var p := Planting(w, center, radius, stacks, perm);
      PlantingPlants(w, center, radius, stacks, perm);
      BonemealingLevel(p, bonemeal, grows);
    }
  }

  /**
    Bone meal is spent one item per application: the stack keeps its item
    and loses exactly the applications made, each sapling receives at most
    three, one that received fewer has grown or the stack ran out there,
    and saplings are left unfed only once the stack is empty.
   */
  lemma ScatterBonemeal(w: World, clientSide: bool, center: Pos, radius: int, stacks: seq<Stack>,
                        bonemeal: Option<Stack>, perm: seq<nat>, grows: set<nat>)
    requires IsPermutation(perm, |RingOffsets(radius)|)
    ensures var r := ScatterSaplingsAlternating(w, clientSide, center, radius, stacks, bonemeal, perm, grows);
            bonemeal.Some? ==>
              && r.bonemeal.value.item == bonemeal.value.item
              && r.bonemeal.value.count + Sum(r.uses) == bonemeal.value.count
              && (forall k :: 0 <= k < |r.uses| ==> r.uses[k] <= BONEMEAL_PER_SAPLING)
              && (forall k :: 0 <= k < |r.uses| && r.uses[k] < BONEMEAL_PER_SAPLING ==>
                    r.world(r.placed[k]) == Grown(SaplingBlock(r.kinds[k])) || r.bonemeal.value.count == 0)
              && (|r.uses| < |r.placed| ==> IsEmpty(r.bonemeal.value))
  {
    if !clientSide && |stacks| > 0 && |Types(stacks)| > 0 {
      var p := Planting(w, center, radius, stacks, perm);
      PlantingPlants(w, center, radius, stacks, perm);
      BonemealingSpends(p, bonemeal, grows);
    }
  }

  /**
    Without growth, and with bone meal for three applications per
    candidate, every sapling placed receives all three.
   */
  lemma ScatterFullBonemeal(w: World, clientSide: bool, center: Pos, radius: int, stacks: seq<Stack>,
                            bonemeal: Option<Stack>, perm: seq<nat>, grows: set<nat>)
    requires IsPermutation(perm, |RingOffsets(radius)|)
    requires grows == {} && bonemeal.Some? && bonemeal.value.item != Air
    requires bonemeal.value.count >= BONEMEAL_PER_SAPLING * |RingOffsets(radius)|
    ensures var r := ScatterSaplingsAlternating(w, clientSide, center, radius, stacks, bonemeal, perm, grows);
            && |r.uses| == |r.placed|
            && forall k :: 0 <= k < |r.uses| ==> r.uses[k] == BONEMEAL_PER_SAPLING
  {
    if !clientSide && |stacks| > 0 && |Types(stacks)| > 0 {
      var p := Planting(w, center, radius, stacks, perm);
      PlantingPlants(w, center, radius, stacks, perm);
      BonemealingFull(p, bonemeal, grows);
    }
  }

  /**
    Saplings are conserved: each one placed was taken from the stacks, one
    per spot and of the kind placed there, and every kind placed was among
    the kinds the stacks held.
   */
  lemma ScatterSaplingCounts(w: World, clientSide: bool, center: Pos, radius: int, stacks: seq<Stack>,
                             bonemeal: Option<Stack>, perm: seq<nat>, grows: set<nat>)
    requires IsPermutation(perm, |RingOffsets(radius)|)
    ensures var r := ScatterSaplingsAlternating(w, clientSide, center, radius, stacks, bonemeal, perm, grows);
            && TotalCount(stacks) == TotalCount(r.stacks) + |r.placed|
            && (forall sp :: CountOf(stacks, Sapling(sp)) == CountOf(r.stacks, Sapling(sp)) + multiset(r.kinds)[sp])
            && (forall k :: 0 <= k < |r.kinds| ==> r.kinds[k] in Types(stacks))
  {
    if !clientSide && |stacks| > 0 && |Types(stacks)| > 0 {
      var types := Types(stacks);
      var finds := Finds(w, GenerateScatterPositions(center, radius, perm));
      var c := Place(finds, stacks, types, 0, 0);
      PlantingIsPlace(w, center, radius, stacks, perm);
      PlaceTotal(finds, stacks, types, 0, 0);
      forall sp ensures CountOf(stacks, Sapling(sp)) == CountOf(c.stacks, Sapling(sp)) + multiset(c.kinds)[sp] {
        PlacePerKind(finds, stacks, types, 0, 0, sp);
      }
      forall k | 0 <= k < |c.kinds| ensures c.kinds[k] in types {
        PlaceKindGrouped(finds, stacks, types, 0, 0, k);
      }
    }
  }

  /**
    With a valid spot in every candidate column and enough saplings of
    every kind for every candidate, the kinds placed cycle through the
    grouped kinds in order, one per candidate, starting from the first.
   */
  lemma ScatterAlternates(w: World, clientSide: bool, center: Pos, radius: int, stacks: seq<Stack>,
                          bonemeal: Option<Stack>, perm: seq<nat>, grows: set<nat>)
    requires IsPermutation(perm, |RingOffsets(radius)|)
    requires !clientSide && 0 < |Types(stacks)|
    requires forall m :: 0 <= m < |RingOffsets(radius)| ==>
               FindValidSaplingPosition(w, GenerateScatterPositions(center, radius, perm)[m]).Some?
    requires forall t :: t in Types(stacks) ==> CountOf(stacks, Sapling(t)) >= |RingOffsets(radius)|
    ensures var r, types := ScatterSaplingsAlternating(w, clientSide, center, radius, stacks, bonemeal, perm, grows), Types(stacks);
            && |r.kinds| == |RingOffsets(radius)|
            && forall k :: 0 <= k < |r.kinds| ==> r.kinds[k] == types[Turn(0, k, |types|)]
  {
    var finds := Finds(w, GenerateScatterPositions(center, radius, perm));
    PlantingIsPlace(w, center, radius, stacks, perm);
    PlaceAlternates(finds, stacks, Types(stacks), 0, 0);
  }
}
