/**
  The per-spot rules of `SaplingPlacementHelper`: what counts as ground a
  sapling may be planted on, the vertical search for such a spot, replanting
  at a chopped tree's stump, the log-to-sapling table and feeding a sapling
  bone meal from an inventory.

  Bone meal advances a sapling's growth at random; the model takes that as
  the oracle `grows`, where `k in grows` says whether the `k`-th application of
  the call turns the sapling into its tree (of which only the trunk block at
  the sapling's position is modelled).
 */
module Placement {
  import opened Base
  import opened Inventory
  import SaplingHelper

  // ---------------------------------------------------------------- isValidSaplingSpot

  /** The listed ground blocks, or any block of the `dirt` tag. */
  predicate IsSaplingGround(b: Block)
  {
    b.GrassBlock? || b.DirtBlock? || b.CoarseDirt? || b.Podzol? || b.RootedDirt? ||
    b.MossBlock? || b.Mud? || b.MuddyMangroveRoots? || InDirtTag(b)
  }

  /**
    `isValidSaplingSpot`: the spot is air or replaceable, the block above is
    air and the block below is sapling ground. Since every listed ground
    block belongs to the `dirt` tag, the ground test is the tag alone.
   */
  predicate IsValidSaplingSpot(w: World, p: Pos): (r: bool)
    ensures r <==> (IsAir(w(p)) || CanBeReplaced(w(p))) && IsAir(w(Above(p))) && InDirtTag(w(Below(p)))
  {
    && (IsAir(w(p)) || CanBeReplaced(w(p)))
    && IsAir(w(Above(p)))
    && IsSaplingGround(w(Below(p)))
  }

  /** Every block of the listed set is also in the `dirt` tag, so the ground test is the tag alone. */
  lemma GroundIsDirtTag(b: Block)
    ensures IsSaplingGround(b) <==> InDirtTag(b)
  {
  }

  /** A spot reads only its own column: changing the level elsewhere keeps the verdict. */
  lemma SpotReadsOwnColumn(w: World, w': World, p: Pos)
    requires forall q: Pos :: q.x == p.x && q.z == p.z ==> w'(q) == w(q)
    ensures IsValidSaplingSpot(w', p) == IsValidSaplingSpot(w, p)
  {
    assert w'(p) == w(p) && w'(Above(p)) == w(Above(p)) && w'(Below(p)) == w(Below(p));
  }

  // ---------------------------------------------------------------- findValidSaplingPosition

  /** Position `y` of the column through `base`. */
  function InColumn(base: Pos, y: int): Pos
  {
    Pos(base.x, y, base.z)
  }

  /** The search of `findValidSaplingPosition` from height `y` up to five above `base`. */
  function FindFrom(w: World, base: Pos, y: int): (r: Option<Pos>)
    requires base.y - 5 <= y <= base.y + 6
    ensures r.None? <==> forall y' :: y <= y' <= base.y + 5 ==> !IsValidSaplingSpot(w, InColumn(base, y'))
    ensures r.Some? ==>
              && r.value == InColumn(base, r.value.y)
              && y <= r.value.y <= base.y + 5
              && IsValidSaplingSpot(w, r.value)
              && forall y' :: y <= y' < r.value.y ==> !IsValidSaplingSpot(w, InColumn(base, y'))
    decreases base.y + 6 - y
  {
    if y > base.y + 5 then None
    else if IsValidSaplingSpot(w, InColumn(base, y)) then Some(InColumn(base, y))
    else FindFrom(w, base, y + 1)
  }

  /**
    `findValidSaplingPosition(level, base)`: the lowest valid spot of the
    column through `base` between five below and five above it, if any.
   */
  function FindValidSaplingPosition(w: World, base: Pos): (r: Option<Pos>)
    ensures r.None? <==> forall y :: base.y - 5 <= y <= base.y + 5 ==> !IsValidSaplingSpot(w, InColumn(base, y))
    ensures r.Some? ==>
              && r.value == InColumn(base, r.value.y)
              && base.y - 5 <= r.value.y <= base.y + 5
              && IsValidSaplingSpot(w, r.value)
              && forall y :: base.y - 5 <= y < r.value.y ==> !IsValidSaplingSpot(w, InColumn(base, y))
  {
    FindFrom(w, base, base.y - 5)
  }

  /** The search reads only the column through `base`. */
  lemma FindReadsOwnColumn(w: World, w': World, base: Pos)
    requires forall q: Pos :: q.x == base.x && q.z == base.z ==> w'(q) == w(q)
    ensures FindValidSaplingPosition(w', base) == FindValidSaplingPosition(w, base)
  {
    forall y ensures IsValidSaplingSpot(w', InColumn(base, y)) == IsValidSaplingSpot(w, InColumn(base, y)) {
      SpotReadsOwnColumn(w, w', InColumn(base, y));
    }
  }

  // ---------------------------------------------------------------- getSaplingForLog

  /**
    `getSaplingForLog`: the log, wood, stripped log and stripped wood of each
    of the eight species yield that species' sapling (the mangrove propagule
    for mangrove); every other block yields nothing.
   */
  function SaplingForLog(b: Block): (r: Option<Item>)
    ensures r.Some? <==> b.WoodBlock?
    ensures r.Some? ==> r.value == Sapling(b.species)
  {
    match b
    case WoodBlock(sp, _) => Some(Sapling(sp))
    case _ => None
  }

  /** Modded logs in the `logs` tag and vanilla blocks that are not wood yield nothing. */
  lemma NoSaplingForOtherBlocks(id: nat, props: BlockProps, sp: Species)
    ensures SaplingForLog(OtherBlock(id, props)) == None
    ensures SaplingForLog(SaplingBlock(sp)) == None
    ensures SaplingForLog(CraftingTable) == None
  {
  }

  /** The sapling a log yields grows back into a log that yields the same sapling. */
  lemma SaplingForLogRoundTrip(b: Block)
    requires SaplingForLog(b).Some?
    ensures SaplingForLog(Grown(SaplingBlock(SaplingForLog(b).value.species))) == SaplingForLog(b)
  {
  }

  /** Every sapling a race is given can be won back by chopping that species' logs. */
  lemma RaceSaplingsHaveLogs(raceName: string, i: nat)
    requires i < |SaplingHelper.GetSaplingsForRace(raceName)|
    ensures var it := SaplingHelper.GetSaplingsForRace(raceName)[i];
            SaplingForLog(WoodBlock(it.species, LogForm)) == Some(it)
  {
  }

  // ---------------------------------------------------------------- replantAtStump

  /** The neighbour columns of a stump, in the order `replantAtStump` tries them. */
  const NEIGHBOURS: seq<(int, int)> := [(-1, -1), (-1, 0), (-1, 1), (0, -1), (0, 1), (1, -1), (1, 0), (1, 1)]

  /** `p` lies in one of the eight columns around `stump`, at most five blocks up or down. */
  predicate NearStump(stump: Pos, p: Pos)
  {
    && -1 <= p.x - stump.x <= 1 && -1 <= p.z - stump.z <= 1
    && !(p.x == stump.x && p.z == stump.z)
    && stump.y - 5 <= p.y <= stump.y + 5
  }

  function NeighbourBase(stump: Pos, k: nat): Pos
    requires k < |NEIGHBOURS|
  {
    Offset(stump, NEIGHBOURS[k].0, 0, NEIGHBOURS[k].1)
  }

  /** What `findValidSaplingPosition` finds in each neighbour column, in the order they are tried. */
  function NeighbourFinds(w: World, stump: Pos): (r: seq<Option<Pos>>)
    ensures |r| == |NEIGHBOURS|
    ensures forall j :: 0 <= j < |r| ==> r[j] == FindValidSaplingPosition(w, NeighbourBase(stump, j))
  {
    seq(|NEIGHBOURS|, j requires 0 <= j < |NEIGHBOURS| => FindValidSaplingPosition(w, NeighbourBase(stump, j)))
  }

  /** The spot the neighbour search of `replantAtStump` settles on: the find of the first column that has one. */
  function NeighbourSpot(w: World, stump: Pos): Option<Pos>
  {
    var finds := NeighbourFinds(w, stump);
    var j := FirstIndex(finds, (o: Option<Pos>) => o.Some?);
    if j < 0 then None else finds[j]
  }

  datatype Replanted = Replanted(planted: Option<Pos>, world: World)

  /**
    `replantAtStump(level, stump, item)`: plants the item's sapling at the
    stump if that is a valid spot, otherwise at the first valid spot of the
    eight neighbour columns; the result says where, if anywhere.
   */
  function ReplantAtStump(w: World, clientSide: bool, stump: Pos, sapling: Option<Item>): (r: Replanted)
    ensures clientSide || sapling.None? || !sapling.value.Sapling? ==> r.planted.None? && r.world == w
    ensures r.planted.None? ==> r.world == w
    ensures r.planted.Some? ==>
              && sapling.Some? && sapling.value.Sapling?
              && IsValidSaplingSpot(w, r.planted.value)
              && r.world(r.planted.value) == SaplingBlock(sapling.value.species)
              && AgreeExcept(r.world, w, r.planted.value)
              && (r.planted.value == stump || NearStump(stump, r.planted.value))
    ensures !clientSide && sapling.Some? && sapling.value.Sapling? ==>
              && (IsValidSaplingSpot(w, stump) ==> r.planted == Some(stump))
              && (r.planted.None? <==>
                    !IsValidSaplingSpot(w, stump) && forall p :: NearStump(stump, p) ==> !IsValidSaplingSpot(w, p))
  {
    if clientSide || sapling.None? || !sapling.value.Sapling? then Replanted(None, w)
    else
      var block := SaplingBlock(sapling.value.species);
      if IsValidSaplingSpot(w, stump) then Replanted(Some(stump), SetBlock(w, stump, block))
      else
        var spot := NeighbourSpot(w, stump);
        NeighbourSpotNear(w, stump);
        if spot.Some? then Replanted(spot, SetBlock(w, spot.value, block)) else Replanted(None, w)
  }

  /** Each listed neighbour column is one of the eight columns around the stump. */
  lemma NeighbourIsNear(stump: Pos, k: nat, p: Pos)
    requires k < |NEIGHBOURS|
    requires p == InColumn(NeighbourBase(stump, k), p.y) && stump.y - 5 <= p.y <= stump.y + 5
    ensures NearStump(stump, p)
  {
  }

  /** A position near the stump lies in the column of its neighbour index. */
  lemma NearInNeighbourColumn(stump: Pos, p: Pos)
    requires NearStump(stump, p)
    ensures var k := NeighbourIndex(stump, p);
            p == InColumn(NeighbourBase(stump, k), p.y)
  {
  }

  /** The neighbour search finds a spot exactly when some spot near the stump is valid, and only such a spot. */
  lemma NeighbourSpotNear(w: World, stump: Pos)
    ensures var r := NeighbourSpot(w, stump);
            && (r.None? <==> forall p :: NearStump(stump, p) ==> !IsValidSaplingSpot(w, p))
            && (r.Some? ==> NearStump(stump, r.value) && IsValidSaplingSpot(w, r.value))
  {
    var r := NeighbourSpot(w, stump);
    var finds := NeighbourFinds(w, stump);
    var j := FirstIndex(finds, (o: Option<Pos>) => o.Some?);
    if r.None? {
      forall p | NearStump(stump, p) ensures !IsValidSaplingSpot(w, p) {
        var k := NeighbourIndex(stump, p);
        NearInNeighbourColumn(stump, p);
        assert finds[k].None?;
      }
    } else {
      NeighbourIsNear(stump, j, r.value);
    }
  }

  /** The index in `NEIGHBOURS` of the column of a position near the stump. */
  function NeighbourIndex(stump: Pos, p: Pos): (k: nat)
    requires NearStump(stump, p)
    ensures k < |NEIGHBOURS| && NeighbourBase(stump, k) == Pos(p.x, stump.y, p.z)
  {
    var dx, dz := p.x - stump.x, p.z - stump.z;
    if dx == -1 then (if dz == -1 then 0 else if dz == 0 then 1 else 2)
    else if dx == 0 then (if dz == -1 then 3 else 4)
    else (if dz == -1 then 5 else if dz == 0 then 6 else 7)
  }

  // ---------------------------------------------------------------- bonemealSaplingFromInventory

  /** The block at the spot after one bone meal, given whether it made the sapling grow. */
  function AfterBonemeal(b: Block, grows: bool): Block
  {
    if grows then Grown(b) else b
  }

  /** Result of the feeding loop: bone meal used, the inventory, and the block left at the spot. */
  datatype Fed = Fed(used: nat, inv: seq<Stack>, block: Block)

  /** The slot relation bone meal feeding keeps: only bone meal slots change, to a smaller bone meal stack or to the empty stack. */
  predicate OnlyBonemealTaken(before: seq<Stack>, after: seq<Stack>)
  {
    && |after| == |before|
    && forall j :: 0 <= j < |before| && after[j] != before[j] ==>
         IsBonemealStack(before[j]) && (after[j] == EMPTY || (IsBonemealStack(after[j]) && after[j].count < before[j].count))
  }

  /** Takes one bone meal from the first slot holding some. */
  function TakeBonemeal(inv: seq<Stack>): (r: seq<Stack>)
    requires CountOf(inv, BoneMeal) > 0
    ensures |r| == |inv|
    ensures CountOf(r, BoneMeal) + 1 == CountOf(inv, BoneMeal)
  {
    NoBonemealSlot(inv);
    var slot := FirstBonemealSlot(inv);
    ShrinkSlot(inv, slot)
  }

  /** Taking one bone meal changes only the slot it comes from, and no other item. */
  lemma TakeBonemealFrame(inv: seq<Stack>)
    requires CountOf(inv, BoneMeal) > 0
    ensures OnlyBonemealTaken(inv, TakeBonemeal(inv))
    ensures forall it :: it != BoneMeal ==> CountOf(TakeBonemeal(inv), it) == CountOf(inv, it)
  {
    NoBonemealSlot(inv);
  }

  /** The feeding loop ends: no attempt left, no sapling at the spot, or no bone meal in the inventory. */
  predicate FeedStops(b: Block, inv: seq<Stack>, left: nat)
  {
    left == 0 || !b.SaplingBlock? || CountOf(inv, BoneMeal) == 0
  }

  /**
    The loop of `bonemealSaplingFromInventory` with `left` attempts to go,
    `k` applications made so far and `b` at the spot: while the spot still
    holds a sapling and some slot holds bone meal, one bone meal is taken from
    the first such slot and applied. Only the spot's own block can change, so
    the loop follows that block alone.
   */
  function Feed(b: Block, inv: seq<Stack>, left: nat, grows: set<nat>, k: nat): (r: Fed)
    ensures r.used <= left
    ensures |r.inv| == |inv|
    decreases left
  {
    if FeedStops(b, inv, left) then Fed(0, inv, b)
    else
      var rest := Feed(AfterBonemeal(b, k in grows), TakeBonemeal(inv), left - 1, grows, k + 1);
      Fed(rest.used + 1, rest.inv, rest.block)
  }

  /** The feeding loop only takes from bone meal slots, leaving each a smaller bone meal stack or the empty stack. */
  lemma {:induction false} FeedTakesBonemeal(b: Block, inv: seq<Stack>, left: nat, grows: set<nat>, k: nat)
    ensures OnlyBonemealTaken(inv, Feed(b, inv, left, grows, k).inv)
    decreases left
  {
    if !FeedStops(b, inv, left) {
      var b', inv' := AfterBonemeal(b, k in grows), TakeBonemeal(inv);
      TakeBonemealFrame(inv);
      FeedTakesBonemeal(b', inv', left - 1, grows, k + 1);
      TakenTrans(inv, inv', Feed(b', inv', left - 1, grows, k + 1).inv);
    }
  }

  /**
    The accounting of the feeding loop: exactly one bone meal leaves the
    inventory per application and nothing else does, and the loop stops short
    only when the sapling has grown or the bone meal has run out.
   */
  lemma {:induction false} FeedAccounting(b: Block, inv: seq<Stack>, left: nat, grows: set<nat>, k: nat)
    ensures var r := Feed(b, inv, left, grows, k);
            && CountOf(r.inv, BoneMeal) + r.used == CountOf(inv, BoneMeal)
            && (forall it :: it != BoneMeal ==> CountOf(r.inv, it) == CountOf(inv, it))
            && (r.used < left ==> !r.block.SaplingBlock? || CountOf(r.inv, BoneMeal) == 0)
    decreases left
  {
    if !FeedStops(b, inv, left) {
      TakeBonemealFrame(inv);
      FeedAccounting(AfterBonemeal(b, k in grows), TakeBonemeal(inv), left - 1, grows, k + 1);
    }
  }

  lemma TakenTrans(a: seq<Stack>, b: seq<Stack>, c: seq<Stack>)
    requires OnlyBonemealTaken(a, b) && OnlyBonemealTaken(b, c)
    ensures OnlyBonemealTaken(a, c)
  {
    forall j | 0 <= j < |a| && c[j] != a[j]
      ensures IsBonemealStack(a[j]) && (c[j] == EMPTY || (IsBonemealStack(c[j]) && c[j].count < a[j].count))
    {
      if b[j] != a[j] && c[j] != b[j] {
        assert b[j] != EMPTY;
      }
    }
  }

  datatype Bonemealed = Bonemealed(used: nat, inv: Option<seq<Stack>>, world: World)

  /**
    `bonemealSaplingFromInventory(level, pos, inventory, maxUses)`: feeds the
    sapling at `pos` up to `maxUses` bone meal from the inventory and reports
    how many were used.
   */
  function BonemealSaplingFromInventory(w: World, clientSide: bool, pos: Pos, inv: Option<seq<Stack>>,
                                        maxUses: int, grows: set<nat>): (r: Bonemealed)
    ensures clientSide || inv.None? || maxUses <= 0 || !w(pos).SaplingBlock? ==>
              r.used == 0 && r.inv == inv && r.world == w
    ensures inv.Some? <==> r.inv.Some?
    ensures inv.Some? ==>
              && (maxUses > 0 ==> r.used <= maxUses)
              && OnlyBonemealTaken(inv.value, r.inv.value)
              && CountOf(r.inv.value, BoneMeal) + r.used == CountOf(inv.value, BoneMeal)
              && (forall it :: it != BoneMeal ==> CountOf(r.inv.value, it) == CountOf(inv.value, it))
              && AgreeExcept(r.world, w, pos)
    ensures !clientSide && inv.Some? && w(pos).SaplingBlock? && r.used < maxUses ==>
              !r.world(pos).SaplingBlock? || CountOf(r.inv.value, BoneMeal) == 0
  {
    if clientSide || inv.None? || maxUses <= 0 || !w(pos).SaplingBlock? then Bonemealed(0, inv, w)
    else
      var fed := Feed(w(pos), inv.value, maxUses, grows, 0);
      FeedAccounting(w(pos), inv.value, maxUses, grows, 0);
      FeedTakesBonemeal(w(pos), inv.value, maxUses, grows, 0);
      Bonemealed(fed.used, Some(fed.inv), SetBlock(w, pos, fed.block))
  }

  /** With bone meal to spare and a sapling that never grows, every one of the `maxUses` attempts uses one. */
  lemma {:induction false} FeedUsesAll(b: Block, inv: seq<Stack>, left: nat, grows: set<nat>, k: nat)
    requires b.SaplingBlock?
    requires CountOf(inv, BoneMeal) >= left
    requires forall j :: k <= j < k + left ==> j !in grows
    ensures Feed(b, inv, left, grows, k).used == left
    decreases left
  {
    if left > 0 {
      FeedUsesAll(b, TakeBonemeal(inv), left - 1, grows, k + 1);
    }
  }
}
