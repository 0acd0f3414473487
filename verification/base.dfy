/**
  Shared vocabulary of the RoamersPlus model: the engine's items, item stacks,
  blocks, block positions and the world as a pure lookup, plus a small
  "first element satisfying a predicate" search used by every scan of an
  inventory or of a column of blocks.
 */
module Base {

  /** A value that may be absent; stands for a Java reference that may be null. */
  datatype Option<+T> = None | Some(value: T)

  /** Identity of an engine entity (a roamer); the mod keys its side tables by it. */
  type EntityId = nat

  function Min(a: int, b: int): int { if a <= b then a else b }
  function Max(a: int, b: int): int { if a >= b then a else b }
  function Abs(a: int): nat { if a < 0 then -a else a }

  // ---------------------------------------------------------------- items

  /** The eight vanilla tree species that have a sapling (mangrove's is the propagule). */
  datatype Species = Oak | Spruce | Birch | Jungle | Acacia | DarkOak | Cherry | Mangrove

  /**
    The items the mod distinguishes. `Sapling(Mangrove)` is the mangrove
    propagule, whose block is a sapling block in the engine. Every other item
    is `OtherItem`, carrying its identity and its maximum stack size.
   */
  datatype Item =
    | Air
    | Sapling(species: Species)
    | BoneMeal
    | CraftingTableItem
    | OtherItem(id: nat, maxStack: nat)

  function MaxStackSize(it: Item): nat
  {
    match it
    case OtherItem(_, m) => m
    case _ => 64
  }

  /** An item stack; a stack of count 0, or of the air item, is empty. */
  datatype Stack = Stack(item: Item, count: nat)

  /** The engine's shared empty stack. */
  const EMPTY: Stack := Stack(Air, 0)

  predicate IsEmpty(s: Stack) { s.item == Air || s.count == 0 }

  /** A non-empty stack whose item places a sapling block. */
  predicate IsSaplingStack(s: Stack) { !IsEmpty(s) && s.item.Sapling? }

  /** A non-empty stack of bone meal. */
  predicate IsBonemealStack(s: Stack) { !IsEmpty(s) && s.item == BoneMeal }

  /** What slot `s` contributes to the number of `it` items held. */
  function Contrib(s: Stack, it: Item): nat
  {
    if !IsEmpty(s) && s.item == it then s.count else 0
  }

  /** Number of `it` items held over all slots of `inv`. */
  function CountOf(inv: seq<Stack>, it: Item): nat
  {
    if |inv| == 0 then 0 else Contrib(inv[0], it) + CountOf(inv[1..], it)
  }

  /** Sum of the counts of all stacks, empty or not. */
  function TotalCount(stacks: seq<Stack>): nat
  {
    if |stacks| == 0 then 0 else stacks[0].count + TotalCount(stacks[1..])
  }

  lemma {:induction false} CountOfUpdate(inv: seq<Stack>, i: nat, s: Stack, it: Item)
    requires i < |inv|
    ensures CountOf(inv[i := s], it) + Contrib(inv[i], it) == CountOf(inv, it) + Contrib(s, it)
    decreases |inv|
  {
    if i == 0 {
      assert inv[i := s][1..] == inv[1..];
    } else {
      assert inv[i := s][1..] == inv[1..][i - 1 := s];
      CountOfUpdate(inv[1..], i - 1, s, it);
    }
  }

  lemma {:induction false} TotalCountUpdate(stacks: seq<Stack>, i: nat, s: Stack)
    requires i < |stacks|
    ensures TotalCount(stacks[i := s]) + stacks[i].count == TotalCount(stacks) + s.count
    decreases |stacks|
  {
    if i == 0 {
      assert stacks[i := s][1..] == stacks[1..];
    } else {
      assert stacks[i := s][1..] == stacks[1..][i - 1 := s];
      TotalCountUpdate(stacks[1..], i - 1, s);
    }
  }

  // ---------------------------------------------------------------- blocks

  datatype WoodForm = LogForm | WoodForm | StrippedLog | StrippedWood

  /** Engine properties of a block that the model does not name individually. */
  datatype BlockProps = BlockProps(air: bool, canReplace: bool, solid: bool, dirtTag: bool, logTag: bool)

  /**
    The blocks the mod distinguishes. `WoodBlock(s, f)` is the log, wood,
    stripped log or stripped wood of species `s`; `SaplingBlock(s)` is a
    sapling (or the mangrove propagule). Anything else is `OtherBlock`,
    described by the engine properties the mod queries.
   */
  datatype Block =
    | AirBlock
    | GrassBlock | DirtBlock | CoarseDirt | Podzol | RootedDirt | MossBlock | Mud | MuddyMangroveRoots
    | SaplingBlock(species: Species)
    | WoodBlock(species: Species, form: WoodForm)
    | CraftingTable
    | OtherBlock(id: nat, props: BlockProps)

  predicate IsAir(b: Block)
  {
    b.AirBlock? || (b.OtherBlock? && b.props.air)
  }

  predicate CanBeReplaced(b: Block)
  {
    b.AirBlock? || (b.OtherBlock? && b.props.canReplace)
  }

  predicate IsSolid(b: Block)
  {
    match b
    case AirBlock => false
    case SaplingBlock(_) => false
    case OtherBlock(_, p) => p.solid
    case _ => true
  }

  /** Membership in the engine's `dirt` block tag. */
  predicate InDirtTag(b: Block)
  {
    match b
    case GrassBlock => true
    case DirtBlock => true
    case CoarseDirt => true
    case Podzol => true
    case RootedDirt => true
    case MossBlock => true
    case Mud => true
    case MuddyMangroveRoots => true
    case OtherBlock(_, p) => p.dirtTag
    case _ => false
  }

  /** Membership in the engine's `logs` block tag. */
  predicate InLogsTag(b: Block)
  {
    b.WoodBlock? || (b.OtherBlock? && b.props.logTag)
  }

  // ---------------------------------------------------------------- positions and the world

  datatype Pos = Pos(x: int, y: int, z: int)

  function Offset(p: Pos, dx: int, dy: int, dz: int): Pos
  {
    Pos(p.x + dx, p.y + dy, p.z + dz)
  }

  function Below(p: Pos): Pos { Offset(p, 0, -1, 0) }
  function Above(p: Pos): Pos { Offset(p, 0, 1, 0) }

  /** Squared distance between two block positions (`BlockPos.distSqr`). */
  function DistSqr(a: Pos, b: Pos): int
  {
    (a.x - b.x) * (a.x - b.x) + (a.y - b.y) * (a.y - b.y) + (a.z - b.z) * (a.z - b.z)
  }

  /** The level, read-only: the block at every position. */
  type World = Pos -> Block

  /** The level after `setBlock(p, b)`. */
  function SetBlock(w: World, p: Pos, b: Block): World
  {
    q => if q == p then b else w(q)
  }

  /** `a` and `b` hold the same block everywhere except perhaps at `p`. */
  ghost predicate AgreeExcept(a: World, b: World, p: Pos)
  {
    forall q :: q != p ==> a(q) == b(q)
  }

  /** The block a sapling turns into when bone meal makes it grow. */
  function Grown(b: Block): Block
  {
    match b
    case SaplingBlock(s) => WoodBlock(s, LogForm)
    case _ => b
  }

  // ---------------------------------------------------------------- search

  /** Index of the first element of `s` satisfying `p`, or -1 when there is none. */
  function FirstIndex<T>(s: seq<T>, p: T -> bool): (r: int)
    ensures -1 <= r < |s|
    ensures r == -1 <==> forall i :: 0 <= i < |s| ==> !p(s[i])
    ensures r >= 0 ==> p(s[r]) && forall j :: 0 <= j < r ==> !p(s[j])
  {
    if |s| == 0 then -1
    else if p(s[0]) then 0
    else
      var k := FirstIndex(s[1..], p);
      assert forall i :: 1 <= i < |s| ==> s[i] == s[1..][i - 1];
      if k == -1 then -1 else k + 1
  }

  /** The first element of `s` satisfying `p`, if any. */
  function FirstWhere<T>(s: seq<T>, p: T -> bool): (r: Option<T>)
    ensures r.None? <==> forall i :: 0 <= i < |s| ==> !p(s[i])
    ensures r.Some? ==> exists k :: 0 <= k < |s| && s[k] == r.value && p(s[k]) &&
                                    forall j :: 0 <= j < k ==> !p(s[j])
  {
    var k := FirstIndex(s, p);
    if k < 0 then None else Some(s[k])
  }
}
