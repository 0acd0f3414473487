/**
  The per-roamer bookkeeping of `RoamerEventHandler` that does not go
  through the Roamers mod by reflection: the alternation index for sapling
  types, stuck detection, the search for a crafting table spot, the queue of
  saplings waiting for bone meal and the planting of saplings around home.

  Side tables keyed by entity are plain maps; the answers the handler gets by
  reflection (whether the roamer is busy, its home, whether it is navigating)
  and the random draws are parameters.
 */
module RoamerEvents {
  import opened Base
  import opened Inventory
  import opened Placement
  import SaplingHelper

  // ---------------------------------------------------------------- sapling alternation index

  /** `getSaplingAltIndex`: the stored index, 0 when there is none. */
  function GetSaplingAltIndex(t: map<EntityId, nat>, e: EntityId): (r: nat)
    ensures e in t ==> r == t[e]
    ensures e !in t ==> r == 0
  {
    if e in t then t[e] else 0
  }

  /**
    `incrementSaplingAltIndex(roamer, numTypes)`: the next index modulo the
    number of types, a non-positive number of types counting as one. Only
    this roamer's entry changes, and the new index lies in range.
   */
  function IncrementSaplingAltIndex(t: map<EntityId, nat>, e: EntityId, numTypes: int): (r: map<EntityId, nat>)
    ensures r.Keys == t.Keys + {e}
    ensures forall e' :: e' in t && e' != e ==> r[e'] == t[e']
    ensures r[e] < Max(1, numTypes)
    ensures GetSaplingAltIndex(t, e) + 1 < Max(1, numTypes) ==> r[e] == GetSaplingAltIndex(t, e) + 1
    ensures GetSaplingAltIndex(t, e) + 1 == Max(1, numTypes) ==> r[e] == 0
    ensures r[e] == (GetSaplingAltIndex(t, e) + 1) % Max(1, numTypes)
  {
    t[e := (GetSaplingAltIndex(t, e) + 1) % Max(1, numTypes)]
  }

  /** `k` increments with the same number of types. */
  function IncrementMany(t: map<EntityId, nat>, e: EntityId, numTypes: int, k: nat): map<EntityId, nat>
    decreases k
  {
    if k == 0 then t else IncrementMany(IncrementSaplingAltIndex(t, e, numTypes), e, numTypes, k - 1)
  }

  /** Increments compose: `j` then `k` increments are `j + k` increments. */
  lemma {:induction false} IncrementManySplit(t: map<EntityId, nat>, e: EntityId, numTypes: int, j: nat, k: nat)
    ensures IncrementMany(t, e, numTypes, j + k) == IncrementMany(IncrementMany(t, e, numTypes, j), e, numTypes, k)
    decreases j
  {
    if j > 0 {
      IncrementManySplit(IncrementSaplingAltIndex(t, e, numTypes), e, numTypes, j - 1, k);
    }
  }

  /** From index `a`, `k` increments that do not pass the number of types count up to `a + k`, wrapping to 0 at the end. */
  lemma {:induction false} IncrementRun(t: map<EntityId, nat>, e: EntityId, numTypes: int, k: nat)
    requires GetSaplingAltIndex(t, e) < Max(1, numTypes) && GetSaplingAltIndex(t, e) + k <= Max(1, numTypes)
    ensures var a, m := GetSaplingAltIndex(t, e), Max(1, numTypes);
            GetSaplingAltIndex(IncrementMany(t, e, numTypes, k), e) == if a + k == m then 0 else a + k
    decreases k
  {
    if k > 0 {
      var t' := IncrementSaplingAltIndex(t, e, numTypes);
      assert IncrementMany(t, e, numTypes, k) == IncrementMany(t', e, numTypes, k - 1);
      if GetSaplingAltIndex(t, e) + 1 == Max(1, numTypes) {
        assert k == 1 && IncrementMany(t', e, numTypes, 0) == t';
      } else {
        IncrementRun(t', e, numTypes, k - 1);
      }
    }
  }

  /**
    The index cycles through the types: as many increments as there are
    types bring an index in range back to where it was.
   */
  lemma IncrementCycles(t: map<EntityId, nat>, e: EntityId, numTypes: int)
    requires GetSaplingAltIndex(t, e) < Max(1, numTypes)
    ensures GetSaplingAltIndex(IncrementMany(t, e, numTypes, Max(1, numTypes)), e) == GetSaplingAltIndex(t, e)
  {
    var a, m := GetSaplingAltIndex(t, e), Max(1, numTypes);
    IncrementManySplit(t, e, numTypes, m - a, a);
    IncrementRun(t, e, numTypes, m - a);
    IncrementRun(IncrementMany(t, e, numTypes, m - a), e, numTypes, a);
  }

  // ---------------------------------------------------------------- stuck detection

  /** Calls in a row without moving while navigating after which a roamer counts as stuck. */
  const STUCK_THRESHOLD: nat := 30

  /** The two side tables of stuck detection: last position seen and calls spent stuck. */
  datatype StuckTables = StuckTables(lastPos: map<EntityId, Pos>, counter: map<EntityId, nat>)

  /** The tables after one call, and whether the recovery was attempted. */
  datatype StuckStep = StuckStep(tables: StuckTables, recovered: bool)

  function CounterOf(s: StuckTables, e: EntityId): nat
  {
    if e in s.counter then s.counter[e] else 0
  }

  /** The roamer is navigating and stands where it stood at the previous call. */
  predicate StandsStill(s: StuckTables, e: EntityId, current: Pos, navigating: bool)
  {
    navigating && e in s.lastPos && s.lastPos[e] == current
  }

  /**
    `handleStuckDetection`: the counter grows by one while the roamer
    navigates without moving and is reset otherwise; reaching the threshold
    attempts recovery and resets it. An entity that is not a mob is ignored.
   */
  function HandleStuckDetection(s: StuckTables, e: EntityId, isMob: bool, current: Pos, navigating: bool): (r: StuckStep)
    ensures !isMob ==> r == StuckStep(s, false)
    ensures isMob ==>
              && r.tables.lastPos == s.lastPos[e := current]
              && r.tables.counter.Keys == s.counter.Keys + {e}
              && (forall e' :: e' in s.counter && e' != e ==> r.tables.counter[e'] == s.counter[e'])
              && CounterOf(r.tables, e) < STUCK_THRESHOLD
              && (r.recovered <==> StandsStill(s, e, current, navigating) && CounterOf(s, e) + 1 >= STUCK_THRESHOLD)
              && (StandsStill(s, e, current, navigating) && !r.recovered ==> CounterOf(r.tables, e) == CounterOf(s, e) + 1)
              && (!StandsStill(s, e, current, navigating) || r.recovered ==> CounterOf(r.tables, e) == 0)
  {
    if !isMob then StuckStep(s, false)
    else
      var count := if StandsStill(s, e, current, navigating) then CounterOf(s, e) + 1 else 0;
      var recovered := StandsStill(s, e, current, navigating) && count >= STUCK_THRESHOLD;
      var stored := if recovered then 0 else count;
      StuckStep(StuckTables(s.lastPos[e := current], s.counter[e := stored]), recovered)
  }

  /** `k` calls for a mob that keeps navigating at `p`, with the number of recoveries among them. */
  function StuckRun(s: StuckTables, e: EntityId, p: Pos, k: nat): (StuckTables, nat)
    decreases k
  {
    if k == 0 then (s, 0)
    else
      var st := HandleStuckDetection(s, e, true, p, true);
      var rest := StuckRun(st.tables, e, p, k - 1);
      (rest.0, rest.1 + if st.recovered then 1 else 0)
  }

  /**
    A roamer that stopped moving at `p` while navigating is counted for
    `STUCK_THRESHOLD - 1` calls without recovery, and the next call attempts
    recovery exactly once and starts the count again.
   */
  lemma {:induction false} StuckRecoversAtThreshold(s: StuckTables, e: EntityId, p: Pos, k: nat)
    requires e in s.lastPos && s.lastPos[e] == p && CounterOf(s, e) == 0
    requires k <= STUCK_THRESHOLD
    ensures var run := StuckRun(s, e, p, k);
            && (k < STUCK_THRESHOLD ==> run.1 == 0 && CounterOf(run.0, e) == k)
            && (k == STUCK_THRESHOLD ==> run.1 == 1 && CounterOf(run.0, e) == 0)
  {
    StuckCounts(s, e, p, 0, k);
  }

  lemma {:induction false} StuckCounts(s: StuckTables, e: EntityId, p: Pos, c: nat, k: nat)
    requires e in s.lastPos && s.lastPos[e] == p && CounterOf(s, e) == c
    requires c + k <= STUCK_THRESHOLD
    ensures var run := StuckRun(s, e, p, k);
            && (c + k < STUCK_THRESHOLD ==> run.1 == 0 && CounterOf(run.0, e) == c + k)
            && (c + k == STUCK_THRESHOLD && k > 0 ==> run.1 == 1 && CounterOf(run.0, e) == 0)
    decreases k
  {
    if k > 0 {
      var st := HandleStuckDetection(s, e, true, p, true);
      assert StandsStill(s, e, p, true);
      if c + 1 < STUCK_THRESHOLD {
        StuckCounts(st.tables, e, p, c + 1, k - 1);
      } else {
        assert k == 1 && st.recovered;
        assert StuckRun(st.tables, e, p, 0) == (st.tables, 0);
      }
    }
  }

  // ---------------------------------------------------------------- findValidCraftingTablePos

  /** Air at the spot and a solid block below. */
  predicate TableSpot(w: World, p: Pos)
  {
    IsAir(w(p)) && IsSolid(w(Below(p)))
  }

  /** `p` lies in the searched box: x and z within 3 of the centre, y within 2. */
  predicate InTableBox(c: Pos, p: Pos)
  {
    c.x - 3 <= p.x <= c.x + 3 && c.z - 3 <= p.z <= c.z + 3 && c.y - 2 <= p.y <= c.y + 2
  }

  /** `p` comes before `q` in the scan: by x, then z, then y. */
  predicate ScanBefore(p: Pos, q: Pos)
  {
    p.x < q.x || (p.x == q.x && (p.z < q.z || (p.z == q.z && p.y < q.y)))
  }

  /** The search up the column (`x`, `z`) from height `y`. */
  function TableSearchY(w: World, c: Pos, x: int, z: int, y: int): (r: Option<Pos>)
    requires c.y - 2 <= y <= c.y + 3
    ensures r.None? <==> forall p: Pos :: p.x == x && p.z == z && y <= p.y <= c.y + 2 ==> !TableSpot(w, p)
    ensures r.Some? ==>
              && r.value.x == x && r.value.z == z && y <= r.value.y <= c.y + 2 && TableSpot(w, r.value)
              && forall p: Pos :: p.x == x && p.z == z && y <= p.y < r.value.y ==> !TableSpot(w, p)
    decreases c.y + 3 - y
  {
    if y > c.y + 2 then None
    else if TableSpot(w, Pos(x, y, z)) then Some(Pos(x, y, z))
    else TableSearchY(w, c, x, z, y + 1)
  }

  /** The search over the columns at `x` from `z` on, each from the lowest height. */
  function TableSearchZ(w: World, c: Pos, x: int, z: int): (r: Option<Pos>)
    requires c.z - 3 <= z <= c.z + 4
    ensures r.None? <==> forall p: Pos :: p.x == x && z <= p.z <= c.z + 3 && c.y - 2 <= p.y <= c.y + 2 ==> !TableSpot(w, p)
    ensures r.Some? ==>
              && r.value.x == x && z <= r.value.z <= c.z + 3 && c.y - 2 <= r.value.y <= c.y + 2 && TableSpot(w, r.value)
              && forall p: Pos :: p.x == x && z <= p.z && c.y - 2 <= p.y <= c.y + 2 && ScanBefore(p, r.value) ==> !TableSpot(w, p)
    decreases c.z + 4 - z
  {
    if z > c.z + 3 then None
    else
      var col := TableSearchY(w, c, x, z, c.y - 2);
      if col.Some? then col else TableSearchZ(w, c, x, z + 1)
  }

  /** The search over the rows from `x` on. */
  function TableSearchX(w: World, c: Pos, x: int): (r: Option<Pos>)
    requires c.x - 3 <= x <= c.x + 4
    ensures r.None? <==> forall p: Pos :: x <= p.x && InTableBox(c, p) ==> !TableSpot(w, p)
    ensures r.Some? ==>
              && x <= r.value.x && InTableBox(c, r.value) && TableSpot(w, r.value)
              && forall p: Pos :: x <= p.x && InTableBox(c, p) && ScanBefore(p, r.value) ==> !TableSpot(w, p)
    decreases c.x + 4 - x
  {
    if x > c.x + 3 then None
    else
      var row := TableSearchZ(w, c, x, c.z - 3);
      if row.Some? then row else TableSearchX(w, c, x + 1)
  }

  /**
    `findValidCraftingTablePos(level, center)`: the first spot with air and a
    solid block below in the box of offsets -3..3 (x), -2..2 (y), -3..3 (z)
    around the centre, scanning x, then z, then y; `None` when the box has
    none.
   */
  function FindValidCraftingTablePos(w: World, center: Pos): (r: Option<Pos>)
    ensures r.None? <==> forall p: Pos :: InTableBox(center, p) ==> !TableSpot(w, p)
    ensures r.Some? ==>
              && InTableBox(center, r.value) && TableSpot(w, r.value)
              && forall p: Pos :: InTableBox(center, p) && ScanBefore(p, r.value) ==> !TableSpot(w, p)
  {
    TableSearchX(w, center, center.x - 3)
  }

  // ---------------------------------------------------------------- the bone meal queue

  /** Most entries a queue keeps; older ones are dropped first. */
  const MAX_QUEUE: nat := 100

  /** Saplings fed per call. */
  const POSITIONS_PER_CALL: nat := 3

  /** Bone meal applications per sapling per call. */
  const BONEMEAL_PER_QUEUED: nat := 2

  /** Ticks between sweeps of entries that no longer hold a sapling. */
  const STALE_SWEEP_TICKS: nat := 100

  /** `queueForBonemeal(roamer, pos)`: the position joins the end of the roamer's queue, created empty if absent. */
  function QueueForBonemeal(pending: map<EntityId, seq<Pos>>, e: EntityId, pos: Pos): (r: map<EntityId, seq<Pos>>)
    ensures r.Keys == pending.Keys + {e}
    ensures r[e] == (if e in pending then pending[e] else []) + [pos]
    ensures forall e' :: e' in pending && e' != e ==> r[e'] == pending[e']
  {
    pending[e := (if e in pending then pending[e] else []) + [pos]]
  }

  /** Removing entries from the front until at most `MAX_QUEUE` remain: the newest entries are kept. */
  function Trim(q: seq<Pos>): (r: seq<Pos>)
    ensures |r| == Min(|q|, MAX_QUEUE)
    ensures r == q[|q| - |r|..]
  {
    if |q| > MAX_QUEUE then q[|q| - MAX_QUEUE..] else q
  }

  /** `removeIf` of the entries whose block is not a sapling, keeping the order of the rest. */
  function DropStale(w: World, q: seq<Pos>): (r: seq<Pos>)
    ensures |r| <= |q|
    ensures forall p :: p in r <==> p in q && w(p).SaplingBlock?
    decreases |q|
  {
    if |q| == 0 then []
    else if w(q[0]).SaplingBlock? then [q[0]] + DropStale(w, q[1..])
    else DropStale(w, q[1..])
  }

  /**
    The sweep is a filter: it works entry by entry, so sweeping two queues
    one after the other gives the sweep of the joined queue, and a single
    entry stays exactly when it still holds a sapling.
   */
  lemma {:induction false} DropStaleAppend(w: World, a: seq<Pos>, b: seq<Pos>)
    ensures DropStale(w, a + b) == DropStale(w, a) + DropStale(w, b)
    ensures |a| == 1 ==> DropStale(w, a) == (if w(a[0]).SaplingBlock? then a else [])
    decreases |a|
  {
    if |a| == 0 {
      assert a + b == b;
    } else {
      assert (a + b)[0] == a[0] && (a + b)[1..] == a[1..] + b;
      DropStaleAppend(w, a[1..], b);
      if |a| == 1 {
        assert a[1..] == [];
        assert [a[0]] == a;
      }
    }
  }

  /** What is left after the iteration over the queue. */
  datatype Drained = Drained(queue: seq<Pos>, world: World, inv: seq<Stack>, processed: nat, used: nat, outOfMeal: bool)

  /**
    How one queued sapling is fed: from its block, the inventory and the
    applications made so far in the call, to what the feeding leaves. A call
    feeds with `FeedUpTo(BONEMEAL_PER_QUEUED, grows)`; the properties of the
    iteration below rest only on the predicates stated about the feeder.
   */
  type Feeder = (Block, seq<Stack>, nat) -> Fed

  /** The feeding loop of `bonemealSaplingFromInventory` with `per` attempts. */
  function FeedUpTo(per: nat, grows: set<nat>): Feeder
  {
    (b: Block, inv: seq<Stack>, k: nat) => Feed(b, inv, per, grows, k)
  }

  /** Every bone meal the feeder reports used leaves the inventory, and only those. */
  ghost predicate FeedsAccountably(feed: Feeder)
  {
    forall b: Block, inv: seq<Stack>, k: nat ::
      CountOf(feed(b, inv, k).inv, BoneMeal) + feed(b, inv, k).used == CountOf(inv, BoneMeal)
  }

  /** The feeder only takes from bone meal slots. */
  ghost predicate TakesOnlyBonemeal(feed: Feeder)
  {
    forall b: Block, inv: seq<Stack>, k: nat :: OnlyBonemealTaken(inv, feed(b, inv, k).inv)
  }

  /** The feeder applies at most `per` bone meal. */
  ghost predicate UsesAtMost(feed: Feeder, per: nat)
  {
    forall b: Block, inv: seq<Stack>, k: nat :: feed(b, inv, k).used <= per
  }

  /** Without bone meal the feeder changes nothing. */
  ghost predicate IdleWithout(feed: Feeder)
  {
    forall b: Block, inv: seq<Stack>, k: nat :: CountOf(inv, BoneMeal) == 0 ==> feed(b, inv, k) == Fed(0, inv, b)
  }

  /** With `per` bone meal to spare the feeder applies all `per` and the sapling stays. */
  ghost predicate FeedsFully(feed: Feeder, per: nat)
  {
    forall b: Block, inv: seq<Stack>, k: nat :: b.SaplingBlock? && CountOf(inv, BoneMeal) >= per ==>
      feed(b, inv, k).used == per && feed(b, inv, k).block == b
  }

  /**
    The iteration of `processBonemealQueue` over `q`, `processed` saplings
    fed so far and `k` applications made: an entry whose block is no longer a
    sapling is removed; a sapling is fed by `feed`, up to `per` applications
    (two in the mod), each taking bone meal from the first slot holding some.
    When no bone meal is left at an application the call returns, keeping
    this entry and all after it; otherwise the entry is removed and counts as
    processed.
   */
  function Drain(q: seq<Pos>, w: World, inv: seq<Stack>, feed: Feeder, per: nat, processed: nat, k: nat): (r: Drained)
    decreases |q|
  {
    if |q| == 0 || processed >= POSITIONS_PER_CALL then Drained(q, w, inv, processed, 0, false)
    else if !w(q[0]).SaplingBlock? then Drain(q[1..], w, inv, feed, per, processed, k)
    else
      var f := feed(w(q[0]), inv, k);
      var w' := SetBlock(w, q[0], f.block);
      if f.used < per && CountOf(f.inv, BoneMeal) == 0 then
        Drained(q, w', f.inv, processed, f.used, true)
      else
        var rest := Drain(q[1..], w', f.inv, feed, per, processed + 1, k + f.used);
        Drained(rest.queue, rest.world, rest.inv, rest.processed, rest.used + f.used, rest.outOfMeal)
  }

  /** The roamer's queue, the level and the inventory after one call, with the bone meal used. */
  datatype QueueOutcome = QueueOutcome(queue: seq<Pos>, world: World, inv: seq<Stack>, used: nat)

  /**
    `processBonemealQueue(entity, level, inventory)` for a roamer whose queue
    is `q` (an absent queue is the empty one) at tick `tick`: nothing
    happens for an empty queue or off a server level; otherwise the queue is
    trimmed to its newest `MAX_QUEUE` entries, swept of stale entries every
    `STALE_SWEEP_TICKS` ticks, and drained.
   */
  function ProcessBonemealQueue(q: seq<Pos>, w: World, serverSide: bool, inv: seq<Stack>, tick: nat, grows: set<nat>): (r: QueueOutcome)
    ensures |q| == 0 || !serverSide ==> r == QueueOutcome(q, w, inv, 0)
  {
    if |q| == 0 || !serverSide then QueueOutcome(q, w, inv, 0)
    else
      var d := Drain(Swept(q, w, tick), w, inv, FeedUpTo(BONEMEAL_PER_QUEUED, grows), BONEMEAL_PER_QUEUED, 0, 0);
      QueueOutcome(d.queue, d.world, d.inv, d.used)
  }

  /**
    `n` times `a`, as repeated addition: bounds on bone meal stated this way
    keep the solver's arithmetic linear.
   */
  function Times(a: nat, n: nat): nat
  {
    if n == 0 then 0 else Times(a, n - 1) + a
  }

  /** Repeated addition is multiplication. */
  lemma {:induction false} TimesIsProduct(a: nat, n: nat)
    ensures Times(a, n) == a * n
  {
    if n > 0 {
      TimesIsProduct(a, n - 1);
      MulStep(a, n - 1);
    }
  }

  /** One more factor `a` in a product. */
  lemma MulStep(a: nat, n: nat)
    ensures a * (n + 1) == a * n + a
  {
  }

  /** A sapling that never grows stays where it is, whatever the feeding loop does. */
  lemma {:induction false} FeedKeepsBlock(b: Block, inv: seq<Stack>, left: nat, grows: set<nat>, k: nat)
    requires forall j :: k <= j < k + left ==> j !in grows
    ensures Feed(b, inv, left, grows, k).block == b
    decreases left
  {
    if !FeedStops(b, inv, left) {
      FeedKeepsBlock(b, TakeBonemeal(inv), left - 1, grows, k + 1);
    }
  }

  /** The call's feeder accounts for its bone meal, takes only bone meal, and uses at most `per`. */
  lemma FeedUpToAccounts(per: nat, grows: set<nat>)
    ensures FeedsAccountably(FeedUpTo(per, grows))
    ensures TakesOnlyBonemeal(FeedUpTo(per, grows))
    ensures UsesAtMost(FeedUpTo(per, grows), per)
  {
    var feed := FeedUpTo(per, grows);
    forall b: Block, inv: seq<Stack>, k: nat
      ensures CountOf(feed(b, inv, k).inv, BoneMeal) + feed(b, inv, k).used == CountOf(inv, BoneMeal)
      ensures OnlyBonemealTaken(inv, feed(b, inv, k).inv)
      ensures feed(b, inv, k).used <= per
    {
      assert feed(b, inv, k) == Feed(b, inv, per, grows, k);
      FeedAccounting(b, inv, per, grows, k);
      FeedTakesBonemeal(b, inv, per, grows, k);
    }
  }

  /** The call's feeder does nothing without bone meal. */
  lemma FeedUpToIdle(per: nat, grows: set<nat>)
    ensures IdleWithout(FeedUpTo(per, grows))
  {
    var feed := FeedUpTo(per, grows);
    forall b: Block, inv: seq<Stack>, k: nat | CountOf(inv, BoneMeal) == 0
      ensures feed(b, inv, k) == Fed(0, inv, b)
    {
      assert feed(b, inv, k) == Feed(b, inv, per, grows, k);
      assert FeedStops(b, inv, per);
    }
  }

  /** When no sapling grows, the call's feeder applies all `per` bone meal it has to spare. */
  lemma FeedUpToFully(per: nat, grows: set<nat>)
    requires grows == {}
    ensures FeedsFully(FeedUpTo(per, grows), per)
  {
    var feed := FeedUpTo(per, grows);
    forall b: Block, inv: seq<Stack>, k: nat | b.SaplingBlock? && CountOf(inv, BoneMeal) >= per
      ensures feed(b, inv, k).used == per && feed(b, inv, k).block == b
    {
      assert feed(b, inv, k) == Feed(b, inv, per, grows, k);
      FeedUsesAll(b, inv, per, grows, k);
      FeedKeepsBlock(b, inv, per, grows, k);
    }
  }

  /** What the iteration leaves queued is a suffix of what it was given, and it processes at most `POSITIONS_PER_CALL` saplings. */
  lemma {:induction false} DrainSuffix(q: seq<Pos>, w: World, inv: seq<Stack>, feed: Feeder, per: nat, processed: nat, k: nat)
    requires processed <= POSITIONS_PER_CALL
    ensures var r := Drain(q, w, inv, feed, per, processed, k);
            && |r.queue| <= |q| && r.queue == q[|q| - |r.queue|..]
            && processed <= r.processed <= POSITIONS_PER_CALL
    decreases |q|
  {
    if |q| == 0 || processed >= POSITIONS_PER_CALL {
    } else if !w(q[0]).SaplingBlock? {
      assert Drain(q, w, inv, feed, per, processed, k) == Drain(q[1..], w, inv, feed, per, processed, k);
      DrainSuffix(q[1..], w, inv, feed, per, processed, k);
    } else {
      var f := feed(w(q[0]), inv, k);
      if !(f.used < per && CountOf(f.inv, BoneMeal) == 0) {
        var w' := SetBlock(w, q[0], f.block);
        var rest := Drain(q[1..], w', f.inv, feed, per, processed + 1, k + f.used);
        assert Drain(q, w, inv, feed, per, processed, k)
            == Drained(rest.queue, rest.world, rest.inv, rest.processed, rest.used + f.used, rest.outOfMeal);
        DrainSuffix(q[1..], w', f.inv, feed, per, processed + 1, k + f.used);
      }
    }
  }

  /** The bone meal the iteration reports used is what left the inventory. */
  lemma {:induction false} DrainAccounting(q: seq<Pos>, w: World, inv: seq<Stack>, feed: Feeder, per: nat, processed: nat, k: nat)
    requires FeedsAccountably(feed)
    ensures var r := Drain(q, w, inv, feed, per, processed, k);
            CountOf(r.inv, BoneMeal) + r.used == CountOf(inv, BoneMeal)
    decreases |q|
  {
    if |q| == 0 || processed >= POSITIONS_PER_CALL {
    } else if !w(q[0]).SaplingBlock? {
      assert Drain(q, w, inv, feed, per, processed, k) == Drain(q[1..], w, inv, feed, per, processed, k);
      DrainAccounting(q[1..], w, inv, feed, per, processed, k);
    } else {
      var f := feed(w(q[0]), inv, k);
      assert CountOf(f.inv, BoneMeal) + f.used == CountOf(inv, BoneMeal);
      if !(f.used < per && CountOf(f.inv, BoneMeal) == 0) {
        var w' := SetBlock(w, q[0], f.block);
        var rest := Drain(q[1..], w', f.inv, feed, per, processed + 1, k + f.used);
        assert Drain(q, w, inv, feed, per, processed, k)
            == Drained(rest.queue, rest.world, rest.inv, rest.processed, rest.used + f.used, rest.outOfMeal);
        DrainAccounting(q[1..], w', f.inv, feed, per, processed + 1, k + f.used);
      }
    }
  }

  /** The iteration only takes from bone meal slots, so every other item stays where it was. */
  lemma {:induction false} DrainTakesBonemeal(q: seq<Pos>, w: World, inv: seq<Stack>, feed: Feeder, per: nat, processed: nat, k: nat)
    requires TakesOnlyBonemeal(feed)
    ensures OnlyBonemealTaken(inv, Drain(q, w, inv, feed, per, processed, k).inv)
    decreases |q|
  {
    if |q| == 0 || processed >= POSITIONS_PER_CALL {
    } else if !w(q[0]).SaplingBlock? {
      assert Drain(q, w, inv, feed, per, processed, k) == Drain(q[1..], w, inv, feed, per, processed, k);
      DrainTakesBonemeal(q[1..], w, inv, feed, per, processed, k);
    } else {
      var f := feed(w(q[0]), inv, k);
      assert OnlyBonemealTaken(inv, f.inv);
      if !(f.used < per && CountOf(f.inv, BoneMeal) == 0) {
        var w' := SetBlock(w, q[0], f.block);
        var rest := Drain(q[1..], w', f.inv, feed, per, processed + 1, k + f.used);
        assert Drain(q, w, inv, feed, per, processed, k)
            == Drained(rest.queue, rest.world, rest.inv, rest.processed, rest.used + f.used, rest.outOfMeal);
        DrainTakesBonemeal(q[1..], w', f.inv, feed, per, processed + 1, k + f.used);
        TakenTrans(inv, f.inv, rest.inv);
      }
    }
  }

  /** The level changes only at queued positions. */
  lemma {:induction false} DrainFrame(q: seq<Pos>, w: World, inv: seq<Stack>, feed: Feeder, per: nat, processed: nat, k: nat)
    ensures var r := Drain(q, w, inv, feed, per, processed, k);
            forall p :: p !in q ==> r.world(p) == w(p)
    decreases |q|
  {
    if |q| == 0 || processed >= POSITIONS_PER_CALL {
    } else if !w(q[0]).SaplingBlock? {
      assert Drain(q, w, inv, feed, per, processed, k) == Drain(q[1..], w, inv, feed, per, processed, k);
      DrainFrame(q[1..], w, inv, feed, per, processed, k);
    } else {
      var f := feed(w(q[0]), inv, k);
      if !(f.used < per && CountOf(f.inv, BoneMeal) == 0) {
        var w' := SetBlock(w, q[0], f.block);
        var rest := Drain(q[1..], w', f.inv, feed, per, processed + 1, k + f.used);
        assert Drain(q, w, inv, feed, per, processed, k)
            == Drained(rest.queue, rest.world, rest.inv, rest.processed, rest.used + f.used, rest.outOfMeal);
        DrainFrame(q[1..], w', f.inv, feed, per, processed + 1, k + f.used);
      }
    }
  }

  /**
    How the iteration ends: either it ran out of bone meal, with none left
    and the sapling it was feeding still queued at the front, or it stopped
    at the end of the queue or after `POSITIONS_PER_CALL` saplings.
   */
  lemma {:induction false} DrainStops(q: seq<Pos>, w: World, inv: seq<Stack>, feed: Feeder, per: nat, processed: nat, k: nat)
    ensures var r := Drain(q, w, inv, feed, per, processed, k);
            && (r.outOfMeal ==> CountOf(r.inv, BoneMeal) == 0 && |r.queue| > 0 && r.processed < POSITIONS_PER_CALL)
            && (!r.outOfMeal ==> |r.queue| == 0 || r.processed >= POSITIONS_PER_CALL)
    decreases |q|
  {
    if |q| == 0 || processed >= POSITIONS_PER_CALL {
    } else if !w(q[0]).SaplingBlock? {
      assert Drain(q, w, inv, feed, per, processed, k) == Drain(q[1..], w, inv, feed, per, processed, k);
      DrainStops(q[1..], w, inv, feed, per, processed, k);
    } else {
      var f := feed(w(q[0]), inv, k);
      if !(f.used < per && CountOf(f.inv, BoneMeal) == 0) {
        var w' := SetBlock(w, q[0], f.block);
        var rest := Drain(q[1..], w', f.inv, feed, per, processed + 1, k + f.used);
        assert Drain(q, w, inv, feed, per, processed, k)
            == Drained(rest.queue, rest.world, rest.inv, rest.processed, rest.used + f.used, rest.outOfMeal);
        DrainStops(q[1..], w', f.inv, feed, per, processed + 1, k + f.used);
      }
    }
  }

  /** At most `per` bone meal for each sapling the iteration processed or ran out of bone meal at. */
  lemma {:induction false} DrainBound(q: seq<Pos>, w: World, inv: seq<Stack>, feed: Feeder, per: nat, processed: nat, k: nat)
    requires UsesAtMost(feed, per)
    ensures var r := Drain(q, w, inv, feed, per, processed, k);
            && processed <= r.processed
            && r.used <= per * (r.processed - processed + (if r.outOfMeal then 1 else 0))
    decreases |q|
  {
    if |q| == 0 || processed >= POSITIONS_PER_CALL {
    } else if !w(q[0]).SaplingBlock? {
      assert Drain(q, w, inv, feed, per, processed, k) == Drain(q[1..], w, inv, feed, per, processed, k);
      DrainBound(q[1..], w, inv, feed, per, processed, k);
    } else {
      var f := feed(w(q[0]), inv, k);
      assert f.used <= per;
      if !(f.used < per && CountOf(f.inv, BoneMeal) == 0) {
        var w' := SetBlock(w, q[0], f.block);
        var rest := Drain(q[1..], w', f.inv, feed, per, processed + 1, k + f.used);
        assert Drain(q, w, inv, feed, per, processed, k)
            == Drained(rest.queue, rest.world, rest.inv, rest.processed, rest.used + f.used, rest.outOfMeal);
        DrainBound(q[1..], w', f.inv, feed, per, processed + 1, k + f.used);
        var t := rest.processed - (processed + 1) + (if rest.outOfMeal then 1 else 0);
        MulStep(per, t);
      }
    }
  }

  /**
    Without bone meal nothing is fed: the level and the inventory stay as
    they are, and the iteration only drops the stale entries in front of the
    first queued sapling, where it stops.
   */
  lemma {:induction false} DrainWithoutBonemeal(q: seq<Pos>, w: World, inv: seq<Stack>, feed: Feeder, per: nat, processed: nat, k: nat)
    requires IdleWithout(feed)
    requires CountOf(inv, BoneMeal) == 0
    requires 0 < per && processed < POSITIONS_PER_CALL
    ensures var r := Drain(q, w, inv, feed, per, processed, k);
            && r.used == 0 && r.inv == inv && r.processed == processed
            && (forall p :: r.world(p) == w(p))
            && (|r.queue| > 0 ==> w(r.queue[0]).SaplingBlock? && r.outOfMeal)
    decreases |q|
  {
    if |q| == 0 {
    } else if !w(q[0]).SaplingBlock? {
      assert Drain(q, w, inv, feed, per, processed, k) == Drain(q[1..], w, inv, feed, per, processed, k);
      DrainWithoutBonemeal(q[1..], w, inv, feed, per, processed, k);
    } else {
      assert feed(w(q[0]), inv, k) == Fed(0, inv, w(q[0]));
    }
  }

  /**
    With every queued entry a sapling the feeder feeds fully and `per` bone
    meal for each, the iteration feeds the first `POSITIONS_PER_CALL`
    saplings (fewer if the queue is shorter) `per` bone meal each and
    removes them.
   */
  lemma {:induction false} DrainFull(q: seq<Pos>, w: World, inv: seq<Stack>, feed: Feeder, per: nat, processed: nat, k: nat)
    requires FeedsAccountably(feed) && FeedsFully(feed, per)
    requires processed <= POSITIONS_PER_CALL
    requires forall i :: 0 <= i < |q| ==> w(q[i]).SaplingBlock?
    requires CountOf(inv, BoneMeal) >= Times(per, |q|)
    ensures var r := Drain(q, w, inv, feed, per, processed, k);
            var n := Min(|q|, POSITIONS_PER_CALL - processed);
            && r.queue == q[n..] && r.processed == processed + n
            && r.used == Times(per, n) && !r.outOfMeal
    decreases |q|
  {
    if |q| == 0 || processed >= POSITIONS_PER_CALL {
      assert Min(|q|, POSITIONS_PER_CALL - processed) == 0;
    } else {
      var inv', w' := DrainFeedsFirst(q, w, inv, feed, per, processed, k);
      DrainFull(q[1..], w', inv', feed, per, processed + 1, k + per);
      var n := Min(|q|, POSITIONS_PER_CALL - processed);
      assert Min(|q[1..]|, POSITIONS_PER_CALL - (processed + 1)) == n - 1;
      assert q[1..][n - 1..] == q[n..];
      assert Times(per, n) == Times(per, n - 1) + per;
    }
  }

  /**
    One step of the iteration at a sapling the feeder feeds fully, with
    `per` bone meal to spare: all `per` are applied, the entry is done, and
    the rest of the queue is still all saplings, with bone meal for each.
   */
  lemma DrainFeedsFirst(q: seq<Pos>, w: World, inv: seq<Stack>, feed: Feeder, per: nat, processed: nat, k: nat)
    returns (inv': seq<Stack>, w': World)
    requires FeedsAccountably(feed) && FeedsFully(feed, per)
    requires 0 < |q| && processed < POSITIONS_PER_CALL
    requires forall i :: 0 <= i < |q| ==> w(q[i]).SaplingBlock?
    requires CountOf(inv, BoneMeal) >= Times(per, |q|)
    ensures forall i :: 0 <= i < |q| - 1 ==> w'(q[1..][i]).SaplingBlock?
    ensures CountOf(inv', BoneMeal) >= Times(per, |q| - 1)
    ensures var rest := Drain(q[1..], w', inv', feed, per, processed + 1, k + per);
            Drain(q, w, inv, feed, per, processed, k)
            == Drained(rest.queue, rest.world, rest.inv, rest.processed, rest.used + per, rest.outOfMeal)
  {
    assert Times(per, |q|) == Times(per, |q| - 1) + per;
    var f := feed(w(q[0]), inv, k);
    assert w(q[0]).SaplingBlock?;
    assert f.used == per && f.block == w(q[0]);
    inv' := f.inv;
    w' := SetBlock(w, q[0], f.block);
    forall i | 0 <= i < |q| - 1 ensures w'(q[1..][i]).SaplingBlock? {
      assert w(q[i + 1]).SaplingBlock?;
    }
  }

  /** A product grows with its second factor. */
  lemma MulMono(a: nat, x: nat, y: nat)
    requires x <= y
    ensures a * x <= a * y
  {
  }

  /** Sweeping a queue of saplings removes nothing. */
  lemma {:induction false} DropStaleKeepsSaplings(w: World, q: seq<Pos>)
    requires forall i :: 0 <= i < |q| ==> w(q[i]).SaplingBlock?
    ensures DropStale(w, q) == q
    decreases |q|
  {
    if |q| > 0 {
      DropStaleKeepsSaplings(w, q[1..]);
      assert [q[0]] + q[1..] == q;
    }
  }

  /** The queue that `processBonemealQueue` iterates over: trimmed, and swept on a sweep tick. */
  function Swept(q: seq<Pos>, w: World, tick: nat): (r: seq<Pos>)
    ensures |r| <= MAX_QUEUE
    ensures forall p :: p in r ==> p in q
    ensures tick % STALE_SWEEP_TICKS != 0 ==> r == Trim(q)
    ensures tick % STALE_SWEEP_TICKS == 0 ==> forall p :: p in r <==> p in Trim(q) && w(p).SaplingBlock?
  {
    if tick % STALE_SWEEP_TICKS == 0 then DropStale(w, Trim(q)) else Trim(q)
  }

  /**
    The queue after a call keeps at most `MAX_QUEUE` entries, all of them
    from the queue before; off a sweep tick it is a suffix of it.
   */
  lemma ProcessQueueShape(q: seq<Pos>, w: World, serverSide: bool, inv: seq<Stack>, tick: nat, grows: set<nat>)
    ensures var r := ProcessBonemealQueue(q, w, serverSide, inv, tick, grows);
            && (serverSide ==> |r.queue| <= MAX_QUEUE)
            && (forall p :: p in r.queue ==> p in q)
            && (tick % STALE_SWEEP_TICKS != 0 ==> |r.queue| <= |q| && r.queue == q[|q| - |r.queue|..])
  {
    if |q| > 0 && serverSide {
      var swept := Swept(q, w, tick);
      var rq := ProcessBonemealQueue(q, w, serverSide, inv, tick, grows).queue;
      QueueIsSweptSuffix(q, w, inv, tick, grows);
      SuffixMembers(swept, rq);
      if tick % STALE_SWEEP_TICKS != 0 {
        SuffixOfSuffix(q, swept, rq);
      }
    }
  }

  /** On the server a non-empty queue ends as a suffix of the swept queue. */
  lemma QueueIsSweptSuffix(q: seq<Pos>, w: World, inv: seq<Stack>, tick: nat, grows: set<nat>)
    requires |q| > 0
    ensures var rq := ProcessBonemealQueue(q, w, true, inv, tick, grows).queue;
            var swept := Swept(q, w, tick);
            |rq| <= |swept| && rq == swept[|swept| - |rq|..]
  {
    var swept := Swept(q, w, tick);
    DrainSuffix(swept, w, inv, FeedUpTo(BONEMEAL_PER_QUEUED, grows), BONEMEAL_PER_QUEUED, 0, 0);
  }

  /** The entries of a suffix are entries of the whole. */
  lemma SuffixMembers(a: seq<Pos>, b: seq<Pos>)
    requires |b| <= |a| && b == a[|a| - |b|..]
    ensures forall p :: p in b ==> p in a
  {
    forall p | p in b ensures p in a {
      var i :| 0 <= i < |b| && b[i] == p;
      assert a[|a| - |b| + i] == p;
    }
  }

  /** A suffix of a suffix is a suffix. */
  lemma SuffixOfSuffix(a: seq<Pos>, b: seq<Pos>, c: seq<Pos>)
    requires |b| <= |a| && b == a[|a| - |b|..]
    requires |c| <= |b| && c == b[|b| - |c|..]
    ensures c == a[|a| - |c|..]
  {
    assert forall i :: 0 <= i < |c| ==> c[i] == a[|a| - |c| + i];
  }

  /**
    The bone meal a call reports used leaves the inventory, at most
    `BONEMEAL_PER_QUEUED` for each of at most `POSITIONS_PER_CALL` saplings,
    and only bone meal slots change.
   */
  lemma ProcessQueueAccounting(q: seq<Pos>, w: World, serverSide: bool, inv: seq<Stack>, tick: nat, grows: set<nat>)
    ensures var r := ProcessBonemealQueue(q, w, serverSide, inv, tick, grows);
            && CountOf(r.inv, BoneMeal) + r.used == CountOf(inv, BoneMeal)
            && OnlyBonemealTaken(inv, r.inv)
            && r.used <= BONEMEAL_PER_QUEUED * POSITIONS_PER_CALL
  {
    var r := ProcessBonemealQueue(q, w, serverSide, inv, tick, grows);
    if |q| > 0 && serverSide {
      var swept := Swept(q, w, tick);
      var feed := FeedUpTo(BONEMEAL_PER_QUEUED, grows);
      FeedUpToAccounts(BONEMEAL_PER_QUEUED, grows);
      var d := Drain(swept, w, inv, feed, BONEMEAL_PER_QUEUED, 0, 0);
      assert r == QueueOutcome(d.queue, d.world, d.inv, d.used);
      DrainAccounting(swept, w, inv, feed, BONEMEAL_PER_QUEUED, 0, 0);
      DrainTakesBonemeal(swept, w, inv, feed, BONEMEAL_PER_QUEUED, 0, 0);
      DrainBound(swept, w, inv, feed, BONEMEAL_PER_QUEUED, 0, 0);
      DrainStops(swept, w, inv, feed, BONEMEAL_PER_QUEUED, 0, 0);
      DrainSuffix(swept, w, inv, feed, BONEMEAL_PER_QUEUED, 0, 0);
      MulMono(BONEMEAL_PER_QUEUED, d.processed + (if d.outOfMeal then 1 else 0), POSITIONS_PER_CALL);
    } else {
      assert r.inv == inv;
    }
  }

  /** A call changes the level only at positions that were queued. */
  lemma ProcessQueueFrame(q: seq<Pos>, w: World, serverSide: bool, inv: seq<Stack>, tick: nat, grows: set<nat>)
    ensures var r := ProcessBonemealQueue(q, w, serverSide, inv, tick, grows);
            forall p :: p !in q ==> r.world(p) == w(p)
  {
    if |q| > 0 && serverSide {
      var swept := Swept(q, w, tick);
      var feed := FeedUpTo(BONEMEAL_PER_QUEUED, grows);
      assert ProcessBonemealQueue(q, w, serverSide, inv, tick, grows).world
          == Drain(swept, w, inv, feed, BONEMEAL_PER_QUEUED, 0, 0).world;
      DrainFrame(swept, w, inv, feed, BONEMEAL_PER_QUEUED, 0, 0);
    }
  }

  /**
    Without bone meal a call feeds nothing: the level and the inventory are
    unchanged, and what stays queued starts at a sapling.
   */
  lemma ProcessQueueWithoutBonemeal(q: seq<Pos>, w: World, serverSide: bool, inv: seq<Stack>, tick: nat, grows: set<nat>)
    requires CountOf(inv, BoneMeal) == 0
    ensures var r := ProcessBonemealQueue(q, w, serverSide, inv, tick, grows);
            && r.used == 0 && r.inv == inv
            && (forall p :: r.world(p) == w(p))
            && (serverSide && |r.queue| > 0 ==> w(r.queue[0]).SaplingBlock?)
  {
    if |q| > 0 && serverSide {
      var swept := Swept(q, w, tick);
      var feed := FeedUpTo(BONEMEAL_PER_QUEUED, grows);
      FeedUpToIdle(BONEMEAL_PER_QUEUED, grows);
      var d := Drain(swept, w, inv, feed, BONEMEAL_PER_QUEUED, 0, 0);
      assert ProcessBonemealQueue(q, w, serverSide, inv, tick, grows) == QueueOutcome(d.queue, d.world, d.inv, d.used);
      DrainWithoutBonemeal(swept, w, inv, feed, BONEMEAL_PER_QUEUED, 0, 0);
    }
  }

  /**
    A queue of at most `MAX_QUEUE` saplings that do not grow, with two bone
    meal for each: the first `POSITIONS_PER_CALL` of them (all, if fewer) get
    two bone meal each and leave the queue, the rest stay in order.
   */
  lemma ProcessQueueFull(q: seq<Pos>, w: World, inv: seq<Stack>, tick: nat, grows: set<nat>)
    requires |q| <= MAX_QUEUE
    requires forall i :: 0 <= i < |q| ==> w(q[i]).SaplingBlock?
    requires CountOf(inv, BoneMeal) >= BONEMEAL_PER_QUEUED * |q|
    requires grows == {}
    ensures var r := ProcessBonemealQueue(q, w, true, inv, tick, grows);
            var n := Min(|q|, POSITIONS_PER_CALL);
            r.queue == q[n..] && r.used == BONEMEAL_PER_QUEUED * n
  {
    if |q| > 0 {
      assert Trim(q) == q;
      DropStaleKeepsSaplings(w, q);
      assert Swept(q, w, tick) == q;
      TimesIsProduct(BONEMEAL_PER_QUEUED, |q|);
      TimesIsProduct(BONEMEAL_PER_QUEUED, Min(|q|, POSITIONS_PER_CALL));
      FeedUpToAccounts(BONEMEAL_PER_QUEUED, grows);
      FeedUpToFully(BONEMEAL_PER_QUEUED, grows);
      DrainFull(q, w, inv, FeedUpTo(BONEMEAL_PER_QUEUED, grows), BONEMEAL_PER_QUEUED, 0, 0);
    }
  }

  // ---------------------------------------------------------------- hasSaplingNearby

  /** Blocks that keep a new sapling away: saplings and logs. */
  predicate Crowds(b: Block)
  {
    b.SaplingBlock? || InLogsTag(b)
  }

  /** `q` lies in the box `hasSaplingNearby(level, p, radius)` looks at: x and z within `radius` of `p`, y within 2. */
  predicate InNearBox(p: Pos, radius: int, q: Pos)
  {
    p.x - radius <= q.x <= p.x + radius && p.z - radius <= q.z <= p.z + radius && p.y - 2 <= q.y <= p.y + 2
  }

  /** The scan of the column (`x`, `z`) from height `y`. */
  function NearbyY(w: World, p: Pos, x: int, z: int, y: int): (r: bool)
    ensures !r <==> forall q: Pos :: q.x == x && q.z == z && y <= q.y <= p.y + 2 ==> !Crowds(w(q))
    decreases p.y + 3 - y
  {
    if y > p.y + 2 then false
    else Crowds(w(Pos(x, y, z))) || NearbyY(w, p, x, z, y + 1)
  }

  /** The scan of the columns at `x` from `z` on. */
  function NearbyZ(w: World, p: Pos, radius: int, x: int, z: int): (r: bool)
    ensures !r <==> forall q: Pos :: q.x == x && z <= q.z <= p.z + radius && p.y - 2 <= q.y <= p.y + 2 ==> !Crowds(w(q))
    decreases p.z + radius + 1 - z
  {
    if z > p.z + radius then false
    else NearbyY(w, p, x, z, p.y - 2) || NearbyZ(w, p, radius, x, z + 1)
  }

  /** The scan of the rows from `x` on. */
  function NearbyX(w: World, p: Pos, radius: int, x: int): (r: bool)
    requires p.x - radius <= x
    ensures !r <==> forall q: Pos :: x <= q.x && InNearBox(p, radius, q) ==> !Crowds(w(q))
    decreases p.x + radius + 1 - x
  {
    if x > p.x + radius then false
    else NearbyZ(w, p, radius, x, p.z - radius) || NearbyX(w, p, radius, x + 1)
  }

  /** `hasSaplingNearby(level, pos, radius)`: some block of the box around `pos` is a sapling or a log. */
  function HasSaplingNearby(w: World, p: Pos, radius: int): (r: bool)
    ensures !r <==> forall q: Pos {:trigger InNearBox(p, radius, q)} :: InNearBox(p, radius, q) ==> !Crowds(w(q))
  {
    NearbyX(w, p, radius, p.x - radius)
  }

  // ---------------------------------------------------------------- plantSaplingsFromInventory

  /** Attempts per call. */
  const PLANT_ATTEMPTS: nat := 15

  /** Saplings planted per call at most. */
  const MAX_PLANTED: nat := 2

  /** Farther than this squared distance from home the roamer does not plant. */
  const MAX_HOME_DIST_SQR: int := 400

  /** With more saplings than this waiting for bone meal the roamer does not plant. */
  const MAX_PENDING: nat := 50

  /** Half the side of the square around home kept clear for building. */
  const BUILD_AREA: int := 4

  /** Half the side of the box that must hold no sapling or log. */
  const SPACING: int := 2

  /** A draw `(x, z)` that is skipped: inside the building area or outside the circle of the radius. */
  predicate SkipsDraw(x: int, z: int, radius: int)
  {
    (Abs(x) <= BUILD_AREA && Abs(z) <= BUILD_AREA) || x * x + z * z > radius * radius
  }

  /** Where a planted spot may be: in a column of a kept draw around home, within five blocks of home's height. */
  predicate InPlot(home: Pos, radius: int, p: Pos)
  {
    !SkipsDraw(p.x - home.x, p.z - home.z, radius) && home.y - 5 <= p.y <= home.y + 5
  }

  /**
    The random draws that are not skipped, in order. A skipped draw changes
    nothing, so the attempts can run over these alone.
   */
  function KeptDraws(draws: seq<(int, int)>, radius: int): (r: seq<(int, int)>)
    ensures |r| <= |draws|
    ensures forall d :: d in r <==> d in draws && !SkipsDraw(d.0, d.1, radius)
    decreases |draws|
  {
    if |draws| == 0 then []
    else if SkipsDraw(draws[0].0, draws[0].1, radius) then KeptDraws(draws[1..], radius)
    else [draws[0]] + KeptDraws(draws[1..], radius)
  }

  /**
    One attempt at offset `off` from home: the lowest valid spot of that
    column within five blocks of home's height, unless a sapling or log is in
    the box around it. The check that the spot is air or replaceable is part
    of validity, so it is not repeated.
   */
  function Attempt(w: World, home: Pos, off: (int, int)): (r: Option<Pos>)
    ensures r.Some? ==> IsValidSaplingSpot(w, r.value) && !HasSaplingNearby(w, r.value, SPACING)
    ensures r.Some? ==> (r.value.x - home.x, r.value.z - home.z) == off && home.y - 5 <= r.value.y <= home.y + 5
    ensures r.None? ==> FindValidSaplingPosition(w, Offset(home, off.0, 0, off.1)).None?
                        || HasSaplingNearby(w, FindValidSaplingPosition(w, Offset(home, off.0, 0, off.1)).value, SPACING)
  {
    var found := FindValidSaplingPosition(w, Offset(home, off.0, 0, off.1));
    if found.None? || HasSaplingNearby(w, found.value, SPACING) then None else found
  }

  /** How an attempt picks a spot: in the level it sees, from the offset it is given. */
  type Chooser = (World, (int, int)) -> Option<Pos>

  /** A chooser whose spots are valid and have no sapling or log around them. */
  ghost predicate ChoosesSafely(choose: Chooser)
  {
    forall w: World, off: (int, int) :: choose(w, off).Some? ==>
      IsValidSaplingSpot(w, choose(w, off).value) && !HasSaplingNearby(w, choose(w, off).value, SPACING)
  }

  /** A chooser whose spots lie in the column of the offset, within five blocks of home's height. */
  ghost predicate ChoosesInColumn(choose: Chooser, home: Pos)
  {
    forall w: World, off: (int, int) :: choose(w, off).Some? ==>
      && choose(w, off).value.x == home.x + off.0 && choose(w, off).value.z == home.z + off.1
      && home.y - 5 <= choose(w, off).value.y <= home.y + 5
  }

  datatype Plants = Plants(world: World, spots: seq<Pos>)

  /**
    The attempts of `plantSaplingsFromInventory` over the kept offsets
    `offs`, with `budget` saplings left to plant: each attempt chooses a spot
    in the level as it is by then, and a chosen spot gets the sapling.
   */
  function PlantLoop(w: World, offs: seq<(int, int)>, choose: Chooser, sapling: Block, budget: nat): (r: Plants)
    ensures |r.spots| <= budget
    decreases |offs|
  {
    if |offs| == 0 || budget == 0 then Plants(w, [])
    else
      var found := choose(w, offs[0]);
      if found.None? then PlantLoop(w, offs[1..], choose, sapling, budget)
      else
        var rest := PlantLoop(SetBlock(w, found.value, sapling), offs[1..], choose, sapling, budget - 1);
        Plants(rest.world, [found.value] + rest.spots)
  }

  /** `w'` agrees with `w` everywhere outside `spots`. */
  ghost predicate SameOutside(w: World, w': World, spots: seq<Pos>)
  {
    forall q :: q !in spots ==> w'(q) == w(q)
  }

  /** Every spot holds `b` in `w`. */
  predicate AllHold(w: World, spots: seq<Pos>, b: Block)
  {
    forall i :: 0 <= i < |spots| ==> w(spots[i]) == b
  }

  /** The loop changes the level only at the spots it reports, each of which ends up holding the sapling. */
  lemma {:induction false} PlantLoopFrame(w: World, offs: seq<(int, int)>, choose: Chooser, sapling: Block, budget: nat)
    ensures SameOutside(w, PlantLoop(w, offs, choose, sapling, budget).world, PlantLoop(w, offs, choose, sapling, budget).spots)
    ensures AllHold(PlantLoop(w, offs, choose, sapling, budget).world, PlantLoop(w, offs, choose, sapling, budget).spots, sapling)
    decreases |offs|
  {
    if |offs| > 0 && budget > 0 {
      var found := choose(w, offs[0]);
      if found.None? {
        var rest := PlantLoop(w, offs[1..], choose, sapling, budget);
        assert PlantLoop(w, offs, choose, sapling, budget) == rest;
        PlantLoopFrame(w, offs[1..], choose, sapling, budget);
      } else {
        var w' := SetBlock(w, found.value, sapling);
        var rest := PlantLoop(w', offs[1..], choose, sapling, budget - 1);
        var spots := [found.value] + rest.spots;
        assert PlantLoop(w, offs, choose, sapling, budget) == Plants(rest.world, spots);
        PlantLoopFrame(w', offs[1..], choose, sapling, budget - 1);
        forall q | q !in spots ensures rest.world(q) == w(q) {
          assert q !in rest.spots && w'(q) == w(q);
        }
        forall i | 0 <= i < |spots| ensures rest.world(spots[i]) == sapling {
          if i > 0 {
            assert spots[i] == rest.spots[i - 1];
          } else if spots[0] !in rest.spots {
            assert w'(spots[0]) == sapling;
          }
        }
      }
    }
  }

  /**
    The loop plants nothing exactly when no attempt finds a spot: until a
    sapling is planted the level does not change, so every attempt sees the
    level as it was.
   */
  lemma {:induction false} PlantLoopNone(w: World, offs: seq<(int, int)>, choose: Chooser, sapling: Block, budget: nat)
    requires budget > 0
    ensures |PlantLoop(w, offs, choose, sapling, budget).spots| == 0 <==> forall i :: 0 <= i < |offs| ==> choose(w, offs[i]).None?
    decreases |offs|
  {
    if |offs| > 0 && choose(w, offs[0]).None? {
      assert PlantLoop(w, offs, choose, sapling, budget) == PlantLoop(w, offs[1..], choose, sapling, budget);
      PlantLoopNone(w, offs[1..], choose, sapling, budget);
      assert forall i :: 0 < i < |offs| ==> offs[i] == offs[1..][i - 1];
    }
  }

  /**
    The budget only cuts the loop short: with a smaller budget the spots are
    the first ones planted with a larger budget, as many as the smaller
    budget allows. No spot found is ever skipped while budget remains.
   */
  lemma {:induction false} PlantLoopBudget(w: World, offs: seq<(int, int)>, choose: Chooser, sapling: Block, budget: nat, more: nat)
    requires budget <= more
    ensures var r, r' := PlantLoop(w, offs, choose, sapling, budget), PlantLoop(w, offs, choose, sapling, more);
            |r.spots| == Min(budget, |r'.spots|) && r.spots == r'.spots[..|r.spots|]
    decreases |offs|
  {
    if |offs| > 0 && budget > 0 {
      var found := choose(w, offs[0]);
      if found.None? {
        assert PlantLoop(w, offs, choose, sapling, budget) == PlantLoop(w, offs[1..], choose, sapling, budget);
        assert PlantLoop(w, offs, choose, sapling, more) == PlantLoop(w, offs[1..], choose, sapling, more);
        PlantLoopBudget(w, offs[1..], choose, sapling, budget, more);
      } else {
        var w' := SetBlock(w, found.value, sapling);
        var rest := PlantLoop(w', offs[1..], choose, sapling, budget - 1);
        var rest' := PlantLoop(w', offs[1..], choose, sapling, more - 1);
        assert PlantLoop(w, offs, choose, sapling, budget).spots == [found.value] + rest.spots;
        assert PlantLoop(w, offs, choose, sapling, more).spots == [found.value] + rest'.spots;
        PlantLoopBudget(w', offs[1..], choose, sapling, budget - 1, more - 1);
        assert [found.value] + rest.spots == ([found.value] + rest'.spots)[..1 + |rest.spots|];
      }
    }
  }

  /** Two levels that agree on the box around `p` give `p` the same verdicts. */
  lemma AgreeOnNearBox(w: World, w': World, p: Pos)
    requires forall q :: InNearBox(p, SPACING, q) ==> w'(q) == w(q)
    ensures HasSaplingNearby(w', p, SPACING) == HasSaplingNearby(w, p, SPACING)
    ensures IsValidSaplingSpot(w', p) == IsValidSaplingSpot(w, p)
  {
    assert InNearBox(p, SPACING, p) && InNearBox(p, SPACING, Above(p)) && InNearBox(p, SPACING, Below(p));
  }

  /** A spot with no sapling or log around it has none of them in its box. */
  lemma NearboxMissesPlanted(w: World, q: Pos, p: Pos)
    requires !HasSaplingNearby(w, q, SPACING) && Crowds(w(p))
    ensures !InNearBox(q, SPACING, p)
  {
  }

  /** Every spot is valid in `w` and has no sapling or log in the box around it there. */
  predicate SafeSpots(w: World, spots: seq<Pos>)
  {
    forall i :: 0 <= i < |spots| ==> IsValidSaplingSpot(w, spots[i]) && !HasSaplingNearby(w, spots[i], SPACING)
  }

  /** No spot lies in the box around a later one. */
  predicate Apart(spots: seq<Pos>)
  {
    forall i, j :: 0 <= i < j < |spots| ==> !InNearBox(spots[j], SPACING, spots[i])
  }

  /** Every spot is in the column of one of the offsets from home, within five blocks of home's height. */
  predicate InColumns(home: Pos, offs: seq<(int, int)>, spots: seq<Pos>)
  {
    forall i :: 0 <= i < |spots| ==>
      (spots[i].x - home.x, spots[i].z - home.z) in offs && home.y - 5 <= spots[i].y <= home.y + 5
  }

  /**
    A spot that is safe once a sapling stands at `p` was safe before: `p` is
    outside its box, and nothing else changed.
   */
  lemma SurvivesPlanting(w: World, w': World, p: Pos, sapling: Block, q: Pos)
    requires sapling.SaplingBlock? && w' == SetBlock(w, p, sapling)
    requires IsValidSaplingSpot(w', q) && !HasSaplingNearby(w', q, SPACING)
    ensures IsValidSaplingSpot(w, q) && !HasSaplingNearby(w, q, SPACING)
  {
    assert Crowds(w'(p));
    NearboxMissesPlanted(w', q, p);
    forall q' | InNearBox(q, SPACING, q') ensures w'(q') == w(q') {
      assert q' != p;
    }
    AgreeOnNearBox(w, w', q);
  }

  /**
    With a safe chooser, every spot the loop plants is valid, with no sapling
    or log in the box around it, already in the level before the loop, and
    no spot lies in the box around a later one: each sapling planted keeps
    the later spots out of its box.
   */
  lemma {:induction false} PlantLoopSound(w: World, offs: seq<(int, int)>, choose: Chooser, sapling: Block, budget: nat)
    requires ChoosesSafely(choose) && sapling.SaplingBlock?
    ensures SafeSpots(w, PlantLoop(w, offs, choose, sapling, budget).spots)
    ensures Apart(PlantLoop(w, offs, choose, sapling, budget).spots)
    decreases |offs|
  {
    if |offs| > 0 && budget > 0 {
      var found := choose(w, offs[0]);
      if found.None? {
        var rest := PlantLoop(w, offs[1..], choose, sapling, budget);
        assert PlantLoop(w, offs, choose, sapling, budget) == rest;
        PlantLoopSound(w, offs[1..], choose, sapling, budget);
      } else {
        var p := found.value;
        var w' := SetBlock(w, p, sapling);
        var rest := PlantLoop(w', offs[1..], choose, sapling, budget - 1);
        assert PlantLoop(w, offs, choose, sapling, budget).spots == [p] + rest.spots;
        assert IsValidSaplingSpot(w, p) && !HasSaplingNearby(w, p, SPACING);
        PlantLoopSound(w', offs[1..], choose, sapling, budget - 1);
        assert SafeSpots(w, [p] + rest.spots) by {
          SafeAfterPlanting(w, w', p, sapling, rest.spots);
        }
        assert Apart([p] + rest.spots) by {
          assert Crowds(w'(p));
          MissesPlanted(w', p, rest.spots);
          ApartAfterPlanting(p, rest.spots);
        }
      }
    }
  }

  /** Spots safe once a sapling stands at safe `p` were safe before, so `p` may lead them. */
  lemma SafeAfterPlanting(w: World, w': World, p: Pos, sapling: Block, spots: seq<Pos>)
    requires sapling.SaplingBlock? && w' == SetBlock(w, p, sapling)
    requires IsValidSaplingSpot(w, p) && !HasSaplingNearby(w, p, SPACING)
    requires SafeSpots(w', spots)
    ensures SafeSpots(w, [p] + spots)
  {
    var all := [p] + spots;
    forall i | 0 < i < |all|
      ensures IsValidSaplingSpot(w, all[i]) && !HasSaplingNearby(w, all[i], SPACING)
    {
      var q := spots[i - 1];
      assert all[i] == q;
      assert IsValidSaplingSpot(w', q) && !HasSaplingNearby(w', q, SPACING);
      SurvivesPlanting(w, w', p, sapling, q);
    }
  }

  /** Spots with no sapling or log around them in `w'` keep `p`, which holds one, out of their boxes. */
  lemma MissesPlanted(w': World, p: Pos, spots: seq<Pos>)
    requires Crowds(w'(p)) && SafeSpots(w', spots)
    ensures forall j :: 0 <= j < |spots| ==> !InNearBox(spots[j], SPACING, p)
  {
    forall j | 0 <= j < |spots| ensures !InNearBox(spots[j], SPACING, p) {
      NearboxMissesPlanted(w', spots[j], p);
    }
  }

  /** Spots apart from each other and with `p` outside their boxes stay apart with `p` leading them. */
  lemma ApartAfterPlanting(p: Pos, spots: seq<Pos>)
    requires Apart(spots)
    requires forall j :: 0 <= j < |spots| ==> !InNearBox(spots[j], SPACING, p)
    ensures Apart([p] + spots)
  {
    var all := [p] + spots;
    forall i, j | 0 <= i < j < |all| ensures !InNearBox(all[j], SPACING, all[i]) {
      if i > 0 {
        assert !InNearBox(spots[j - 1], SPACING, spots[i - 1]);
        assert all[i] == spots[i - 1] && all[j] == spots[j - 1];
      } else {
        assert !InNearBox(spots[j - 1], SPACING, p);
        assert all[i] == p && all[j] == spots[j - 1];
      }
    }
  }

  /** With a chooser that keeps to the offset's column, every spot the loop plants is in the column of one of the offsets. */
  lemma {:induction false} PlantLoopInColumns(w: World, home: Pos, offs: seq<(int, int)>, choose: Chooser, sapling: Block, budget: nat)
    requires ChoosesInColumn(choose, home)
    ensures InColumns(home, offs, PlantLoop(w, offs, choose, sapling, budget).spots)
    decreases |offs|
  {
    if |offs| > 0 && budget > 0 {
      var found := choose(w, offs[0]);
      if found.None? {
        var rest := PlantLoop(w, offs[1..], choose, sapling, budget);
        assert PlantLoop(w, offs, choose, sapling, budget) == rest;
        PlantLoopInColumns(w, home, offs[1..], choose, sapling, budget);
        InColumnsWiden(home, offs, rest.spots);
      } else {
        var p := found.value;
        var w' := SetBlock(w, p, sapling);
        var rest := PlantLoop(w', offs[1..], choose, sapling, budget - 1);
        assert PlantLoop(w, offs, choose, sapling, budget).spots == [p] + rest.spots;
        PlantLoopInColumns(w', home, offs[1..], choose, sapling, budget - 1);
        assert (p.x - home.x, p.z - home.z) == offs[0] && home.y - 5 <= p.y <= home.y + 5;
        InColumnsWiden(home, offs, rest.spots);
        InColumnsCons(home, offs, p, rest.spots);
      }
    }
  }

  /** Spots in the columns of the later offsets are in the columns of all of them. */
  lemma InColumnsWiden(home: Pos, offs: seq<(int, int)>, spots: seq<Pos>)
    requires |offs| > 0 && InColumns(home, offs[1..], spots)
    ensures InColumns(home, offs, spots)
  {
    forall i | 0 <= i < |spots| ensures (spots[i].x - home.x, spots[i].z - home.z) in offs {
      var off := (spots[i].x - home.x, spots[i].z - home.z);
      assert off in offs[1..];
      var k :| 0 <= k < |offs[1..]| && offs[1..][k] == off;
      assert offs[k + 1] == off;
    }
  }

  /** A spot in the column of the first offset may lead spots in the columns of the offsets. */
  lemma InColumnsCons(home: Pos, offs: seq<(int, int)>, p: Pos, spots: seq<Pos>)
    requires |offs| > 0 && (p.x - home.x, p.z - home.z) == offs[0] && home.y - 5 <= p.y <= home.y + 5
    requires InColumns(home, offs, spots)
    ensures InColumns(home, offs, [p] + spots)
  {
    var all := [p] + spots;
    forall i | 0 <= i < |all|
      ensures (all[i].x - home.x, all[i].z - home.z) in offs && home.y - 5 <= all[i].y <= home.y + 5
    {
      if i > 0 {
        assert all[i] == spots[i - 1];
      }
    }
  }

  /** The chooser `plantSaplingsFromInventory` uses: one attempt around `home`. */
  function AttemptAt(home: Pos): Chooser
  {
    (w: World, off: (int, int)) => Attempt(w, home, off)
  }

  /** The attempts around home choose safely. */
  lemma AttemptAtSafe(home: Pos)
    ensures ChoosesSafely(AttemptAt(home))
  {
    var c := AttemptAt(home);
    forall w: World, off: (int, int) | c(w, off).Some?
      ensures IsValidSaplingSpot(w, c(w, off).value) && !HasSaplingNearby(w, c(w, off).value, SPACING)
    {
      assert c(w, off) == Attempt(w, home, off);
    }
  }

  /** The attempts around home keep to the offset's column. */
  lemma AttemptAtInColumn(home: Pos)
    ensures ChoosesInColumn(AttemptAt(home), home)
  {
    var c := AttemptAt(home);
    forall w: World, off: (int, int) | c(w, off).Some?
      ensures c(w, off).value.x == home.x + off.0 && c(w, off).value.z == home.z + off.1
      ensures home.y - 5 <= c(w, off).value.y <= home.y + 5
    {
      assert c(w, off) == Attempt(w, home, off);
    }
  }

  /** Queueing each spot in turn for bone meal. */
  function QueueAll(pending: map<EntityId, seq<Pos>>, e: EntityId, spots: seq<Pos>): (r: map<EntityId, seq<Pos>>)
    decreases |spots|
  {
    if |spots| == 0 then pending
    else QueueAll(QueueForBonemeal(pending, e, spots[0]), e, spots[1..])
  }

  /** Queueing the spots appends them, in order, to the roamer's queue and leaves the other queues alone. */
  lemma {:induction false} QueueAllAppends(pending: map<EntityId, seq<Pos>>, e: EntityId, spots: seq<Pos>)
    ensures var r := QueueAll(pending, e, spots);
            && r.Keys == pending.Keys + (if |spots| == 0 then {} else {e})
            && (e in r ==> r[e] == (if e in pending then pending[e] else []) + spots)
            && (forall e' :: e' in pending && e' != e ==> r[e'] == pending[e'])
    decreases |spots|
  {
    if |spots| > 0 {
      var once := QueueForBonemeal(pending, e, spots[0]);
      QueueAllAppends(once, e, spots[1..]);
      assert (if e in pending then pending[e] else []) + [spots[0]] + spots[1..]
          == (if e in pending then pending[e] else []) + spots;
    }
  }

  /** What `plantSaplingsFromInventory` leaves: the level, the inventory, the bone meal queues and the spots planted, in order. */
  datatype Planting = Planting(world: World, inv: seq<Stack>, pending: map<EntityId, seq<Pos>>, spots: seq<Pos>)

  /**
    The conditions under which `plantSaplingsFromInventory` returns at once:
    on the client, while busy, without a home (or with home at the origin),
    farther than 20 blocks from home, or with more than 50 saplings already
    waiting for bone meal.
   */
  predicate PlantingBlocked(clientSide: bool, working: bool, home: Option<Pos>, at: Pos, pending: map<EntityId, seq<Pos>>, e: EntityId)
  {
    || clientSide
    || working
    || home.None?
    || home.value == Pos(0, 0, 0)
    || DistSqr(at, home.value) > MAX_HOME_DIST_SQR
    || (e in pending && |pending[e]| > MAX_PENDING)
  }

  /**
    `plantSaplingsFromInventory(entity, level, inventory)`. The roamer stands
    at `at`, `home` is its home as reflection gives it, `working` whether it
    is busy, `radius` the tree check range and `draws` the fifteen random
    offsets the attempts draw. The first sapling stack supplies up to two
    saplings; each kept draw tries the lowest valid spot of its column, and a
    spot with no sapling or log around it gets a sapling and is queued for
    bone meal.
   */
  function PlantSaplingsFromInventory(w: World, clientSide: bool, working: bool, home: Option<Pos>, at: Pos,
                                      pending: map<EntityId, seq<Pos>>, e: EntityId, inv: seq<Stack>,
                                      radius: int, draws: seq<(int, int)>): (r: Planting)
    requires |draws| == PLANT_ATTEMPTS
    ensures PlantingBlocked(clientSide, working, home, at, pending, e) ==> r == Planting(w, inv, pending, [])
    ensures (forall i :: 0 <= i < |inv| ==> !IsSaplingStack(inv[i])) ==> r == Planting(w, inv, pending, [])
    ensures |r.inv| == |inv| && |r.spots| <= MAX_PLANTED
  {
    var slot := FirstIndex(inv, IsSaplingStack);
    if PlantingBlocked(clientSide, working, home, at, pending, e) || slot < 0 then Planting(w, inv, pending, [])
    else
      var stack := inv[slot];
      var sapling := SaplingBlock(stack.item.species);
      var loop := PlantLoop(w, KeptDraws(draws, radius), AttemptAt(home.value), sapling, Min(MAX_PLANTED, stack.count));
      Planting(loop.world, Shrunk(inv, slot, |loop.spots|), QueueAll(pending, e, loop.spots), loop.spots)
  }

  /** Every spot lies in the plot around home. */
  predicate AllInPlot(home: Pos, radius: int, spots: seq<Pos>)
  {
    forall i :: 0 <= i < |spots| ==> InPlot(home, radius, spots[i])
  }

  /** Spots in the columns of the kept draws lie in the plot. */
  lemma KeptColumnsInPlot(home: Pos, radius: int, draws: seq<(int, int)>, spots: seq<Pos>)
    requires InColumns(home, KeptDraws(draws, radius), spots)
    ensures AllInPlot(home, radius, spots)
  {
    forall i | 0 <= i < |spots| ensures InPlot(home, radius, spots[i]) {
      var off := (spots[i].x - home.x, spots[i].z - home.z);
      assert off in KeptDraws(draws, radius);
    }
  }

  /**
    Where planting goes: every spot lies in the plot around home, was valid
    with no sapling or log around it in the level before the call, and is
    out of the box around every later spot; the level gains the sapling of
    the first sapling stack at each spot and nothing else changes.
   */
  lemma PlantingSpots(w: World, clientSide: bool, working: bool, home: Option<Pos>, at: Pos,
                      pending: map<EntityId, seq<Pos>>, e: EntityId, inv: seq<Stack>, radius: int, draws: seq<(int, int)>)
    requires |draws| == PLANT_ATTEMPTS
    ensures var r := PlantSaplingsFromInventory(w, clientSide, working, home, at, pending, e, inv, radius, draws);
            var slot := FirstIndex(inv, IsSaplingStack);
            && (|r.spots| > 0 ==> !PlantingBlocked(clientSide, working, home, at, pending, e) && slot >= 0)
            && (|r.spots| > 0 ==> AllInPlot(home.value, radius, r.spots))
            && (|r.spots| > 0 ==> AllHold(r.world, r.spots, SaplingBlock(inv[slot].item.species)))
            && SafeSpots(w, r.spots) && Apart(r.spots)
            && SameOutside(w, r.world, r.spots)
  {
    var slot := FirstIndex(inv, IsSaplingStack);
    if !PlantingBlocked(clientSide, working, home, at, pending, e) && slot >= 0 {
      var sapling := SaplingBlock(inv[slot].item.species);
      var offs := KeptDraws(draws, radius);
      var budget := Min(MAX_PLANTED, inv[slot].count);
      var loop := PlantLoop(w, offs, AttemptAt(home.value), sapling, budget);
      assert PlantSaplingsFromInventory(w, clientSide, working, home, at, pending, e, inv, radius, draws).spots == loop.spots;
      assert PlantSaplingsFromInventory(w, clientSide, working, home, at, pending, e, inv, radius, draws).world == loop.world;
      AttemptAtSafe(home.value);
      AttemptAtInColumn(home.value);
      PlantLoopSound(w, offs, AttemptAt(home.value), sapling, budget);
      PlantLoopInColumns(w, home.value, offs, AttemptAt(home.value), sapling, budget);
      PlantLoopFrame(w, offs, AttemptAt(home.value), sapling, budget);
      KeptColumnsInPlot(home.value, radius, draws, loop.spots);
    }
  }

  /**
    What planting costs: the first sapling stack loses one sapling per spot
    planted, emptied to the empty stack when none are left; every other slot
    and every other item count stays as it was.
   */
  lemma PlantingInventory(w: World, clientSide: bool, working: bool, home: Option<Pos>, at: Pos,
                          pending: map<EntityId, seq<Pos>>, e: EntityId, inv: seq<Stack>, radius: int, draws: seq<(int, int)>)
    requires |draws| == PLANT_ATTEMPTS
    ensures var r := PlantSaplingsFromInventory(w, clientSide, working, home, at, pending, e, inv, radius, draws);
            var slot := FirstIndex(inv, IsSaplingStack);
            && (forall i :: 0 <= i < |inv| && i != slot ==> r.inv[i] == inv[i])
            && (slot >= 0 ==> |r.spots| <= inv[slot].count
                              && CountOf(r.inv, inv[slot].item) + |r.spots| == CountOf(inv, inv[slot].item)
                              && (forall it :: it != inv[slot].item ==> CountOf(r.inv, it) == CountOf(inv, it)))
  {
    var r := PlantSaplingsFromInventory(w, clientSide, working, home, at, pending, e, inv, radius, draws);
    var slot := FirstIndex(inv, IsSaplingStack);
    if slot >= 0 && !PlantingBlocked(clientSide, working, home, at, pending, e) {
      var n := |r.spots|;
      assert n <= inv[slot].count && r.inv == Shrunk(inv, slot, n);
      ShrunkCounts(inv, slot, n);
    }
  }

  /** Slot `slot` after `n` of its items are used: the empty stack once none are left. */
  function Shrunk(inv: seq<Stack>, slot: nat, n: nat): (r: seq<Stack>)
    requires slot < |inv| && n <= inv[slot].count
    ensures |r| == |inv|
  {
    var left := inv[slot].count - n;
    inv[slot := if left == 0 then EMPTY else Stack(inv[slot].item, left)]
  }

  /** Using `n` items of a non-empty slot lowers that item's count by `n` and leaves every other slot and item alone. */
  lemma ShrunkCounts(inv: seq<Stack>, slot: nat, n: nat)
    requires slot < |inv| && n <= inv[slot].count && !IsEmpty(inv[slot])
    ensures forall i :: 0 <= i < |inv| && i != slot ==> Shrunk(inv, slot, n)[i] == inv[i]
    ensures CountOf(Shrunk(inv, slot, n), inv[slot].item) + n == CountOf(inv, inv[slot].item)
    ensures forall it :: it != inv[slot].item ==> CountOf(Shrunk(inv, slot, n), it) == CountOf(inv, it)
  {
    var left := inv[slot].count - n;
    var s := if left == 0 then EMPTY else Stack(inv[slot].item, left);
    forall it ensures CountOf(Shrunk(inv, slot, n), it) + Contrib(inv[slot], it) == CountOf(inv, it) + Contrib(s, it) {
      CountOfUpdate(inv, slot, s, it);
    }
  }

  /** Every spot planted is queued for bone meal, in order, behind the roamer's earlier entries; no other roamer's queue changes. */
  lemma PlantingQueues(w: World, clientSide: bool, working: bool, home: Option<Pos>, at: Pos,
                       pending: map<EntityId, seq<Pos>>, e: EntityId, inv: seq<Stack>, radius: int, draws: seq<(int, int)>)
    requires |draws| == PLANT_ATTEMPTS
    ensures var r := PlantSaplingsFromInventory(w, clientSide, working, home, at, pending, e, inv, radius, draws);
            && r.pending.Keys == pending.Keys + (if |r.spots| == 0 then {} else {e})
            && (e in r.pending ==> r.pending[e] == (if e in pending then pending[e] else []) + r.spots)
            && (forall e' :: e' in pending && e' != e ==> r.pending[e'] == pending[e'])
  {
    var r := PlantSaplingsFromInventory(w, clientSide, working, home, at, pending, e, inv, radius, draws);
    if !PlantingBlocked(clientSide, working, home, at, pending, e) && FirstIndex(inv, IsSaplingStack) >= 0 {
      assert r.pending == QueueAll(pending, e, r.spots);
      QueueAllAppends(pending, e, r.spots);
    }
  }

  /**
    The first kept draw is always tried: when planting is not blocked, a
    sapling stack is at hand and the first attempt finds a spot with no
    sapling or log around it, that spot is planted first.
   */
  lemma PlantingFirstAttempt(w: World, clientSide: bool, working: bool, home: Option<Pos>, at: Pos,
                             pending: map<EntityId, seq<Pos>>, e: EntityId, inv: seq<Stack>, radius: int, draws: seq<(int, int)>)
    requires |draws| == PLANT_ATTEMPTS
    requires !PlantingBlocked(clientSide, working, home, at, pending, e) && FirstIndex(inv, IsSaplingStack) >= 0
    requires |KeptDraws(draws, radius)| > 0 && Attempt(w, home.value, KeptDraws(draws, radius)[0]).Some?
    ensures var r := PlantSaplingsFromInventory(w, clientSide, working, home, at, pending, e, inv, radius, draws);
            |r.spots| > 0 && r.spots[0] == Attempt(w, home.value, KeptDraws(draws, radius)[0]).value
  {
    var offs := KeptDraws(draws, radius);
    assert AttemptAt(home.value)(w, offs[0]) == Attempt(w, home.value, offs[0]);
  }

  /**
    Planting that is not blocked, with a sapling stack at hand, plants
    nothing exactly when no kept draw finds a spot with no sapling or log
    around it in the level as it is.
   */
  lemma PlantingNone(w: World, clientSide: bool, working: bool, home: Option<Pos>, at: Pos,
                     pending: map<EntityId, seq<Pos>>, e: EntityId, inv: seq<Stack>, radius: int, draws: seq<(int, int)>)
    requires |draws| == PLANT_ATTEMPTS
    requires !PlantingBlocked(clientSide, working, home, at, pending, e) && FirstIndex(inv, IsSaplingStack) >= 0
    ensures var r := PlantSaplingsFromInventory(w, clientSide, working, home, at, pending, e, inv, radius, draws);
            |r.spots| == 0 <==> NoneFound(w, home.value, KeptDraws(draws, radius))
  {
    var slot := FirstIndex(inv, IsSaplingStack);
    var offs := KeptDraws(draws, radius);
    var sapling := SaplingBlock(inv[slot].item.species);
    var budget := Min(MAX_PLANTED, inv[slot].count);
    assert PlantSaplingsFromInventory(w, clientSide, working, home, at, pending, e, inv, radius, draws).spots
        == PlantLoop(w, offs, AttemptAt(home.value), sapling, budget).spots;
    AttemptsNone(w, home.value, offs, sapling, budget);
  }

  /** No attempt around home at the offsets finds a spot in the level as it is. */
  predicate NoneFound(w: World, home: Pos, offs: seq<(int, int)>)
  {
    forall i :: 0 <= i < |offs| ==> Attempt(w, home, offs[i]).None?
  }

  /** The attempts around home plant nothing exactly when none of them finds a spot in the level as it is. */
  lemma AttemptsNone(w: World, home: Pos, offs: seq<(int, int)>, sapling: Block, budget: nat)
    requires budget > 0
    ensures |PlantLoop(w, offs, AttemptAt(home), sapling, budget).spots| == 0 <==> NoneFound(w, home, offs)
  {
    var choose := AttemptAt(home);
    PlantLoopNone(w, offs, choose, sapling, budget);
    forall i | 0 <= i < |offs| ensures choose(w, offs[i]) == Attempt(w, home, offs[i]) {
    }
  }

  // ---------------------------------------------------------------- sapling grant at spawn

  /** The inventory after a run of `addToInventory` calls, and whether each call placed its whole stack. */
  datatype Grant = Grant(inv: Option<seq<Stack>>, added: seq<bool>)

  /**
    `addToInventory` on each stack in turn, as `onEntityJoinLevel` hands the
    starter stacks over; the caller ignores each result, so the part of a
    stack that does not fit is dropped.
   */
  function AddAll(inv: Option<seq<Stack>>, stacks: seq<Stack>): (r: Grant)
    ensures |r.added| == |stacks|
    ensures inv.None? ==> r.inv.None? && forall i :: 0 <= i < |stacks| ==> !r.added[i]
    ensures inv.Some? ==> r.inv.Some? && |r.inv.value| == |inv.value|
    decreases |stacks|
  {
    if |stacks| == 0 then Grant(inv, [])
    else
      var a := AddToInventory(inv, stacks[0]);
      var rest := AddAll(a.inv, stacks[1..]);
      Grant(rest.inv, [a.added] + rest.added)
  }

  /** Stacks of pairwise different items. */
  predicate DistinctItems(stacks: seq<Stack>)
  {
    forall i, j :: 0 <= i < j < |stacks| ==> stacks[i].item != stacks[j].item
  }

  /**
    Handing over stacks of different items: every stack that fit raises its
    item's count by its size, and an item none of the stacks carries keeps
    its count.
   */
  lemma {:induction false} AddAllCounts(inv: Option<seq<Stack>>, stacks: seq<Stack>)
    requires inv.Some? && DistinctItems(stacks)
    ensures var r := AddAll(inv, stacks);
            && (forall i :: 0 <= i < |stacks| && r.added[i] ==>
                  CountOf(r.inv.value, stacks[i].item) == CountOf(inv.value, stacks[i].item) + stacks[i].count)
            && (forall it :: (forall j :: 0 <= j < |stacks| ==> stacks[j].item != it) ==>
                  CountOf(r.inv.value, it) == CountOf(inv.value, it))
    decreases |stacks|
  {
    if |stacks| > 0 {
      var a := AddToInventory(inv, stacks[0]);
      var rest := AddAll(a.inv, stacks[1..]);
      assert AddAll(inv, stacks) == Grant(rest.inv, [a.added] + rest.added);
      assert DistinctItems(stacks[1..]) by {
        forall i, j | 0 <= i < j < |stacks[1..]| ensures stacks[1..][i].item != stacks[1..][j].item {
          assert stacks[1..][i] == stacks[i + 1] && stacks[1..][j] == stacks[j + 1];
        }
      }
      AddAllCounts(a.inv, stacks[1..]);
      var first := stacks[0].item;
      assert forall j :: 0 <= j < |stacks[1..]| ==> stacks[1..][j].item != first;
      forall i | 0 < i < |stacks| && ([a.added] + rest.added)[i]
        ensures CountOf(rest.inv.value, stacks[i].item) == CountOf(inv.value, stacks[i].item) + stacks[i].count
      {
        assert stacks[1..][i - 1] == stacks[i] && rest.added[i - 1];
        assert stacks[i].item != first;
      }
      forall it | forall j :: 0 <= j < |stacks| ==> stacks[j].item != it
        ensures CountOf(rest.inv.value, it) == CountOf(inv.value, it)
      {
        assert it != first;
        assert forall j :: 0 <= j < |stacks[1..]| ==> stacks[1..][j] == stacks[j + 1];
      }
    }
  }

  /**
    The sapling half of `onEntityJoinLevel`: a stack of `getSaplingCount()`
    of each of the race's saplings, in table order, through
    `addToInventory`. A race that uses no wood is given nothing.
   */
  function GiveStarterSaplings(inv: Option<seq<Stack>>, raceName: string): (r: Grant)
    ensures |r.added| == |SaplingHelper.GetSaplingsForRace(raceName)|
    ensures !SaplingHelper.RaceUsesWood(raceName) ==> r.inv == inv
  {
    AddAll(inv, SaplingHelper.StarterSaplings(raceName))
  }

  /**
    What a new roamer of a wood-using race gains: each of its saplings whose
    stack fit rises by `SAPLING_COUNT`, and every other item keeps its count.
   */
  lemma StarterGrantCounts(inv: Option<seq<Stack>>, raceName: string)
    requires inv.Some?
    ensures var r := GiveStarterSaplings(inv, raceName);
            var s := SaplingHelper.GetSaplingsForRace(raceName);
            && (forall i :: 0 <= i < |s| && r.added[i] ==>
                  CountOf(r.inv.value, s[i]) == CountOf(inv.value, s[i]) + SaplingHelper.SAPLING_COUNT)
            && (forall it :: it !in s ==> CountOf(r.inv.value, it) == CountOf(inv.value, it))
  {
    var stacks := SaplingHelper.StarterSaplings(raceName);
    var s := SaplingHelper.GetSaplingsForRace(raceName);
    SaplingHelper.SaplingRaces(raceName);
    assert forall i :: 0 <= i < |stacks| ==> stacks[i].item == s[i];
    AddAllCounts(inv, stacks);
  }
}
