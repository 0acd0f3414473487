/**
  The pity timer of `PitySystem`: a roamer that keeps needing the same item
  for two minutes is handed one stack of sixteen of it, once per cycle. The
  tracker is a plain map from entity to idle state; the wall clock is the
  explicit parameter `now` (milliseconds).
 */
module PitySystem {
  import opened Base

  /** Two minutes, in milliseconds. */
  const PITY_TIMEOUT_MS: int := 2 * 60 * 1000

  /** Size of the stack handed out. */
  const PITY_GRANT_AMOUNT: nat := 16

  /** Idle state of one tracked roamer. */
  datatype IdleState = IdleState(idleStart: int, needed: Item, granted: bool)

  type Tracker = map<EntityId, IdleState>

  /**
    Result of one `trackIdleRoamer` call: the new tracker and the stack handed
    to the inventory adder, if any (the Java method returns `grant.Some?`).
   */
  datatype Tracked = Tracked(tracker: Tracker, grant: Option<Stack>)

  /**
    The three phases the tracker keeps a roamer in: not tracked, waiting for
    an item since some time, or already served for that item.
   */
  datatype Phase = Untracked | Waiting(item: Item, since: int) | Served(item: Item)

  function PhaseOf(t: Tracker, e: EntityId): Phase
  {
    if e !in t then Untracked
    else if t[e].granted then Served(t[e].needed)
    else Waiting(t[e].needed, t[e].idleStart)
  }

  /** `trackIdleRoamer(entity, neededItem, adder)` at time `now`. */
  function TrackIdleRoamer(t: Tracker, entity: Option<EntityId>, needed: Option<Item>, now: int): (r: Tracked)
    ensures entity.None? || needed.None? ==> r == Tracked(t, None)
    ensures entity.Some? && needed.Some? ==>
              var e, n := entity.value, needed.value;
              && r.tracker.Keys == t.Keys + {e}
              && (forall e' :: e' in t && e' != e ==> r.tracker[e'] == t[e'])
              && (e !in t || t[e].needed != n ==> r.grant.None? && PhaseOf(r.tracker, e) == Waiting(n, now))
              && (r.grant.Some? <==>
                    e in t && t[e].needed == n && !t[e].granted && now - t[e].idleStart >= PITY_TIMEOUT_MS)
              && (r.grant.Some? ==> r.grant.value == Stack(n, PITY_GRANT_AMOUNT) && PhaseOf(r.tracker, e) == Served(n))
              && (e in t && t[e].needed == n && r.grant.None? ==> r.tracker == t)
              && (r.grant.Some? ==> r.tracker == t[e := t[e].(granted := true)])
  {
    if entity.None? || needed.None? then Tracked(t, None)
    else
      var e, n := entity.value, needed.value;
      if e !in t then Tracked(t[e := IdleState(now, n, false)], None)
      else
        var st := t[e];
        if st.needed != n then Tracked(t[e := IdleState(now, n, false)], None)
        else if st.granted then Tracked(t, None)
        else if now - st.idleStart >= PITY_TIMEOUT_MS then
          Tracked(t[e := st.(granted := true)], Some(Stack(n, PITY_GRANT_AMOUNT)))
        else Tracked(t, None)
  }

  /** `clearIdleState(entity)`: forgets that roamer and no other. */
  function ClearIdleState(t: Tracker, entity: Option<EntityId>): (r: Tracker)
    ensures entity.None? ==> r == t
    ensures entity.Some? ==> r.Keys == t.Keys - {entity.value}
    ensures forall e :: e in r ==> r[e] == t[e]
  {
    if entity.None? then t else t - {entity.value}
  }

  /** `getIdleTime(entity)`: milliseconds since the current need began, or -1 when not tracked. */
  function GetIdleTime(t: Tracker, entity: Option<EntityId>, now: int): (r: int)
    ensures entity.None? || entity.value !in t ==> r == -1
    ensures entity.Some? && entity.value in t ==> now == t[entity.value].idleStart + r
  {
    if entity.None? || entity.value !in t then -1 else now - t[entity.value].idleStart
  }

  /** `getTrackedCount()`: the number of roamers with an idle state. */
  function TrackedCount(t: Tracker): (r: nat)
    ensures r == |t.Keys|
    ensures r == 0 <==> forall e :: PhaseOf(t, e) == Untracked
  {
    if |t| == 0 then 0
    else
      var e :| e in t;
      assert PhaseOf(t, e) != Untracked;
      |t|
  }

  /** `cleanup()`: the tracker is emptied. */
  function Cleanup(t: Tracker): (r: Tracker)
    ensures TrackedCount(r) == 0
    ensures forall e :: GetIdleTime(r, Some(e), 0) == -1
  {
    map[]
  }

  /** After `clearIdleState` the idle time of that roamer reads -1, whatever the clock says. */
  lemma ClearedIsUntracked(t: Tracker, e: EntityId, now: int)
    ensures GetIdleTime(ClearIdleState(t, Some(e)), Some(e), now) == -1
    ensures PhaseOf(ClearIdleState(t, Some(e)), e) == Untracked
  {
  }

  /**
    With the same item and nothing granted yet, a grant happens exactly when
    the idle time that `getIdleTime` would report has reached the timeout.
   */
  lemma GrantIffIdleLongEnough(t: Tracker, e: EntityId, n: Item, now: int)
    requires e in t && t[e].needed == n && !t[e].granted
    ensures TrackIdleRoamer(t, Some(e), Some(n), now).grant.Some? <==> GetIdleTime(t, Some(e), now) >= PITY_TIMEOUT_MS
  {
  }

  /** Outcome of a series of calls for one roamer and one needed item. */
  datatype Calls = Calls(tracker: Tracker, grants: nat)

  /** Calls `trackIdleRoamer(e, n, …)` at each time of `times`, counting the grants. */
  function TrackMany(t: Tracker, e: EntityId, n: Item, times: seq<int>): Calls
    decreases |times|
  {
    if |times| == 0 then Calls(t, 0)
    else
      var s := TrackIdleRoamer(t, Some(e), Some(n), times[0]);
      var c := TrackMany(s.tracker, e, n, times[1..]);
      Calls(c.tracker, c.grants + (if s.grant.Some? then 1 else 0))
  }

  /**
    At most one grant per cycle: however many calls are made for the same
    item, at most one hands out a stack, and none does once the roamer has
    been served for that item.
   */
  lemma {:induction false} AtMostOneGrant(t: Tracker, e: EntityId, n: Item, times: seq<int>)
    ensures TrackMany(t, e, n, times).grants <= 1
    ensures PhaseOf(t, e) == Served(n) ==> TrackMany(t, e, n, times).grants == 0
    decreases |times|
  {
    if |times| > 0 {
      var s := TrackIdleRoamer(t, Some(e), Some(n), times[0]);
      AtMostOneGrant(s.tracker, e, n, times[1..]);
    }
  }

  /**
    A roamer first seen idle at `t0` and still needing the same item at
    `t1` is served at `t1` exactly when two minutes have passed.
   */
  lemma GrantAfterTimeout(t: Tracker, e: EntityId, n: Item, t0: int, t1: int)
    requires e !in t
    ensures var s := TrackIdleRoamer(TrackIdleRoamer(t, Some(e), Some(n), t0).tracker, Some(e), Some(n), t1);
            (s.grant.Some? <==> t1 - t0 >= PITY_TIMEOUT_MS) &&
            (s.grant.Some? ==> s.grant.value == Stack(n, 16))
  {
  }
}
