/** Every operation on a mob keeps the expiry index in agreement with its buffs, so every run does. */
module MobRuns {
  import opened Mob
  import opened MobLaws
  import opened MobDamage

  /** Removes the lowest buff until none is left, then empties both containers. */
  function BuffsRemoved(s: State, tick: int): State
    requires Inv(s)
    decreases |s.buffs|
  {
    if s.buffs == map[] then s
    else
      LowestGoes(s, tick);
      BuffsRemoved(Updated(s, LeastId(s.buffs.Keys), true, false, tick), tick)
  }

  lemma LowestGoes(s: State, tick: int)
    requires Inv(s) && s.buffs != map[]
    ensures s.buffs.Keys != {}
    ensures var r := Updated(s, LeastId(s.buffs.Keys), true, false, tick);
      Inv(r) && |r.buffs| < |s.buffs|
  {
    hide Updated;
    var id := LeastId(s.buffs.Keys);
    UpdatedExact(s, id, true, false, tick);
    var r := Updated(s, id, true, false, tick);
    assert id !in r.buffs && r.buffs.Keys <= s.buffs.Keys;
    SmallerMap(r.buffs, s.buffs, id);
  }

  lemma SmallerMap(small: map<BuffId, Buff>, big: map<BuffId, Buff>, id: BuffId)
    requires small.Keys <= big.Keys && id in big && id !in small
    ensures |small| < |big|
  {
    assert small.Keys <= big.Keys - {id};
    SubsetSize(small.Keys, big.Keys - {id});
    assert |small| == |small.Keys| && |big| == |big.Keys|;
  }

  lemma {:induction false} SubsetSize(a: set<BuffId>, b: set<BuffId>)
    requires a <= b
    ensures |a| <= |b|
  {
    if a != {} {
      var x :| x in a;
      SubsetSize(a - {x}, b - {x});
    }
  }

  function AllCleared(s: State, tick: int): State
    requires Inv(s)
  {
    BuffsRemoved(s, tick).(index := [], buffs := map[])
  }

  datatype Op =
    | Add(r: Request, effects: seq<int>, stats: seq<int>, tick: int)
    | RefreshOrAdd(r: Request, effects: seq<int>, stats: seq<int>, tick: int)
    | RemoveNamed(kind: string, tick: int)
    | Update(id: BuffId, force: bool, skipShield: bool, tick: int)
    | ChangeSector(tick: int)
    | Expire(now: int, tick: int)
    | Clear(tick: int)
    | AddShield(sh: Shield)
    | RemoveShield(shieldId: int)
    | ClearShields(deleteOnly: bool)
    | Strike(hit: Hit, damage: real)

  predicate Legal(op: Op) {
    (op.Add? || op.RefreshOrAdd?) ==> WellFormed(op.r) && |op.effects| == 5 && |op.stats| == 20 && 0 <= op.tick
  }

  function Step(s: State, op: Op): State
    requires Inv(s) && Legal(op)
  {
    match op
    case Add(r, effects, stats, tick) => Added(s, r, effects, stats, tick)
    case RefreshOrAdd(r, effects, stats, tick) => RefreshedOrAdded(s, r, effects, stats, tick)
    case RemoveNamed(kind, tick) => RemovedByName(s, kind, tick)
    case Update(id, force, skipShield, tick) => Updated(s, id, force, skipShield, tick)
    case ChangeSector(tick) => SectorChanged(s, tick)
    case Expire(now, tick) => Expired(s, now, tick)
    case Clear(tick) => AllCleared(s, tick)
    case AddShield(sh) => ShieldAdded(s, sh)
    case RemoveShield(id) => ShieldRemoved(s, id)
    case ClearShields(deleteOnly) => ShieldsCleared(s, deleteOnly)
    case Strike(hit, damage) => Absorbed(s, hit, 0, damage).0
  }

  // ----- Each operation keeps the invariant -----

  /** Indexing a buff under an id that has no entry yet. */
  lemma IndexedInv(s: State, r: State, id: BuffId, b: Buff)
    requires Inv(s) && 0 <= id && b.slot < PANEL_SIZE
    requires forall e <- s.index :: e.1 != id
    requires r.buffs == s.buffs[id := b] && r.nextId >= s.nextId && id < r.nextId && |r.panel| == PANEL_SIZE
    requires r.index == if b.perm then s.index else Inserted(s.index, (b.expire, id))
    ensures Inv(r)
  {
    InsertedFacts(s.index, (b.expire, id));
  }

  lemma AddedInv(s: State, r: Request, effects: seq<int>, stats: seq<int>, tick: int)
    requires Inv(s) && WellFormed(r) && |effects| == 5 && |stats| == 20
    ensures Inv(Added(s, r, effects, stats, tick))
  {
    hide Inserted, EffectsAdded, StatsAdded, Handles, StatHandles;
    var q := Added(s, r, effects, stats, tick);
    IndexedInv(s, q, s.nextId, q.buffs[s.nextId]);
  }

  lemma RefreshedInv(s: State, id: BuffId, r: Request, tick: int)
    requires Inv(s) && id in s.buffs && Refreshable(s.buffs[id], r.kind, tick)
    requires s.buffs[id] != Zeroed()
    ensures Inv(Refreshed(s, id, r))
  {
    hide Inserted, Unindexed, Inv, Kept;
    var b := s.buffs[id];
    var s1 := s.(buffs := s.buffs - {id}, index := Kept(s.index, {id}));
    LostInv(s, s1, {id});
    KeptMembers(s.index, {id});
    OwnEntryGone(s, id);
    var q := Refreshed(s, id, r);
    assert q.buffs == s1.buffs[id := q.buffs[id]];
    IdFacts(s, id);
    IndexedInv(s1, q, id, q.buffs[id]);
  }

  /** Erasing the one entry of a live buff. */
  lemma OwnEntryGone(s: State, id: BuffId)
    requires Inv(s) && id in s.buffs
    ensures Kept(s.index, {id}) == if s.buffs[id].perm then s.index else Unindexed(s.index, (s.buffs[id].expire, id))
  {
    hide Kept, Unindexed;
    if s.buffs[id].perm {
      KeptAll(s.index, {id});
    } else {
      UnindexedKept(s.index, s.buffs[id].expire, id);
    }
  }

  lemma IdFacts(s: State, id: BuffId)
    requires Inv(s) && id in s.buffs
    ensures |s.panel| == PANEL_SIZE && 0 <= id && s.buffs[id].slot < PANEL_SIZE
    ensures s.buffs[id] != Zeroed() ==> id < s.nextId
  {
  }

  /** A zero record never counts as refreshable: it is neither permanent nor unexpired. */
  lemma RefreshedOrAddedInv(s: State, r: Request, effects: seq<int>, stats: seq<int>, tick: int)
    requires Inv(s) && WellFormed(r) && |effects| == 5 && |stats| == 20 && 0 <= tick
    ensures Inv(RefreshedOrAdded(s, r, effects, stats, tick))
  {
    hide Added, Refreshed, Inv;
    AddedInv(s, r, effects, stats, tick);
    var ids := RefreshableIds(s.buffs, r.kind, tick);
    if ids != {} {
      RefreshedInv(s, LeastId(ids), r, tick);
    }
  }

  /** A zero record for a missing id disturbs nothing. */
  lemma TouchedInv(s: State, r: State, id: BuffId)
    requires Inv(s) && 0 <= id
    requires r.buffs == Touched(s.buffs, id) && r.index == s.index && r.nextId == s.nextId && |r.panel| == PANEL_SIZE
    ensures Inv(r)
  {
  }

  lemma {:induction false} RedisplayedInv(s: State, n: nat, tick: int)
    requires Inv(s) && n <= PANEL_SIZE
    ensures Inv(Redisplayed(s, n, tick))
  {
    hide Inv;
    if n > 0 {
      RedisplayedInv(s, n - 1, tick);
      PanelSize(Redisplayed(s, n - 1, tick));
      TouchedInv(Redisplayed(s, n - 1, tick), Redisplayed(s, n, tick), n - 1);
    }
  }

  lemma PanelSize(s: State)
    requires Inv(s)
    ensures |s.panel| == PANEL_SIZE == 16
  {
  }

  lemma {:induction false} AllDroppedInv(s: State, shields: seq<Shield>)
    requires Inv(s)
    ensures Inv(AllDropped(s, shields))
    decreases |shields|
  {
    hide ShieldDropped, Inv;
    if shields != [] {
      ShieldDroppedLost(s, shields[0]);
      LostInv(s, ShieldDropped(s, shields[0]), NamedBy(shields[0]));
      AllDroppedInv(ShieldDropped(s, shields[0]), shields[1..]);
    }
  }

  /** The invariant does not look at shields or output. */
  lemma ShieldsFree(s: State, r: State)
    requires Inv(s) && r == s.(shields := r.shields, out := r.out)
    ensures Inv(r)
  {
  }

  lemma ShieldAddedInv(s: State, sh: Shield)
    requires Inv(s)
    ensures Inv(ShieldAdded(s, sh))
  {
    hide ShieldRemoved, Inv;
    ShieldRemovedExact(s, sh.id);
    var s1 := if FirstShield(s.shields, sh.id) < |s.shields| then ShieldRemoved(s, sh.id) else s;
    ShieldsFree(s1, ShieldAdded(s, sh));
  }

  lemma UsedUpInv(s: State, i: nat)
    requires Inv(s) && i < |s.shields|
    ensures var q := WithoutUsedUp(s, i); Inv(q) && i <= |q.shields| == |s.shields| - 1 && q.isPlayer == s.isPlayer
  {
    hide ShieldRemoved, Inv;
    var sh := s.shields[i];
    var s1 := s.(shields := s.shields[i := sh.(cap := 0.0)]);
    ShieldsFree(s, s1);
    FirstIsEarliest(s1.shields, i);
    ShieldRemovedExact(s1, sh.id);
  }

  lemma {:induction false} AbsorbedInv(s: State, hit: Hit, i: nat, damage: real)
    requires Inv(s) && i <= |s.shields|
    ensures Inv(Absorbed(s, hit, i, damage).0)
    decreases |s.shields| - i
  {
    hide ReflectEvents, ReactorEvents, ShieldRemoved, ShieldCasualties, Inv, Lost;
    if i < |s.shields| {
      var sh := s.shields[i];
      var s1 := s.(out := s.out + ReflectEvents(hit, sh, damage) + ReactorEvents(hit, s.isPlayer, sh, damage));
      ShieldsFree(s, s1);
      if sh.hasCap && sh.cap != 0.0 && sh.cap > damage {
        var s2 := s1.(shields := s.shields[i := sh.(cap := sh.cap - damage)]);
        ShieldsFree(s1, s2);
        AbsorbedInv(s2, hit, i + 1, 0.0);
      } else if sh.hasCap {
        UsedUpInv(s1, i);
        AbsorbedInv(WithoutUsedUp(s1, i), hit, i, if sh.cap != 0.0 then damage - sh.cap else damage);
      } else {
        AbsorbedInv(s1, hit, i + 1, damage);
      }
    }
  }

  lemma {:induction false} InsertedErased(index: seq<Entry>, e: Entry)
    requires e !in index
    ensures Unindexed(Inserted(index, e), e) == index
  {
    if index != [] && index[0].0 <= e.0 {
      InsertedErased(index[1..], e);
      assert Inserted(index, e)[1..] == Inserted(index[1..], e);
      assert Inserted(index, e)[0] == index[0] != e;
    } else {
      assert Inserted(index, e) == [e] + index;
    }
  }

  /** Adding a buff without a shield and removing it again gives back exactly the handles its effects and stats were
      given, and leaves buffs, index and shields as they were, but for a zero record that had its id. */
  lemma AddThenRemove(s: State, r: Request, effects: seq<int>, stats: seq<int>, tick: int, later: int)
    requires Inv(s) && WellFormed(r) && |effects| == 5 && |stats| == 20 && r.absorb == 0
    ensures var a := Added(s, r, effects, stats, tick);
      var q := Updated(a, s.nextId, true, false, later);
      && q.buffs == s.buffs - {s.nextId} && q.index == s.index && q.shields == s.shields
      && a.out <= q.out
      && var back := StatEvents(StatHandles(r.stats, stats)) + EffectEvents(Handles(r.effects, effects));
         q.out == a.out + back + if s.isPlayer then [PanelSent] else []
  {
    hide Inserted, Unindexed, StatEvents, EffectEvents, Handles, StatHandles, EffectsAdded, StatsAdded, Inv;
    var id := s.nextId;
    NoEntryYet(s, (r.expire, id));
    var a := Added(s, r, effects, stats, tick);
    InsertedErased(s.index, (r.expire, id));
    var q := Updated(a, id, true, false, later);
    assert q.buffs == s.buffs - {id};
    var b := a.buffs[id];
    assert a.out + StatEvents(b.stats) + EffectEvents(b.effects) == a.out + (StatEvents(b.stats) + EffectEvents(b.effects));
  }

  lemma NoEntryYet(s: State, e: Entry)
    requires Inv(s) && e.1 == s.nextId
    ensures e !in s.index && |s.panel| == PANEL_SIZE
  {
  }

  /** Every operation keeps the invariant. */
  lemma StepInv(s: State, op: Op)
    requires Inv(s) && Legal(op)
    ensures Inv(Step(s, op))
  {
    hide Added, RefreshedOrAdded, Updated, Expired, ShieldAdded, ShieldRemoved, Absorbed, Redisplayed, AllDropped,
      BuffsRemoved, Inv;
    match op {
      case Add(r, effects, stats, tick) => AddedInv(s, r, effects, stats, tick);
      case RefreshOrAdd(r, effects, stats, tick) => RefreshedOrAddedInv(s, r, effects, stats, tick);
      case RemoveNamed(kind, tick) =>
        if NamedIds(s.buffs, kind) != {} {
          UpdatedExact(s, LeastId(NamedIds(s.buffs, kind)), true, false, tick);
        }
      case Update(id, force, skipShield, tick) => UpdatedExact(s, id, force, skipShield, tick);
      case ChangeSector(tick) =>
        RedisplayedInv(s, PANEL_SIZE, tick);
        if s.isPlayer {
          ShieldsFree(Redisplayed(s, PANEL_SIZE, tick), SectorChanged(s, tick));
        }
      case Expire(now, tick) => ExpiredExact(s, now, tick);
      case Clear(tick) => ClearedInv(s, tick);
      case AddShield(sh) => ShieldAddedInv(s, sh);
      case RemoveShield(id) => ShieldRemovedExact(s, id);
      case ClearShields(deleteOnly) =>
        AllDroppedInv(s, s.shields);
        ShieldsFree(if deleteOnly then s else AllDropped(s, s.shields), ShieldsCleared(s, deleteOnly));
      case Strike(hit, damage) => AbsorbedInv(s, hit, 0, damage);
    }
  }

  lemma ClearedInv(s: State, tick: int)
    requires Inv(s)
    ensures Inv(AllCleared(s, tick))
  {
    hide BuffsRemoved, Inv;
    BuffsRemovedPanel(s, tick);
    EmptyInv(AllCleared(s, tick));
  }

  lemma EmptyInv(s: State)
    requires s.buffs == map[] && s.index == [] && |s.panel| == PANEL_SIZE
    ensures Inv(s)
  {
  }

  lemma {:induction false} BuffsRemovedPanel(s: State, tick: int)
    requires Inv(s)
    ensures |BuffsRemoved(s, tick).panel| == PANEL_SIZE
    decreases |s.buffs|
  {
    hide Updated;
    if s.buffs != map[] {
      LowestGoes(s, tick);
      BuffsRemovedPanel(Updated(s, LeastId(s.buffs.Keys), true, false, tick), tick);
    }
  }

  function Initial(isPlayer: bool): State {
    State(map[], [], 0, seq(PANEL_SIZE, _ => EMPTY_PANEL), [], [], isPlayer)
  }

  function Run(isPlayer: bool, ops: seq<Op>): (s: State)
    requires forall i :: 0 <= i < |ops| ==> Legal(ops[i])
    ensures Inv(s)
  {
    if ops == [] then
      EmptyInv(Initial(isPlayer));
      Initial(isPlayer)
    else
      var s := Run(isPlayer, ops[..|ops| - 1]);
      StepInv(s, ops[|ops| - 1]);
      Step(s, ops[|ops| - 1])
  }
}
