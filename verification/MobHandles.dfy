/** No stat or effect handle is lost: whatever takes a buff off the record gives its handles back first, and over every
    run each handle that was given is on record or has been given back. */
module MobHandles {
  import opened Mob
  import opened MobLaws
  import opened MobDamage
  import opened MobRuns
  import opened MobExact

  /** The calls that give back the handles of a buff. */
  function Back(b: Buff): seq<Event> { StatEvents(b.stats) + EffectEvents(b.effects) }

  /** Exactly the stat handles other than 0 are given back, each as often as the record holds it. */
  lemma {:induction false} StatsListed(stats: seq<int>)
    ensures forall e <- StatEvents(stats) :: e.StatRemoved? && e.handle != 0
    ensures forall h: int :: h != 0 ==> multiset(StatEvents(stats))[StatRemoved(h)] == multiset(stats)[h]
  {
    if stats != [] {
      var n := |stats| - 1;
      StatsListed(stats[..n]);
      assert stats == stats[..n] + [stats[n]];
    }
  }

  /** Exactly the effect handles other than -1 are given back, each as often as the record holds it. */
  lemma {:induction false} EffectsListed(effects: seq<int>)
    ensures forall e <- EffectEvents(effects) :: e.EffectRemoved? && e.handle != -1
    ensures forall h: int :: h != -1 ==> multiset(EffectEvents(effects))[EffectRemoved(h)] == multiset(effects)[h]
  {
    if effects != [] {
      var n := |effects| - 1;
      EffectsListed(effects[..n]);
      assert effects == effects[..n] + [effects[n]];
    }
  }

  /** What giving back the handles of these buffs takes. */
  function Owed(buffs: map<BuffId, Buff>, ids: set<BuffId>): multiset<Event>
    requires ids <= buffs.Keys
  {
    if ids == {} then multiset{}
    else
      var id := LeastId(ids);
      multiset(Back(buffs[id])) + Owed(buffs, ids - {id})
  }

  lemma {:induction false} OwedTakes(buffs: map<BuffId, Buff>, ids: set<BuffId>, id: BuffId)
    requires ids <= buffs.Keys && id in ids
    ensures Owed(buffs, ids) == multiset(Back(buffs[id])) + Owed(buffs, ids - {id})
    decreases |ids|
  {
    hide Back;
    var first := LeastId(ids);
    if first != id {
      OwedTakes(buffs, ids - {first}, id);
      assert LeastId(ids - {id}) == first by { LeastStays(ids, id); }
      assert ids - {first} - {id} == ids - {id} - {first};
    }
  }

  lemma LeastStays(ids: set<BuffId>, id: BuffId)
    requires id in ids && LeastId(ids) != id
    ensures ids - {id} != {} && LeastId(ids - {id}) == LeastId(ids)
  {
    var first, rest := LeastId(ids), ids - {id};
    assert first in rest;
    assert LeastId(rest) in ids;
    assert first <= LeastId(rest) <= first;
  }

  lemma {:induction false} OwedSame(buffs: map<BuffId, Buff>, other: map<BuffId, Buff>, ids: set<BuffId>)
    requires ids <= buffs.Keys && ids <= other.Keys && forall id <- ids :: Back(buffs[id]) == Back(other[id])
    ensures Owed(buffs, ids) == Owed(other, ids)
    decreases |ids|
  {
    hide Back;
    if ids != {} {
      OwedSame(buffs, other, ids - {LeastId(ids)});
    }
  }

  lemma {:induction false} OwedSplit(buffs: map<BuffId, Buff>, a: set<BuffId>, b: set<BuffId>)
    requires a <= buffs.Keys && b <= buffs.Keys && a !! b
    ensures Owed(buffs, a + b) == Owed(buffs, a) + Owed(buffs, b)
    decreases |a|
  {
    hide Back;
    if a == {} {
      assert a + b == b;
    } else {
      var id := LeastId(a);
      OwedSplit(buffs, a - {id}, b);
      OwedTakes(buffs, a + b, id);
      UnionMinus(a, b, id);
    }
  }

  lemma UnionMinus(a: set<BuffId>, b: set<BuffId>, id: BuffId)
    requires id in a && a !! b
    ensures (a + b) - {id} == (a - {id}) + b
  {
  }

  // ----- Giving back -----

  predicate IsReturn(e: Event) { e.StatRemoved? || e.EffectRemoved? }

  /** All that is owed is among the events, and no other handle. */
  ghost predicate Pays(events: seq<Event>, owed: multiset<Event>) {
    owed <= multiset(events) && forall e <- events :: IsReturn(e) ==> e in owed
  }

  /** Between `s` and `r` buffs were only taken off the record, and exactly the handles of these were given back, each
      at least once. */
  ghost predicate GivesBack(s: State, r: State) {
    && s.out <= r.out && r.buffs.Keys <= s.buffs.Keys && (forall id <- r.buffs.Keys :: r.buffs[id] == s.buffs[id])
    && Pays(r.out[|s.out|..], Owed(s.buffs, s.buffs.Keys - r.buffs.Keys))
  }

  lemma PaysBoth(a: seq<Event>, b: seq<Event>, x: multiset<Event>, y: multiset<Event>)
    requires Pays(a, x) && Pays(b, y)
    ensures Pays(a + b, x + y)
  {
  }

  lemma GivesNothing(s: State, r: State)
    requires r.buffs == s.buffs && s.out <= r.out && forall e <- r.out[|s.out|..] :: !IsReturn(e)
    ensures GivesBack(s, r)
  {
    assert s.buffs.Keys - r.buffs.Keys == {};
  }

  lemma GivesBackTwice(s: State, q: State, r: State)
    requires GivesBack(s, q) && GivesBack(q, r)
    ensures GivesBack(s, r)
  {
    hide Owed, Pays;
    var a, b := s.buffs.Keys - q.buffs.Keys, q.buffs.Keys - r.buffs.Keys;
    OwedSplit(s.buffs, a, b);
    OwedSame(s.buffs, q.buffs, b);
    assert s.buffs.Keys - r.buffs.Keys == a + b;
    assert r.out[|s.out|..] == q.out[|s.out|..] + r.out[|q.out|..];
    PaysBoth(q.out[|s.out|..], r.out[|q.out|..], Owed(s.buffs, a), Owed(q.buffs, b));
  }

  lemma OneBack(s: State, r: State, id: BuffId, tail: seq<Event>)
    requires id in s.buffs && r.buffs == s.buffs - {id} && r.out == s.out + Back(s.buffs[id]) + tail
    requires forall e <- tail :: !IsReturn(e)
    ensures GivesBack(s, r)
  {
    hide Back;
    assert s.buffs.Keys - r.buffs.Keys == {id};
    OwedTakes(s.buffs, {id}, id);
    assert {id} - {id} == {};
    assert r.out[|s.out|..] == Back(s.buffs[id]) + tail;
  }

  lemma PlainGivesBack(s: State, id: BuffId, force: bool)
    ensures GivesBack(s, RemovedPlain(s, id, force))
  {
    hide StatEvents, EffectEvents, Unindexed, HasStats, Cleared;
    var r := RemovedPlain(s, id, force);
    if id in s.buffs {
      var b := s.buffs[id];
      var tail := if s.isPlayer && (force || b.perm || HasStats(b)) then [PanelSent] else [];
      assert s.out + StatEvents(b.stats) + EffectEvents(b.effects) + tail == s.out + Back(b) + tail;
      OneBack(s, r, id, tail);
    } else {
      GivesNothing(s, r);
    }
  }

  lemma DroppedGivesBack(s: State, sh: Shield)
    ensures GivesBack(s, ShieldDropped(s, sh))
  {
    hide RemovedPlain;
    if sh.buffId == NO_BUFF {
      GivesNothing(s, s);
    } else {
      PlainGivesBack(s, sh.buffId, true);
    }
  }

  lemma RemovedGivesBack(s: State, id: int)
    ensures GivesBack(s, ShieldRemoved(s, id))
  {
    hide ShieldDropped;
    var i := FirstShield(s.shields, id);
    if i == |s.shields| {
      GivesNothing(s, s);
    } else {
      var s1 := s.(shields := Without(s.shields, i));
      GivesNothing(s, s1);
      DroppedGivesBack(s1, s.shields[i]);
      GivesBackTwice(s, s1, ShieldDropped(s1, s.shields[i]));
    }
  }

  lemma UpdatedGivesBack(s: State, id: BuffId, force: bool, skipShield: bool, tick: int)
    ensures GivesBack(s, Updated(s, id, force, skipShield, tick))
  {
    hide RemovedPlain, Stripped, Closed, ShieldRemoved;
    var r := Updated(s, id, force, skipShield, tick);
    if id !in s.buffs || !(force || Due(s.buffs[id], tick)) {
      GivesNothing(s, s);
    } else if skipShield || s.buffs[id].absorb == 0 {
      PlainGivesBack(s, id, force);
    } else {
      LinkedGivesBack(s, id, force);
    }
  }

  lemma LinkedGivesBack(s: State, id: BuffId, force: bool)
    requires id in s.buffs
    ensures var b := s.buffs[id];
      var s1 := ShieldRemoved(Stripped(s, b), b.absorb);
      var s2 := s1.(buffs := Touched(s1.buffs, id));
      GivesBack(s, Closed(s2, id, s2.buffs[id], force, HasStats(b)))
  {
    hide ShieldRemoved, Stripped, Closed, GivesBack;
    var b := s.buffs[id];
    var s0 := Stripped(s, b);
    StripGives(s, b);
    RemovedGivesBack(s0, b.absorb);
    var s1 := ShieldRemoved(s0, b.absorb);
    CloseGives(s1, id, force, HasStats(b));
    var s2 := s1.(buffs := Touched(s1.buffs, id));
    ThenClosed(s, s0, s1, Closed(s2, id, s2.buffs[id], force, HasStats(b)), id);
  }

  lemma StripGives(s: State, b: Buff)
    ensures Stripped(s, b).out == s.out + Back(b) && Stripped(s, b).buffs == s.buffs
  {
    hide StatEvents, EffectEvents;
  }

  lemma CloseGives(s: State, id: BuffId, force: bool, removedStat: bool)
    ensures var s2 := s.(buffs := Touched(s.buffs, id));
      var r := Closed(s2, id, s2.buffs[id], force, removedStat);
      r.buffs == s.buffs - {id} && s.out <= r.out && forall e <- r.out[|s.out|..] :: !IsReturn(e)
  {
    hide Unindexed, Cleared;
  }

  lemma ThenClosed(s: State, s0: State, s1: State, r: State, id: BuffId)
    requires id in s.buffs && s0.buffs == s.buffs && s0.out == s.out + Back(s.buffs[id]) && GivesBack(s0, s1)
    requires r.buffs == s1.buffs - {id} && s1.out <= r.out && forall e <- r.out[|s1.out|..] :: !IsReturn(e)
    ensures GivesBack(s, r)
  {
    hide Owed, Back, Pays;
    var gone := s.buffs.Keys - s1.buffs.Keys;
    assert s.buffs.Keys - r.buffs.Keys == gone + {id};
    AtMostOneMore(s.buffs, gone, id);
    assert r.out[|s.out|..] == Back(s.buffs[id]) + s1.out[|s0.out|..] + r.out[|s1.out|..];
    PaysOnce(Back(s.buffs[id]), s1.out[|s0.out|..], r.out[|s1.out|..], Owed(s.buffs, gone), Owed(s.buffs, gone + {id}));
  }

  lemma PaysOnce(a: seq<Event>, b: seq<Event>, tail: seq<Event>, x: multiset<Event>, y: multiset<Event>)
    requires Pays(b, x) && y <= multiset(a) + x && multiset(a) <= y && x <= y && forall e <- tail :: !IsReturn(e)
    ensures Pays(a + b + tail, y)
  {
  }

  lemma AtMostOneMore(buffs: map<BuffId, Buff>, ids: set<BuffId>, id: BuffId)
    requires ids <= buffs.Keys && id in buffs
    ensures var y := Owed(buffs, ids + {id});
      y <= multiset(Back(buffs[id])) + Owed(buffs, ids) && multiset(Back(buffs[id])) <= y && Owed(buffs, ids) <= y
  {
    hide Back;
    OwedTakes(buffs, ids + {id}, id);
    if id in ids {
      assert ids + {id} == ids;
    } else {
      assert (ids + {id}) - {id} == ids;
    }
  }

  lemma {:induction false} ExpiredGivesBack(s: State, now: int, tick: int)
    requires Inv(s)
    ensures GivesBack(s, Expired(s, now, tick))
    decreases |s.index|
  {
    hide Updated, Inv;
    if s.index == [] || s.index[0].0 > now {
      GivesNothing(s, s);
    } else {
      var q := Updated(s, s.index[0].1, true, false, tick);
      UpdatedExact(s, s.index[0].1, true, false, tick);
      HeadGoes(s, tick);
      UpdatedGivesBack(s, s.index[0].1, true, false, tick);
      ExpiredGivesBack(q, now, tick);
      GivesBackTwice(s, q, Expired(q, now, tick));
    }
  }

  lemma {:induction false} BuffsRemovedGivesBack(s: State, tick: int)
    requires Inv(s)
    ensures var r := BuffsRemoved(s, tick); GivesBack(s, r) && r.buffs == map[]
    decreases |s.buffs|
  {
    hide Updated, Inv;
    if s.buffs == map[] {
      GivesNothing(s, s);
    } else {
      LowestGoes(s, tick);
      var q := Updated(s, LeastId(s.buffs.Keys), true, false, tick);
      UpdatedGivesBack(s, LeastId(s.buffs.Keys), true, false, tick);
      BuffsRemovedGivesBack(q, tick);
      GivesBackTwice(s, q, BuffsRemoved(q, tick));
    }
  }

  lemma {:induction false} AllDroppedGivesBack(s: State, shields: seq<Shield>)
    ensures GivesBack(s, AllDropped(s, shields))
    decreases |shields|
  {
    hide ShieldDropped;
    if shields == [] {
      GivesNothing(s, s);
    } else {
      var q := ShieldDropped(s, shields[0]);
      DroppedGivesBack(s, shields[0]);
      AllDroppedGivesBack(q, shields[1..]);
      GivesBackTwice(s, q, AllDropped(q, shields[1..]));
    }
  }

  lemma WithoutUsedUpGivesBack(s: State, i: nat)
    requires i < |s.shields|
    ensures GivesBack(s, WithoutUsedUp(s, i))
  {
    hide ShieldRemoved;
    var sh := s.shields[i];
    var s1 := s.(shields := s.shields[i := sh.(cap := 0.0)]);
    GivesNothing(s, s1);
    RemovedGivesBack(s1, sh.id);
    GivesBackTwice(s, s1, WithoutUsedUp(s, i));
  }

  lemma {:induction false} AbsorbedGivesBack(s: State, hit: Hit, i: nat, damage: real)
    requires Inv(s) && i <= |s.shields|
    ensures GivesBack(s, Absorbed(s, hit, i, damage).0)
    decreases |s.shields| - i
  {
    hide Absorbed, Reacted, WithoutUsedUp, Inv, GivesBack;
    if i == |s.shields| {
      AbsorbedNothing(s, hit, i, damage);
      GivesNothing(s, s);
    } else {
      var sh, s1, r := s.shields[i], Reacted(s, hit, i, damage), Absorbed(s, hit, i, damage).0;
      AbsorbedStep(s, hit, i, damage);
      ReactedKeeps(s, hit, i, damage);
      GivesNothing(s, s1);
      if sh.hasCap && sh.cap != 0.0 && sh.cap > damage {
        var s2 := s1.(shields := s.shields[i := sh.(cap := sh.cap - damage)]);
        ShieldsFree(s1, s2);
        GivesNothing(s, s2);
        AbsorbedGivesBack(s2, hit, i + 1, 0.0);
        GivesBackTwice(s, s2, r);
      } else if sh.hasCap {
        UsedUpInv(s1, i);
        WithoutUsedUpGivesBack(s1, i);
        AbsorbedGivesBack(WithoutUsedUp(s1, i), hit, i, if sh.cap != 0.0 then damage - sh.cap else damage);
        GivesBackTwice(s1, WithoutUsedUp(s1, i), r);
        GivesBackTwice(s, s1, r);
      } else {
        AbsorbedGivesBack(s1, hit, i + 1, damage);
        GivesBackTwice(s, s1, r);
      }
    }
  }

  lemma AbsorbedNothing(s: State, hit: Hit, i: nat, damage: real)
    requires i == |s.shields|
    ensures Absorbed(s, hit, i, damage) == (s, damage)
  {
  }

  lemma ReactedKeeps(s: State, hit: Hit, i: nat, damage: real)
    requires Inv(s) && i < |s.shields|
    ensures var r := Reacted(s, hit, i, damage);
      Inv(r) && r == s.(out := r.out) && s.out <= r.out && forall e <- r.out[|s.out|..] :: !IsReturn(e)
  {
    hide Portion, Ceiling;
    ShieldsFree(s, Reacted(s, hit, i, damage));
  }

  /** Adding and showing again aside, every operation only takes buffs off the record, and gives back every handle of
      each buff it takes, through however many links. */
  lemma StepGivesBack(s: State, op: Op)
    requires Inv(s) && Legal(op) && !op.Add? && !op.RefreshOrAdd? && !op.ChangeSector?
    ensures GivesBack(s, Step(s, op))
  {
    hide Updated, Expired, ShieldRemoved, Absorbed, AllDropped, BuffsRemoved, Inv, GivesBack;
    match op {
      case RemoveNamed(kind, tick) =>
        if NamedIds(s.buffs, kind) != {} {
          UpdatedGivesBack(s, LeastId(NamedIds(s.buffs, kind)), true, false, tick);
        } else {
          GivesNothing(s, s);
        }
      case Update(id, force, skipShield, tick) => UpdatedGivesBack(s, id, force, skipShield, tick);
      case Expire(now, tick) => ExpiredGivesBack(s, now, tick);
      case Clear(tick) =>
        BuffsRemovedGivesBack(s, tick);
        GivesNothing(BuffsRemoved(s, tick), AllCleared(s, tick));
        GivesBackTwice(s, BuffsRemoved(s, tick), AllCleared(s, tick));
      case AddShield(sh) => ShieldAddedGivesBack(s, sh);
      case RemoveShield(id) => RemovedGivesBack(s, id);
      case ClearShields(deleteOnly) =>
        var q := if deleteOnly then s else AllDropped(s, s.shields);
        GivesNothing(s, s);
        AllDroppedGivesBack(s, s.shields);
        GivesNothing(q, ShieldsCleared(s, deleteOnly));
        GivesBackTwice(s, q, ShieldsCleared(s, deleteOnly));
      case Strike(hit, damage) => AbsorbedGivesBack(s, hit, 0, damage);
    }
  }

  lemma ShieldAddedGivesBack(s: State, sh: Shield)
    ensures GivesBack(s, ShieldAdded(s, sh))
  {
    hide ShieldRemoved, GivesBack;
    var s1 := if FirstShield(s.shields, sh.id) < |s.shields| then ShieldRemoved(s, sh.id) else s;
    GivesNothing(s, s);
    RemovedGivesBack(s, sh.id);
    GivesNothing(s1, ShieldAdded(s, sh));
    GivesBackTwice(s, s1, ShieldAdded(s, sh));
  }

  // ----- Every handle is accounted for -----

  /** A handle to give back: not a stat or effect handle that the zero record holds. */
  predicate IsHandle(e: Event) { e.StatRemoved? || (e.EffectRemoved? && e.handle != 0) }

  lemma ZeroHoldsNone(e: Event)
    requires IsHandle(e)
    ensures multiset(Back(Zeroed()))[e] == 0
  {
    hide StatEvents, EffectEvents, Zeroed;
    EffectsListed(Zeroed().effects);
    ZeroEffects();
    NoStats(20);
    if e.EffectRemoved? && e.handle != -1 {
      assert e.handle !in Zeroed().effects;
      assert multiset(EffectEvents(Zeroed().effects))[EffectRemoved(e.handle)] == 0;
    }
  }

  lemma ZeroEffects()
    ensures forall h <- Zeroed().effects :: h == 0
  {
  }

  lemma {:induction false} NoStats(n: nat)
    ensures StatEvents(seq(n, _ => 0)) == []
    ensures n == 20 ==> seq(n, _ => 0) == Zeroed().stats
  {
    if n > 0 {
      NoStats(n - 1);
      assert seq(n, _ => 0)[..n - 1] == seq(n - 1, _ => 0);
    }
  }

  /** How often handle `e` has been given back or is on record. */
  function Accounted(s: State, e: Event): nat { multiset(s.out)[e] + Owed(s.buffs, s.buffs.Keys)[e] }

  /** The operation puts a new buff on record. */
  predicate Adds(s: State, op: Op) {
    op.Add? || (op.RefreshOrAdd? && RefreshableIds(s.buffs, op.r.kind, op.tick) == {})
  }

  /** The handles of the buff an operation adds. */
  function NewHandles(s: State, op: Op): multiset<Event>
    requires Inv(s) && Legal(op)
  {
    if Adds(s, op) then multiset(Back(Added(s, op.r, op.effects, op.stats, op.tick).buffs[s.nextId])) else multiset{}
  }

  lemma PrefixCount(out: seq<Event>, more: seq<Event>, e: Event)
    requires out <= more
    ensures multiset(more)[e] == multiset(out)[e] + multiset(more[|out|..])[e]
  {
    assert more == out + more[|out|..];
  }

  lemma GivenBackAccounted(s: State, r: State, e: Event)
    requires GivesBack(s, r)
    ensures Accounted(r, e) >= Accounted(s, e)
  {
    hide Owed;
    var kept, lost := r.buffs.Keys, s.buffs.Keys - r.buffs.Keys;
    OwedSplit(s.buffs, kept, lost);
    assert kept + lost == s.buffs.Keys;
    OwedSame(s.buffs, r.buffs, kept);
    PrefixCount(s.out, r.out, e);
  }

  lemma AddedAccounted(s: State, r: State, b: Buff, e: Event)
    requires IsHandle(e) && r.buffs == s.buffs[s.nextId := b] && s.out <= r.out
    requires s.nextId in s.buffs ==> s.buffs[s.nextId] == Zeroed()
    ensures Accounted(r, e) >= Accounted(s, e) + multiset(Back(b))[e]
  {
    hide Owed, Back;
    var id := s.nextId;
    var others := s.buffs.Keys - {id};
    PrefixCount(s.out, r.out, e);
    OwedTakes(r.buffs, r.buffs.Keys, id);
    assert r.buffs.Keys - {id} == others;
    OwedSame(s.buffs, r.buffs, others);
    if id in s.buffs {
      OwedTakes(s.buffs, s.buffs.Keys, id);
      ZeroHoldsNone(e);
    } else {
      assert others == s.buffs.Keys;
    }
  }

  lemma SameHandlesAccounted(s: State, r: State, e: Event)
    requires s.buffs.Keys <= r.buffs.Keys && s.out <= r.out
    requires forall id <- s.buffs.Keys :: Back(r.buffs[id]) == Back(s.buffs[id])
    ensures Accounted(r, e) >= Accounted(s, e)
  {
    hide Owed, Back;
    OwedSame(s.buffs, r.buffs, s.buffs.Keys);
    OwedSplit(r.buffs, s.buffs.Keys, r.buffs.Keys - s.buffs.Keys);
    assert s.buffs.Keys + (r.buffs.Keys - s.buffs.Keys) == r.buffs.Keys;
    PrefixCount(s.out, r.out, e);
  }

  lemma RefreshedHandles(s: State, id: BuffId, r: Request)
    requires id in s.buffs
    ensures var q := Refreshed(s, id, r);
      q.buffs.Keys == s.buffs.Keys && s.out <= q.out && forall x <- s.buffs.Keys :: Back(q.buffs[x]) == Back(s.buffs[x])
  {
    hide Inserted, Unindexed, StatEvents, EffectEvents;
  }

  lemma AddedFields(s: State, r: Request, effects: seq<int>, stats: seq<int>, tick: int)
    requires Inv(s) && WellFormed(r) && |effects| == 5 && |stats| == 20
    ensures var q := Added(s, r, effects, stats, tick);
      && s.nextId in q.buffs && q.buffs == s.buffs[s.nextId := q.buffs[s.nextId]] && s.out <= q.out
      && (s.nextId in s.buffs ==> s.buffs[s.nextId] == Zeroed())
  {
    hide Inserted, EffectsAdded, StatsAdded, Handles, StatHandles;
  }

  lemma SectorHandles(s: State, tick: int)
    requires Inv(s)
    ensures var r := SectorChanged(s, tick);
      s.buffs.Keys <= r.buffs.Keys && s.out <= r.out && forall id <- s.buffs.Keys :: r.buffs[id] == s.buffs[id]
  {
    hide Redisplayed;
    RedisplayedRecords(s, PANEL_SIZE, tick);
    RedisplayedOut(s, PANEL_SIZE, tick);
  }

  lemma {:induction false} RedisplayedOut(s: State, n: nat, tick: int)
    requires n <= PANEL_SIZE
    ensures Redisplayed(s, n, tick).out == s.out
  {
    if n > 0 {
      RedisplayedOut(s, n - 1, tick);
    }
  }

  /** No operation loses a handle, and each that adds a buff adds its handles. */
  lemma StepAccounts(s: State, op: Op, e: Event)
    requires Inv(s) && Legal(op) && IsHandle(e)
    ensures Accounted(Step(s, op), e) >= Accounted(s, e) + NewHandles(s, op)[e]
  {
    hide Added, Refreshed, SectorChanged, Accounted, Inv, Back;
    PanelSize(s);
    if Adds(s, op) {
      AddedFields(s, op.r, op.effects, op.stats, op.tick);
      var q := Added(s, op.r, op.effects, op.stats, op.tick);
      AddedAccounted(s, q, q.buffs[s.nextId], e);
      assert Step(s, op) == q;
    } else if op.RefreshOrAdd? {
      var id := LeastId(RefreshableIds(s.buffs, op.r.kind, op.tick));
      RefreshedHandles(s, id, op.r);
      SameHandlesAccounted(s, Refreshed(s, id, op.r), e);
    } else if op.ChangeSector? {
      SectorHandles(s, op.tick);
      SameHandlesAccounted(s, SectorChanged(s, op.tick), e);
    } else {
      StepGivesBack(s, op);
      GivenBackAccounted(s, Step(s, op), e);
    }
  }

  /** All handles given to buffs in a run. */
  function Given(isPlayer: bool, ops: seq<Op>): multiset<Event>
    requires forall i :: 0 <= i < |ops| ==> Legal(ops[i])
  {
    if ops == [] then multiset{}
    else
      var front := ops[..|ops| - 1];
      Given(isPlayer, front) + NewHandles(Run(isPlayer, front), ops[|ops| - 1])
  }

  /** Over every run of all operations, each handle ever given to a buff is on record with a buff or has been given
      back, as often as it was given. */
  lemma {:induction false} NoHandleLost(isPlayer: bool, ops: seq<Op>, e: Event)
    requires IsHandle(e) && forall i :: 0 <= i < |ops| ==> Legal(ops[i])
    ensures Accounted(Run(isPlayer, ops), e) >= Given(isPlayer, ops)[e]
  {
    hide Step, Accounted, NewHandles;
    if ops != [] {
      var front := ops[..|ops| - 1];
      assert forall i :: 0 <= i < |front| ==> Legal(front[i]) by {
        assert forall i :: 0 <= i < |front| ==> front[i] == ops[i];
      }
      NoHandleLost(isPlayer, front, e);
      StepAccounts(Run(isPlayer, front), ops[|ops| - 1], e);
    }
  }
}
