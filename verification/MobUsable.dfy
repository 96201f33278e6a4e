/** In every run shield ids stay unique and whatever can absorb has something left, so the conservation law holds for
    every hit there is. */
module MobUsable {
  import opened Mob
  import opened MobLaws
  import opened MobDamage
  import opened MobExact
  import opened MobRuns

  lemma UpdatedUsable(s: State, id: BuffId, force: bool, skipShield: bool, tick: int)
    requires Inv(s) && Usable(s.shields)
    ensures Usable(Updated(s, id, force, skipShield, tick).shields)
  {
    hide Updated, Inv, Usable;
    UpdatedExact(s, id, force, skipShield, tick);
    if Fires(s, id, force, tick) && !skipShield {
      UsableAfter(s.shields, s.buffs[id].absorb);
    }
  }

  lemma {:induction false} ExpiredUsable(s: State, now: int, tick: int)
    requires Inv(s) && Usable(s.shields)
    ensures Usable(Expired(s, now, tick).shields)
    decreases |s.index|
  {
    hide Updated, Inv, Usable;
    if s.index != [] && s.index[0].0 <= now {
      var id := s.index[0].1;
      UpdatedExact(s, id, true, false, tick);
      HeadGoes(s, tick);
      UpdatedUsable(s, id, true, false, tick);
      ExpiredUsable(Updated(s, id, true, false, tick), now, tick);
    }
  }

  lemma {:induction false} BuffsRemovedUsable(s: State, tick: int)
    requires Inv(s) && Usable(s.shields)
    ensures Usable(BuffsRemoved(s, tick).shields)
    decreases |s.buffs|
  {
    hide Updated, Inv, Usable;
    if s.buffs != map[] {
      LowestGoes(s, tick);
      UpdatedUsable(s, LeastId(s.buffs.Keys), true, false, tick);
      BuffsRemovedUsable(Updated(s, LeastId(s.buffs.Keys), true, false, tick), tick);
    }
  }

  lemma CapacityLowered(shields: seq<Shield>, i: nat, cap: real)
    requires Usable(shields) && i < |shields| && cap > 0.0
    ensures Usable(shields[i := shields[i].(cap := cap)])
  {
  }

  /** A hit of any size, negative ones included. */
  lemma {:induction false} AbsorbedUsable(s: State, hit: Hit, i: nat, damage: real)
    requires Inv(s) && Usable(s.shields) && i <= |s.shields|
    ensures Usable(Absorbed(s, hit, i, damage).0.shields)
    decreases |s.shields| - i
  {
    hide Absorbed, Reacted, WithoutUsedUp, Inv, Usable;
    if i == |s.shields| {
      AbsorbedAtEnd(s, hit, i, damage);
    } else {
      var s1, sh := Reacted(s, hit, i, damage), s.shields[i];
      AbsorbedStep(s, hit, i, damage);
      ReactedInv(s, hit, i, damage);
      if sh.hasCap && sh.cap != 0.0 && sh.cap > damage {
        var s2 := s1.(shields := s.shields[i := sh.(cap := sh.cap - damage)]);
        CapacityLowered(s.shields, i, sh.cap - damage);
        ShieldsFree(s1, s2);
        AbsorbedUsable(s2, hit, i + 1, 0.0);
      } else if sh.hasCap {
        RemoveUsedUp(s1, i);
        AbsorbedUsable(WithoutUsedUp(s1, i), hit, i, if sh.cap != 0.0 then damage - sh.cap else damage);
      } else {
        AbsorbedUsable(s1, hit, i + 1, damage);
      }
    }
  }

  lemma AbsorbedAtEnd(s: State, hit: Hit, i: nat, damage: real)
    requires i == |s.shields|
    ensures Absorbed(s, hit, i, damage) == (s, damage)
  {
  }

  lemma ReactedInv(s: State, hit: Hit, i: nat, damage: real)
    requires Inv(s) && i < |s.shields|
    ensures Inv(Reacted(s, hit, i, damage)) && Reacted(s, hit, i, damage) == s.(out := Reacted(s, hit, i, damage).out)
  {
    hide ReflectEvents, ReactorEvents;
    ShieldsFree(s, Reacted(s, hit, i, damage));
  }

  lemma {:induction false} RedisplayedShields(s: State, n: nat, tick: int)
    requires n <= PANEL_SIZE
    ensures Redisplayed(s, n, tick).shields == s.shields
  {
    if n > 0 {
      RedisplayedShields(s, n - 1, tick);
    }
  }

  /** Every operation keeps the shields usable. */
  lemma StepUsable(s: State, op: Op)
    requires Inv(s) && Legal(op) && Usable(s.shields)
    ensures Usable(Step(s, op).shields)
  {
    hide Updated, Expired, ShieldAdded, ShieldRemoved, Absorbed, Redisplayed, AllDropped, BuffsRemoved, Inv, Usable;
    match op {
      case RemoveNamed(kind, tick) =>
        if NamedIds(s.buffs, kind) != {} {
          UpdatedUsable(s, LeastId(NamedIds(s.buffs, kind)), true, false, tick);
        }
      case Update(id, force, skipShield, tick) => UpdatedUsable(s, id, force, skipShield, tick);
      case ChangeSector(tick) => RedisplayedShields(s, PANEL_SIZE, tick);
      case Expire(now, tick) => ExpiredUsable(s, now, tick);
      case Clear(tick) => BuffsRemovedUsable(s, tick);
      case AddShield(sh) => ShieldAddedExact(s, sh);
      case RemoveShield(id) =>
        ShieldRemovedExact(s, id);
        UsableAfter(s.shields, id);
      case ClearShields(deleteOnly) => NoneUsable();
      case Strike(hit, damage) => AbsorbedUsable(s, hit, 0, damage);
      case Add(r, effects, stats, tick) =>
      case RefreshOrAdd(r, effects, stats, tick) =>
    }
  }

  lemma {:induction false} RunUsable(isPlayer: bool, ops: seq<Op>)
    requires forall i :: 0 <= i < |ops| ==> Legal(ops[i])
    ensures Usable(Run(isPlayer, ops).shields)
  {
    hide Step, Usable;
    if ops == [] {
      NoneUsable();
    } else {
      RunUsable(isPlayer, ops[..|ops| - 1]);
      StepUsable(Run(isPlayer, ops[..|ops| - 1]), ops[|ops| - 1]);
    }
  }

  /** In every reachable state: what a hit of non-negative damage leaves is the damage beyond the total, the total falls by
      exactly what is absorbed, and exactly the used-up shields go, with the buffs they name. */
  lemma EveryHitConserves(isPlayer: bool, ops: seq<Op>, hit: Hit, damage: real)
    requires (forall i :: 0 <= i < |ops| ==> Legal(ops[i])) && damage >= 0.0
    ensures var s := Run(isPlayer, ops);
      var (r, left) := Absorbed(s, hit, 0, damage);
      && left == (if damage > Total(s.shields) then damage - Total(s.shields) else 0.0)
      && Total(s.shields) - Total(r.shields) == damage - left
      && r.shields == Worn(s.shields, damage) && Usable(r.shields)
      && r.buffs == s.buffs - NamedByAll(UsedUp(s.shields, damage))
  {
    hide Run, Absorbed, Usable, Inv;
    RunUsable(isPlayer, ops);
    HitConserves(Run(isPlayer, ops), hit, damage);
  }
}
