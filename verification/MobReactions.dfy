/** What the shields send back: for each shield the hit reaches, in order, reflection and energy from the damage left
    at that point. */
module MobReactions {
  import opened Mob
  import opened MobLaws
  import opened MobDamage
  import opened MobRuns
  import opened MobHandles

  /** A hit with a source is reflected unless energy damage meets the environmental barrier: the share of the damage,
      rounded up, or the shield's limit if the share exceeds that. */
  lemma ReflectionExact(hit: Hit, sh: Shield, damage: real)
    ensures var es := ReflectEvents(hit, sh, damage);
      if hit.fromSource && sh.reflectPct > 0.0 && !(hit.energyDamage && sh.id == 44) then
        && |es| == 1 && es[0].Reflected?
        && if damage * sh.reflectPct > sh.reflectMax then es[0].amount == sh.reflectMax
           else es[0].amount == es[0].amount.Floor as real && damage * sh.reflectPct <= es[0].amount < damage * sh.reflectPct + 1.0
      else es == []
  {
    var share := damage * sh.reflectPct;
    assert Portion(damage, sh.reflectPct) == share;
    RoundedUp(share);
  }

  lemma RoundedUp(x: real)
    ensures Ceiling(x) == Ceiling(x).Floor as real && x <= Ceiling(x) < x + 1.0
  {
  }

  /** A player's reactor turns the share of the damage, at most the shield's limit, into energy, and gives the group as
      much if the shield says so. */
  lemma ReactorExact(hit: Hit, isPlayer: bool, sh: Shield, damage: real)
    ensures var es := ReactorEvents(hit, isPlayer, sh, damage);
      var share := damage * sh.reactorPct;
      var energy := if share > sh.reactorMax then sh.reactorMax else share;
      es == if !(isPlayer && sh.reactorPct > 0.0) then []
            else if sh.toGroup && hit.grouped then [Energised(energy, false), Energised(energy, true)]
            else [Energised(energy, false)]
  {
  }

  /** The reactions of the shields in turn, each to the damage that the ones before it have let through. */
  function Reactions(shields: seq<Shield>, hit: Hit, isPlayer: bool, damage: real): seq<Event> {
    if shields == [] then []
    else
      var sh := shields[0];
      var left := if !sh.hasCap then damage else if sh.cap > damage then 0.0 else damage - sh.cap;
      ReflectEvents(hit, sh, damage) + ReactorEvents(hit, isPlayer, sh, damage) + Reactions(shields[1..], hit, isPlayer, left)
  }

  /** The reactions among some events, in order. */
  function Reacting(es: seq<Event>): seq<Event> {
    if es == [] then []
    else Reacting(es[..|es| - 1]) + if es[|es| - 1].Reflected? || es[|es| - 1].Energised? then [es[|es| - 1]] else []
  }

  lemma {:induction false} ReactingBoth(a: seq<Event>, b: seq<Event>)
    ensures Reacting(a + b) == Reacting(a) + Reacting(b)
  {
    if b == [] {
      assert a + b == a;
    } else {
      var n := |b| - 1;
      ReactingBoth(a, b[..n]);
      assert (a + b)[..|a + b| - 1] == a + b[..n] && (a + b)[|a + b| - 1] == b[n];
    }
  }

  lemma {:induction false} AllReact(es: seq<Event>)
    requires forall e <- es :: e.Reflected? || e.Energised?
    ensures Reacting(es) == es
  {
    if es != [] {
      AllReact(es[..|es| - 1]);
      assert es == es[..|es| - 1] + [es[|es| - 1]];
    }
  }

  lemma {:induction false} NoneReact(es: seq<Event>)
    requires forall e <- es :: !e.Reflected? && !e.Energised?
    ensures Reacting(es) == []
  {
    if es != [] {
      NoneReact(es[..|es| - 1]);
    }
  }

  /** Between `s` and `r` exactly these reactions went out. */
  ghost predicate Reacts(s: State, r: State, es: seq<Event>) {
    s.out <= r.out && Reacting(r.out[|s.out|..]) == es && r.isPlayer == s.isPlayer
  }

  lemma ReactsThen(s: State, q: State, r: State, a: seq<Event>, b: seq<Event>)
    requires Reacts(s, q, a) && Reacts(q, r, b)
    ensures Reacts(s, r, a + b)
  {
    hide Reacting;
    ReactingBoth(q.out[|s.out|..], r.out[|q.out|..]);
    assert r.out[|s.out|..] == q.out[|s.out|..] + r.out[|q.out|..];
  }

  lemma NoReaction(s: State, r: State)
    requires r.out == s.out && r.isPlayer == s.isPlayer
    ensures Reacts(s, r, [])
  {
  }

  lemma PlainQuiet(s: State, id: BuffId)
    ensures Reacts(s, RemovedPlain(s, id, true), [])
  {
    hide StatEvents, EffectEvents, Unindexed, Cleared, HasStats, Reacting;
    var r := RemovedPlain(s, id, true);
    NoneReact([]);
    if id in s.buffs {
      var b := s.buffs[id];
      StatsListed(b.stats);
      EffectsListed(b.effects);
      var tail := r.out[|s.out| + |StatEvents(b.stats)| + |EffectEvents(b.effects)|..];
      assert r.out[|s.out|..] == StatEvents(b.stats) + EffectEvents(b.effects) + tail;
      NoneReact(r.out[|s.out|..]);
    } else {
      assert r.out[|s.out|..] == [];
    }
  }

  lemma UsedUpQuiet(s: State, i: nat)
    requires i < |s.shields|
    ensures Reacts(s, WithoutUsedUp(s, i), [])
  {
    hide RemovedPlain, Reacting;
    NoneReact([]);
    assert s.out[|s.out|..] == [];
    var sh := s.shields[i];
    var s1 := s.(shields := s.shields[i := sh.(cap := 0.0)]);
    var k := FirstShield(s1.shields, sh.id);
    if k < |s1.shields| {
      PlainQuiet(s1.(shields := Without(s1.shields, k)), s1.shields[k].buffId);
    }
  }

  lemma ReactedReacts(s: State, hit: Hit, i: nat, damage: real)
    requires i < |s.shields|
    ensures var sh := s.shields[i];
      Reacts(s, Reacted(s, hit, i, damage), ReflectEvents(hit, sh, damage) + ReactorEvents(hit, s.isPlayer, sh, damage))
  {
    hide Portion, Ceiling, Reacting;
    var sh := s.shields[i];
    var es := ReflectEvents(hit, sh, damage) + ReactorEvents(hit, s.isPlayer, sh, damage);
    AllReact(es);
    var r := Reacted(s, hit, i, damage);
    assert r.out == s.out + es;
    assert r.out[|s.out|..] == es;
  }

  lemma NextReaction(shields: seq<Shield>, hit: Hit, isPlayer: bool, i: nat, damage: real)
    requires i < |shields|
    ensures var sh := shields[i];
      var left := if !sh.hasCap then damage else if sh.cap > damage then 0.0 else damage - sh.cap;
      Reactions(shields[i..], hit, isPlayer, damage) == ReflectEvents(hit, sh, damage) + ReactorEvents(hit, isPlayer, sh, damage)
                                              + Reactions(shields[i + 1..], hit, isPlayer, left)
  {
    hide ReflectEvents, ReactorEvents;
    TailOf(shields, i);
  }

  lemma {:induction false} LoopReacts(s: State, hit: Hit, i: nat, damage: real)
    requires Inv(s) && Usable(s.shields) && i <= |s.shields| && damage >= 0.0
    ensures Reacts(s, Absorbed(s, hit, i, damage).0, Reactions(s.shields[i..], hit, s.isPlayer, damage))
    decreases |s.shields| - i
  {
    hide Absorbed, Reacted, WithoutUsedUp, Inv, Usable, Reacts, Reactions, ReflectEvents, ReactorEvents;
    if i == |s.shields| {
      AbsorbedNothing(s, hit, i, damage);
      NothingReacts(s, hit, damage);
      assert s.shields[i..] == [];
    } else {
      var sh, s1, r := s.shields[i], Reacted(s, hit, i, damage), Absorbed(s, hit, i, damage).0;
      var es := ReflectEvents(hit, sh, damage) + ReactorEvents(hit, s.isPlayer, sh, damage);
      AbsorbedStep(s, hit, i, damage);
      ReactedKeeps(s, hit, i, damage);
      ReactedReacts(s, hit, i, damage);
      NextReaction(s.shields, hit, s.isPlayer, i, damage);
      UsableAt(s.shields, i);
      if sh.hasCap && sh.cap > damage {
        var s2 := s1.(shields := s.shields[i := sh.(cap := sh.cap - damage)]);
        ShieldsFree(s1, s2);
        LoweredUsable(s.shields, i, sh.cap - damage);
        LoopReacts(s2, hit, i + 1, 0.0);
        assert s2.shields[i + 1..] == s.shields[i + 1..];
        NoReaction(s1, s2);
        ReactsThen(s, s1, s2, es, []);
        ReactsThen(s, s2, r, es + [], Reactions(s.shields[i + 1..], hit, s.isPlayer, 0.0));
        assert es + [] == es;
      } else if sh.hasCap {
        GivesWayReacts(s, s1, hit, i, damage, es, r);
      } else {
        LoopReacts(s1, hit, i + 1, damage);
        ReactsThen(s, s1, r, es, Reactions(s.shields[i + 1..], hit, s.isPlayer, damage));
      }
    }
  }

  lemma {:induction false} GivesWayReacts(s: State, s1: State, hit: Hit, i: nat, damage: real, es: seq<Event>, r: State)
    requires Inv(s1) && Usable(s.shields) && i < |s.shields| && s1 == s.(out := s1.out) && Reacts(s, s1, es)
    requires s.shields[i].hasCap && 0.0 < s.shields[i].cap <= damage
    requires i <= |WithoutUsedUp(s1, i).shields| && r == Absorbed(WithoutUsedUp(s1, i), hit, i, damage - s.shields[i].cap).0
    ensures Reacts(s, r, es + Reactions(s.shields[i + 1..], hit, s.isPlayer, damage - s.shields[i].cap))
    decreases |s.shields| - i, 0
  {
    hide Absorbed, WithoutUsedUp, Inv, Usable, Reacts, Reactions, Lost;
    var q, left := WithoutUsedUp(s1, i), damage - s.shields[i].cap;
    RemoveUsedUp(s1, i);
    UsedUpQuiet(s1, i);
    WithoutParts(s.shields, i);
    LoopReacts(q, hit, i, left);
    ReactsThen(s, s1, q, es, []);
    assert es + [] == es;
    ReactsThen(s, q, r, es, Reactions(s.shields[i + 1..], hit, s.isPlayer, left));
  }

  lemma NothingReacts(s: State, hit: Hit, damage: real)
    ensures Reacts(s, s, Reactions([], hit, s.isPlayer, damage))
  {
  }

  lemma UsableAt(shields: seq<Shield>, i: nat)
    requires Usable(shields) && i < |shields|
    ensures shields[i].hasCap ==> shields[i].cap > 0.0
  {
  }

  lemma LoweredUsable(shields: seq<Shield>, i: nat, cap: real)
    requires Usable(shields) && i < |shields| && cap > 0.0
    ensures Usable(shields[i := shields[i].(cap := cap)])
  {
  }

  /** A hit sends back exactly the reactions of the shields in order, whatever buffs go in between. */
  lemma HitReacts(s: State, hit: Hit, damage: real)
    requires Inv(s) && Usable(s.shields) && damage >= 0.0
    ensures var r := Absorbed(s, hit, 0, damage).0;
      s.out <= r.out && Reacting(r.out[|s.out|..]) == Reactions(s.shields, hit, s.isPlayer, damage)
  {
    hide Absorbed, Inv, Usable, Reactions, Reacting;
    LoopReacts(s, hit, 0, damage);
    assert s.shields[0..] == s.shields;
  }
}
