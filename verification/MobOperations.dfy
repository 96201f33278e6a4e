/** What adding a buff, removing one without a shield, and looking one up by name come to, field by field. */
module MobOperations {
  import opened Mob
  import opened MobLaws
  import opened MobRuns
  import opened MobExact
  import opened MobHandles

  /** Slot `i` is the first whose display has run out, or 0 if none has. */
  predicate FirstRunOut(panel: seq<Panel>, tick: int, i: nat) {
    if exists k :: 0 <= k < |panel| && RunOut(panel[k], tick)
    then i < |panel| && RunOut(panel[i], tick) && forall k :: 0 <= k < i ==> !RunOut(panel[k], tick)
    else i == 0
  }

  predicate RunOut(p: Panel, tick: int) { !p.perm && p.removal < tick }

  lemma {:induction false} FirstFreeIs(panel: seq<Panel>, tick: int)
    ensures var i := FirstFree(panel, tick);
      (i < |panel| ==> RunOut(panel[i], tick)) && forall k :: 0 <= k < i ==> !RunOut(panel[k], tick)
  {
    if panel != [] && !RunOut(panel[0], tick) {
      FirstFreeIs(panel[1..], tick);
      var i := FirstFree(panel[1..], tick);
      forall k | 0 <= k < i + 1
        ensures !RunOut(panel[k], tick)
      {
        if k > 0 {
          assert panel[k] == panel[1..][k - 1];
        }
      }
    }
  }

  lemma {:induction false} EffectsAsked(effects: seq<int>)
    ensures forall e <- EffectsAdded(effects) :: e.EffectAdded? && e.effect != -1
    ensures forall x: int :: x != -1 ==> multiset(EffectsAdded(effects))[EffectAdded(x)] == multiset(effects)[x]
  {
    if effects != [] {
      var n := |effects| - 1;
      EffectsAsked(effects[..n]);
      assert effects == effects[..n] + [effects[n]];
    }
  }

  lemma {:induction false} StatsAsked(stats: seq<string>)
    ensures forall e <- StatsAdded(stats) :: e.StatAdded? && e.name != ""
    ensures forall x: string :: x != "" ==> multiset(StatsAdded(stats))[StatAdded(x)] == multiset(stats)[x]
  {
    if stats != [] {
      var n := |stats| - 1;
      StatsAsked(stats[..n]);
      assert stats == stats[..n] + [stats[n]];
    }
  }

  /** The events of adding: each effect and each stat asked for, as often as it is, and a player's panel once. */
  ghost predicate Asks(es: seq<Event>, r: Request, isPlayer: bool) {
    && (forall x: int :: x != -1 ==> multiset(es)[EffectAdded(x)] == multiset(r.effects)[x])
    && (forall x: string :: x != "" ==> multiset(es)[StatAdded(x)] == multiset(r.stats)[x])
    && multiset(es)[PanelSent] == (if isPlayer then 1 else 0)
    && forall e <- es :: (e.EffectAdded? && e.effect != -1) || (e.StatAdded? && e.name != "") || e == PanelSent
  }

  lemma AsksAll(r: Request, isPlayer: bool)
    ensures Asks(EffectsAdded(r.effects) + StatsAdded(r.stats) + if isPlayer then [PanelSent] else [], r, isPlayer)
  {
    hide EffectsAdded, StatsAdded;
    EffectsAsked(r.effects);
    StatsAsked(r.stats);
    assert PanelSent !in EffectsAdded(r.effects) && PanelSent !in StatsAdded(r.stats);
    forall x: int | x != -1
      ensures multiset(StatsAdded(r.stats))[EffectAdded(x)] == 0
    {
      assert EffectAdded(x) !in StatsAdded(r.stats);
    }
    forall x: string | x != ""
      ensures multiset(EffectsAdded(r.effects))[StatAdded(x)] == 0
    {
      assert StatAdded(x) !in EffectsAdded(r.effects);
    }
  }

  /** A new buff is on record under the next id with what was asked for, the handle of each effect and stat asked for
      and none for the others; it is shown in the first run-out slot of a player's panel, indexed unless permanent, and
      each effect and stat is asked for once. */
  lemma AddedExact(s: State, r: Request, effects: seq<int>, stats: seq<int>, tick: int)
    requires Inv(s) && WellFormed(r) && |effects| == 5 && |stats| == 20
    ensures var q := Added(s, r, effects, stats, tick);
      && s.nextId in q.buffs
      && var b := q.buffs[s.nextId];
      && q.buffs == s.buffs[s.nextId := b] && q.nextId == s.nextId + 1 && q.shields == s.shields
      && b.kind == r.kind && b.absorb == r.absorb && b.perm == r.perm && b.expire == r.expire
      && |b.effects| == 5 && (forall i :: 0 <= i < 5 ==> b.effects[i] == if r.effects[i] != -1 then effects[i] else -1)
      && |b.stats| == 20 && (forall i :: 0 <= i < 20 ==> b.stats[i] == if r.stats[i] != "" then stats[i] else 0)
      && (s.isPlayer ==> FirstRunOut(s.panel, tick, b.slot) && b.slot < 16 && b.shown == Panel(r.perm, r.expire, r.kind)
                         && q.panel == s.panel[b.slot := b.shown])
      && (!s.isPlayer ==> q.panel == s.panel)
      && (forall x :: x in q.index <==> x in s.index || (!r.perm && x == (r.expire, s.nextId)))
      && s.out <= q.out && Asks(q.out[|s.out|..], r, s.isPlayer)
  {
    hide Inserted, EffectsAdded, StatsAdded, FirstFree, Asks;
    PanelSize(s);
    FirstFreeIs(s.panel, tick);
    InsertedIs(s.index, (r.expire, s.nextId));
    AsksAll(r, s.isPlayer);
    var es := EffectsAdded(r.effects) + StatsAdded(r.stats) + if s.isPlayer then [PanelSent] else [];
    var q := Added(s, r, effects, stats, tick);
    assert q.out == s.out + es;
    assert q.out[|s.out|..] == es;
  }

  /** A buff without a shield that is forced out, or is due, gives its handles back; a player's panel slot is emptied only
      if the buff was forced out or permanent, and the panel is sent then or if a stat was given back. */
  lemma PlainRemovalExact(s: State, id: BuffId, force: bool, tick: int)
    requires Inv(s) && id in s.buffs && s.buffs[id].absorb == 0 && (force || (s.buffs[id].expire <= tick && !s.buffs[id].perm))
    ensures var r, b := Updated(s, id, force, false, tick), s.buffs[id];
      var shown := s.isPlayer && (force || b.perm);
      var sent := shown || (s.isPlayer && exists h <- b.stats :: h != 0);
      && r.buffs == s.buffs - {id} && r.index == Kept(s.index, {id}) && r.shields == s.shields
      && b.slot < |s.panel| && r.panel == (if shown then s.panel[b.slot := EMPTY_PANEL] else s.panel)
      && r.out == s.out + Back(b) + if sent then [PanelSent] else []
  {
    hide Unindexed, StatEvents, EffectEvents;
    var b := s.buffs[id];
    UpdatedExact(s, id, force, false, tick);
    SlotOf(s, id);
    HasStatsIs(b);
    assert Casualties(s, id, false) == {id};
    assert s.out + StatEvents(b.stats) + EffectEvents(b.effects) == s.out + Back(b);
  }

  lemma HasStatsIs(b: Buff)
    ensures HasStats(b) <==> exists h <- b.stats :: h != 0
  {
    hide StatEvents;
    StatsListed(b.stats);
    if HasStats(b) {
      var e := StatEvents(b.stats)[0];
      assert multiset(StatEvents(b.stats))[StatRemoved(e.handle)] > 0;
      assert e.handle in b.stats;
    }
    if h :| h in b.stats && h != 0 {
      assert multiset(b.stats)[h] > 0;
      assert StatRemoved(h) in StatEvents(b.stats);
    }
  }

  /** Removal by name takes the lowest id with that name, expired or not, permanent or not, and what its shield names. */
  lemma RemovedByNameExact(s: State, kind: string, tick: int)
    requires Inv(s)
    ensures var r := RemovedByName(s, kind, tick);
      if exists id :: id in s.buffs && s.buffs[id].kind == kind then
        exists id :: && id in s.buffs && s.buffs[id].kind == kind && (forall x <- s.buffs.Keys :: s.buffs[x].kind == kind ==> id <= x)
                     && id !in r.buffs && r.buffs == s.buffs - Casualties(s, id, false) && GivesBack(s, r)
      else r == s
  {
    hide Updated, GivesBack, Inv;
    var ids := NamedIds(s.buffs, kind);
    if id :| id in s.buffs && s.buffs[id].kind == kind {
      assert id in ids;
      var least := LeastId(ids);
      UpdatedExact(s, least, true, false, tick);
      UpdatedGivesBack(s, least, true, false, tick);
      assert forall x <- s.buffs.Keys :: s.buffs[x].kind == kind ==> x in ids;
    }
  }

  /** A buff of the name that has not run out is refreshed in place, the one with the lowest id; only if there is none is
      a new one added. */
  lemma RefreshedOrAddedExact(s: State, r: Request, effects: seq<int>, stats: seq<int>, tick: int)
    requires Inv(s) && WellFormed(r) && |effects| == 5 && |stats| == 20
    ensures var q := RefreshedOrAdded(s, r, effects, stats, tick);
      if exists id :: id in s.buffs && StillRuns(s.buffs[id], r.kind, tick) then
        exists id :: && id in s.buffs && StillRuns(s.buffs[id], r.kind, tick)
                     && (forall x <- s.buffs.Keys :: StillRuns(s.buffs[x], r.kind, tick) ==> id <= x)
                     && q == Refreshed(s, id, r) && q.buffs.Keys == s.buffs.Keys && q.nextId == s.nextId
      else q == Added(s, r, effects, stats, tick) && q.nextId == s.nextId + 1
  {
    hide Inserted, Unindexed, EffectsAdded, StatsAdded, FirstFree, Inv;
    PanelSize(s);
    var ids := RefreshableIds(s.buffs, r.kind, tick);
    if id :| id in s.buffs && StillRuns(s.buffs[id], r.kind, tick) {
      assert id in ids;
      var least := LeastId(ids);
      assert forall x <- s.buffs.Keys :: StillRuns(s.buffs[x], r.kind, tick) ==> x in ids;
      assert Refreshed(s, least, r).buffs.Keys == s.buffs.Keys;
    }
  }

  predicate StillRuns(b: Buff, kind: string, tick: int) { b.kind == kind && (b.perm || b.expire > tick) }
}
