/** In runs in which each absorbing buff gets its own shield as it is added, as the shield abilities do, buffs and shields
    stay linked in pairs, so expiry takes exactly the due buffs. */
module MobLinks {
  import opened Mob
  import opened MobLaws
  import opened MobDamage
  import opened MobExact
  import opened MobRuns
  import opened MobUsable

  /** Some shield with this id names this buff. */
  ghost predicate Names(shields: seq<Shield>, id: int, buffId: BuffId) {
    exists i :: 0 <= i < |shields| && shields[i].id == id && shields[i].buffId == buffId
  }

  /** Every absorbing buff has its shield. */
  ghost predicate Backed(buffs: map<BuffId, Buff>, shields: seq<Shield>) {
    forall id :: id in buffs && buffs[id].absorb != 0 ==> Names(shields, buffs[id].absorb, id)
  }

  /** With unique ids the first shield with an id is the only one. */
  lemma OnlyShield(shields: seq<Shield>, id: int, buffId: BuffId)
    requires Usable(shields) && Names(shields, id, buffId)
    ensures var i := FirstShield(shields, id); i < |shields| && shields[i].buffId == buffId
  {
    var i :| 0 <= i < |shields| && shields[i].id == id && shields[i].buffId == buffId;
    FirstOfUnique(shields, i);
  }

  lemma BackedLinked(s: State)
    requires Inv(s) && Usable(s.shields) && Backed(s.buffs, s.shields)
    ensures Linked(s)
  {
    hide FirstShield;
    forall id | id in s.buffs && s.buffs[id].absorb != 0
      ensures ShieldCasualties(s, s.buffs[id].absorb) !! (s.buffs.Keys - {id})
    {
      OnlyShield(s.shields, s.buffs[id].absorb, id);
    }
  }

  /** A shield goes, and the buff it names with it. */
  lemma DroppedBacked(s: State, r: State, id: int)
    requires Inv(s) && Usable(s.shields) && Backed(s.buffs, s.shields)
    requires r.shields == ShieldsAfter(s.shields, id)
    requires forall x :: x in r.buffs ==> x in s.buffs && r.buffs[x] == s.buffs[x] && x !in ShieldCasualties(s, id)
    ensures Backed(r.buffs, r.shields)
    ensures id != 0 ==> forall x :: x in r.buffs ==> r.buffs[x].absorb != id
  {
    hide Usable, ShieldsAfter;
    forall x | x in r.buffs && r.buffs[x].absorb != 0
      ensures r.buffs[x].absorb != id && Names(r.shields, r.buffs[x].absorb, x)
    {
      assert 0 <= x;
      OnlyShield(s.shields, r.buffs[x].absorb, x);
      OthersStay(s.shields, id, r.buffs[x].absorb, x);
    }
  }

  lemma OthersStay(shields: seq<Shield>, dropped: int, id: int, buffId: BuffId)
    requires Names(shields, id, buffId) && id != dropped
    ensures Names(ShieldsAfter(shields, dropped), id, buffId)
  {
    hide FirstShield;
    var i :| 0 <= i < |shields| && shields[i].id == id && shields[i].buffId == buffId;
    var d := FirstShield(shields, dropped);
    if d < |shields| {
      var after := Without(shields, d);
      WithoutAt(shields, d);
      var k := if i < d then i else i - 1;
      assert after[k] == shields[i];
    }
  }

  /** Fewer buffs need fewer shields. */
  lemma FewerBacked(buffs: map<BuffId, Buff>, fewer: map<BuffId, Buff>, shields: seq<Shield>)
    requires Backed(buffs, shields) && forall x :: x in fewer && fewer[x].absorb != 0 ==> x in buffs && fewer[x].absorb == buffs[x].absorb
    ensures Backed(fewer, shields)
  {
  }

  lemma UpdatedBacked(s: State, id: BuffId, force: bool, skipShield: bool, tick: int)
    requires Inv(s) && Usable(s.shields) && Backed(s.buffs, s.shields)
    ensures var r := Updated(s, id, force, skipShield, tick); Backed(r.buffs, r.shields)
  {
    hide Updated, Inv, Usable, Names;
    UpdatedExact(s, id, force, skipShield, tick);
    var r := Updated(s, id, force, skipShield, tick);
    if Fires(s, id, force, tick) {
      if skipShield || s.buffs[id].absorb == 0 {
        FewerBacked(s.buffs, r.buffs, s.shields);
      } else {
        DroppedBacked(s, r, s.buffs[id].absorb);
      }
    }
  }

  lemma {:induction false} ExpiredBacked(s: State, now: int, tick: int)
    requires Inv(s) && Usable(s.shields) && Backed(s.buffs, s.shields)
    ensures var r := Expired(s, now, tick); Backed(r.buffs, r.shields)
    decreases |s.index|
  {
    hide Updated, Inv, Usable, Backed;
    if s.index != [] && s.index[0].0 <= now {
      var id := s.index[0].1;
      UpdatedExact(s, id, true, false, tick);
      HeadGoes(s, tick);
      UpdatedUsable(s, id, true, false, tick);
      UpdatedBacked(s, id, true, false, tick);
      ExpiredBacked(Updated(s, id, true, false, tick), now, tick);
    }
  }

  lemma ShieldRemovedBacked(s: State, id: int)
    requires Inv(s) && Usable(s.shields) && Backed(s.buffs, s.shields)
    ensures var r := ShieldRemoved(s, id);
      Backed(r.buffs, r.shields) && (id != 0 ==> forall x :: x in r.buffs ==> r.buffs[x].absorb != id)
  {
    hide ShieldRemoved, Inv, Usable, Backed;
    ShieldRemovedExact(s, id);
    DroppedBacked(s, ShieldRemoved(s, id), id);
  }

  /** Any new shield: whatever it displaces takes its buff along. */
  lemma ShieldAddedBacked(s: State, sh: Shield)
    requires Inv(s) && Usable(s.shields) && Backed(s.buffs, s.shields)
    ensures var r := ShieldAdded(s, sh); Backed(r.buffs, r.shields)
  {
    hide ShieldAdded, Inv, Usable, Names;
    ShieldAddedExact(s, sh);
    var r := ShieldAdded(s, sh);
    var mid := r.(shields := ShieldsAfter(s.shields, sh.id));
    DroppedBacked(s, mid, sh.id);
    forall x | x in r.buffs && r.buffs[x].absorb != 0
      ensures Names(r.shields, r.buffs[x].absorb, x)
    {
      NamesBehind(mid.shields, sh.(hasCap := sh.cap > 0.0), r.buffs[x].absorb, x);
    }
  }

  lemma NamesBehind(shields: seq<Shield>, sh: Shield, id: int, buffId: BuffId)
    requires Names(shields, id, buffId)
    ensures Names([sh] + shields, id, buffId)
  {
    var i :| 0 <= i < |shields| && shields[i].id == id && shields[i].buffId == buffId;
    assert ([sh] + shields)[i + 1] == shields[i];
  }

  // ----- Hits -----

  lemma SameNames(shields: seq<Shield>, i: nat, cap: real, buffs: map<BuffId, Buff>)
    requires i < |shields| && Backed(buffs, shields)
    ensures Backed(buffs, shields[i := shields[i].(cap := cap)])
  {
    var after := shields[i := shields[i].(cap := cap)];
    forall x | x in buffs && buffs[x].absorb != 0
      ensures Names(after, buffs[x].absorb, x)
    {
      var k :| 0 <= k < |shields| && shields[k].id == buffs[x].absorb && shields[k].buffId == x;
      assert after[k].id == shields[k].id && after[k].buffId == shields[k].buffId;
    }
  }

  lemma UsedUpBacked(s: State, i: nat)
    requires Inv(s) && Usable(s.shields) && i < |s.shields| && Backed(s.buffs, s.shields)
    ensures var q := WithoutUsedUp(s, i); Backed(q.buffs, q.shields)
  {
    hide WithoutUsedUp, Inv, Names;
    RemoveUsedUp(s, i);
    var q := WithoutUsedUp(s, i);
    FirstOfUnique(s.shields, i);
    DroppedBacked(s, q, s.shields[i].id);
  }

  lemma {:induction false} AbsorbedBacked(s: State, hit: Hit, i: nat, damage: real)
    requires Inv(s) && Usable(s.shields) && i <= |s.shields| && Backed(s.buffs, s.shields)
    ensures var r := Absorbed(s, hit, i, damage).0; Backed(r.buffs, r.shields)
    decreases |s.shields| - i
  {
    hide Absorbed, Reacted, WithoutUsedUp, Inv, Usable, Backed;
    if i == |s.shields| {
      AbsorbedAtEnd(s, hit, i, damage);
    } else {
      var s1, sh := Reacted(s, hit, i, damage), s.shields[i];
      AbsorbedStep(s, hit, i, damage);
      ReactedInv(s, hit, i, damage);
      if sh.hasCap && sh.cap != 0.0 && sh.cap > damage {
        var s2 := s1.(shields := s.shields[i := sh.(cap := sh.cap - damage)]);
        CapacityLowered(s.shields, i, sh.cap - damage);
        SameNames(s.shields, i, sh.cap - damage, s.buffs);
        ShieldsFree(s1, s2);
        AbsorbedBacked(s2, hit, i + 1, 0.0);
      } else if sh.hasCap {
        RemoveUsedUp(s1, i);
        UsedUpBacked(s1, i);
        AbsorbedBacked(WithoutUsedUp(s1, i), hit, i, if sh.cap != 0.0 then damage - sh.cap else damage);
      } else {
        AbsorbedBacked(s1, hit, i + 1, damage);
      }
    }
  }

  // ----- The other operations -----

  lemma {:induction false} AllDroppedExact(s: State, shields: seq<Shield>)
    requires Inv(s)
    ensures AllDropped(s, shields).buffs == s.buffs - NamedByAll(shields)
    decreases |shields|
  {
    hide ShieldDropped, Inv;
    if shields == [] {
      assert s.buffs - {} == s.buffs;
    } else {
      ShieldDroppedLost(s, shields[0]);
      LostInv(s, ShieldDropped(s, shields[0]), NamedBy(shields[0]));
      AllDroppedExact(ShieldDropped(s, shields[0]), shields[1..]);
      assert s.buffs - NamedBy(shields[0]) - NamedByAll(shields[1..]) == s.buffs - NamedByAll(shields);
    }
  }

  lemma {:induction false} NamedIsTaken(shields: seq<Shield>, i: nat)
    requires i < |shields| && shields[i].buffId != NO_BUFF
    ensures shields[i].buffId in NamedByAll(shields)
  {
    if i > 0 {
      NamedIsTaken(shields[1..], i - 1);
    }
  }

  /** Dropping every shield takes every absorbing buff. */
  lemma ClearedBacked(s: State)
    requires Inv(s) && Backed(s.buffs, s.shields)
    ensures var r := ShieldsCleared(s, false); Backed(r.buffs, r.shields)
  {
    hide AllDropped, NamedByAll;
    AllDroppedExact(s, s.shields);
    forall x | x in s.buffs && s.buffs[x].absorb != 0
      ensures x in NamedByAll(s.shields)
    {
      var i :| 0 <= i < |s.shields| && s.shields[i].id == s.buffs[x].absorb && s.shields[i].buffId == x;
      NamedIsTaken(s.shields, i);
    }
  }

  lemma RefreshedBacked(s: State, r: Request, effects: seq<int>, stats: seq<int>, tick: int)
    requires Inv(s) && WellFormed(r) && |effects| == 5 && |stats| == 20 && Backed(s.buffs, s.shields) && r.absorb == 0
    ensures var q := RefreshedOrAdded(s, r, effects, stats, tick); Backed(q.buffs, q.shields)
    ensures var q := Added(s, r, effects, stats, tick); Backed(q.buffs, q.shields)
  {
    hide Handles, StatHandles, EffectsAdded, StatsAdded, Inserted, Unindexed, Names, FreeSlot;
  }

  lemma ChangedBacked(s: State, tick: int)
    requires Inv(s) && Backed(s.buffs, s.shields)
    ensures var r := SectorChanged(s, tick); Backed(r.buffs, r.shields)
  {
    hide Redisplayed, Names;
    if s.isPlayer {
      RedisplayedRecords(s, PANEL_SIZE, tick);
      FewerBacked(s.buffs, Redisplayed(s, PANEL_SIZE, tick).buffs, s.shields);
    }
  }

  /** Every operation keeps buffs backed, except one that adds an absorbing buff by itself or one that deletes the shields
      alone, which happens only when a mob is set up or destroyed. */
  lemma StepBacked(s: State, op: Op)
    requires Inv(s) && Legal(op) && Usable(s.shields) && Backed(s.buffs, s.shields)
    requires ((op.Add? || op.RefreshOrAdd?) ==> op.r.absorb == 0) && !(op.ClearShields? && op.deleteOnly)
    ensures var r := Step(s, op); Backed(r.buffs, r.shields)
  {
    hide Added, RefreshedOrAdded, Updated, Expired, ShieldAdded, ShieldRemoved, Absorbed, SectorChanged, ShieldsCleared,
      BuffsRemoved, Inv, Usable, Names;
    match op {
      case Add(r, effects, stats, tick) => RefreshedBacked(s, r, effects, stats, tick);
      case RefreshOrAdd(r, effects, stats, tick) => RefreshedBacked(s, r, effects, stats, tick);
      case RemoveNamed(kind, tick) =>
        if NamedIds(s.buffs, kind) != {} {
          UpdatedBacked(s, LeastId(NamedIds(s.buffs, kind)), true, false, tick);
        }
      case Update(id, force, skipShield, tick) => UpdatedBacked(s, id, force, skipShield, tick);
      case ChangeSector(tick) => ChangedBacked(s, tick);
      case Expire(now, tick) => ExpiredBacked(s, now, tick);
      case Clear(tick) =>
      case AddShield(sh) => ShieldAddedBacked(s, sh);
      case RemoveShield(id) => ShieldRemovedBacked(s, id);
      case ClearShields(deleteOnly) => ClearedBacked(s);
      case Strike(hit, damage) => AbsorbedBacked(s, hit, 0, damage);
    }
  }

  // ----- Runs -----

  /** An operation by itself, or an absorbing buff with the shield that names it. */
  datatype Cast = Single(op: Op) | Shielded(r: Request, effects: seq<int>, stats: seq<int>, tick: int, sh: Shield)

  predicate Proper(c: Cast) {
    match c
    case Single(op) =>
      Legal(op) && ((op.Add? || op.RefreshOrAdd?) ==> op.r.absorb == 0) && !(op.ClearShields? && op.deleteOnly)
    case Shielded(r, effects, stats, tick, sh) =>
      Legal(Add(r, effects, stats, tick)) && r.absorb != 0 && sh.id == r.absorb
  }

  /** The operations a cast stands for; the shield names the id the buff has got. */
  function OpsOf(s: State, c: Cast): (ops: seq<Op>)
    requires Proper(c)
    ensures forall i :: 0 <= i < |ops| ==> Legal(ops[i])
  {
    match c
    case Single(op) => [op]
    case Shielded(r, effects, stats, tick, sh) => [Add(r, effects, stats, tick), AddShield(sh.(buffId := s.nextId))]
  }

  function Casted(s: State, c: Cast): State
    requires Inv(s) && Proper(c)
  {
    match c
    case Single(op) => Step(s, op)
    case Shielded(r, effects, stats, tick, sh) =>
      StepInv(s, Add(r, effects, stats, tick));
      Step(Step(s, Add(r, effects, stats, tick)), AddShield(sh.(buffId := s.nextId)))
  }

  /** The run of operations that a run of casts is. */
  function Played(isPlayer: bool, cs: seq<Cast>): (ops: seq<Op>)
    requires forall i :: 0 <= i < |cs| ==> Proper(cs[i])
    ensures forall i :: 0 <= i < |ops| ==> Legal(ops[i])
  {
    if cs == [] then []
    else
      var before := Played(isPlayer, cs[..|cs| - 1]);
      before + OpsOf(Run(isPlayer, before), cs[|cs| - 1])
  }

  /** An absorbing buff and its own shield, whatever shield with that id there was. */
  lemma ShieldedBacked(s: State, r: Request, effects: seq<int>, stats: seq<int>, tick: int, sh: Shield)
    requires Inv(s) && Usable(s.shields) && Backed(s.buffs, s.shields)
    requires Legal(Add(r, effects, stats, tick)) && r.absorb != 0 && sh.id == r.absorb && sh.buffId == s.nextId
    ensures var a := Added(s, r, effects, stats, tick);
      Inv(a) && Usable(a.shields) && var q := ShieldAdded(a, sh); Backed(q.buffs, q.shields)
  {
    hide ShieldAdded, Added, Inv, Usable, Names, ShieldCasualties;
    PanelSize(s);
    AddedInv(s, r, effects, stats, tick);
    AddedAlone(s, r, effects, stats, tick);
    var a := Added(s, r, effects, stats, tick);
    ShieldAddedExact(a, sh);
    var q := ShieldAdded(a, sh);
    var own := sh.(hasCap := sh.cap > 0.0);
    assert Names(q.shields, r.absorb, s.nextId) by { NamesFirst(own, ShieldsAfter(s.shields, sh.id)); }
    SameCasualties(s, a, sh.id);
    var mid := q.(buffs := q.buffs - {s.nextId}, shields := ShieldsAfter(s.shields, sh.id));
    DroppedBacked(s, mid, sh.id);
    forall x | x in q.buffs && q.buffs[x].absorb != 0
      ensures Names(q.shields, q.buffs[x].absorb, x)
    {
      if x != s.nextId {
        assert x in mid.buffs && mid.buffs[x] == q.buffs[x];
        NamesBehind(mid.shields, own, q.buffs[x].absorb, x);
      }
    }
  }

  lemma NamesFirst(sh: Shield, shields: seq<Shield>)
    ensures Names([sh] + shields, sh.id, sh.buffId)
  {
    assert ([sh] + shields)[0] == sh;
  }

  lemma SameCasualties(s: State, a: State, id: int)
    requires a.shields == s.shields
    ensures ShieldCasualties(a, id) == ShieldCasualties(s, id)
  {
  }

  lemma AddedAlone(s: State, r: Request, effects: seq<int>, stats: seq<int>, tick: int)
    requires Inv(s) && WellFormed(r) && |effects| == 5 && |stats| == 20
    ensures var a := Added(s, r, effects, stats, tick);
      && a.shields == s.shields && a.buffs.Keys == s.buffs.Keys + {s.nextId} && a.buffs[s.nextId].absorb == r.absorb
      && forall x :: x in s.buffs && x != s.nextId ==> a.buffs[x] == s.buffs[x]
  {
    hide Handles, StatHandles, EffectsAdded, StatsAdded, Inserted, FreeSlot;
  }

  lemma CastBacked(s: State, c: Cast)
    requires Inv(s) && Proper(c) && Usable(s.shields) && Backed(s.buffs, s.shields)
    ensures var r := Casted(s, c); Inv(r) && Usable(r.shields) && Backed(r.buffs, r.shields)
  {
    hide Inv, Usable, Backed;
    match c {
      case Single(op) =>
        hide Step;
        StepInv(s, op);
        StepUsable(s, op);
        StepBacked(s, op);
      case Shielded(r, effects, stats, tick, sh) =>
        hide Added, ShieldAdded;
        var add, put := Add(r, effects, stats, tick), AddShield(sh.(buffId := s.nextId));
        StepInv(s, add);
        StepUsable(s, add);
        StepInv(Step(s, add), put);
        StepUsable(Step(s, add), put);
        ShieldedBacked(s, r, effects, stats, tick, sh.(buffId := s.nextId));
    }
  }

  lemma RunCast(isPlayer: bool, before: seq<Op>, c: Cast)
    requires (forall i :: 0 <= i < |before| ==> Legal(before[i])) && Proper(c)
    ensures Run(isPlayer, before + OpsOf(Run(isPlayer, before), c)) == Casted(Run(isPlayer, before), c)
  {
    hide Step;
    var ops := OpsOf(Run(isPlayer, before), c);
    match c {
      case Single(op) =>
        assert (before + ops)[..|before|] == before;
      case Shielded(r, effects, stats, tick, sh) =>
        assert (before + ops)[..|before| + 1] == before + [ops[0]];
        assert (before + [ops[0]])[..|before|] == before;
    }
  }

  lemma {:induction false} PlayedBacked(isPlayer: bool, cs: seq<Cast>)
    requires forall i :: 0 <= i < |cs| ==> Proper(cs[i])
    ensures var s := Run(isPlayer, Played(isPlayer, cs)); Usable(s.shields) && Backed(s.buffs, s.shields)
  {
    hide Casted, Usable, Inv, OpsOf;
    if cs == [] {
      NoneUsable();
    } else {
      var before, c := Played(isPlayer, cs[..|cs| - 1]), cs[|cs| - 1];
      PlayedBacked(isPlayer, cs[..|cs| - 1]);
      CastBacked(Run(isPlayer, before), c);
      RunCast(isPlayer, before, c);
    }
  }

  /** In every state such a run reaches, buffs and shields are linked, and an expiry check takes exactly the due buffs. */
  lemma EveryExpiryExact(isPlayer: bool, cs: seq<Cast>, now: int, tick: int)
    requires forall i :: 0 <= i < |cs| ==> Proper(cs[i])
    ensures var s := Run(isPlayer, Played(isPlayer, cs));
      var r := Expired(s, now, tick);
      && Linked(s)
      && r.buffs == s.buffs - DueIds(s.index, now) && r.index == Kept(s.index, DueIds(s.index, now))
  {
    hide Run, Played, Expired, Usable, Backed, Linked, DueIds, Inv;
    PlayedBacked(isPlayer, cs);
    var s := Run(isPlayer, Played(isPlayer, cs));
    BackedLinked(s);
    ExpiredExact(s, now, tick);
  }
}
