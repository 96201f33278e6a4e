/** What a hit costs: absorbed damage is conserved, exactly the used-up shields go, and with them exactly the
    buffs they name. */
module MobDamage {
  import opened Mob
  import opened MobLaws

  /** Ids are unique and whatever can absorb has something left. */
  ghost predicate Usable(shields: seq<Shield>) {
    && (forall i, j :: 0 <= i < j < |shields| ==> shields[i].id != shields[j].id)
    && forall i :: 0 <= i < |shields| && shields[i].hasCap ==> shields[i].cap > 0.0
  }

  function Total(shields: seq<Shield>): real {
    if shields == [] then 0.0
    else (if shields[0].hasCap then shields[0].cap else 0.0) + Total(shields[1..])
  }

  /** The shields left by `damage`: front to back, each is used up or takes what is left. */
  function Worn(shields: seq<Shield>, damage: real): seq<Shield> {
    if shields == [] then []
    else
      var sh := shields[0];
      if !sh.hasCap then [sh] + Worn(shields[1..], damage)
      else if sh.cap > damage then [sh.(cap := sh.cap - damage)] + Worn(shields[1..], 0.0)
      else Worn(shields[1..], damage - sh.cap)
  }

  function UsedUp(shields: seq<Shield>, damage: real): seq<Shield> {
    if shields == [] then []
    else
      var sh := shields[0];
      if !sh.hasCap then UsedUp(shields[1..], damage)
      else if sh.cap > damage then UsedUp(shields[1..], 0.0)
      else [sh] + UsedUp(shields[1..], damage - sh.cap)
  }

  function NamedByAll(shields: seq<Shield>): set<BuffId> {
    if shields == [] then {} else NamedBy(shields[0]) + NamedByAll(shields[1..])
  }

  function Min(a: real, b: real): real { if a < b then a else b }

  lemma NoneUsable()
    ensures Usable([])
  {
  }

  lemma UsableTail(shields: seq<Shield>)
    requires Usable(shields) && shields != []
    ensures Usable(shields[1..])
  {
  }

  lemma {:induction false} TotalNonNegative(shields: seq<Shield>)
    requires Usable(shields)
    ensures Total(shields) >= 0.0
  {
    if shields != [] {
      UsableTail(shields);
      TotalNonNegative(shields[1..]);
    }
  }

  /** Total capacitance falls by exactly what is absorbed, and what is left can still absorb. */
  lemma {:induction false} WornTotal(shields: seq<Shield>, damage: real)
    requires Usable(shields) && damage >= 0.0
    ensures Total(Worn(shields, damage)) == Total(shields) - Min(damage, Total(shields))
    ensures forall sh <- Worn(shields, damage) :: sh.hasCap ==> sh.cap > 0.0
    ensures forall sh <- Worn(shields, damage) :: exists was <- shields :: was.id == sh.id
  {
    if shields != [] {
      UsableTail(shields);
      TotalNonNegative(shields[1..]);
      var sh := shields[0];
      var left := if !sh.hasCap then damage else if sh.cap > damage then 0.0 else damage - sh.cap;
      WornTotal(shields[1..], left);
      var rest := Worn(shields[1..], left);
      forall x <- rest
        ensures exists was <- shields :: was.id == x.id
      {
        var was :| was in shields[1..] && was.id == x.id;
        assert was in shields;
      }
      if !sh.hasCap || sh.cap > damage {
        assert Worn(shields, damage)[1..] == rest;
        assert sh in shields;
      }
    }
  }

  lemma {:induction false} WornUnique(shields: seq<Shield>, damage: real)
    requires Usable(shields) && damage >= 0.0
    ensures Usable(Worn(shields, damage))
  {
    hide Usable;
    NoneUsable();
    if shields != [] {
      UsableTail(shields);
      var sh := shields[0];
      var left := if !sh.hasCap then damage else if sh.cap > damage then 0.0 else damage - sh.cap;
      WornUnique(shields[1..], left);
      WornTotal(shields[1..], left);
      var rest := Worn(shields[1..], left);
      OtherIds(shields, rest);
      if !sh.hasCap {
        UsableWith(sh, rest);
      } else if sh.cap > damage {
        UsableWith(sh.(cap := sh.cap - damage), rest);
      }
    }
  }

  lemma OtherIds(shields: seq<Shield>, rest: seq<Shield>)
    requires Usable(shields) && shields != []
    requires forall x <- rest :: exists was <- shields[1..] :: was.id == x.id
    ensures forall x <- rest :: x.id != shields[0].id
  {
  }

  lemma UsableWith(sh: Shield, rest: seq<Shield>)
    requires Usable(rest) && (sh.hasCap ==> sh.cap > 0.0) && forall x <- rest :: x.id != sh.id
    ensures Usable([sh] + rest)
  {
    assert forall j :: 0 <= j < |rest| ==> rest[j] in rest;
  }

  // ----- The loop -----

  lemma FirstOfUnique(shields: seq<Shield>, i: nat)
    requires i < |shields| && forall j, k :: 0 <= j < k < |shields| ==> shields[j].id != shields[k].id
    ensures FirstShield(shields, shields[i].id) == i
  {
    var k := FirstShield(shields, shields[i].id);
    FirstIsEarliest(shields, i);
  }

  lemma LostNothing(s: State, r: State)
    requires r.buffs == s.buffs && r.index == s.index && r.nextId == s.nextId && r.panel == s.panel && r.isPlayer == s.isPlayer
    ensures Lost(s, r, {})
  {
    KeptAll(s.index, {});
    assert s.buffs - {} == s.buffs;
  }

  /** What the loop has to show for the shields from position `i` on. */
  ghost predicate Outcome(s: State, i: nat, damage: real, r: State, left: real)
    requires i <= |s.shields|
  {
    && r.shields == s.shields[..i] + Worn(s.shields[i..], damage)
    && left == damage - Min(damage, Total(s.shields[i..]))
    && Lost(s, r, NamedByAll(UsedUp(s.shields[i..], damage)))
  }

  /** The result of the shield loop is exact: the damage left, the shields left, and the buffs gone. */
  lemma {:induction false} AbsorbedExact(s: State, hit: Hit, i: nat, damage: real)
    requires Inv(s) && Usable(s.shields) && i <= |s.shields| && damage >= 0.0
    ensures var (r, left) := Absorbed(s, hit, i, damage); Outcome(s, i, damage, r, left) && Inv(r)
    decreases |s.shields| - i
  {
    hide ReflectEvents, ReactorEvents, ShieldRemoved, Inv, Lost, Usable;
    if i == |s.shields| {
      LostNothing(s, s);
      assert s.shields[..i] == s.shields && s.shields[i..] == [];
    } else {
      var sh := s.shields[i];
      var s1 := s.(out := s.out + ReflectEvents(hit, sh, damage) + ReactorEvents(hit, s.isPlayer, sh, damage));
      LostNothing(s, s1);
      LostInv(s, s1, {});
      TailOf(s.shields, i);
      if sh.hasCap && sh.cap != 0.0 && sh.cap > damage {
        HoldsOut(s, s1, hit, i, damage);
      } else if sh.hasCap {
        GivesWay(s, s1, hit, i, damage);
      } else {
        AbsorbedExact(s1, hit, i + 1, damage);
        TotalTail(s.shields, i);
        PassedOver(s, s1, i, damage, Absorbed(s1, hit, i + 1, damage).0);
      }
    }
  }

  lemma TailOf(shields: seq<Shield>, i: nat)
    requires i < |shields|
    ensures shields[i..][0] == shields[i] && shields[i..][1..] == shields[i + 1..]
  {
  }

  lemma {:induction false} UsableSuffix(shields: seq<Shield>, i: nat)
    requires Usable(shields) && i <= |shields|
    ensures Usable(shields[i..])
  {
  }

  lemma TotalTail(shields: seq<Shield>, i: nat)
    requires Usable(shields) && i < |shields|
    ensures Total(shields[i..]) == (if shields[i].hasCap then shields[i].cap else 0.0) + Total(shields[i + 1..])
    ensures Total(shields[i + 1..]) >= 0.0 && (shields[i].hasCap ==> shields[i].cap > 0.0)
  {
    TailOf(shields, i);
    UsableSuffix(shields, i + 1);
    TotalNonNegative(shields[i + 1..]);
  }

  /** A shield that absorbs nothing stays. */
  lemma PassedOver(s: State, s1: State, i: nat, damage: real, r: State)
    requires i < |s.shields| && !s.shields[i].hasCap && s1 == s.(out := s1.out)
    requires r.shields == s.shields[..i + 1] + Worn(s.shields[i + 1..], damage)
    requires Lost(s1, r, NamedByAll(UsedUp(s.shields[i + 1..], damage)))
    ensures r.shields == s.shields[..i] + Worn(s.shields[i..], damage)
    ensures Lost(s, r, NamedByAll(UsedUp(s.shields[i..], damage)))
  {
    TailOf(s.shields, i);
    assert s.shields[..i + 1] == s.shields[..i] + [s.shields[i]];
  }

  /** A shield with more than enough left takes everything. */
  lemma {:induction false} HoldsOut(s: State, s1: State, hit: Hit, i: nat, damage: real)
    requires Inv(s1) && Usable(s.shields) && i < |s.shields| && damage >= 0.0 && s1 == s.(out := s1.out)
    requires s.shields[i].hasCap && s.shields[i].cap > damage
    ensures var sh := s.shields[i];
      var (r, left) := Absorbed(s1.(shields := s.shields[i := sh.(cap := sh.cap - damage)]), hit, i + 1, 0.0);
      Outcome(s, i, damage, r, left) && Inv(r)
    decreases |s.shields| - i, 0
  {
    hide ShieldRemoved, Absorbed, Inv;
    var sh := s.shields[i];
    var shields := s.shields[i := sh.(cap := sh.cap - damage)];
    var s2 := s1.(shields := shields);
    assert Usable(shields);
    LostNothing(s1, s2);
    LostInv(s1, s2, {});
    AbsorbedExact(s2, hit, i + 1, 0.0);
    TailOf(s.shields, i);
    TotalTail(s.shields, i);
    assert shields[i + 1..] == s.shields[i + 1..];
    assert shields[..i + 1] == s.shields[..i] + [sh.(cap := sh.cap - damage)];
  }

  /** The state after a used-up shield has been removed by its id. */
  function WithoutUsedUp(s: State, i: nat): State
    requires i < |s.shields|
  {
    var sh := s.shields[i];
    ShieldRemoved(s.(shields := s.shields[i := sh.(cap := 0.0)]), sh.id)
  }

  lemma RemoveUsedUp(s: State, i: nat)
    requires Inv(s) && Usable(s.shields) && i < |s.shields|
    ensures var q := WithoutUsedUp(s, i);
      && Inv(q) && q.shields == Without(s.shields, i) && Usable(q.shields)
      && Lost(s, q, NamedBy(s.shields[i])) && q.isPlayer == s.isPlayer
  {
    hide ShieldRemoved, Inv, Usable, Lost;
    var sh := s.shields[i];
    var shields := s.shields[i := sh.(cap := 0.0)];
    var s2 := s.(shields := shields);
    LostNothing(s, s2);
    LostInv(s, s2, {});
    ShieldRemovedExact(s2, sh.id);
    DrainedFirst(s.shields, i);
    var q := WithoutUsedUp(s, i);
    LostTwice(s, s2, q, {}, NamedBy(sh));
    assert {} + NamedBy(sh) == NamedBy(sh);
  }

  /** A drained shield is still the first with its id, and the list without it is the same. */
  lemma DrainedFirst(shields: seq<Shield>, i: nat)
    requires Usable(shields) && i < |shields|
    ensures var drained := shields[i := shields[i].(cap := 0.0)];
      && FirstShield(drained, shields[i].id) == i && Without(drained, i) == Without(shields, i)
    ensures Usable(Without(shields, i))
  {
    var drained := shields[i := shields[i].(cap := 0.0)];
    assert forall j, k :: 0 <= j < k < |drained| ==> drained[j].id != drained[k].id;
    FirstOfUnique(drained, i);
  }

  lemma WithoutParts(shields: seq<Shield>, i: nat)
    requires i < |shields|
    ensures Without(shields, i)[..i] == shields[..i] && Without(shields, i)[i..] == shields[i + 1..]
  {
  }

  /** A shield the damage exceeds is removed with its buff, and the rest of the damage goes on. */
  lemma {:induction false} GivesWay(s: State, s1: State, hit: Hit, i: nat, damage: real)
    requires Inv(s1) && Usable(s.shields) && i < |s.shields| && damage >= 0.0 && s1 == s.(out := s1.out)
    requires s.shields[i].hasCap && s.shields[i].cap <= damage
    ensures s.shields[i].cap > 0.0
    ensures var q := WithoutUsedUp(s1, i);
      i <= |q.shields| && var (r, left) := Absorbed(q, hit, i, damage - s.shields[i].cap);
      Outcome(s, i, damage, r, left) && Inv(r)
    decreases |s.shields| - i, 0
  {
    hide WithoutUsedUp, Absorbed, Inv, Usable, Lost;
    var sh := s.shields[i];
    TotalTail(s.shields, i);
    RemoveUsedUp(s1, i);
    var q := WithoutUsedUp(s1, i);
    AbsorbedExact(q, hit, i, damage - sh.cap);
    TailOf(s.shields, i);
    WithoutParts(s.shields, i);
    var r := Absorbed(q, hit, i, damage - sh.cap).0;
    LostTwice(s1, q, r, NamedBy(sh), NamedByAll(UsedUp(s.shields[i + 1..], damage - sh.cap)));
    SameLost(s, s1, r, NamedByAll(UsedUp(s.shields[i..], damage)));
  }

  lemma SameLost(s: State, s1: State, r: State, gone: set<BuffId>)
    requires s1 == s.(out := s1.out) && Lost(s1, r, gone)
    ensures Lost(s, r, gone)
  {
  }

  /** The conservation law for a whole hit. */
  lemma HitConserves(s: State, hit: Hit, damage: real)
    requires Inv(s) && Usable(s.shields) && damage >= 0.0
    ensures var (r, left) := Absorbed(s, hit, 0, damage);
      && left == (if damage > Total(s.shields) then damage - Total(s.shields) else 0.0)
      && Total(s.shields) - Total(r.shields) == damage - left
      && r.shields == Worn(s.shields, damage) && Usable(r.shields)
      && r.buffs == s.buffs - NamedByAll(UsedUp(s.shields, damage)) && Inv(r)
  {
    hide Absorbed, Inv;
    AbsorbedExact(s, hit, 0, damage);
    assert s.shields[0..] == s.shields && s.shields[..0] == [];
    assert Absorbed(s, hit, 0, damage).0.shields == Worn(s.shields, damage);
    WornTotal(s.shields, damage);
    WornUnique(s.shields, damage);
  }

  // ----- The loop, one shield at a time -----

  /** After reflection and energy, before absorption. */
  function Reacted(s: State, hit: Hit, i: nat, damage: real): (r: State)
    requires i < |s.shields|
    ensures r.shields == s.shields
  {
    var sh := s.shields[i];
    s.(out := s.out + ReflectEvents(hit, sh, damage) + ReactorEvents(hit, s.isPlayer, sh, damage))
  }

  lemma AbsorbedStep(s: State, hit: Hit, i: nat, damage: real)
    requires i < |s.shields|
    ensures var s1, sh := Reacted(s, hit, i, damage), s.shields[i];
      i <= |WithoutUsedUp(s1, i).shields| && Absorbed(s, hit, i, damage) ==
        if sh.hasCap && sh.cap != 0.0 && sh.cap > damage then
          Absorbed(s1.(shields := s.shields[i := sh.(cap := sh.cap - damage)]), hit, i + 1, 0.0)
        else if sh.hasCap then Absorbed(WithoutUsedUp(s1, i), hit, i, if sh.cap != 0.0 then damage - sh.cap else damage)
        else Absorbed(s1, hit, i + 1, damage)
  {
    hide ReflectEvents, ReactorEvents, ShieldRemoved;
    UsedUpLength(Reacted(s, hit, i, damage), i);
  }

  lemma UsedUpLength(s: State, i: nat)
    requires i < |s.shields|
    ensures i <= |WithoutUsedUp(s, i).shields| == |s.shields| - 1
  {
    hide ShieldDropped;
    var s2 := s.(shields := s.shields[i := s.shields[i].(cap := 0.0)]);
    FirstIsEarliest(s2.shields, i);
    var k := FirstShield(s2.shields, s.shields[i].id);
    DroppedKeepsShields(s2.(shields := Without(s2.shields, k)), s2.shields[k]);
  }

  lemma UsedUpTwice(s: State, i: nat)
    requires i < |s.shields|
    ensures WithoutUsedUp(s.(shields := s.shields[i := s.shields[i].(cap := 0.0)]), i) == WithoutUsedUp(s, i)
  {
    hide ShieldRemoved;
    assert s.shields[i := s.shields[i].(cap := 0.0)][i := s.shields[i].(cap := 0.0)] == s.shields[i := s.shields[i].(cap := 0.0)];
  }
}
