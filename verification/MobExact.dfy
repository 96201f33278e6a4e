/** What adding a shield, refreshing a buff and showing the panel again do, and what they leave alone. */
module MobExact {
  import opened Mob
  import opened MobLaws
  import opened MobDamage

  // ----- Adding a shield -----

  /** The new shield is first, takes the place of an earlier one with its id together with that one's buff, and keeps
      ids unique and every capacitance usable. */
  lemma ShieldAddedExact(s: State, sh: Shield)
    requires Inv(s) && Usable(s.shields)
    ensures var r := ShieldAdded(s, sh);
      && r.shields == [sh.(hasCap := sh.cap > 0.0)] + ShieldsAfter(s.shields, sh.id)
      && Usable(r.shields) && (forall i :: 0 < i < |r.shields| ==> r.shields[i].id != sh.id)
      && Lost(s, r, ShieldCasualties(s, sh.id)) && Inv(r)
  {
    hide ShieldRemoved, Inv, Usable, Lost;
    ShieldRemovedExact(s, sh.id);
    UsableAfter(s.shields, sh.id);
    var s1 := ShieldRemoved(s, sh.id);
    var r := ShieldAdded(s, sh);
    if FirstShield(s.shields, sh.id) == |s.shields| {
      LostNothing(s, s);
    } else {
      assert r == s1.(shields := r.shields);
    }
    var s2 := if FirstShield(s.shields, sh.id) < |s.shields| then s1 else s;
    SameBuffs(s, s2, r, ShieldCasualties(s, sh.id));
    UsableFirst(sh.(hasCap := sh.cap > 0.0), ShieldsAfter(s.shields, sh.id));
  }

  lemma SameBuffs(s: State, s2: State, r: State, gone: set<BuffId>)
    requires Inv(s) && Lost(s, s2, gone) && r == s2.(shields := r.shields)
    ensures Lost(s, r, gone) && Inv(r)
  {
    LostInv(s, r, gone);
  }

  lemma UsableAfter(shields: seq<Shield>, id: int)
    requires Usable(shields)
    ensures var after := ShieldsAfter(shields, id);
      Usable(after) && forall i :: 0 <= i < |after| ==> after[i].id != id
  {
    hide FirstShield;
    var i := FirstShield(shields, id);
    if i < |shields| {
      WithoutUsable(shields, i);
    }
  }

  lemma WithoutUsable(shields: seq<Shield>, i: nat)
    requires Usable(shields) && i < |shields|
    ensures Usable(Without(shields, i)) && forall k :: 0 <= k < |shields| - 1 ==> Without(shields, i)[k].id != shields[i].id
  {
    hide Without;
    WithoutAt(shields, i);
    var after := Without(shields, i);
    forall a, b | 0 <= a < b < |after|
      ensures after[a].id != after[b].id
    {
    }
  }

  lemma WithoutAt(shields: seq<Shield>, i: nat)
    requires i < |shields|
    ensures |Without(shields, i)| == |shields| - 1
    ensures forall k :: 0 <= k < |shields| - 1 ==> Without(shields, i)[k] == shields[if k < i then k else k + 1]
  {
  }

  lemma UsableFirst(sh: Shield, shields: seq<Shield>)
    requires Usable(shields) && (sh.hasCap ==> sh.cap > 0.0) && forall i :: 0 <= i < |shields| ==> shields[i].id != sh.id
    ensures Usable([sh] + shields)
  {
  }

  // ----- Refreshing -----

  lemma {:induction false} InsertedKept(index: seq<Entry>, e: Entry)
    ensures Kept(Inserted(index, e), {e.1}) == Kept(index, {e.1})
  {
    var r := Inserted(index, e);
    if index != [] && index[0].0 <= e.0 {
      InsertedKept(index[1..], e);
      assert r[1..] == Inserted(index[1..], e);
    } else {
      assert r[1..] == index;
    }
  }

  lemma {:induction false} InsertedIs(index: seq<Entry>, e: Entry)
    ensures forall x :: x in Inserted(index, e) <==> x in index || x == e
  {
    if index != [] && index[0].0 <= e.0 {
      InsertedIs(index[1..], e);
    }
  }

  /** A refresh changes the time and permanence of one buff and of its display, and that buff's index entry; every
      other buff, entry, panel slot and handle stays. */
  lemma RefreshedExact(s: State, id: BuffId, r: Request)
    requires Inv(s) && id in s.buffs
    ensures var q, b := Refreshed(s, id, r), s.buffs[id];
      && q.buffs.Keys == s.buffs.Keys && (forall x :: x in s.buffs && x != id ==> q.buffs[x] == s.buffs[x])
      && q.buffs[id] == b.(expire := r.expire, perm := r.perm, shown := q.buffs[id].shown)
      && Kept(q.index, {id}) == Kept(s.index, {id}) && ((r.expire, id) in q.index <==> !r.perm)
      && |q.panel| == PANEL_SIZE && (forall k :: 0 <= k < PANEL_SIZE && k != b.slot ==> q.panel[k] == s.panel[k])
      && q.panel[b.slot] == if s.isPlayer then b.shown.(removal := r.expire, perm := r.perm) else s.panel[b.slot]
  {
    hide Inserted, Kept, Unindexed, Inv;
    SlotOf(s, id);
    IndexWithout(s, id);
    var base := if s.buffs[id].perm then s.index else Unindexed(s.index, (s.buffs[id].expire, id));
    InsertedKept(base, (r.expire, id));
    InsertedIs(base, (r.expire, id));
  }

  lemma SlotOf(s: State, id: BuffId)
    requires Inv(s) && id in s.buffs
    ensures |s.panel| == PANEL_SIZE && s.buffs[id].slot < PANEL_SIZE
  {
  }

  lemma IndexWithout(s: State, id: BuffId)
    requires Inv(s) && id in s.buffs
    ensures var base := if s.buffs[id].perm then s.index else Unindexed(s.index, (s.buffs[id].expire, id));
      base == Kept(s.index, {id}) && Kept(base, {id}) == Kept(s.index, {id}) && forall e <- base :: e.1 != id
  {
    hide Kept, Unindexed;
    if s.buffs[id].perm {
      KeptAll(s.index, {id});
    } else {
      UnindexedKept(s.index, s.buffs[id].expire, id);
    }
    KeptTwice(s.index, {id}, {id});
    assert {id} + {id} == {id};
    KeptMembers(s.index, {id});
  }

  // ----- Showing the panel again -----

  /** Buff `id` is on display in panel slot `k`. */
  predicate Shows(s: State, id: int, k: nat, tick: int) {
    0 <= id && id in s.buffs && s.buffs[id].slot == k && (s.buffs[id].shown.perm || s.buffs[id].shown.removal > tick)
  }

  /** The highest of the first `n` ids on display in slot `k`, or -1. */
  function Topmost(s: State, n: nat, k: nat, tick: int): (id: int)
    ensures -1 <= id < n && (id >= 0 ==> Shows(s, id, k, tick)) && forall j :: id < j < n ==> !Shows(s, j, k, tick)
  {
    if n == 0 then -1 else if Shows(s, n - 1, k, tick) then n - 1 else Topmost(s, n - 1, k, tick)
  }

  /** The looked-up ids without a buff have got a zero record; no other record changes. */
  lemma {:induction false} RedisplayedRecords(s: State, n: nat, tick: int)
    requires |s.panel| == PANEL_SIZE && n <= PANEL_SIZE
    ensures var r := Redisplayed(s, n, tick);
      && |r.panel| == PANEL_SIZE && r.index == s.index && r.shields == s.shields
      && (forall id :: id in r.buffs <==> id in s.buffs || 0 <= id < n)
      && (forall id :: id in r.buffs ==> r.buffs[id] == if id in s.buffs then s.buffs[id] else Zeroed())
  {
    if n > 0 {
      RedisplayedRecords(s, n - 1, tick);
    }
  }

  /** The record looked up last, and what it does to one panel slot. */
  lemma RedisplayedSlot(s: State, n: nat, tick: int, k: nat)
    requires |s.panel| == PANEL_SIZE && 0 < n <= PANEL_SIZE && 0 <= tick && k < PANEL_SIZE
    ensures |Redisplayed(s, n - 1, tick).panel| == |Redisplayed(s, n, tick).panel| == PANEL_SIZE
    ensures Redisplayed(s, n, tick).panel[k] ==
      if Shows(s, n - 1, k, tick) then s.buffs[n - 1].shown else Redisplayed(s, n - 1, tick).panel[k]
  {
    RedisplayedRecords(s, n - 1, tick);
    RedisplayedRecords(s, n, tick);
    var s1 := Redisplayed(s, n - 1, tick);
    var b := Touched(s1.buffs, n - 1)[n - 1];
    assert b == if n - 1 in s.buffs then s.buffs[n - 1] else Zeroed();
  }

  lemma {:induction false} RedisplayedPanel(s: State, n: nat, tick: int, k: nat)
    requires |s.panel| == PANEL_SIZE && n <= PANEL_SIZE && 0 <= tick && k < PANEL_SIZE
    ensures var r, id := Redisplayed(s, n, tick), Topmost(s, n, k, tick);
      |r.panel| == PANEL_SIZE && r.panel[k] == if id < 0 then s.panel[k] else s.buffs[id].shown
  {
    hide Redisplayed, Shows;
    if n == 0 {
      NothingShown(s, tick);
    } else {
      RedisplayedPanel(s, n - 1, tick, k);
      RedisplayedSlot(s, n, tick, k);
    }
  }

  lemma NothingShown(s: State, tick: int)
    ensures Redisplayed(s, 0, tick) == s
  {
  }

  /** After a change of sector each panel slot of a player shows the buff with the highest id from 0 to 15 that is on
      display there, and stays as it was where there is none; no buff, entry or shield changes. */
  lemma SectorChangedExact(s: State, tick: int, k: nat)
    requires Inv(s) && s.isPlayer && 0 <= tick && k < PANEL_SIZE
    ensures var r, id := SectorChanged(s, tick), Topmost(s, PANEL_SIZE, k, tick);
      && |r.panel| == PANEL_SIZE && r.panel[k] == (if id < 0 then s.panel[k] else s.buffs[id].shown)
      && r.index == s.index && r.shields == s.shields
      && (forall x :: x in s.buffs ==> x in r.buffs && r.buffs[x] == s.buffs[x])
  {
    hide Redisplayed, Topmost, Shows;
    PanelIs(s);
    RedisplayedRecords(s, PANEL_SIZE, tick);
    RedisplayedPanel(s, PANEL_SIZE, tick, k);
  }

  lemma PanelIs(s: State)
    requires Inv(s)
    ensures |s.panel| == PANEL_SIZE
  {
  }
}
