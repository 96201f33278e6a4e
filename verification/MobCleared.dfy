/** What forced removals do to the panel and the shields: clearing a mob, and clearing its shields. */
module MobCleared {
  import opened Mob
  import opened MobLaws
  import opened MobDamage
  import opened MobRuns
  import opened MobHandles

  // ----- The panel -----

  /** Panel slots only go empty, and on a player's panel the slot of every buff that went is empty. */
  ghost predicate Blanked(s: State, r: State) {
    && |r.panel| == |s.panel| && r.isPlayer == s.isPlayer && (!s.isPlayer ==> r.panel == s.panel)
    && (forall k :: 0 <= k < |s.panel| ==> r.panel[k] == s.panel[k] || r.panel[k] == EMPTY_PANEL)
    && (forall id <- r.buffs.Keys :: id in s.buffs && r.buffs[id] == s.buffs[id])
    && (s.isPlayer ==> forall id <- s.buffs.Keys :: id in r.buffs || Dark(r.panel, s.buffs[id].slot))
  }

  predicate Dark(panel: seq<Panel>, k: nat) { k < |panel| ==> panel[k] == EMPTY_PANEL }

  lemma SamePanel(s: State, r: State)
    requires r.panel == s.panel && r.buffs == s.buffs && r.isPlayer == s.isPlayer
    ensures Blanked(s, r)
  {
  }

  lemma BlankedTwice(s: State, q: State, r: State)
    requires Blanked(s, q) && Blanked(q, r)
    ensures Blanked(s, r)
  {
    if s.isPlayer {
      forall id <- s.buffs.Keys
        ensures id in r.buffs || Dark(r.panel, s.buffs[id].slot)
      {
        assert id in q.buffs || Dark(q.panel, s.buffs[id].slot);
      }
    }
  }

  lemma ClosedBlanks(s: State, id: BuffId, b: Buff, removedStat: bool)
    requires |s.panel| == PANEL_SIZE && (id in s.buffs ==> b == s.buffs[id])
    ensures Blanked(s, Closed(s, id, b, true, removedStat))
  {
    hide Unindexed;
  }

  lemma PlainBlanks(s: State, id: BuffId)
    requires |s.panel| == PANEL_SIZE
    ensures Blanked(s, RemovedPlain(s, id, true))
  {
    hide Closed, StatEvents, EffectEvents, HasStats, Blanked;
    if id in s.buffs {
      var s1 := Stripped(s, s.buffs[id]);
      SamePanel(s, s1);
      ClosedBlanks(s1, id, s.buffs[id], HasStats(s.buffs[id]));
      BlankedTwice(s, s1, RemovedPlain(s, id, true));
    } else {
      SamePanel(s, s);
    }
  }

  lemma DroppedBlanks(s: State, sh: Shield)
    requires |s.panel| == PANEL_SIZE
    ensures Blanked(s, ShieldDropped(s, sh))
  {
    hide RemovedPlain, Blanked;
    SamePanel(s, s);
    PlainBlanks(s, sh.buffId);
  }

  lemma RemovedBlanks(s: State, id: int)
    requires |s.panel| == PANEL_SIZE
    ensures Blanked(s, ShieldRemoved(s, id))
  {
    hide ShieldDropped, Blanked;
    SamePanel(s, s);
    var i := FirstShield(s.shields, id);
    if i < |s.shields| {
      var s1 := s.(shields := Without(s.shields, i));
      SamePanel(s, s1);
      DroppedBlanks(s1, s.shields[i]);
      BlankedTwice(s, s1, ShieldDropped(s1, s.shields[i]));
    }
  }

  lemma PanelKept(s: State, r: State)
    requires Blanked(s, r)
    ensures |r.panel| == |s.panel|
  {
  }

  /** Closing on the zero record that stands in for a buff its shield has taken. */
  lemma TouchedBlanks(s: State, id: BuffId, removedStat: bool)
    requires |s.panel| == PANEL_SIZE
    ensures var s2 := s.(buffs := Touched(s.buffs, id));
      Blanked(s, Closed(s2, id, s2.buffs[id], true, removedStat))
  {
    hide Unindexed;
  }

  lemma UpdatedBlanks(s: State, id: BuffId, skipShield: bool, tick: int)
    requires |s.panel| == PANEL_SIZE
    ensures Blanked(s, Updated(s, id, true, skipShield, tick))
  {
    hide RemovedPlain, Stripped, Closed, ShieldRemoved, HasStats, Blanked;
    SamePanel(s, s);
    PlainBlanks(s, id);
    if id in s.buffs && !skipShield && s.buffs[id].absorb != 0 {
      var b := s.buffs[id];
      var s0 := Stripped(s, b);
      StrippedPanel(s, b);
      SamePanel(s, s0);
      RemovedBlanks(s0, b.absorb);
      var s1 := ShieldRemoved(s0, b.absorb);
      PanelKept(s0, s1);
      TouchedBlanks(s1, id, HasStats(b));
      BlankedTwice(s, s0, s1);
      BlankedTwice(s, s1, Updated(s, id, true, false, tick));
    }
  }

  lemma StrippedPanel(s: State, b: Buff)
    ensures Stripped(s, b) == s.(out := Stripped(s, b).out)
  {
  }

  lemma {:induction false} BuffsRemovedBlanks(s: State, tick: int)
    requires Inv(s)
    ensures Blanked(s, BuffsRemoved(s, tick))
    decreases |s.buffs|
  {
    hide Updated, Inv, Blanked;
    SamePanel(s, s);
    if s.buffs != map[] {
      LowestGoes(s, tick);
      PanelSize(s);
      var q := Updated(s, LeastId(s.buffs.Keys), true, false, tick);
      UpdatedBlanks(s, LeastId(s.buffs.Keys), false, tick);
      BuffsRemovedBlanks(q, tick);
      BlankedTwice(s, q, BuffsRemoved(q, tick));
    }
  }

  lemma {:induction false} ExpiredBlanks(s: State, now: int, tick: int)
    requires Inv(s)
    ensures Blanked(s, Expired(s, now, tick))
    decreases |s.index|
  {
    hide Updated, Inv, Blanked;
    SamePanel(s, s);
    if s.index != [] && s.index[0].0 <= now {
      PanelSize(s);
      var q := Updated(s, s.index[0].1, true, false, tick);
      UpdatedExact(s, s.index[0].1, true, false, tick);
      HeadGoes(s, tick);
      UpdatedBlanks(s, s.index[0].1, false, tick);
      ExpiredBlanks(q, now, tick);
      BlankedTwice(s, q, Expired(q, now, tick));
    }
  }

  lemma {:induction false} AllDroppedBlanks(s: State, shields: seq<Shield>)
    requires |s.panel| == PANEL_SIZE
    ensures Blanked(s, AllDropped(s, shields))
    decreases |shields|
  {
    hide ShieldDropped, Blanked;
    SamePanel(s, s);
    if shields != [] {
      var q := ShieldDropped(s, shields[0]);
      DroppedBlanks(s, shields[0]);
      PanelKept(s, q);
      AllDroppedBlanks(q, shields[1..]);
      BlankedTwice(s, q, AllDropped(q, shields[1..]));
    }
  }

  // ----- The shields -----

  /** Some buff names this shield id. */
  predicate Claimed(buffs: map<BuffId, Buff>, id: int) { exists x :: x in buffs && buffs[x].absorb != 0 && buffs[x].absorb == id }

  /** With links in order, clearing takes exactly the shields that a buff names. */
  lemma {:induction false} ClaimedGo(s: State, tick: int)
    requires Inv(s) && Linked(s)
    ensures forall sh :: sh in BuffsRemoved(s, tick).shields <==> sh in s.shields && !Claimed(s.buffs, sh.id)
    decreases |s.buffs|
  {
    hide Updated, Inv, Linked;
    if s.buffs == map[] {
      assert forall id :: !Claimed(s.buffs, id);
    } else {
      var id := LeastId(s.buffs.Keys);
      var q := Updated(s, id, true, false, tick);
      LowestGoes(s, tick);
      LinkedKept(s, id, tick);
      UpdatedExact(s, id, true, false, tick);
      ClaimedGo(q, tick);
      OneClaim(s, q, id);
    }
  }

  lemma OneClaim(s: State, q: State, id: BuffId)
    requires Linked(s) && id in s.buffs && q.buffs == s.buffs - {id}
    requires q.shields == if s.buffs[id].absorb == 0 then s.shields else ShieldsAfter(s.shields, s.buffs[id].absorb)
    ensures forall sh :: sh in q.shields && !Claimed(q.buffs, sh.id) <==> sh in s.shields && !Claimed(s.buffs, sh.id)
  {
    hide ShieldsAfter;
    var a := s.buffs[id].absorb;
    UniqueAfter(s.shields, a);
    forall sh: Shield
      ensures Claimed(s.buffs, sh.id) <==> Claimed(q.buffs, sh.id) || (a != 0 && sh.id == a)
    {
      if Claimed(s.buffs, sh.id) && !(a != 0 && sh.id == a) {
        var x :| x in s.buffs && s.buffs[x].absorb != 0 && s.buffs[x].absorb == sh.id;
        assert x in q.buffs;
      }
      if Claimed(q.buffs, sh.id) {
        var x :| x in q.buffs && q.buffs[x].absorb != 0 && q.buffs[x].absorb == sh.id;
        assert x in s.buffs;
      }
    }
  }

  lemma UniqueAfter(shields: seq<Shield>, id: int)
    requires forall i, j :: 0 <= i < j < |shields| ==> shields[i].id != shields[j].id
    ensures forall sh :: sh in ShieldsAfter(shields, id) <==> sh in shields && sh.id != id
  {
    var i, after := FirstShield(shields, id), ShieldsAfter(shields, id);
    forall sh | sh in shields && sh.id != id
      ensures sh in after
    {
      var k :| 0 <= k < |shields| && shields[k] == sh;
      assert i < |shields| ==> k != i && after[if k < i then k else k - 1] == sh;
    }
    forall sh | sh in after
      ensures sh in shields && sh.id != id
    {
      var k :| 0 <= k < |after| && after[k] == sh;
      assert i < |shields| ==> after[k] == shields[if k < i then k else k + 1];
    }
  }

  // ----- The operations -----

  /** Clearing a mob leaves no buff and no entry, gives back every handle of every buff on record, empties each of their
      panel slots and no other but with an empty display, and, where the links are in order, takes exactly the shields
      that a buff names. */
  lemma ClearedExact(s: State, tick: int)
    requires Inv(s)
    ensures var r := AllCleared(s, tick);
      && r.buffs == map[] && r.index == []
      && s.out <= r.out && Pays(r.out[|s.out|..], Owed(s.buffs, s.buffs.Keys))
      && |r.panel| == |s.panel| && (!s.isPlayer ==> r.panel == s.panel)
      && (forall k :: 0 <= k < |s.panel| ==> r.panel[k] == s.panel[k] || r.panel[k] == EMPTY_PANEL)
      && (s.isPlayer ==> forall id <- s.buffs.Keys :: s.buffs[id].slot < |r.panel| && r.panel[s.buffs[id].slot] == EMPTY_PANEL)
      && (Linked(s) ==> forall sh :: sh in r.shields <==> sh in s.shields && !Claimed(s.buffs, sh.id))
  {
    hide BuffsRemoved, Linked, Claimed, GivesBack, Blanked, Owed, Inv, Pays;
    var q := BuffsRemoved(s, tick);
    BuffsRemovedGivesBack(s, tick);
    AllGivenBack(s, q);
    BuffsRemovedBlanks(s, tick);
    AllDark(s, q);
    if Linked(s) {
      ClaimedGo(s, tick);
    }
  }

  lemma AllGivenBack(s: State, r: State)
    requires GivesBack(s, r) && r.buffs == map[]
    ensures s.out <= r.out && Pays(r.out[|s.out|..], Owed(s.buffs, s.buffs.Keys))
  {
    hide Owed, Pays;
    assert s.buffs.Keys - r.buffs.Keys == s.buffs.Keys;
  }

  lemma AllDark(s: State, r: State)
    requires Inv(s) && Blanked(s, r) && r.buffs == map[]
    ensures |r.panel| == |s.panel| && (!s.isPlayer ==> r.panel == s.panel)
    ensures forall k :: 0 <= k < |s.panel| ==> r.panel[k] == s.panel[k] || r.panel[k] == EMPTY_PANEL
    ensures s.isPlayer ==> forall id <- s.buffs.Keys :: s.buffs[id].slot < |r.panel| && r.panel[s.buffs[id].slot] == EMPTY_PANEL
  {
    if s.isPlayer {
      forall id <- s.buffs.Keys
        ensures s.buffs[id].slot < |r.panel| && r.panel[s.buffs[id].slot] == EMPTY_PANEL
      {
        assert id in r.buffs || Dark(r.panel, s.buffs[id].slot);
      }
    }
  }

  /** Clearing the shields leaves none. Unless the list is only being deleted, every buff that a shield names goes, its
      handles given back and its panel slot emptied; otherwise nothing else changes. */
  lemma ShieldsClearedExact(s: State, deleteOnly: bool)
    requires Inv(s)
    ensures var r := ShieldsCleared(s, deleteOnly);
      && r.shields == []
      && (deleteOnly ==> r == s.(shields := []))
      && (!deleteOnly ==> r.buffs == s.buffs - NamedByAll(s.shields) && r.index == Kept(s.index, NamedByAll(s.shields))
                          && GivesBack(s, r) && Blanked(s, r))
  {
    hide AllDropped, Inv, GivesBack, Blanked, Lost;
    AllDroppedGivesBack(s, s.shields);
    PanelSize(s);
    AllDroppedBlanks(s, s.shields);
    AllDroppedLost(s, s.shields);
    var q, r := AllDropped(s, s.shields), ShieldsCleared(s, false);
    GivesNothing(q, r);
    GivesBackTwice(s, q, r);
    SamePanel(q, r);
    BlankedTwice(s, q, r);
    LostFields(s, q, NamedByAll(s.shields));
  }

  lemma LostFields(s: State, r: State, gone: set<BuffId>)
    requires Lost(s, r, gone)
    ensures r.buffs == s.buffs - gone && r.index == Kept(s.index, gone)
  {
  }

  lemma {:induction false} AllDroppedLost(s: State, shields: seq<Shield>)
    requires Inv(s)
    ensures Lost(s, AllDropped(s, shields), NamedByAll(shields))
    decreases |shields|
  {
    hide ShieldDropped, Inv, Lost;
    if shields == [] {
      LostNothing(s, s);
    } else {
      var q := ShieldDropped(s, shields[0]);
      ShieldDroppedLost(s, shields[0]);
      LostInv(s, q, NamedBy(shields[0]));
      AllDroppedLost(q, shields[1..]);
      LostTwice(s, q, AllDropped(q, shields[1..]), NamedBy(shields[0]), NamedByAll(shields[1..]));
    }
  }

  /** A forced removal of any kind, expiry included, empties the panel slot of every buff it takes. */
  lemma RemovalBlanks(s: State, id: BuffId, skipShield: bool, now: int, tick: int)
    requires Inv(s)
    ensures Blanked(s, Updated(s, id, true, skipShield, tick)) && Blanked(s, Expired(s, now, tick))
  {
    hide Updated, Expired, Blanked;
    UpdatedBlanks(s, id, skipShield, tick);
    ExpiredBlanks(s, now, tick);
  }
}
