/** The expiry index agrees with the buffs through every operation, removal of linked buffs and shields is
    exact, and expiry and clearing terminate. */
module MobLaws {
  import opened Mob

  // ----- Index facts -----

  ghost predicate Sorted(index: seq<Entry>) {
    forall i, j :: 0 <= i < j < |index| ==> index[i].0 <= index[j].0
  }

  ghost predicate Distinct(index: seq<Entry>) {
    forall i, j :: 0 <= i < j < |index| ==> index[i].1 != index[j].1
  }

  /** The entries whose buff is not in `gone`, in order. */
  function Kept(index: seq<Entry>, gone: set<BuffId>): seq<Entry> {
    if index == [] then []
    else (if index[0].1 in gone then [] else [index[0]]) + Kept(index[1..], gone)
  }

  lemma {:induction false} KeptMembers(index: seq<Entry>, gone: set<BuffId>)
    ensures forall e :: e in Kept(index, gone) <==> e in index && e.1 !in gone
  {
    if index != [] {
      KeptMembers(index[1..], gone);
    }
  }

  lemma FirstIsLeast(index: seq<Entry>)
    requires Sorted(index) && Distinct(index)
    ensures index != [] ==> Sorted(index[1..]) && Distinct(index[1..])
    ensures index != [] ==> forall x <- index[1..] :: index[0].0 <= x.0 && index[0].1 != x.1
  {
  }

  lemma NothingOrdered()
    ensures Sorted([]) && Distinct([])
  {
  }

  lemma Prepended(e: Entry, rest: seq<Entry>)
    requires Sorted(rest) && Distinct(rest) && forall x <- rest :: e.0 <= x.0 && e.1 != x.1
    ensures Sorted([e] + rest) && Distinct([e] + rest)
  {
    assert forall j :: 0 <= j < |rest| ==> rest[j] in rest;
  }

  lemma {:induction false} KeptOrder(index: seq<Entry>, gone: set<BuffId>)
    requires Sorted(index) && Distinct(index)
    ensures Sorted(Kept(index, gone)) && Distinct(Kept(index, gone))
    ensures |Kept(index, gone)| <= |index|
  {
    hide Sorted, Distinct;
    NothingOrdered();
    if index != [] {
      FirstIsLeast(index);
      KeptOrder(index[1..], gone);
      KeptMembers(index[1..], gone);
      var rest := Kept(index[1..], gone);
      Prepended(index[0], rest);
      assert Kept(index, gone) == if index[0].1 in gone then rest else [index[0]] + rest;
    }
  }

  lemma {:induction false} KeptTwice(index: seq<Entry>, a: set<BuffId>, b: set<BuffId>)
    ensures Kept(Kept(index, a), b) == Kept(index, a + b)
  {
    if index != [] {
      KeptTwice(index[1..], a, b);
      var rest := Kept(index[1..], a);
      if index[0].1 !in a {
        assert ([index[0]] + rest)[1..] == rest;
        assert Kept([index[0]] + rest, b) == (if index[0].1 in b then [] else [index[0]]) + Kept(rest, b);
      } else {
        assert Kept(index, a) == rest;
      }
    }
  }

  lemma {:induction false} KeptAll(index: seq<Entry>, gone: set<BuffId>)
    requires forall e <- index :: e.1 !in gone
    ensures Kept(index, gone) == index
  {
    if index != [] {
      KeptAll(index[1..], gone);
    }
  }

  /** Erasing the entry of an id that occurs once is dropping the id. */
  lemma {:induction false} UnindexedKept(index: seq<Entry>, t: int, id: BuffId)
    requires Distinct(index) && forall e <- index :: e.1 == id ==> e.0 == t
    ensures Unindexed(index, (t, id)) == Kept(index, {id})
  {
    if index != [] {
      if index[0] == (t, id) {
        assert forall e <- index[1..] :: e.1 != id;
        KeptAll(index[1..], {id});
      } else {
        assert index[0] in index;
        UnindexedKept(index[1..], t, id);
      }
    }
  }

  lemma {:induction false} InsertedFacts(index: seq<Entry>, e: Entry)
    requires Sorted(index) && Distinct(index) && forall x <- index :: x.1 != e.1
    ensures forall x :: x in Inserted(index, e) <==> x in index || x == e
    ensures Sorted(Inserted(index, e)) && Distinct(Inserted(index, e))
  {
    hide Sorted, Distinct;
    if index == [] || e.0 < index[0].0 {
      FirstIsLeast(index);
      Prepended(e, index);
    } else {
      FirstIsLeast(index);
      InsertedFacts(index[1..], e);
      var rest := Inserted(index[1..], e);
      assert Inserted(index, e) == [index[0]] + rest;
      Prepended(index[0], rest);
    }
  }

  // ----- The invariant -----

  /** Every index entry names a live non-permanent buff with that expiry. */
  ghost predicate Sound(s: State) {
    forall e <- s.index :: e.1 in s.buffs && !s.buffs[e.1].perm && s.buffs[e.1].expire == e.0 && 0 <= e.1 < s.nextId
  }

  /** Every live non-permanent buff is indexed, zero records of looked-up ids aside. */
  ghost predicate Complete(s: State) {
    forall id :: id in s.buffs && !s.buffs[id].perm && s.buffs[id] != Zeroed() ==> (s.buffs[id].expire, id) in s.index
  }

  /** Ids not yet given out hold at most zero records, and display slots are on the panel. */
  ghost predicate Fresh(s: State) {
    && |s.panel| == PANEL_SIZE
    && forall id :: id in s.buffs ==> 0 <= id && s.buffs[id].slot < PANEL_SIZE && (id >= s.nextId ==> s.buffs[id] == Zeroed())
  }

  ghost predicate Inv(s: State) {
    Sorted(s.index) && Distinct(s.index) && Sound(s) && Complete(s) && Fresh(s)
  }

  /** `r` is `s` without the buffs in `gone`. */
  ghost predicate Lost(s: State, r: State, gone: set<BuffId>) {
    && r.buffs == s.buffs - gone && r.index == Kept(s.index, gone)
    && r.nextId == s.nextId && |r.panel| == |s.panel| && r.isPlayer == s.isPlayer
  }

  lemma LostInv(s: State, r: State, gone: set<BuffId>)
    requires Inv(s) && Lost(s, r, gone)
    ensures Inv(r)
  {
    KeptMembers(s.index, gone);
    KeptOrder(s.index, gone);
  }

  lemma LostTwice(s: State, r: State, q: State, a: set<BuffId>, b: set<BuffId>)
    requires Lost(s, r, a) && Lost(r, q, b)
    ensures Lost(s, q, a + b)
  {
    KeptTwice(s.index, a, b);
    assert (s.buffs - a) - b == s.buffs - (a + b);
  }

  // ----- Removal is exact -----

  /** Closing a removal drops the id, whether the record found is the buff's own or a zero one. */
  lemma ClosedLost(s: State, id: BuffId, b: Buff, force: bool, removedStat: bool)
    requires Inv(s) && if id in s.buffs then b == s.buffs[id] else !b.perm
    ensures Lost(s, Closed(s, id, b, force, removedStat), {id})
    ensures Closed(s, id, b, force, removedStat).shields == s.shields
  {
    if b.perm {
      KeptAll(s.index, {id});
    } else if id in s.buffs {
      UnindexedKept(s.index, b.expire, id);
    } else {
      UnindexedKept(s.index, b.expire, id);
    }
  }

  lemma StrippedInv(s: State, b: Buff)
    requires Inv(s)
    ensures Inv(Stripped(s, b)) && Lost(s, Stripped(s, b), {}) && Stripped(s, b).shields == s.shields
  {
    KeptAll(s.index, {});
    assert s.buffs - {} == s.buffs;
  }

  lemma RemovedPlainLost(s: State, id: BuffId, force: bool)
    requires Inv(s)
    ensures Lost(s, RemovedPlain(s, id, force), {id}) && RemovedPlain(s, id, force).shields == s.shields
  {
    hide Closed, Stripped;
    if id in s.buffs {
      var b := s.buffs[id];
      StrippedInv(s, b);
      assert Stripped(s, b).buffs == s.buffs;
      ClosedLost(Stripped(s, b), id, b, force, HasStats(b));
      LostTwice(s, Stripped(s, b), RemovedPlain(s, id, force), {}, {id});
      assert {} + {id} == {id};
    } else {
      KeptAll(s.index, {id});
      assert s.buffs - {id} == s.buffs;
    }
  }

  function NamedBy(sh: Shield): set<BuffId> { if sh.buffId == NO_BUFF then {} else {sh.buffId} }

  lemma ShieldDroppedLost(s: State, sh: Shield)
    requires Inv(s)
    ensures Lost(s, ShieldDropped(s, sh), NamedBy(sh)) && ShieldDropped(s, sh).shields == s.shields
  {
    hide RemovedPlain;
    if sh.buffId == NO_BUFF {
      KeptAll(s.index, {});
      assert s.buffs - {} == s.buffs;
    } else {
      RemovedPlainLost(s, sh.buffId, true);
    }
  }

  /** The buff named by the first shield with this id. */
  function NamedFirst(shields: seq<Shield>, id: int): set<BuffId> {
    var i := FirstShield(shields, id);
    if i == |shields| then {} else NamedBy(shields[i])
  }

  /** The buffs a shield removal takes with it. */
  function ShieldCasualties(s: State, id: int): set<BuffId> { NamedFirst(s.shields, id) }

  function ShieldsAfter(shields: seq<Shield>, id: int): seq<Shield> {
    var i := FirstShield(shields, id);
    if i == |shields| then shields else Without(shields, i)
  }

  /** Removing a shield unlinks at most one node and takes exactly the buff it names. */
  lemma ShieldRemovedExact(s: State, id: int)
    requires Inv(s)
    ensures var r := ShieldRemoved(s, id);
      Lost(s, r, ShieldCasualties(s, id)) && r.shields == ShieldsAfter(s.shields, id) && Inv(r)
  {
    hide ShieldDropped;
    var i := FirstShield(s.shields, id);
    if i == |s.shields| {
      KeptAll(s.index, {});
      assert s.buffs - {} == s.buffs;
    } else {
      ShieldDroppedLost(s.(shields := Without(s.shields, i)), s.shields[i]);
    }
    LostInv(s, ShieldRemoved(s, id), ShieldCasualties(s, id));
  }

  /** The buffs that go when `id` is removed: itself and the one its shield names. */
  function Casualties(s: State, id: BuffId, skipShield: bool): set<BuffId>
    requires id in s.buffs
  {
    {id} + if skipShield || s.buffs[id].absorb == 0 then {} else ShieldCasualties(s, s.buffs[id].absorb)
  }

  predicate Fires(s: State, id: BuffId, force: bool, tick: int) {
    id in s.buffs && (force || Due(s.buffs[id], tick))
  }

  /** A removal that fires takes exactly the casualties and exactly the first shield of its absorb id, even
      when the shield's own removal has already taken the buff. */
  lemma UpdatedExact(s: State, id: BuffId, force: bool, skipShield: bool, tick: int)
    requires Inv(s)
    ensures var r := Updated(s, id, force, skipShield, tick);
      && Inv(r)
      && (Fires(s, id, force, tick) ==>
           && Lost(s, r, Casualties(s, id, skipShield))
           && r.shields == if skipShield || s.buffs[id].absorb == 0 then s.shields
                           else ShieldsAfter(s.shields, s.buffs[id].absorb))
      && (!Fires(s, id, force, tick) ==> r == s)
  {
    hide RemovedPlain, Stripped, Closed, ShieldRemoved;
    if Fires(s, id, force, tick) {
      if skipShield || s.buffs[id].absorb == 0 {
        RemovedPlainLost(s, id, force);
        assert Casualties(s, id, skipShield) == {id};
      } else {
        LinkedRemoval(s, id, force);
      }
      LostInv(s, Updated(s, id, force, skipShield, tick), Casualties(s, id, skipShield));
    }
  }

  lemma LinkedRemoval(s: State, id: BuffId, force: bool)
    requires Inv(s) && id in s.buffs
    ensures var b := s.buffs[id];
      var s1 := ShieldRemoved(Stripped(s, b), b.absorb);
      var s2 := s1.(buffs := Touched(s1.buffs, id));
      var r := Closed(s2, id, s2.buffs[id], force, HasStats(b));
      Lost(s, r, {id} + ShieldCasualties(s, b.absorb)) && r.shields == ShieldsAfter(s.shields, b.absorb)
  {
    hide Stripped, Closed, ShieldRemoved;
    var b := s.buffs[id];
    var s0 := Stripped(s, b);
    StrippedInv(s, b);
    ShieldRemovedExact(s0, b.absorb);
    var s1, gone := ShieldRemoved(s0, b.absorb), ShieldCasualties(s, b.absorb);
    LostTwice(s, s0, s1, {}, gone);
    var s2 := s1.(buffs := Touched(s1.buffs, id));
    CloseTouched(s1, id, force, HasStats(b));
    assert {} + gone == gone;
    LostTwice(s, s1, Closed(s2, id, s2.buffs[id], force, HasStats(b)), gone, {id});
    assert gone + {id} == {id} + gone;
  }

  /** Looking up a removed buff re-creates a zero record, which the end of the removal erases again. */
  lemma CloseTouched(s: State, id: BuffId, force: bool, removedStat: bool)
    requires Inv(s)
    ensures var s2 := s.(buffs := Touched(s.buffs, id));
      var r := Closed(s2, id, s2.buffs[id], force, removedStat);
      Lost(s, r, {id}) && r.shields == s.shields
  {
    var s2 := s.(buffs := Touched(s.buffs, id));
    var b := s2.buffs[id];
    ClosedLost(s, id, b, force, removedStat);
    assert s2.buffs - {id} == s.buffs - {id};
  }

  // ----- Both ends of a linked pair -----

  /** Buff `id` and the first shield with its absorb id name each other. */
  predicate Paired(s: State, id: BuffId) {
    && id in s.buffs && s.buffs[id].absorb != 0 && id != NO_BUFF
    && var i := FirstShield(s.shields, s.buffs[id].absorb);
       i < |s.shields| && s.shields[i].buffId == id
  }

  /** Removing a linked pair from the shield's end or from the buff's end leaves neither behind, unlinks
      exactly that shield, and leaves every other buff, index entry and shield as it was. */
  lemma EitherEnd(s: State, id: BuffId, tick: int)
    requires Inv(s) && Paired(s, id)
    ensures var sid := s.buffs[id].absorb;
      var i := FirstShield(s.shields, sid);
      var fromShield, fromBuff := ShieldRemoved(s, sid), Updated(s, id, true, false, tick);
      && fromShield.buffs == fromBuff.buffs == s.buffs - {id}
      && fromShield.index == fromBuff.index == Kept(s.index, {id})
      && fromShield.shields == fromBuff.shields == Without(s.shields, i)
      && Inv(fromShield) && Inv(fromBuff)
  {
    hide ShieldRemoved, Updated;
    ShieldRemovedExact(s, s.buffs[id].absorb);
    UpdatedExact(s, id, true, false, tick);
    assert Casualties(s, id, false) == {id} == ShieldCasualties(s, s.buffs[id].absorb);
  }

  /** From the buff's end the code gives the stat and effect handles back twice, once for the buff and once
      more when the shield removes it, and sends a player's panel twice. */
  lemma HandlesReturnedTwice(s: State, id: BuffId, tick: int)
    requires Inv(s) && Paired(s, id)
    ensures var b := s.buffs[id];
      var once := StatEvents(b.stats) + EffectEvents(b.effects);
      var panel := if s.isPlayer then [PanelSent] else [];
      && Updated(s, id, true, false, tick).out == s.out + once + once + panel + panel
      && ShieldRemoved(s, b.absorb).out == s.out + once + panel
  {
    hide StatEvents, EffectEvents, Unindexed, HasStats, Cleared;
    var b := s.buffs[id];
    var once := StatEvents(b.stats) + EffectEvents(b.effects);
    var i := FirstShield(s.shields, b.absorb);
    PlainOut(s.(shields := Without(s.shields, i)), id);
    PlainOut(Stripped(s, b).(shields := Without(s.shields, i)), id);
    assert Stripped(s, b).out == s.out + once;
  }

  lemma PlainOut(s: State, id: BuffId)
    requires id in s.buffs
    ensures var b := s.buffs[id];
      RemovedPlain(s, id, true).out ==
        s.out + (StatEvents(b.stats) + EffectEvents(b.effects)) + if s.isPlayer then [PanelSent] else []
  {
    hide StatEvents, EffectEvents, Unindexed, HasStats, Cleared;
    var b := s.buffs[id];
    var once := StatEvents(b.stats) + EffectEvents(b.effects);
    assert s.out + StatEvents(b.stats) + EffectEvents(b.effects) == s.out + once;
  }

  /** On a player's panel, removal from the shield's end empties the buff's own slot. From the buff's end the
      zero record stands in for the buff, so slot 0 is emptied as well: only that slot changes exactly when
      the buff was shown there or slot 0 was already empty. */
  lemma PanelCollateral(s: State, id: BuffId, tick: int)
    requires Inv(s) && Paired(s, id) && s.isPlayer
    ensures var b := s.buffs[id];
      var own := Cleared(s.panel, b.slot);
      && ShieldRemoved(s, b.absorb).panel == own
      && Updated(s, id, true, false, tick).panel == Cleared(own, 0)
      && (Updated(s, id, true, false, tick).panel == own <==> b.slot == 0 || s.panel[0] == EMPTY_PANEL)
  {
    hide StatEvents, EffectEvents, Unindexed, HasStats;
    var own := Cleared(s.panel, s.buffs[id].slot);
    assert Cleared(own, 0)[0] == EMPTY_PANEL;
    if own[0] == EMPTY_PANEL {
      assert Cleared(own, 0) == own;
    }
  }

  /** A removal takes another live buff along exactly when the shield it drops names one. */
  lemma TakesAnother(s: State, id: BuffId, tick: int)
    requires Inv(s) && id in s.buffs
    ensures Updated(s, id, true, false, tick).buffs == s.buffs - {id} <==>
      s.buffs[id].absorb == 0
      || ShieldCasualties(s, s.buffs[id].absorb) !! (s.buffs.Keys - {id})
  {
    hide Updated;
    UpdatedExact(s, id, true, false, tick);
    var gone := Casualties(s, id, false);
    if s.buffs - gone == s.buffs - {id} {
      forall x | x in ShieldCasualties(s, s.buffs[id].absorb) && s.buffs[id].absorb != 0
        ensures x !in s.buffs.Keys - {id}
      {
        assert x !in s.buffs - {id};
      }
    }
  }

  // ----- Expiry -----

  /** The head of the index is removed until it lies in the future. */
  function Expired(s: State, now: int, tick: int): State
    requires Inv(s)
    decreases |s.index|
  {
    if s.index == [] || s.index[0].0 > now then s
    else
      UpdatedExact(s, s.index[0].1, true, false, tick);
      HeadGoes(s, tick);
      Expired(Updated(s, s.index[0].1, true, false, tick), now, tick)
  }

  /** Each pass of the expiry loop shortens the index, because its head names a live buff. */
  lemma HeadGoes(s: State, tick: int)
    requires Inv(s) && s.index != []
    ensures |Updated(s, s.index[0].1, true, false, tick).index| < |s.index|
  {
    hide Updated;
    var id := s.index[0].1;
    assert s.index[0] in s.index;
    UpdatedExact(s, id, true, false, tick);
    var gone := Casualties(s, id, false);
    assert Kept(s.index, gone) == Kept(s.index[1..], gone);
    KeptShorter(s.index[1..], gone);
  }

  lemma {:induction false} KeptShorter(index: seq<Entry>, gone: set<BuffId>)
    ensures |Kept(index, gone)| <= |index|
  {
    hide Sorted, Distinct;
    NothingOrdered();
    if index != [] {
      KeptShorter(index[1..], gone);
    }
  }

  function DueIds(index: seq<Entry>, now: int): set<BuffId> {
    set e | e in index && e.0 <= now :: e.1
  }

  /** Shield ids are unique, and a buff's shield names that buff or none that lives. */
  ghost predicate Linked(s: State) {
    && (forall i, j :: 0 <= i < j < |s.shields| ==> s.shields[i].id != s.shields[j].id)
    && forall id :: id in s.buffs && s.buffs[id].absorb != 0 ==>
         ShieldCasualties(s, s.buffs[id].absorb) !! (s.buffs.Keys - {id})
  }

  lemma LinkedKept(s: State, id: BuffId, tick: int)
    requires Inv(s) && Linked(s) && id in s.buffs
    ensures var r := Updated(s, id, true, false, tick); Linked(r) && r.buffs == s.buffs - {id}
  {
    hide Updated, Inv, Linked, ShieldsAfter, ShieldCasualties, Casualties;
    UpdatedExact(s, id, true, false, tick);
    TakesAnother(s, id, tick);
    LinkedAlone(s, id);
    var r := Updated(s, id, true, false, tick);
    LinkedSubset(s, r, id, s.buffs[id].absorb);
  }

  lemma LinkedAlone(s: State, id: BuffId)
    requires Linked(s) && id in s.buffs
    ensures s.buffs[id].absorb == 0 || ShieldCasualties(s, s.buffs[id].absorb) !! (s.buffs.Keys - {id})
  {
  }

  /** Links stay in order when a buff and the shield of its absorb id go. */
  lemma LinkedSubset(s: State, r: State, id: BuffId, dropped: int)
    requires Linked(s) && id in s.buffs && r.buffs == s.buffs - {id}
    requires r.shields == if dropped == 0 then s.shields else ShieldsAfter(s.shields, dropped)
    ensures Linked(r)
  {
    hide ShieldsAfter;
    if dropped != 0 {
      FirstAfter(s.shields, dropped, 0);
    }
    forall x | x in r.buffs && r.buffs[x].absorb != 0
      ensures ShieldCasualties(r, r.buffs[x].absorb) !! (r.buffs.Keys - {x})
    {
      LinkedAlone(s, x);
      assert r.buffs.Keys <= s.buffs.Keys;
      if dropped != 0 {
        FirstAfter(s.shields, dropped, r.buffs[x].absorb);
      }
    }
  }

  /** Dropping one shield of a list with unique ids hides that id and leaves every other id's first shield. */
  lemma FirstAfter(shields: seq<Shield>, dropped: int, id: int)
    requires forall i, j :: 0 <= i < j < |shields| ==> shields[i].id != shields[j].id
    ensures var after := ShieldsAfter(shields, dropped);
      var i, k := FirstShield(shields, id), FirstShield(after, id);
      && (forall i, j :: 0 <= i < j < |after| ==> after[i].id != after[j].id)
      && (k < |after| ==> i < |shields| && after[k] == shields[i])
  {
    var after := ShieldsAfter(shields, dropped);
    var i, k := FirstShield(shields, id), FirstShield(after, id);
    if k < |after| {
      var d := FirstShield(shields, dropped);
      var j := if k < d then k else k + 1;
      assert d < |shields| ==> after[k] == shields[j];
      if i < |shields| {
        assert shields[i].id == id;
      }
    }
  }

  /** Expiry terminates with no entry due, every buff that was due gone, and the invariant intact. Where the
      links are in order, exactly the due buffs are gone. */
  lemma {:induction false} ExpiredExact(s: State, now: int, tick: int)
    requires Inv(s)
    ensures var r := Expired(s, now, tick);
      && Inv(r)
      && (forall e <- r.index :: e.0 > now)
      && (forall id <- DueIds(s.index, now) :: id !in r.buffs)
      && r.buffs.Keys <= s.buffs.Keys
      && (Linked(s) ==> r.buffs == s.buffs - DueIds(s.index, now)
                        && r.index == Kept(s.index, DueIds(s.index, now)))
    decreases |s.index|
  {
    hide Updated, Linked, Inv;
    if s.index == [] || s.index[0].0 > now {
      NothingDue(s, now);
    } else {
      HeadFacts(s);
      var id := s.index[0].1;
      var q := Updated(s, id, true, false, tick);
      UpdatedExact(s, id, true, false, tick);
      HeadGoes(s, tick);
      ExpiredExact(q, now, tick);
      DueAfter(s, q, id, now, tick);
      KeptTwice(s.index, {id}, DueIds(q.index, now));
      assert (s.buffs - {id}) - DueIds(q.index, now) == s.buffs - ({id} + DueIds(q.index, now));
    }
  }

  lemma HeadFacts(s: State)
    requires Inv(s) && s.index != []
    ensures s.index[0].1 in s.buffs
  {
    assert s.index[0] in s.index;
  }

  lemma NothingDue(s: State, now: int)
    requires Inv(s) && (s.index == [] || s.index[0].0 > now)
    ensures DueIds(s.index, now) == {} && (forall e <- s.index :: e.0 > now)
    ensures s.buffs - {} == s.buffs && Kept(s.index, {}) == s.index
  {
    KeptAll(s.index, {});
    forall e <- s.index
      ensures e.0 > now
    {
      var i :| 0 <= i < |s.index| && s.index[i] == e;
    }
  }

  /** What is due after the head's removal is what was due before it, without the casualties. */
  lemma DueAfter(s: State, q: State, id: BuffId, now: int, tick: int)
    requires Inv(s) && s.index != [] && s.index[0].0 <= now && id == s.index[0].1 && id in s.buffs
    requires q == Updated(s, id, true, false, tick)
    ensures forall x <- DueIds(s.index, now) :: x !in q.buffs || x in DueIds(q.index, now)
    ensures q.buffs.Keys <= s.buffs.Keys
    ensures Linked(s) ==> Linked(q) && q.buffs == s.buffs - {id} && q.index == Kept(s.index, {id})
                          && {id} + DueIds(q.index, now) == DueIds(s.index, now)
  {
    hide Updated;
    UpdatedExact(s, id, true, false, tick);
    var gone := Casualties(s, id, false);
    KeptMembers(s.index, gone);
    forall x <- DueIds(s.index, now)
      ensures x !in q.buffs || x in DueIds(q.index, now)
    {
      var e :| e in s.index && e.0 <= now && e.1 == x;
      if x in q.buffs {
        assert e in q.index;
      }
    }
    if Linked(s) {
      LinkedKept(s, id, tick);
      LinkedDue(s, gone, id, now);
    }
  }

  /** Casualties that do not live have no index entry, so dropping them is dropping the head's id. */
  lemma LinkedDue(s: State, gone: set<BuffId>, id: BuffId, now: int)
    requires Inv(s) && s.index != [] && s.index[0] in s.index && s.index[0].0 <= now && id == s.index[0].1
    requires id in gone && s.buffs - gone == s.buffs - {id}
    ensures Kept(s.index, gone) == Kept(s.index, {id})
    ensures {id} + DueIds(Kept(s.index, {id}), now) == DueIds(s.index, now)
  {
    forall e <- s.index
      ensures e.1 in gone <==> e.1 in {id}
    {
      if e.1 != id {
        assert e.1 in s.buffs - {id};
        assert e.1 in s.buffs - gone;
      }
    }
    KeptSame(s.index, gone, {id});
    KeptMembers(s.index, {id});
    assert s.index[0].1 in DueIds(s.index, now);
    forall x <- DueIds(s.index, now)
      ensures x == id || x in DueIds(Kept(s.index, {id}), now)
    {
      var e :| e in s.index && e.0 <= now && e.1 == x;
      if x != id {
        assert e in Kept(s.index, {id});
      }
    }
  }

  lemma {:induction false} KeptSame(index: seq<Entry>, a: set<BuffId>, b: set<BuffId>)
    requires forall e <- index :: e.1 in a <==> e.1 in b
    ensures Kept(index, a) == Kept(index, b)
  {
    if index != [] {
      assert index[0] in index;
      KeptSame(index[1..], a, b);
    }
  }
}
