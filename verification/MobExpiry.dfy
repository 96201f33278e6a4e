/** Exactly what an expiry check takes: the due buffs, and the buffs named by the shields these drop. */
module MobExpiry {
  import opened Mob
  import opened MobLaws
  import opened MobRuns

  /** The entries due by `now`. */
  function DueEntries(index: seq<Entry>, now: int): seq<Entry> {
    if index == [] || index[0].0 > now then [] else [index[0]] + DueEntries(index[1..], now)
  }

  /** What expiry has taken so far, and the shields left. */
  datatype Toll = Toll(gone: set<BuffId>, shields: seq<Shield>)

  /** One due buff that is still there: it goes, with its shield and the buff this names. */
  function Charged(t: Toll, id: BuffId, absorb: int): Toll {
    if absorb == 0 then t.(gone := t.gone + {id})
    else Toll(t.gone + {id} + NamedFirst(t.shields, absorb), ShieldsAfter(t.shields, absorb))
  }

  /** The toll of the due entries in their order, over the records as they were before. */
  function Claimed(buffs: map<BuffId, Buff>, due: seq<Entry>, t: Toll): Toll {
    if due == [] then t
    else
      var id := due[0].1;
      Claimed(buffs, due[1..], if id in t.gone || id !in buffs then t else Charged(t, id, buffs[id].absorb))
  }

  lemma {:induction false} DueKept(index: seq<Entry>, now: int, gone: set<BuffId>)
    requires Sorted(index)
    ensures DueEntries(Kept(index, gone), now) == Kept(DueEntries(index, now), gone)
  {
    if index != [] {
      var rest := Kept(index[1..], gone);
      DueKept(index[1..], now, gone);
      if index[0].0 > now {
        NothingLater(index, now, gone);
      } else if index[0].1 in gone {
        assert ([index[0]] + DueEntries(index[1..], now))[1..] == DueEntries(index[1..], now);
        assert Kept(index, gone) == rest;
      } else {
        assert ([index[0]] + rest)[1..] == rest;
        assert ([index[0]] + DueEntries(index[1..], now))[1..] == DueEntries(index[1..], now);
      }
    }
  }

  lemma NothingLater(index: seq<Entry>, now: int, gone: set<BuffId>)
    requires Sorted(index) && index != [] && index[0].0 > now
    ensures DueEntries(Kept(index, gone), now) == []
  {
    KeptMembers(index, gone);
    var kept := Kept(index, gone);
    if kept != [] {
      assert kept[0] in index;
    }
  }

  lemma {:induction false} DueMembers(index: seq<Entry>, now: int)
    requires Sorted(index)
    ensures forall e :: e in DueEntries(index, now) <==> e in index && e.0 <= now
  {
    if index != [] {
      if index[0].0 > now {
        assert forall e <- index :: index[0].0 <= e.0;
      } else {
        DueMembers(index[1..], now);
      }
    }
  }

  lemma DueHead(s: State, now: int)
    requires DueEntries(s.index, now) != []
    ensures s.index != [] && s.index[0] == DueEntries(s.index, now)[0] && s.index[0].0 <= now
  {
  }

  lemma KeptHead(due: seq<Entry>, gone: set<BuffId>)
    requires due != []
    ensures Kept(due, gone) == (if due[0].1 in gone then [] else [due[0]]) + Kept(due[1..], gone)
  {
  }

  /** The loop from a state in which `gone` is already gone, with `due` still to be looked at. */
  lemma {:induction false} ExpiredFrom(buffs: map<BuffId, Buff>, s: State, due: seq<Entry>, gone: set<BuffId>, now: int, tick: int)
    requires Inv(s) && s.buffs == buffs - gone && DueEntries(s.index, now) == Kept(due, gone)
    requires forall e <- due :: e.1 in buffs
    ensures var t, r := Claimed(buffs, due, Toll(gone, s.shields)), Expired(s, now, tick);
      r.buffs == buffs - t.gone && r.shields == t.shields && r.index == Kept(s.index, t.gone)
    ensures gone <= Claimed(buffs, due, Toll(gone, s.shields)).gone
    decreases |due|
  {
    hide Updated, Inv, Kept, Expired, DueEntries, Sorted;
    if due == [] {
      EntriesLive(buffs, s, gone);
      ExpiryOver(s, gone, now, tick);
    } else {
      KeptHead(due, gone);
      assert forall e <- due[1..] :: e.1 in buffs;
      var id := due[0].1;
      assert due[0] in due;
      if id in gone {
        ExpiredFrom(buffs, s, due[1..], gone, now, tick);
      } else {
        DueHead(s, now);
        ExpiredStep(s, now, tick);
        var q := Updated(s, id, true, false, tick);
        var more := Casualties(s, id, false);
        UpdatedExact(s, id, true, false, tick);
        Shrinks(buffs, s, q, gone, more);
        DueAfterRemoval(s, q, due, gone, more, now);
        var t := Charged(Toll(gone, s.shields), id, buffs[id].absorb);
        assert t.gone == gone + more by { assert s.buffs[id] == buffs[id]; }
        ExpiredFrom(buffs, q, due[1..], gone + more, now, tick);
        KeptBoth(s.index, more, Claimed(buffs, due[1..], t).gone);
      }
    }
  }

  lemma EntriesLive(buffs: map<BuffId, Buff>, s: State, gone: set<BuffId>)
    requires Inv(s) && s.buffs == buffs - gone
    ensures forall e <- s.index :: e.1 in s.buffs && e.1 !in gone
  {
  }

  lemma ExpiryOver(s: State, gone: set<BuffId>, now: int, tick: int)
    requires Inv(s) && DueEntries(s.index, now) == Kept([], gone) && forall e <- s.index :: e.1 in s.buffs && e.1 !in gone
    ensures Expired(s, now, tick) == s && Kept(s.index, gone) == s.index
  {
    KeptAll(s.index, gone);
  }

  lemma ExpiredStep(s: State, now: int, tick: int)
    requires Inv(s) && s.index != [] && s.index[0].0 <= now
    ensures s.index[0].1 in s.buffs && Inv(Updated(s, s.index[0].1, true, false, tick))
    ensures Expired(s, now, tick) == Expired(Updated(s, s.index[0].1, true, false, tick), now, tick)
  {
    hide Updated;
    HeadFacts(s);
    UpdatedExact(s, s.index[0].1, true, false, tick);
  }

  lemma Shrinks(buffs: map<BuffId, Buff>, s: State, q: State, gone: set<BuffId>, more: set<BuffId>)
    requires s.buffs == buffs - gone && q.buffs == s.buffs - more
    ensures q.buffs == buffs - (gone + more)
  {
  }

  lemma DueAfterRemoval(s: State, q: State, due: seq<Entry>, gone: set<BuffId>, more: set<BuffId>, now: int)
    requires Inv(s) && q.index == Kept(s.index, more) && DueEntries(s.index, now) == Kept(due, gone)
    requires due != [] && due[0].1 in more
    ensures DueEntries(q.index, now) == Kept(due[1..], gone + more)
  {
    DueKept(s.index, now, more);
    KeptTwice(due, gone, more);
    KeptHead(due, gone + more);
  }

  lemma KeptBoth(index: seq<Entry>, some: set<BuffId>, all: set<BuffId>)
    requires some <= all
    ensures Kept(Kept(index, some), all) == Kept(index, all)
  {
    KeptTwice(index, some, all);
    assert some + all == all;
  }

  /** What an expiry check takes from this state: a computation on index, records and shields as they are before it. */
  function TollOf(s: State, now: int): Toll { Claimed(s.buffs, DueEntries(s.index, now), Toll({}, s.shields)) }

  /** The state after an expiry check is exactly the state before it without the toll. */
  lemma ExpiryTakes(s: State, now: int, tick: int)
    requires Inv(s)
    ensures var t, r := TollOf(s, now), Expired(s, now, tick);
      r.buffs == s.buffs - t.gone && r.shields == t.shields && r.index == Kept(s.index, t.gone)
    ensures DueIds(s.index, now) <= TollOf(s, now).gone
  {
    hide Expired, Claimed;
    var due := DueEntries(s.index, now);
    DueMembers(s.index, now);
    KeptAll(due, {});
    assert s.buffs - {} == s.buffs;
    ExpiredFrom(s.buffs, s, due, {}, now, tick);
    ExpiredExact(s, now, tick);
    forall id | id in DueIds(s.index, now)
      ensures id in TollOf(s, now).gone
    {
      DueIsLive(s, id, now);
    }
  }

  lemma DueIsLive(s: State, id: BuffId, now: int)
    requires Inv(s) && id in DueIds(s.index, now)
    ensures id in s.buffs
  {
  }

  /** Exactly the due buffs go if and only if no shield that the due buffs drop in their order names a live buff that is
      not due. */
  lemma ExactlyDue(s: State, now: int, tick: int)
    requires Inv(s)
    ensures Expired(s, now, tick).buffs == s.buffs - DueIds(s.index, now) <==>
      forall id :: id in TollOf(s, now).gone && id in s.buffs ==> id in DueIds(s.index, now)
  {
    hide Expired, TollOf, DueIds;
    ExpiryTakes(s, now, tick);
    var gone, due := TollOf(s, now).gone, DueIds(s.index, now);
    if s.buffs - gone == s.buffs - due {
      forall id | id in gone && id in s.buffs
        ensures id in due
      {
        assert id !in s.buffs - gone;
      }
    }
    if forall id :: id in gone && id in s.buffs ==> id in due {
      assert s.buffs - gone == s.buffs - due;
    }
  }

  /** In every reachable state an expiry check takes exactly its toll, the due buffs among it, and leaves no entry due. */
  lemma EveryExpiryTakes(isPlayer: bool, ops: seq<Op>, now: int, tick: int)
    requires forall i :: 0 <= i < |ops| ==> Legal(ops[i])
    ensures var s := Run(isPlayer, ops);
      var t, r := TollOf(s, now), Expired(s, now, tick);
      && r.buffs == s.buffs - t.gone && r.shields == t.shields && r.index == Kept(s.index, t.gone)
      && DueIds(s.index, now) <= t.gone && forall e <- r.index :: e.0 > now
  {
    hide Run, Expired, TollOf, Inv;
    ExpiryTakes(Run(isPlayer, ops), now, tick);
    ExpiredExact(Run(isPlayer, ops), now, tick);
  }

  // ----- A run in which expiry takes a buff that is not due -----

  function Plain(kind: string, absorb: int, perm: bool, expire: int): (r: Request)
    ensures WellFormed(r)
  {
    Request(kind, absorb, perm, expire, [-1, -1, -1, -1, -1], ["", "", "", "", "", "", "", "", "", "", "", "", "", "", "", "", "", "", "", ""])
  }

  function Given(n: nat): (h: seq<int>)
    ensures |h| == n
  {
    if n == 0 then [] else [0] + Given(n - 1)
  }

  /** A buff that expires at 10 with absorb id 7, a permanent buff, and a shield 7 that names the permanent one. */
  function CrossedOps(): (ops: seq<Op>)
    ensures |ops| == 3 && forall i :: 0 <= i < |ops| ==> Legal(ops[i])
  {
    [Add(Plain("a", 7, false, 10), Given(5), Given(20), 0), Add(Plain("b", 0, true, 0), Given(5), Given(20), 0),
     AddShield(Shield(7, 1, 1, false, 0.0, 0.0, 0.0, 0.0, 0.0, false))]
  }

  lemma CrossedRun()
    ensures var s := Run(false, CrossedOps());
      && 0 in s.buffs && 1 in s.buffs && s.buffs[0].absorb == 7 && s.index == [(10, 0)]
      && |s.shields| == 1 && s.shields[0].id == 7 && s.shields[0].buffId == 1
  {
    hide Handles, StatHandles, EffectsAdded, StatsAdded, Given, Step, Plain;
    var ops := CrossedOps();
    var s0 := Run(false, []);
    assert ops[..3] == ops && ops[..3][..2] == ops[..2] && ops[..2][..1] == ops[..1] && ops[..1][..0] == [];
    assert s0 == Initial(false);
    var s1 := Step(s0, ops[0]);
    assert Run(false, ops[..1]) == s1;
    FirstAdded(s0);
    var s2 := Step(s1, ops[1]);
    assert Run(false, ops[..2]) == s2;
    SecondAdded(s1);
    var s3 := Step(s2, ops[2]);
    assert Run(false, ops) == s3;
    ShieldPut(s2);
  }

  lemma FirstAdded(s: State)
    requires s == Initial(false)
    ensures Inv(s)
    ensures var r := Step(s, CrossedOps()[0]);
      && r.nextId == 1 && !r.isPlayer && 0 in r.buffs && r.buffs[0].absorb == 7 && r.index == [(10, 0)] && r.shields == []
      && |r.panel| == PANEL_SIZE
  {
    hide Handles, StatHandles, EffectsAdded, StatsAdded, Given;
    EmptyInv(s);
  }

  lemma SecondAdded(s: State)
    requires Inv(s) && s.nextId == 1 && !s.isPlayer && 0 in s.buffs
    ensures var r := Step(s, CrossedOps()[1]);
      0 in r.buffs && r.buffs[0] == s.buffs[0] && 1 in r.buffs && r.index == s.index && r.shields == s.shields
  {
    hide Handles, StatHandles, EffectsAdded, StatsAdded, Given;
  }

  lemma ShieldPut(s: State)
    requires Inv(s) && s.shields == []
    ensures var r := Step(s, CrossedOps()[2]);
      r.buffs == s.buffs && r.index == s.index && |r.shields| == 1 && r.shields[0].id == 7 && r.shields[0].buffId == 1
  {
  }

  /** After this run an expiry check at 10 takes the permanent buff too. */
  lemma ExpiryTakesUndue(tick: int)
    ensures var s := Run(false, CrossedOps());
      1 in s.buffs && 1 !in DueIds(s.index, 10) && 1 !in Expired(s, 10, tick).buffs
  {
    hide Run, Expired, CrossedOps;
    CrossedRun();
    var s := Run(false, CrossedOps());
    ExpiryTakes(s, 10, tick);
    assert DueEntries(s.index, 10) == [(10, 0)] + DueEntries([], 10) == [(10, 0)];
    assert Claimed(s.buffs, [(10, 0)], Toll({}, s.shields)) == Charged(Toll({}, s.shields), 0, 7) by {
      assert Claimed(s.buffs, [], Charged(Toll({}, s.shields), 0, 7)) == Charged(Toll({}, s.shields), 0, 7);
    }
    assert FirstShield(s.shields, 7) == 0;
  }
}
