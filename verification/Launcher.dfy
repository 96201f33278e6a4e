/** An ammunition launcher firing from a loaded stack and reloading from the cargo hold. */
module Launcher {
  datatype Category = Beam | Projectile | Missile | Other

  datatype DamageType = Impact | Explosive | Plasma | Energy | Emp | Chemical

  datatype Flag = NoAmmo | NoTargeting | Disabled | AutoFire

  /** A stack of items. `known` says that its template is on record. */
  datatype Item = Item(known: bool, isAmmo: bool, ammoName: string, techLevel: int, damageType: DamageType, count: nat)

  const EMPTY_ITEM: Item := Item(false, false, "", 0, Impact, 0)

  /** `takes` is the ammunition the weapon names; `beamType` is what a beam weapon deals. */
  datatype Weapon = Weapon(category: Category, usesAmmo: bool, takes: string, techLevel: int, beamType: DamageType)

  /** Damage that lands after a delay in milliseconds. */
  datatype Hit = Hit(delay: nat, damageType: DamageType, amount: real)

  datatype State = State(loaded: Item, ammoSet: bool, ammoType: DamageType, flags: set<Flag>, cargo: seq<Item>,
                         hits: seq<Hit>)

  predicate Fits(w: Weapon, item: Item) {
    w.usesAmmo && item.known && item.isAmmo && item.ammoName == w.takes && item.techLevel <= w.techLevel
  }

  predicate Reloads(w: Weapon, item: Item, quantity: nat) { Fits(w, item) && item.count >= quantity }

  /** First slot with a stack that allows a full shot; the size of the hold if there is none. */
  function FirstStack(w: Weapon, cargo: seq<Item>, quantity: nat): (i: nat)
    ensures i <= |cargo| && (i < |cargo| ==> Reloads(w, cargo[i], quantity))
    ensures forall k :: 0 <= k < i ==> !Reloads(w, cargo[k], quantity)
  {
    if cargo == [] || Reloads(w, cargo[0], quantity) then 0 else 1 + FirstStack(w, cargo[1..], quantity)
  }

  function Reloaded(s: State, w: Weapon, quantity: nat): State {
    var i := FirstStack(w, s.cargo, quantity);
    if i == |s.cargo| then s
    else s.(loaded := s.cargo[i], ammoSet := true, ammoType := s.cargo[i].damageType, cargo := s.cargo[i := EMPTY_ITEM])
  }

  function OutOfAmmo(s: State): State {
    s.(flags := s.flags + {NoAmmo, NoTargeting, Disabled} - {AutoFire}, loaded := EMPTY_ITEM, ammoSet := false)
  }

  /** The ammunition side of a shot. */
  function Spent(s: State, w: Weapon, quantity: nat): State {
    if s.loaded.count > quantity then s.(loaded := s.loaded.(count := s.loaded.count - quantity))
    else if FirstStack(w, s.cargo, quantity) == |s.cargo| then OutOfAmmo(s)
    else Reloaded(s, w, quantity)
  }

  /** Damage for `quantity` rounds scaled down to the rounds there are. */
  function Scaled(damage: real, rounds: nat, quantity: nat): real {
    if rounds < quantity then damage * (rounds as real / quantity as real) else damage
  }

  function Times(damage: real, rounds: nat): real { damage * rounds as real }

  /** One of six equal parts. */
  function TickShare(damage: real, rounds: nat): real { damage / 6.0 * rounds as real }

  predicate OverTime(t: DamageType) { t == Plasma || t == Chemical }

  /** Ticks `i` to 5 of damage over time, one a second. */
  function Ticks(delay: nat, t: DamageType, amount: real, i: nat): seq<Hit>
    requires i <= 6
    decreases 6 - i
  {
    if i == 6 then [] else [Hit(delay + i * 1000, t, amount)] + Ticks(delay, t, amount, i + 1)
  }

  /** `damage` is for one round; the delay of a beam is 0. */
  function HitsOf(s: State, w: Weapon, quantity: nat, damage: real, delay: nat): seq<Hit> {
    match w.category
    case Beam =>
      if OverTime(w.beamType) then
        [Hit(0, w.beamType, TickShare(damage, quantity))] + Ticks(delay, w.beamType, TickShare(damage, quantity), 1)
      else [Hit(0, w.beamType, damage)]
    case Other => []
    case _ =>
      var scaled := Scaled(damage, s.loaded.count, quantity);
      var t := Spent(s, w, quantity).ammoType;
      if OverTime(t) then Ticks(delay, t, TickShare(scaled, quantity), 0)
      else [Hit(delay, t, Times(scaled, quantity))]
  }

  function Shot(s: State, w: Weapon, quantity: nat, damage: real, delay: nat): State {
    var s1 := if w.category == Beam then s else Spent(s, w, quantity);
    s1.(hits := s.hits + HitsOf(s, w, quantity, damage, delay))
  }

  // ----- Conservation -----

  function Min(a: nat, b: nat): nat { if a < b then a else b }

  /** Rounds in the hold that the weapon can take. */
  function InHold(w: Weapon, cargo: seq<Item>): nat {
    if cargo == [] then 0 else (if Fits(w, cargo[0]) then cargo[0].count else 0) + InHold(w, cargo[1..])
  }

  function Rounds(s: State, w: Weapon): nat { s.loaded.count + InHold(w, s.cargo) }

  function Dealt(hits: seq<Hit>): real { if hits == [] then 0.0 else hits[0].amount + Dealt(hits[1..]) }

  lemma {:induction false} Emptied(w: Weapon, cargo: seq<Item>, i: nat)
    requires i < |cargo| && Fits(w, cargo[i])
    ensures InHold(w, cargo[i := EMPTY_ITEM]) == InHold(w, cargo) - cargo[i].count
  {
    var after := cargo[i := EMPTY_ITEM];
    if i == 0 {
      assert after[1..] == cargo[1..];
    } else {
      Emptied(w, cargo[1..], i - 1);
      assert after[1..] == cargo[1..][i - 1 := EMPTY_ITEM];
    }
  }

  /** Whether or not a reload finds a stack, launcher and hold together lose exactly the rounds fired. At most
      one slot of the hold changes: the first with a stack large enough, and it moves whole into the launcher. */
  lemma ShotSpends(s: State, w: Weapon, quantity: nat, damage: real, delay: nat)
    requires w.category != Beam
    ensures var r := Shot(s, w, quantity, damage, delay);
      && Rounds(r, w) == Rounds(s, w) - Min(s.loaded.count, quantity)
      && var i := FirstStack(w, s.cargo, quantity);
         if s.loaded.count > quantity || i == |s.cargo| then r.cargo == s.cargo
         else r.cargo == s.cargo[i := EMPTY_ITEM] && r.loaded == s.cargo[i]
  {
    hide HitsOf, FirstStack;
    var i := FirstStack(w, s.cargo, quantity);
    if s.loaded.count <= quantity && i < |s.cargo| {
      Emptied(w, s.cargo, i);
    }
  }

  /** A shot leaves the launcher out of ammunition exactly when it takes the last loaded round and every stack
      left in the hold is too small for another such shot. */
  lemma RunsOut(s: State, w: Weapon, quantity: nat, damage: real, delay: nat)
    requires w.category != Beam && s.ammoSet && NoAmmo !in s.flags
    ensures var r := Shot(s, w, quantity, damage, delay);
      && (NoAmmo in r.flags <==>
            s.loaded.count <= quantity && forall k :: 0 <= k < |s.cargo| && Fits(w, s.cargo[k]) ==> s.cargo[k].count < quantity)
      && (NoAmmo in r.flags <==> !r.ammoSet)
      && (NoAmmo in r.flags ==> r.flags == s.flags + {NoAmmo, NoTargeting, Disabled} - {AutoFire} && r.loaded == EMPTY_ITEM)
      && (NoAmmo !in r.flags ==> r.flags == s.flags)
  {
    hide HitsOf, FirstStack;
    var i := FirstStack(w, s.cargo, quantity);
    if i < |s.cargo| {
      assert Reloads(w, s.cargo[i], quantity);
    } else {
      assert forall k :: 0 <= k < |s.cargo| ==> !Reloads(w, s.cargo[k], quantity);
    }
  }

  /** A reload takes the first stack that is known ammunition of the name the weapon takes, of no higher tech level than the
      weapon, and large enough; if there is none, the hold stays as it is. */
  lemma ReloadTakes(s: State, w: Weapon, quantity: nat)
    ensures var r := Reloaded(s, w, quantity);
      if exists k :: 0 <= k < |s.cargo| && Suits(w, s.cargo[k], quantity) then
        exists k :: && 0 <= k < |s.cargo| && Suits(w, s.cargo[k], quantity)
                    && (forall i :: 0 <= i < k ==> !Suits(w, s.cargo[i], quantity))
                    && r.loaded == s.cargo[k] && r.ammoSet && r.ammoType == s.cargo[k].damageType
                    && r.cargo == s.cargo[k := EMPTY_ITEM]
      else r == s
  {
    hide FirstStack;
    var i := FirstStack(w, s.cargo, quantity);
    assert forall k :: 0 <= k < |s.cargo| ==> (Suits(w, s.cargo[k], quantity) <==> Reloads(w, s.cargo[k], quantity));
  }

  predicate Suits(w: Weapon, item: Item, quantity: nat) {
    && item.known && item.isAmmo && w.usesAmmo && item.ammoName == w.takes && item.techLevel <= w.techLevel
    && item.count >= quantity
  }

  lemma {:induction false} DealtAppends(a: seq<Hit>, b: seq<Hit>)
    ensures Dealt(a + b) == Dealt(a) + Dealt(b)
  {
    if a == [] {
      assert a + b == b;
    } else {
      DealtAppends(a[1..], b);
      assert (a + b)[1..] == a[1..] + b;
    }
  }

  lemma {:induction false} TicksDealt(delay: nat, t: DamageType, amount: real, i: nat)
    requires i <= 6
    ensures Dealt(Ticks(delay, t, amount, i)) == amount * (6 - i) as real
    decreases 6 - i
  {
    if i < 6 {
      var rest := Ticks(delay, t, amount, i + 1);
      TicksDealt(delay, t, amount, i + 1);
      assert ([Hit(delay + i * 1000, t, amount)] + rest)[1..] == rest;
      OneMore(amount, 6 - (i + 1));
    }
  }

  lemma OneMore(amount: real, n: nat)
    ensures amount + amount * n as real == amount * (n + 1) as real
  {
    assert (n + 1) as real == n as real + 1.0;
  }

  lemma {:induction false} TicksAre(delay: nat, t: DamageType, amount: real, i: nat)
    requires i <= 6
    ensures |Ticks(delay, t, amount, i)| == 6 - i
    ensures forall k :: 0 <= k < 6 - i ==> Ticks(delay, t, amount, i)[k] == Hit(delay + (i + k) * 1000, t, amount)
    decreases 6 - i
  {
    if i < 6 {
      TicksAre(delay, t, amount, i + 1);
    }
  }

  lemma ScaledTotal(damage: real, rounds: nat, quantity: nat)
    ensures Times(Scaled(damage, rounds, quantity), quantity) == Times(damage, Min(rounds, quantity))
  {
    if rounds < quantity {
      var q, r := quantity as real, rounds as real;
      assert r / q * q == r;
      assert damage * (r / q) * q == damage * (r / q * q);
    }
  }

  lemma OneHit(h: Hit)
    ensures Dealt([h]) == h.amount
  {
    assert Dealt([h]) == h.amount + Dealt([]);
  }

  lemma SixShares(damage: real, rounds: nat)
    ensures TickShare(damage, rounds) * 6.0 == Times(damage, rounds)
    ensures TickShare(damage, rounds) + TickShare(damage, rounds) * 5.0 == Times(damage, rounds)
  {
  }

  /** The damage scheduled by a shot is the damage of one round times the rounds fired, at once or over time. */
  lemma ShotDeals(s: State, w: Weapon, quantity: nat, damage: real, delay: nat)
    requires w.category == Projectile || w.category == Missile
    ensures Dealt(Shot(s, w, quantity, damage, delay).hits)
         == Dealt(s.hits) + Times(damage, Min(s.loaded.count, quantity))
  {
    hide Scaled, Spent, Times, TickShare, Ticks, Dealt;
    var scaled := Scaled(damage, s.loaded.count, quantity);
    var t := Spent(s, w, quantity).ammoType;
    DealtAppends(s.hits, HitsOf(s, w, quantity, damage, delay));
    ScaledTotal(damage, s.loaded.count, quantity);
    if OverTime(t) {
      TicksDealt(delay, t, TickShare(scaled, quantity), 0);
      SixShares(scaled, quantity);
    } else {
      OneHit(Hit(delay, t, Times(scaled, quantity)));
    }
  }

  /** The scheduled damage is of the type of the ammunition left loaded after the shot, so it is of the type
      fired exactly when there was no reload or the next stack is of the same type. */
  lemma TypeOfNext(s: State, w: Weapon, quantity: nat, damage: real, delay: nat)
    requires w.category == Projectile || w.category == Missile
    ensures var added := HitsOf(s, w, quantity, damage, delay);
      var i := FirstStack(w, s.cargo, quantity);
      added != [] && (added[0].damageType == s.ammoType <==>
        s.loaded.count > quantity || i == |s.cargo| || s.cargo[i].damageType == s.ammoType)
  {
    hide FirstStack, Scaled, Ticks, TickShare, Times;
    TicksAre(delay, Spent(s, w, quantity).ammoType, TickShare(Scaled(damage, s.loaded.count, quantity), quantity), 0);
  }

  /** When and how the damage lands: over time in six equal parts, one a second from the delay on, otherwise at once. */
  lemma ShotLands(s: State, w: Weapon, quantity: nat, damage: real, delay: nat)
    requires w.category == Projectile || w.category == Missile
    ensures var r := Shot(s, w, quantity, damage, delay);
      var fired := if s.loaded.count < quantity then s.loaded.count else quantity;
      var t, all := r.ammoType, damage * fired as real;
      && s.hits <= r.hits
      && var added := r.hits[|s.hits|..];
         if t == Plasma || t == Chemical then
           |added| == 6 && forall k :: 0 <= k < 6 ==> added[k].delay == delay + k * 1000 && added[k].damageType == t
                                                       && added[k].amount * 6.0 == all
         else |added| == 1 && added[0].delay == delay && added[0].damageType == t && added[0].amount == all
  {
    hide Spent, Scaled, Ticks, TickShare, Times;
    var scaled := Scaled(damage, s.loaded.count, quantity);
    var t := Spent(s, w, quantity).ammoType;
    TicksAre(delay, t, TickShare(scaled, quantity), 0);
    ScaledTotal(damage, s.loaded.count, quantity);
    SixShares(scaled, quantity);
    var fired := if s.loaded.count < quantity then s.loaded.count else quantity;
    assert fired == Min(s.loaded.count, quantity);
    var all := damage * fired as real;
    TimesAre(damage, fired);
    assert Times(scaled, quantity) == all;
    var added := HitsOf(s, w, quantity, damage, delay);
    assert Shot(s, w, quantity, damage, delay).hits[|s.hits|..] == added;
    assert Shot(s, w, quantity, damage, delay).ammoType == t;
    if OverTime(t) {
      var each := TickShare(scaled, quantity);
      assert added == Ticks(delay, t, each, 0);
      assert each * 6.0 == all;
      forall k | 0 <= k < 6
        ensures added[k] == Hit(delay + k * 1000, t, each)
      {
        assert 0 + k == k;
      }
    } else {
      assert added == [Hit(delay, t, Times(scaled, quantity))];
    }
  }

  lemma TimesAre(damage: real, rounds: nat)
    ensures Times(damage, rounds) == damage * rounds as real
  {
  }

  lemma NonZeroProduct(x: real, y: real)
    requires x != 0.0 && y != 0.0
    ensures x * y != 0.0
  {
  }

  lemma TimesIs(damage: real, quantity: nat)
    ensures Times(damage, quantity) == damage <==> quantity == 1 || damage == 0.0
  {
    var more := quantity as real - 1.0;
    assert quantity as real == 1.0 + more;
    assert Times(damage, quantity) == damage + damage * more;
    if damage != 0.0 && more != 0.0 {
      NonZeroProduct(damage, more);
    }
  }

  /** A beam that deals damage at once ignores the quantity; over time it does not. */
  lemma BeamDeals(s: State, w: Weapon, quantity: nat, damage: real, delay: nat)
    requires w.category == Beam
    ensures Dealt(Shot(s, w, quantity, damage, delay).hits) - Dealt(s.hits)
         == if OverTime(w.beamType) then Times(damage, quantity) else damage
    ensures Dealt(Shot(s, w, quantity, damage, delay).hits) - Dealt(s.hits) == Times(damage, quantity) <==>
      OverTime(w.beamType) || quantity == 1 || damage == 0.0
  {
    hide Ticks, TickShare, Times;
    TimesIs(damage, quantity);
    var each := TickShare(damage, quantity);
    DealtAppends(s.hits, HitsOf(s, w, quantity, damage, delay));
    if OverTime(w.beamType) {
      DealtAppends([Hit(0, w.beamType, each)], Ticks(delay, w.beamType, each, 1));
      OneHit(Hit(0, w.beamType, each));
      TicksDealt(delay, w.beamType, each, 1);
      SixShares(damage, quantity);
    } else {
      OneHit(Hit(0, w.beamType, damage));
    }
  }

  /** A beam lands at once. Over time it deals its six parts at once and one to five seconds after the delay. */
  lemma BeamLands(s: State, w: Weapon, quantity: nat, damage: real, delay: nat)
    requires w.category == Beam
    ensures var r := Shot(s, w, quantity, damage, delay);
      && r == s.(hits := r.hits) && s.hits <= r.hits
      && var added := r.hits[|s.hits|..];
         if w.beamType == Plasma || w.beamType == Chemical then
           |added| == 6 && forall k :: 0 <= k < 6 ==> added[k].delay == (if k == 0 then 0 else delay + k * 1000)
                                                       && added[k].damageType == w.beamType
                                                       && added[k].amount == added[0].amount
         else |added| == 1 && added[0] == Hit(0, w.beamType, damage)
  {
    hide Ticks, TickShare;
    var each := TickShare(damage, quantity);
    TicksAre(delay, w.beamType, each, 1);
    var added := HitsOf(s, w, quantity, damage, delay);
    assert Shot(s, w, quantity, damage, delay).hits[|s.hits|..] == added;
    if OverTime(w.beamType) {
      forall k | 0 < k < 6
        ensures added[k] == Hit(delay + k * 1000, w.beamType, each)
      {
        assert added[k] == Ticks(delay, w.beamType, each, 1)[k - 1];
      }
    }
  }

  // ----- Whole engagements -----

  /** One pull of the trigger. The damage of a round is computed anew for each. */
  datatype Trigger = Trigger(quantity: nat, damage: real, delay: nat)

  function Engagement(s: State, w: Weapon, pulls: seq<Trigger>): State {
    if pulls == [] then s
    else
      var t := pulls[|pulls| - 1];
      Shot(Engagement(s, w, pulls[..|pulls| - 1]), w, t.quantity, t.damage, t.delay)
  }

  /** The rounds fired by the last pull. */
  function Fired(s: State, w: Weapon, pulls: seq<Trigger>): nat
    requires pulls != []
  {
    Min(Engagement(s, w, pulls[..|pulls| - 1]).loaded.count, pulls[|pulls| - 1].quantity)
  }

  /** The sum of rounds fired over all pulls. */
  function AllFired(s: State, w: Weapon, pulls: seq<Trigger>): nat {
    if pulls == [] then 0 else AllFired(s, w, pulls[..|pulls| - 1]) + Fired(s, w, pulls)
  }

  /** The sum over all pulls of the damage of a round times the rounds fired. */
  function AllDamage(s: State, w: Weapon, pulls: seq<Trigger>): real {
    if pulls == [] then 0.0
    else AllDamage(s, w, pulls[..|pulls| - 1]) + Times(pulls[|pulls| - 1].damage, Fired(s, w, pulls))
  }

  /** Over any engagement launcher and hold lose exactly the rounds fired, and the damage scheduled is exactly the sum of
      the damage of a round times the rounds fired, pull by pull. */
  lemma {:induction false} EveryRoundCounts(s: State, w: Weapon, pulls: seq<Trigger>)
    requires w.category == Projectile || w.category == Missile
    ensures var r := Engagement(s, w, pulls);
      && Rounds(s, w) - Rounds(r, w) == AllFired(s, w, pulls)
      && Dealt(r.hits) - Dealt(s.hits) == AllDamage(s, w, pulls)
  {
    hide Shot, Rounds, Dealt, Times;
    if pulls != [] {
      var front, t := pulls[..|pulls| - 1], pulls[|pulls| - 1];
      EveryRoundCounts(s, w, front);
      var s1 := Engagement(s, w, front);
      ShotSpends(s1, w, t.quantity, t.damage, t.delay);
      ShotDeals(s1, w, t.quantity, t.damage, t.delay);
    }
  }

  // ----- The code -----

  class Equipable {
    const weapon: Weapon
    var loaded: Item
    var ammoSet: bool
    var ammoType: DamageType
    var flags: set<Flag>
    const cargo: array<Item>
    var hits: seq<Hit>

    ghost function View(): State
      reads this, cargo
    {
      State(loaded, ammoSet, ammoType, flags, cargo[..], hits)
    }

    constructor (weapon: Weapon, cargo: array<Item>)
      ensures this.weapon == weapon && this.cargo == cargo
      ensures View() == State(EMPTY_ITEM, false, Impact, {}, cargo[..], [])
    {
      this.weapon, this.cargo := weapon, cargo;
      loaded, ammoSet, ammoType, flags, hits := EMPTY_ITEM, false, Impact, {}, [];
    }

    method Reload(quantity: nat) returns (ok: bool)
      modifies this`loaded, this`ammoSet, this`ammoType, cargo
      ensures View() == Reloaded(old(View()), weapon, quantity)
      ensures ok == (FirstStack(weapon, old(cargo[..]), quantity) < cargo.Length)
    {
      for i := 0 to cargo.Length
        invariant View() == old(View()) && forall k :: 0 <= k < i ==> !Reloads(weapon, cargo[k], quantity)
      {
        var item := cargo[i];
        if item.known && item.isAmmo && Fits(weapon, item) && item.count >= quantity {
          StackAt(weapon, cargo[..], quantity, i);
          loaded := item;
          cargo[i] := EMPTY_ITEM;
          ammoSet := true;
          ammoType := item.damageType;
          return true;
        }
      }
      NoStack(weapon, cargo[..], quantity);
      return false;
    }

    /** `damage` is what the shooter deals with one round; `present` says whether there is a target to hit. */
    method ShootAmmo(present: bool, quantity: nat, damage: real, delay: nat)
      modifies this, cargo
      ensures View() == if present then Shot(old(View()), weapon, quantity, damage, delay) else old(View())
    {
      hide FirstStack, Reloaded, Scaled, Ticks, TickShare, Times;
      if !present {
        return;
      }
      var total := damage;
      if weapon.category != Beam {
        total := Fire(quantity, damage);
      }
      if weapon.category == Beam {
        if OverTime(weapon.beamType) {
          hits := hits + [Hit(0, weapon.beamType, TickShare(total, quantity))];
          ScheduleTicks(delay, weapon.beamType, TickShare(total, quantity), 1);
        } else {
          hits := hits + [Hit(0, weapon.beamType, total)];
        }
      } else if weapon.category == Projectile || weapon.category == Missile {
        if OverTime(ammoType) {
          ScheduleTicks(delay, ammoType, TickShare(total, quantity), 0);
        } else {
          hits := hits + [Hit(delay, ammoType, Times(total, quantity))];
        }
      }
    }

    /** Takes the rounds, reloading when the last one goes. */
    method Fire(quantity: nat, damage: real) returns (total: real)
      modifies this`loaded, this`ammoSet, this`ammoType, this`flags, cargo
      ensures View() == Spent(old(View()), weapon, quantity)
      ensures total == Scaled(damage, old(loaded).count, quantity)
    {
      hide FirstStack;
      total := damage;
      var stackCount := loaded.count;
      if stackCount <= quantity {
        if stackCount < quantity {
          total := total * (stackCount as real / quantity as real);
        }
        var ok := Reload(quantity);
        if !ok {
          flags := flags + {NoAmmo};
          flags := flags + {NoTargeting};
          flags := flags + {Disabled};
          flags := flags - {AutoFire};
          loaded := EMPTY_ITEM;
          ammoSet := false;
          assert flags == old(flags) + {NoAmmo, NoTargeting, Disabled} - {AutoFire};
        }
      } else {
        loaded := loaded.(count := stackCount - quantity);
      }
    }

    method ScheduleTicks(delay: nat, t: DamageType, amount: real, first: nat)
      requires first <= 6
      modifies this`hits
      ensures hits == old(hits) + Ticks(delay, t, amount, first)
    {
      hide Ticks;
      for i := first to 6
        invariant hits + Ticks(delay, t, amount, i) == old(hits) + Ticks(delay, t, amount, first)
      {
        NextTick(delay, t, amount, i);
        hits := hits + [Hit(delay + i * 1000, t, amount)];
      }
      NextTick(delay, t, amount, 6);
    }
  }

  lemma NextTick(delay: nat, t: DamageType, amount: real, i: nat)
    requires i <= 6
    ensures Ticks(delay, t, amount, i) ==
      if i == 6 then [] else [Hit(delay + i * 1000, t, amount)] + Ticks(delay, t, amount, i + 1)
  {
  }

  lemma StackAt(w: Weapon, cargo: seq<Item>, quantity: nat, i: nat)
    requires i < |cargo| && Reloads(w, cargo[i], quantity)
    requires forall k :: 0 <= k < i ==> !Reloads(w, cargo[k], quantity)
    ensures FirstStack(w, cargo, quantity) == i
  {
    hide FirstStack;
    var j := FirstStack(w, cargo, quantity);
    assert j <= i;
  }

  lemma NoStack(w: Weapon, cargo: seq<Item>, quantity: nat)
    requires forall k :: 0 <= k < |cargo| ==> !Reloads(w, cargo[k], quantity)
    ensures FirstStack(w, cargo, quantity) == |cargo|
  {
    hide FirstStack;
    var j := FirstStack(w, cargo, quantity);
  }
}
