/** A mob's buffs, expiry index and linked shield list updated in place. Every method leaves the mob in the
    state the corresponding step names; buffs and shields remove each other through mutual recursion. */
module MobObject {
  import opened Mob
  import opened MobLaws
  import opened MobDamage
  import opened MobRuns

  /** A node of the damage shield list. */
  class DamageShield {
    var shield: Shield
    var next: DamageShield?

    constructor (shield: Shield, next: DamageShield?)
      ensures this.shield == shield && this.next == next
    {
      this.shield, this.next := shield, next;
    }
  }

  lemma FirstAt(shields: seq<Shield>, id: int, i: nat)
    requires i < |shields| && shields[i].id == id && forall k :: 0 <= k < i ==> shields[k].id != id
    ensures FirstShield(shields, id) == i
  {
    var k := FirstShield(shields, id);
    assert k <= i;
  }

  /** Each node leads to the next one, the last to none, and no node occurs twice. */
  ghost predicate Chained(nodes: seq<DamageShield>)
    reads nodes
  {
    && (forall i, j :: 0 <= i < j < |nodes| && j == i + 1 ==> nodes[i].next == nodes[j])
    && (nodes != [] ==> nodes[|nodes| - 1].next == null)
    && forall i, j :: 0 <= i < j < |nodes| ==> nodes[i] != nodes[j]
  }

  lemma SecondIsNext(nodes: seq<DamageShield>)
    requires Chained(nodes)
    ensures |nodes| > 1 ==> nodes[0].next == nodes[1]
  {
  }

  lemma ChainNext(nodes: seq<DamageShield>, i: nat)
    requires Chained(nodes) && i < |nodes|
    ensures nodes[i].next == if i + 1 < |nodes| then nodes[i + 1] else null
  {
  }

  ghost predicate Holds(nodes: seq<DamageShield>, shields: seq<Shield>)
    reads nodes
  {
    |nodes| == |shields| && forall i :: 0 <= i < |nodes| ==> nodes[i].shield == shields[i]
  }

  lemma HeldAt(nodes: seq<DamageShield>, shields: seq<Shield>, i: nat)
    requires Holds(nodes, shields) && i < |nodes|
    ensures |nodes| == |shields| && nodes[i].shield == shields[i]
  {
  }

  lemma WithoutEarlier(nodes: seq<DamageShield>, k: nat, i: nat)
    requires k <= i < |nodes|
    ensures var rest := Without(nodes, k);
      && |rest| == |nodes| - 1 && (i + 1 < |nodes| ==> rest[i] == nodes[i + 1])
      && forall j :: 0 <= j < |rest| ==> rest[j] in nodes
  {
  }

  /** Dropping a shield that is off the list does not look at the list. */
  lemma DroppedBeside(s: State, sh: Shield, shields: seq<Shield>)
    ensures ShieldDropped(s.(shields := shields), sh) == ShieldDropped(s, sh).(shields := shields)
  {
    hide StatEvents, EffectEvents, Cleared, Unindexed, HasStats;
  }

  /** A mob with the buffs it owns. */
  class CMob {
    var buffs: map<BuffId, Buff>
    var expireTimes: seq<Entry>
    var nextId: nat
    var panel: seq<Panel>
    var out: seq<Event>
    const isPlayer: bool
    var head: DamageShield?
    ghost var nodes: seq<DamageShield>
    ghost var shields: seq<Shield>

    /** The list from `head` is exactly `nodes`, without cycles, and holds `shields`. */
    ghost predicate Valid()
      reads this, nodes
    {
      |panel| == PANEL_SIZE && head == Node(0) && Chained(nodes) && Holds(nodes, shields)
    }

    ghost function Node(i: nat): DamageShield?
      reads this
    {
      if i < |nodes| then nodes[i] else null
    }

    ghost function View(): State
      reads this
    {
      State(buffs, expireTimes, nextId, panel, shields, out, isPlayer)
    }

    constructor (isPlayer: bool)
      ensures Valid() && View() == Initial(isPlayer) && nodes == []
    {
      buffs, expireTimes, nextId, out := map[], [], 0, [];
      panel := seq(PANEL_SIZE, _ => EMPTY_PANEL);
      this.isPlayer := isPlayer;
      head, nodes, shields := null, [], [];
    }

    // ----- The expiry index -----

    /** Goes after the last entry that is not later. */
    method InsertExpiry(e: Entry)
      modifies this`expireTimes
      ensures expireTimes == Inserted(old(expireTimes), e)
    {
      hide Inserted;
      var i := 0;
      ghost var index := expireTimes;
      while i < |expireTimes| && expireTimes[i].0 <= e.0
        invariant i <= |expireTimes| && expireTimes == index
        invariant index[..i] + Inserted(index[i..], e) == Inserted(index, e)
      {
        InsertedLater(index, i, e);
        i := i + 1;
      }
      InsertedHere(index[i..], e);
      expireTimes := expireTimes[..i] + [e] + expireTimes[i..];
    }

    method EraseExpiry(e: Entry)
      modifies this`expireTimes
      ensures expireTimes == Unindexed(old(expireTimes), e)
    {
      hide Unindexed;
      var i := 0;
      ghost var index := expireTimes;
      while i < |expireTimes|
        invariant i <= |expireTimes| && expireTimes == index
        invariant index[..i] + Unindexed(index[i..], e) == Unindexed(index, e)
      {
        UnindexedStep(index, i, e);
        if expireTimes[i] == e {
          expireTimes := expireTimes[..i] + expireTimes[i + 1..];
          return;
        }
        i := i + 1;
      }
      assert index[i..] == [];
      UnindexedNone(e);
    }

    // ----- Removing a buff -----

    method RemoveStats(stats: seq<int>) returns (removed: bool)
      modifies this`out
      ensures out == old(out) + StatEvents(stats) && removed == (StatEvents(stats) != [])
    {
      removed := false;
      for x := 0 to |stats|
        invariant out == old(out) + StatEvents(stats[..x]) && removed == (StatEvents(stats[..x]) != [])
      {
        assert stats[..x + 1][..x] == stats[..x];
        if stats[x] != 0 {
          out := out + [StatRemoved(stats[x])];
          removed := true;
        }
      }
      assert stats[..|stats|] == stats;
    }

    method RemoveEffects(effects: seq<int>)
      modifies this`out
      ensures out == old(out) + EffectEvents(effects)
    {
      for i := 0 to |effects|
        invariant out == old(out) + EffectEvents(effects[..i])
      {
        assert effects[..i + 1][..i] == effects[..i];
        if effects[i] != -1 {
          out := out + [EffectRemoved(effects[i])];
        }
      }
      assert effects[..|effects|] == effects;
    }

    method Strip(id: BuffId) returns (removed: bool)
      requires Valid() && id in buffs
      modifies this`out
      ensures Valid() && View() == Stripped(old(View()), buffs[id]) && removed == HasStats(buffs[id])
    {
      removed := RemoveStats(buffs[id].stats);
      RemoveEffects(buffs[id].effects);
    }

    /** Clears the panel slot, the index entry and the record of whatever the map now holds under `id`. */
    method CloseBuff(id: BuffId, force: bool, statsRemoved: bool)
      requires Valid() && id in buffs
      modifies this`buffs, this`expireTimes, this`panel, this`out
      ensures Valid() && View() == Closed(old(View()), id, old(buffs[id]), force, statsRemoved)
    {
      var b := buffs[id];
      var removedStat := statsRemoved;
      if isPlayer {
        if force || b.perm {
          if b.slot < PANEL_SIZE {
            panel := panel[b.slot := EMPTY_PANEL];
          }
          removedStat := true;
        }
        if removedStat {
          out := out + [PanelSent];
        }
      }
      if !b.perm {
        EraseExpiry((b.expire, id));
      }
      buffs := buffs - {id};
    }

    /** The shield goes first, and may take other buffs with it; the record is looked up again afterwards. */
    method RemoveOwnShield(id: BuffId)
      requires Valid() && id in buffs
      modifies this, nodes
      ensures Valid() && id in buffs
      ensures var s := ShieldRemoved(old(View()), old(buffs[id].absorb));
        View() == s.(buffs := Touched(s.buffs, id))
      ensures forall n <- nodes :: n in old(nodes)
      decreases 3, 0
    {
      hide ShieldRemoved, Chained, Holds;
      RemoveDamageShield(buffs[id].absorb);
      buffs := Touched(buffs, id);
    }

    method Update(id: BuffId, force: bool, skipShield: bool, tick: int)
      requires Valid()
      modifies this, if skipShield then [] else nodes
      ensures Valid() && View() == Updated(old(View()), id, force, skipShield, tick)
      ensures skipShield ==> head == old(head) && nodes == old(nodes)
      ensures forall n <- nodes :: n in old(nodes)
      decreases if skipShield then 0 else 3, 1
    {
      hide Stripped, Closed, ShieldRemoved, HasStats, Chained, Holds, Touched;
      if id in buffs && (force || (buffs[id].expire <= tick && !buffs[id].perm)) {
        var removedStat := Strip(id);
        if buffs[id].absorb != 0 && !skipShield {
          RemoveOwnShield(id);
        }
        CloseBuff(id, force, removedStat);
      }
    }

    // ----- The shield list -----

    method FindDamageShield(id: int) returns (found: DamageShield?)
      requires Valid()
      ensures found == Node(FirstShield(shields, id))
    {
      var current := head;
      ghost var i: nat := 0;
      while current != null
        invariant i <= |nodes| && current == Node(i)
        invariant forall k :: 0 <= k < i ==> shields[k].id != id
        decreases |nodes| - i
      {
        if current.shield.id == id {
          FirstAt(shields, id, i);
          return current;
        }
        current := current.next;
        i := i + 1;
      }
      return null;
    }

    /** What a node that leaves the list does to the buff it names. */
    method RemoveNode(node: DamageShield)
      requires Valid()
      modifies this
      ensures Valid() && View() == ShieldDropped(old(View()), old(node.shield))
      ensures head == old(head) && nodes == old(nodes)
      decreases 1, 0
    {
      hide Closed, Stripped;
      if node.shield.buffId != NO_BUFF {
        Update(node.shield.buffId, true, true, 0);
      }
    }

    /** Takes the node after `prev` out of the list. */
    method Unlink(prev: DamageShield?, current: DamageShield, ghost i: nat)
      requires Valid() && i < |nodes| && current == nodes[i] && prev == if i == 0 then null else nodes[i - 1]
      modifies this`head, this`nodes, this`shields, nodes
      ensures Valid() && nodes == Without(old(nodes), i) && shields == Without(old(shields), i)
      ensures forall n <- nodes :: n.shield == old(n.shield)
      ensures current.shield == old(current.shield)
    {
      if prev == null {
        head := current.next;
      } else {
        prev.next := current.next;
      }
      nodes := Without(nodes, i);
      shields := Without(shields, i);
    }

    /** The list is emptied only after its one node has removed its buff. */
    method RemoveOnly(current: DamageShield, ghost i: nat)
      requires Valid() && i < |nodes| && current == nodes[i] == head && current.next == null
      modifies this
      ensures Valid() && nodes == Without(old(nodes), i)
      ensures View() == ShieldDropped(old(View()).(shields := Without(old(shields), i)), old(shields)[i])
      decreases 1, 1
    {
      hide ShieldDropped;
      ghost var s := View();
      assert i == 0 && nodes[0] == current;
      SecondIsNext(nodes);
      assert Without(nodes, i) == [] && Without(shields, i) == [];
      RemoveNode(current);
      head, nodes, shields := null, [], [];
      DroppedBeside(s, s.shields[i], []);
    }

    method FindWithPrevious(id: int) returns (prev: DamageShield?, current: DamageShield?, ghost i: nat)
      requires Valid()
      ensures i == FirstShield(shields, id) <= |nodes| == |shields| && current == Node(i)
      ensures i < |shields| ==> current != null && current.shield == shields[i]
      ensures prev == if i == 0 then null else nodes[i - 1]
    {
      prev, current, i := null, head, 0;
      while current != null && current.shield.id != id
        invariant i <= |nodes| && current == Node(i) && prev == if i == 0 then null else nodes[i - 1]
        invariant forall k :: 0 <= k < i ==> shields[k].id != id
        decreases |nodes| - i
      {
        prev := current;
        current := current.next;
        i := i + 1;
      }
      if current != null {
        FirstAt(shields, id, i);
      }
    }

    method RemoveDamageShield(id: int)
      requires Valid()
      modifies this, nodes
      ensures Valid() && View() == ShieldRemoved(old(View()), id)
      ensures var i := FirstShield(old(shields), id);
        nodes == if i == |old(shields)| then old(nodes) else Without(old(nodes), i)
      decreases 2
    {
      hide ShieldDropped, Chained, Holds;
      var prev, current, i := FindWithPrevious(id);
      if current != null {
        if current.next == null && current == head {
          RemoveOnly(current, i);
        } else {
          Unlink(prev, current, i);
          RemoveNode(current);
        }
      }
    }

    method AddDamageShield(sh: Shield)
      requires Valid()
      modifies this, nodes
      ensures Valid() && View() == ShieldAdded(old(View()), sh)
    {
      hide ShieldRemoved;
      var found := FindDamageShield(sh.id);
      if found != null {
        RemoveDamageShield(sh.id);
      }
      PutFirst(sh.(hasCap := sh.cap > 0.0));
    }

    method PutFirst(sh: Shield)
      requires Valid()
      modifies this`head, this`nodes, this`shields
      ensures Valid() && shields == [sh] + old(shields)
    {
      var node := new DamageShield(sh, head);
      head := node;
      nodes := [node] + nodes;
      shields := [sh] + shields;
    }

    method ClearDamageShields(deleteOnly: bool)
      requires Valid()
      modifies this
      ensures Valid() && View() == ShieldsCleared(old(View()), deleteOnly)
    {
      hide ShieldDropped;
      var current := head;
      ghost var i: nat := 0;
      while current != null
        invariant Valid() && nodes == old(nodes) && i <= |nodes| && current == Node(i)
        invariant shields == old(shields)
        invariant if deleteOnly then View() == old(View())
                  else AllDropped(View(), shields[i..]) == AllDropped(old(View()), shields)
        decreases |nodes| - i
      {
        var next := current.next;
        if !deleteOnly {
          assert shields[i..][0] == current.shield && shields[i..][1..] == shields[i + 1..] by { ShieldHeld(i); }
          DroppedKeepsShields(View(), current.shield);
          RemoveNode(current);
        }
        current := next;
        i := i + 1;
      }
      head, nodes, shields := null, [], [];
    }

    lemma ShieldHeld(i: nat)
      requires Valid() && i < |nodes|
      ensures |nodes| == |shields| && nodes[i].shield == shields[i]
    {
    }

    // ----- A hit -----

    method Reflect(sh: Shield, hit: Hit, damage: real)
      modifies this`out
      ensures out == old(out) + ReflectEvents(hit, sh, damage)
    {
      hide Portion, Ceiling;
      if hit.fromSource && sh.reflectPct > 0.0 && !(hit.energyDamage && sh.id == ENVIRONMENTAL_BARRIER) {
        if Portion(damage, sh.reflectPct) > sh.reflectMax {
          out := out + [Reflected(sh.reflectMax)];
        } else {
          out := out + [Reflected(Ceiling(Portion(damage, sh.reflectPct)))];
        }
      }
    }

    method Energise(sh: Shield, hit: Hit, damage: real)
      modifies this`out
      ensures out == old(out) + ReactorEvents(hit, isPlayer, sh, damage)
    {
      hide Portion;
      if isPlayer && sh.reactorPct > 0.0 {
        var energy := Portion(damage, sh.reactorPct);
        if energy > sh.reactorMax {
          energy := sh.reactorMax;
        }
        out := out + [Energised(energy, false)];
        if sh.toGroup && hit.grouped {
          out := out + [Energised(energy, true)];
        }
      }
    }

    /** Reflection and energy come first, from the damage before absorption. */
    method React(current: DamageShield, hit: Hit, damage: real, ghost i: nat)
      requires Valid() && i < |nodes| == |shields| && current == nodes[i]
      modifies this`out
      ensures Valid() && View() == Reacted(old(View()), hit, i, damage)
    {
      hide ReflectEvents, ReactorEvents;
      Reflect(current.shield, hit, damage);
      Energise(current.shield, hit, damage);
    }

    /** Writes the capacitance of one node. */
    method SetCapacitance(current: DamageShield, cap: real, ghost i: nat)
      requires Valid() && i < |nodes| && current == nodes[i]
      modifies current`shield, this`shields
      ensures Valid() && shields == old(shields)[i := old(shields)[i].(cap := cap)]
    {
      shields := shields[i := shields[i].(cap := cap)];
      current.shield := current.shield.(cap := cap);
    }

    /** The used-up shield goes; the loop goes on with the node after it. */
    method DropUsedUp(current: DamageShield, ghost i: nat) returns (next: DamageShield?)
      requires Valid() && i < |nodes| && current == nodes[i]
      requires current.shield.cap == 0.0
      modifies this, nodes
      ensures Valid() && View() == WithoutUsedUp(old(View()), i)
      ensures i <= |nodes| == |old(nodes)| - 1 && next == Node(i) && forall k :: 0 <= k < |nodes| ==> nodes[k] in old(nodes)
    {
      hide ShieldRemoved, Chained, Holds, Without;
      ChainNext(nodes, i);
      HeldAt(nodes, shields, i);
      next := current.next;
      FirstIsEarliest(shields, i);
      assert shields == shields[i := shields[i].(cap := 0.0)];
      WithoutEarlier(nodes, FirstShield(shields, shields[i].id), i);
      RemoveDamageShield(current.shield.id);
    }

    /** One turn of the shield loop. */
    method ShieldTurn(current: DamageShield, hit: Hit, damage: real, ghost i: nat)
      returns (next: DamageShield?, left: real, ghost j: nat)
      requires Valid() && i < |nodes| == |shields| && current == nodes[i]
      modifies this, nodes
      ensures Valid() && j <= |nodes| == |shields| && next == Node(j) && |nodes| - j < |old(nodes)| - i
      ensures forall k :: 0 <= k < |nodes| ==> nodes[k] in old(nodes)
      ensures Absorbed(View(), hit, j, left) == Absorbed(old(View()), hit, i, damage)
    {
      hide Reacted, WithoutUsedUp, Absorbed, Chained;
      left := damage;
      ghost var s := View();
      React(current, hit, damage, i);
      ghost var s1 := View();
      AbsorbedStep(s, hit, i, damage);
      if current.shield.hasCap && current.shield.cap != 0.0 {
        if current.shield.cap > left {
          SetCapacitance(current, current.shield.cap - left, i);
          left := 0.0;
        } else {
          left := left - current.shield.cap;
          SetCapacitance(current, 0.0, i);
          UsedUpTwice(s1, i);
          next := DropUsedUp(current, i);
          j := i;
          return;
        }
      } else if current.shield.hasCap && current.shield.cap <= 0.0 {
        next := DropUsedUp(current, i);
        j := i;
        return;
      }
      ChainNext(nodes, i);
      next := current.next;
      j := i + 1;
    }

    method CommonDamageHandling(hit: Hit, amount: real) returns (damage: real)
      requires Valid()
      modifies this, nodes
      ensures Valid() && (View(), damage) == Absorbed(old(View()), hit, 0, amount)
    {
      hide Absorbed, Chained;
      damage := amount;
      var current := head;
      ghost var i: nat := 0;
      while current != null
        invariant Valid() && i <= |nodes| == |shields| && current == Node(i)
        invariant forall k :: 0 <= k < |nodes| ==> nodes[k] in old(nodes)
        invariant Absorbed(View(), hit, i, damage) == Absorbed(old(View()), hit, 0, amount)
        decreases |nodes| - i
      {
        current, damage, i := ShieldTurn(current, hit, damage, i);
      }
      AbsorbedEnd(View(), hit, i, damage);
    }

    // ----- Adding and refreshing -----

    method FindFreeSpot(tick: int) returns (slot: nat)
      requires Valid()
      ensures slot == FreeSlot(panel, tick)
    {
      slot := 0;
      while slot < PANEL_SIZE
        invariant slot <= PANEL_SIZE && FirstFree(panel, tick) == slot + FirstFree(panel[slot..], tick)
      {
        assert panel[slot..][0] == panel[slot] && panel[slot..][1..] == panel[slot + 1..];
        if !panel[slot].perm && panel[slot].removal < tick {
          return;
        }
        slot := slot + 1;
      }
      slot := 0;
    }

    /** `given` are the handles the effect system returns. */
    method StartEffects(id: BuffId, wanted: seq<int>, given: seq<int>)
      requires Valid() && id in buffs && |wanted| == |given| == |buffs[id].effects|
      modifies this`buffs, this`out
      ensures Valid() && out == old(out) + EffectsAdded(wanted)
      ensures buffs == old(buffs)[id := old(buffs[id]).(effects := Handles(wanted, given))]
    {
      hide Chained, Holds;
      ghost var h := buffs[id].effects;
      for i := 0 to |wanted|
        invariant Valid() && out == old(out) + EffectsAdded(wanted[..i])
        invariant |h| == |wanted| && forall k :: 0 <= k < i ==> h[k] == Handles(wanted, given)[k]
        invariant buffs == old(buffs)[id := old(buffs[id]).(effects := h)]
      {
        assert wanted[..i + 1][..i] == wanted[..i];
        var handle := -1;
        if wanted[i] != -1 {
          out := out + [EffectAdded(wanted[i])];
          handle := given[i];
        }
        h := h[i := handle];
        buffs := buffs[id := buffs[id].(effects := buffs[id].effects[i := handle])];
      }
      assert wanted[..|wanted|] == wanted;
      assert h == Handles(wanted, given);
    }

    /** `given` are the handles the stat system returns. */
    method ApplyStats(id: BuffId, wanted: seq<string>, given: seq<int>)
      requires Valid() && id in buffs && |wanted| == |given| == |buffs[id].stats|
      modifies this`buffs, this`out
      ensures Valid() && out == old(out) + StatsAdded(wanted)
      ensures buffs == old(buffs)[id := old(buffs[id]).(stats := StatHandles(wanted, given))]
    {
      hide Chained, Holds;
      ghost var h := buffs[id].stats;
      for i := 0 to |wanted|
        invariant Valid() && out == old(out) + StatsAdded(wanted[..i])
        invariant |h| == |wanted| && forall k :: 0 <= k < i ==> h[k] == StatHandles(wanted, given)[k]
        invariant buffs == old(buffs)[id := old(buffs[id]).(stats := h)]
      {
        assert wanted[..i + 1][..i] == wanted[..i];
        var handle := 0;
        if wanted[i] != "" {
          out := out + [StatAdded(wanted[i])];
          handle := given[i];
        }
        h := h[i := handle];
        buffs := buffs[id := buffs[id].(stats := buffs[id].stats[i := handle])];
      }
      assert wanted[..|wanted|] == wanted;
      assert h == StatHandles(wanted, given);
    }

    /** Puts a new buff on the client's panel. */
    method Display(id: BuffId, r: Request, slot: nat)
      requires Valid() && id in buffs && slot < PANEL_SIZE
      modifies this`buffs, this`panel, this`out
      ensures Valid() && out == old(out) + [PanelSent]
      ensures panel == old(panel)[slot := Panel(r.perm, r.expire, r.kind)]
      ensures buffs == old(buffs)[id := old(buffs[id]).(shown := Panel(r.perm, r.expire, r.kind), slot := slot)]
    {
      var shown := Panel(r.perm, r.expire, r.kind);
      buffs := buffs[id := buffs[id].(shown := shown)];
      buffs := buffs[id := buffs[id].(slot := slot)];
      panel := panel[slot := shown];
      out := out + [PanelSent];
    }

    /** Copies the request in and starts its effects and stats. */
    method Record(id: BuffId, r: Request, effects: seq<int>, stats: seq<int>)
      requires Valid() && WellFormed(r) && |effects| == 5 && |stats| == 20
      modifies this`buffs, this`out
      ensures Valid() && out == old(out) + EffectsAdded(r.effects) + StatsAdded(r.stats)
      ensures buffs == old(buffs)[id := Buff(r.kind, r.absorb, r.perm, r.expire, Handles(r.effects, effects),
                                             StatHandles(r.stats, stats), 0, EMPTY_PANEL)]
    {
      hide Handles, StatHandles, EffectsAdded, StatsAdded, Chained, Holds;
      buffs := buffs[id := Zeroed().(kind := r.kind, absorb := r.absorb, perm := r.perm, expire := r.expire)];
      StartEffects(id, r.effects, effects);
      ApplyStats(id, r.stats, stats);
    }

    method AddBuff(r: Request, effects: seq<int>, stats: seq<int>, tick: int) returns (id: nat)
      requires Valid() && WellFormed(r) && |effects| == 5 && |stats| == 20
      modifies this`buffs, this`expireTimes, this`nextId, this`panel, this`out
      ensures Valid() && View() == Added(old(View()), r, effects, stats, tick) && id == old(nextId)
    {
      hide Handles, StatHandles, EffectsAdded, StatsAdded, Inserted, Chained, Holds;
      id := nextId;
      var slot: nat := 0;
      if isPlayer {
        slot := FindFreeSpot(tick);
      }
      Record(id, r, effects, stats);
      if isPlayer {
        Display(id, r, slot);
      }
      if !r.perm {
        InsertExpiry((r.expire, id));
      }
      nextId := nextId + 1;
    }

    method Refresh(id: BuffId, r: Request)
      requires Valid() && id in buffs
      modifies this`buffs, this`expireTimes, this`panel, this`out
      ensures Valid() && View() == Refreshed(old(View()), id, r)
    {
      hide Inserted, Unindexed, Chained, Holds;
      ghost var s := View();
      Reschedule(id, r);
      if isPlayer {
        buffs := buffs[id := buffs[id].(shown := buffs[id].shown.(removal := r.expire, perm := r.perm))];
        ShowSlot(buffs[id]);
        out := out + [PanelSent];
        assert View().buffs == Refreshed(s, id, r).buffs;
      }
    }

    /** The new expiry time, in the record and in the index. */
    method Reschedule(id: BuffId, r: Request)
      requires Valid() && id in buffs
      modifies this`buffs, this`expireTimes
      ensures Valid() && buffs == old(buffs)[id := old(buffs)[id].(expire := r.expire, perm := r.perm)]
      ensures var b := old(buffs)[id];
        var index := if b.perm then old(expireTimes) else Unindexed(old(expireTimes), (b.expire, id));
        expireTimes == if r.perm then index else Inserted(index, (r.expire, id))
    {
      hide Inserted, Unindexed, Chained, Holds;
      if !buffs[id].perm {
        EraseExpiry((buffs[id].expire, id));
      }
      buffs := buffs[id := buffs[id].(expire := r.expire, perm := r.perm)];
      if !r.perm {
        InsertExpiry((r.expire, id));
      }
    }

    /** Puts a buff's display record into its slot of the panel. */
    method ShowSlot(b: Buff)
      requires Valid()
      modifies this`panel
      ensures Valid() && panel == if b.slot < PANEL_SIZE then old(panel)[b.slot := b.shown] else old(panel)
    {
      hide Chained, Holds;
      if b.slot < PANEL_SIZE {
        panel := panel[b.slot := b.shown];
      }
    }

    /** Looks through the buffs in the order of their ids. */
    method RefreshOrAddBuff(r: Request, effects: seq<int>, stats: seq<int>, tick: int) returns (id: BuffId)
      requires Valid() && WellFormed(r) && |effects| == 5 && |stats| == 20
      modifies this`buffs, this`expireTimes, this`nextId, this`panel, this`out
      ensures Valid() && View() == RefreshedOrAdded(old(View()), r, effects, stats, tick)
      ensures var ids := RefreshableIds(old(buffs), r.kind, tick);
        id == if ids == {} then old(nextId) else LeastId(ids)
    {
      hide Added, Refreshed, Chained, Holds;
      var rest := buffs.Keys;
      while rest != {}
        invariant Valid() && View() == old(View())
        invariant RefreshableIds(buffs, r.kind, tick) <= rest <= buffs.Keys
        decreases |rest|
      {
        id := LeastId(rest);
        if Refreshable(buffs[id], r.kind, tick) {
          LeastIs(rest, RefreshableIds(buffs, r.kind, tick), id);
          Refresh(id, r);
          return;
        }
        rest := rest - {id};
      }
      id := AddBuff(r, effects, stats, tick);
    }

    method RemoveBuff(kind: string, tick: int) returns (found: bool)
      requires Valid()
      modifies this, nodes
      ensures Valid() && View() == RemovedByName(old(View()), kind, tick)
      ensures found == (NamedIds(old(buffs), kind) != {})
    {
      hide Updated, Chained, Holds;
      var rest := buffs.Keys;
      while rest != {}
        invariant Valid() && View() == old(View()) && nodes == old(nodes)
        invariant NamedIds(buffs, kind) <= rest <= buffs.Keys
        decreases |rest|
      {
        var id := LeastId(rest);
        if buffs[id].kind == kind {
          LeastIs(rest, NamedIds(buffs, kind), id);
          Update(id, true, false, tick);
          return true;
        }
        rest := rest - {id};
      }
      return false;
    }

    // ----- Clearing, changing sector, expiry -----

    method Clear(tick: int)
      requires Valid() && Inv(View())
      modifies this, nodes
      ensures Valid() && View() == AllCleared(old(View()), tick)
    {
      hide Updated, Inv, Chained, Holds;
      while |buffs| > 0
        invariant Valid() && Inv(View()) && BuffsRemoved(View(), tick) == BuffsRemoved(old(View()), tick)
        invariant forall k :: 0 <= k < |nodes| ==> nodes[k] in old(nodes)
        decreases |buffs|
      {
        LowestGoes(View(), tick);
        UpdateInTurn(LeastId(buffs.Keys), tick);
      }
      expireTimes := [];
      buffs := map[];
    }

    method UpdateInTurn(id: BuffId, tick: int)
      requires Valid()
      modifies this, nodes
      ensures Valid() && View() == Updated(old(View()), id, true, false, tick)
      ensures forall k :: 0 <= k < |nodes| ==> nodes[k] in old(nodes)
    {
      hide Updated;
      Update(id, true, false, tick);
      assert forall k :: 0 <= k < |nodes| ==> nodes[k] in nodes;
    }

    method CheckBuffExpire(now: int, tick: int)
      requires Valid() && Inv(View())
      modifies this, nodes
      ensures Valid() && View() == Expired(old(View()), now, tick)
    {
      hide Updated, Inv, Chained, Holds;
      while |expireTimes| > 0 && expireTimes[0].0 <= now
        invariant Valid() && Inv(View()) && Expired(View(), now, tick) == Expired(old(View()), now, tick)
        invariant forall k :: 0 <= k < |nodes| ==> nodes[k] in old(nodes)
        decreases |expireTimes|
      {
        HeadGoes(View(), tick);
        UpdatedExact(View(), expireTimes[0].1, true, false, tick);
        UpdateInTurn(expireTimes[0].1, tick);
      }
    }

    method ChangeSector(tick: int)
      requires Valid()
      modifies this`buffs, this`panel, this`out
      ensures Valid() && View() == SectorChanged(old(View()), tick)
    {
      hide Chained, Holds, Redisplayed;
      if isPlayer {
        RedisplayedNone(View(), tick);
        for i := 0 to PANEL_SIZE
          invariant Valid() && View() == Redisplayed(old(View()), i, tick)
        {
          ShowAgain(old(View()), i, tick);
        }
        out := out + [PanelSent];
      }
    }

    /** Shows the buff with id `i` again, creating a zero record if there is none. */
    method ShowAgain(ghost s: State, i: nat, tick: int)
      requires Valid() && i < PANEL_SIZE && View() == Redisplayed(s, i, tick)
      modifies this`buffs, this`panel
      ensures Valid() && View() == Redisplayed(s, i + 1, tick)
    {
      hide Chained, Holds;
      buffs := Touched(buffs, i);
      if buffs[i].shown.perm || buffs[i].shown.removal > tick {
        if buffs[i].slot < PANEL_SIZE {
          panel := panel[buffs[i].slot := EMPTY_PANEL];
        }
        ShowSlot(buffs[i]);
      }
    }
  }

  lemma RedisplayedNone(s: State, tick: int)
    ensures Redisplayed(s, 0, tick) == s
  {
  }

  lemma InsertedLater(index: seq<Entry>, i: nat, e: Entry)
    requires i < |index| && index[i].0 <= e.0
    ensures index[..i + 1] + Inserted(index[i + 1..], e) == index[..i] + Inserted(index[i..], e)
  {
    var rest := index[i..];
    assert rest[0] == index[i] && rest[1..] == index[i + 1..];
    assert Inserted(rest, e) == [index[i]] + Inserted(index[i + 1..], e);
    hide Inserted;
    assert index[..i + 1] == index[..i] + [index[i]];
  }

  lemma UnindexedStep(index: seq<Entry>, i: nat, e: Entry)
    requires i < |index|
    ensures index[i] == e ==> Unindexed(index[i..], e) == index[i + 1..]
    ensures index[i] != e ==>
      index[..i + 1] + Unindexed(index[i + 1..], e) == index[..i] + Unindexed(index[i..], e)
  {
    var rest := index[i..];
    assert rest[0] == index[i] && rest[1..] == index[i + 1..];
    assert index[i] != e ==> Unindexed(rest, e) == [index[i]] + Unindexed(index[i + 1..], e);
    hide Unindexed;
    assert index[..i + 1] == index[..i] + [index[i]];
  }

  lemma UnindexedNone(e: Entry)
    ensures Unindexed([], e) == []
  {
  }

  lemma InsertedHere(index: seq<Entry>, e: Entry)
    requires index != [] ==> e.0 < index[0].0
    ensures Inserted(index, e) == [e] + index
  {
  }

  lemma LeastIs(all: set<BuffId>, some: set<BuffId>, id: BuffId)
    requires id in some && some <= all && id == LeastId(all)
    ensures id == LeastId(some)
  {
    var k := LeastId(some);
    assert k <= id <= k;
  }

  lemma AbsorbedEnd(s: State, hit: Hit, i: nat, damage: real)
    requires i == |s.shields|
    ensures Absorbed(s, hit, i, damage) == (s, damage)
  {
  }
}
