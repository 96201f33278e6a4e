/** Buffs, the expiry index over them, the client's buff panel and the damage shields of one mob, as steps on
    one value. Stat, effect, reflection and display calls are output events. */
module Mob {
  const PANEL_SIZE: nat := 16

  /** Buff ids count up from 0; -1 stands for none. */
  type BuffId = x: int | -1 <= x witness 0

  const NO_BUFF: BuffId := -1

  /** What one slot of the client's buff panel shows. */
  datatype Panel = Panel(perm: bool, removal: int, kind: string)

  const EMPTY_PANEL: Panel := Panel(false, 0, "")

  /** A buff on record, with the handles to take back on removal. */
  datatype Buff = Buff(kind: string, absorb: int, perm: bool, expire: int,
                       effects: seq<int>, stats: seq<int>, slot: nat, shown: Panel)

  /** The zero record the map's index operator creates for a missing key. */
  function Zeroed(): Buff {
    Buff("", 0, false, 0, [0, 0, 0, 0, 0], [0, 0, 0, 0, 0, 0, 0, 0, 0, 0, 0, 0, 0, 0, 0, 0, 0, 0, 0, 0],
         0, EMPTY_PANEL)
  }

  datatype Shield = Shield(id: int, level: int, buffId: BuffId, hasCap: bool, cap: real,
                           reflectPct: real, reflectMax: real, reactorPct: real, reactorMax: real, toGroup: bool)

  datatype Event =
    | EffectAdded(effect: int) | EffectRemoved(handle: int)
    | StatAdded(name: string) | StatRemoved(handle: int)
    | PanelSent | Reflected(amount: real) | Energised(amount: real, group: bool)

  type Entry = (int, BuffId)  // expiry time, buff id

  datatype State = State(buffs: map<BuffId, Buff>, index: seq<Entry>, nextId: nat, panel: seq<Panel>,
                         shields: seq<Shield>, out: seq<Event>, isPlayer: bool)

  // ----- The expiry index: a multimap ordered by time, insertion order among equals -----

  function Inserted(index: seq<Entry>, e: Entry): seq<Entry> {
    if index == [] || e.0 < index[0].0 then [e] + index else [index[0]] + Inserted(index[1..], e)
  }

  /** Erases the first entry equal to `e`, if any. */
  function Unindexed(index: seq<Entry>, e: Entry): seq<Entry> {
    if index == [] then [] else if index[0] == e then index[1..] else [index[0]] + Unindexed(index[1..], e)
  }

  // ----- Removing a buff -----

  function Touched(m: map<BuffId, Buff>, id: BuffId): map<BuffId, Buff> { if id in m then m else m[id := Zeroed()] }

  function StatEvents(stats: seq<int>): seq<Event> {
    if stats == [] then []
    else StatEvents(stats[..|stats| - 1])
         + if stats[|stats| - 1] != 0 then [StatRemoved(stats[|stats| - 1])] else []
  }

  function EffectEvents(effects: seq<int>): seq<Event> {
    if effects == [] then []
    else EffectEvents(effects[..|effects| - 1])
         + if effects[|effects| - 1] != -1 then [EffectRemoved(effects[|effects| - 1])] else []
  }

  predicate HasStats(b: Buff) { StatEvents(b.stats) != [] }

  function Cleared(panel: seq<Panel>, slot: nat): seq<Panel> {
    if slot < |panel| && slot < PANEL_SIZE then panel[slot := EMPTY_PANEL] else panel
  }

  /** The end of a removal: the client's panel, the index entry, the record. `b` is what the map's index
      operator finds at that point. */
  function Closed(s: State, id: BuffId, b: Buff, force: bool, removedStat: bool): State {
    var onPanel := s.isPlayer && (force || b.perm);
    s.(panel := if onPanel then Cleared(s.panel, b.slot) else s.panel,
       out := s.out + if s.isPlayer && (onPanel || removedStat) then [PanelSent] else [],
       index := if b.perm then s.index else Unindexed(s.index, (b.expire, id)),
       buffs := s.buffs - {id})
  }

  function Stripped(s: State, b: Buff): State {
    s.(out := s.out + StatEvents(b.stats) + EffectEvents(b.effects))
  }

  /** Removal without looking at shields: the form a shield uses on its own buff. */
  function RemovedPlain(s: State, id: BuffId, force: bool): State {
    if id !in s.buffs then s
    else
      var b := s.buffs[id];
      Closed(Stripped(s, b), id, b, force, HasStats(b))
  }

  // ----- Shields -----

  /** Position of the first shield with this id, or the length of the list. */
  function FirstShield(shields: seq<Shield>, id: int): (i: nat)
    ensures i <= |shields| && (i < |shields| ==> shields[i].id == id)
    ensures forall k :: 0 <= k < i ==> shields[k].id != id
  {
    if shields == [] || shields[0].id == id then 0 else 1 + FirstShield(shields[1..], id)
  }

  function Without<T>(xs: seq<T>, i: nat): seq<T>
    requires i < |xs|
  {
    xs[..i] + xs[i + 1..]
  }

  /** A shield taken off the list removes the buff it names. */
  function ShieldDropped(s: State, sh: Shield): State {
    if sh.buffId == NO_BUFF then s else RemovedPlain(s, sh.buffId, true)
  }

  function ShieldRemoved(s: State, id: int): State {
    var i := FirstShield(s.shields, id);
    if i == |s.shields| then s
    else ShieldDropped(s.(shields := Without(s.shields, i)), s.shields[i])
  }

  function ShieldAdded(s: State, sh: Shield): State {
    var s1 := if FirstShield(s.shields, sh.id) < |s.shields| then ShieldRemoved(s, sh.id) else s;
    s1.(shields := [sh.(hasCap := sh.cap > 0.0)] + s1.shields)
  }

  function AllDropped(s: State, shields: seq<Shield>): State
    decreases |shields|
  {
    if shields == [] then s else AllDropped(ShieldDropped(s, shields[0]), shields[1..])
  }

  function ShieldsCleared(s: State, deleteOnly: bool): State {
    (if deleteOnly then s else AllDropped(s, s.shields)).(shields := [])
  }

  // ----- Updating a buff -----

  predicate Due(b: Buff, tick: int) { b.expire <= tick && !b.perm }

  /** Removes a buff that is due or is being forced out, its shield first. Removing the shield may remove the
      buff itself; the code then goes on with a zero record. */
  function Updated(s: State, id: BuffId, force: bool, skipShield: bool, tick: int): State {
    if id !in s.buffs || !(force || Due(s.buffs[id], tick)) then s
    else if skipShield || s.buffs[id].absorb == 0 then RemovedPlain(s, id, force)
    else
      var b := s.buffs[id];
      var s1 := ShieldRemoved(Stripped(s, b), b.absorb);
      var s2 := s1.(buffs := Touched(s1.buffs, id));
      Closed(s2, id, s2.buffs[id], force, HasStats(b))
  }

  // ----- Adding and refreshing -----

  /** A buff as the caller asks for it. */
  datatype Request = Request(kind: string, absorb: int, perm: bool, expire: int,
                             effects: seq<int>, stats: seq<string>)

  predicate WellFormed(r: Request) { |r.effects| == 5 && |r.stats| == 20 }

  /** First panel slot whose display has run out; slot 0 if there is none. */
  function FreeSlot(panel: seq<Panel>, tick: int): (i: nat)
    ensures panel != [] ==> i < |panel|
  {
    var i := FirstFree(panel, tick);
    if i < |panel| then i else 0
  }

  function FirstFree(panel: seq<Panel>, tick: int): (i: nat)
    ensures i <= |panel|
  {
    if panel == [] || (!panel[0].perm && panel[0].removal < tick) then 0 else 1 + FirstFree(panel[1..], tick)
  }

  function Handles(effects: seq<int>, given: seq<int>): (h: seq<int>)
    requires |effects| == |given|
    ensures |h| == |effects|
  {
    seq(|effects|, i requires 0 <= i < |effects| => if effects[i] != -1 then given[i] else -1)
  }

  function StatHandles(stats: seq<string>, given: seq<int>): (h: seq<int>)
    requires |stats| == |given|
    ensures |h| == |stats|
  {
    seq(|stats|, i requires 0 <= i < |stats| => if stats[i] != "" then given[i] else 0)
  }

  function EffectsAdded(effects: seq<int>): seq<Event> {
    if effects == [] then []
    else EffectsAdded(effects[..|effects| - 1])
         + if effects[|effects| - 1] != -1 then [EffectAdded(effects[|effects| - 1])] else []
  }

  function StatsAdded(stats: seq<string>): seq<Event> {
    if stats == [] then []
    else StatsAdded(stats[..|stats| - 1])
         + if stats[|stats| - 1] != "" then [StatAdded(stats[|stats| - 1])] else []
  }

  /** `effects` and `stats` are the handles the stat and effect systems return. */
  function Added(s: State, r: Request, effects: seq<int>, stats: seq<int>, tick: int): State
    requires WellFormed(r) && |effects| == 5 && |stats| == 20 && |s.panel| == PANEL_SIZE
  {
    var slot := if s.isPlayer then FreeSlot(s.panel, tick) else 0;
    var shown := if s.isPlayer then Panel(r.perm, r.expire, r.kind) else EMPTY_PANEL;
    var b := Buff(r.kind, r.absorb, r.perm, r.expire, Handles(r.effects, effects), StatHandles(r.stats, stats),
                  slot, shown);
    s.(buffs := s.buffs[s.nextId := b],
       panel := if s.isPlayer then s.panel[slot := shown] else s.panel,
       out := s.out + EffectsAdded(r.effects) + StatsAdded(r.stats) + if s.isPlayer then [PanelSent] else [],
       index := if r.perm then s.index else Inserted(s.index, (r.expire, s.nextId)),
       nextId := s.nextId + 1)
  }

  predicate Refreshable(b: Buff, kind: string, tick: int) { b.kind == kind && (b.expire > tick || b.perm) }

  function RefreshableIds(buffs: map<BuffId, Buff>, kind: string, tick: int): set<BuffId> {
    set id | id in buffs && Refreshable(buffs[id], kind, tick)
  }

  function NamedIds(buffs: map<BuffId, Buff>, kind: string): set<BuffId> {
    set id | id in buffs && buffs[id].kind == kind
  }

  function Refreshed(s: State, id: BuffId, r: Request): State
    requires id in s.buffs
  {
    var b := s.buffs[id];
    var index := if b.perm then s.index else Unindexed(s.index, (b.expire, id));
    var b' := b.(expire := r.expire, perm := r.perm,
                 shown := if s.isPlayer then b.shown.(removal := r.expire, perm := r.perm) else b.shown);
    s.(buffs := s.buffs[id := b'],
       index := if r.perm then index else Inserted(index, (r.expire, id)),
       panel := if s.isPlayer && b.slot < |s.panel| then s.panel[b.slot := b'.shown] else s.panel,
       out := s.out + if s.isPlayer then [PanelSent] else [])
  }

  /** The lowest id, as the map is ordered. */
  lemma Lowest(ids: set<BuffId>) returns (k: BuffId)
    requires ids != {}
    ensures k in ids && forall j <- ids :: k <= j
  {
    k :| k in ids;
    var rest := ids - {k};
    assert forall j <- ids :: j == k || j in rest;
    if rest != {} {
      var l := Lowest(rest);
      k := if k <= l then k else l;
    }
  }

  lemma LeastExists(ids: set<BuffId>)
    requires ids != {}
    ensures exists k :: k in ids && forall j <- ids :: k <= j
  {
    var k := Lowest(ids);
  }

  function LeastId(ids: set<BuffId>): (k: BuffId)
    requires ids != {}
    ensures k in ids && forall j <- ids :: k <= j
  {
    LeastExists(ids);
    var k :| k in ids && forall j <- ids :: k <= j;
    k
  }

  function RefreshedOrAdded(s: State, r: Request, effects: seq<int>, stats: seq<int>, tick: int): State
    requires WellFormed(r) && |effects| == 5 && |stats| == 20 && |s.panel| == PANEL_SIZE
  {
    var ids := RefreshableIds(s.buffs, r.kind, tick);
    if ids == {} then Added(s, r, effects, stats, tick) else Refreshed(s, LeastId(ids), r)
  }

  function RemovedByName(s: State, kind: string, tick: int): State {
    var ids := NamedIds(s.buffs, kind);
    if ids == {} then s else Updated(s, LeastId(ids), true, false, tick)
  }

  /** Shows again every displayed buff. Looking up ids 0 to 15 leaves a zero record for each missing one. */
  function Redisplayed(s: State, n: nat, tick: int): State
    requires n <= PANEL_SIZE
  {
    if n == 0 then s
    else
      var s1 := Redisplayed(s, n - 1, tick);
      var buffs := Touched(s1.buffs, n - 1);
      var b := buffs[n - 1];
      s1.(buffs := buffs,
          panel := if (b.shown.perm || b.shown.removal > tick) && b.slot < |s1.panel|
                   then s1.panel[b.slot := b.shown] else s1.panel)
  }

  function SectorChanged(s: State, tick: int): State {
    if !s.isPlayer then s
    else
      var s1 := Redisplayed(s, PANEL_SIZE, tick);
      s1.(out := s1.out + [PanelSent])
  }

  // ----- Damage -----

  const ENVIRONMENTAL_BARRIER: int := 44

  /** What the shields need to know of a hit. */
  datatype Hit = Hit(fromSource: bool, energyDamage: bool, grouped: bool)

  function Ceiling(x: real): real { (-((-x).Floor)) as real }

  function Portion(damage: real, pct: real): real { damage * pct }

  function ReflectEvents(hit: Hit, sh: Shield, damage: real): seq<Event> {
    if hit.fromSource && sh.reflectPct > 0.0 && !(hit.energyDamage && sh.id == ENVIRONMENTAL_BARRIER) then
      if Portion(damage, sh.reflectPct) > sh.reflectMax then [Reflected(sh.reflectMax)]
      else [Reflected(Ceiling(Portion(damage, sh.reflectPct)))]
    else []
  }

  function ReactorEvents(hit: Hit, isPlayer: bool, sh: Shield, damage: real): seq<Event> {
    if isPlayer && sh.reactorPct > 0.0 then
      var energy := if Portion(damage, sh.reactorPct) > sh.reactorMax then sh.reactorMax else Portion(damage, sh.reactorPct);
      [Energised(energy, false)] + if sh.toGroup && hit.grouped then [Energised(energy, true)] else []
    else []
  }

  lemma DroppedKeepsShields(s: State, sh: Shield)
    ensures ShieldDropped(s, sh).shields == s.shields
  {
  }

  /** The shield loop from position `i` on: the state and the damage left. A used-up shield is removed by its
      id, and the loop goes on with what followed it. */
  function Absorbed(s: State, hit: Hit, i: nat, damage: real): (State, real)
    requires i <= |s.shields|
    decreases |s.shields| - i
  {
    if i == |s.shields| then (s, damage)
    else
      var sh := s.shields[i];
      var s1 := s.(out := s.out + ReflectEvents(hit, sh, damage) + ReactorEvents(hit, s.isPlayer, sh, damage));
      if sh.hasCap && sh.cap != 0.0 && sh.cap > damage then
        Absorbed(s1.(shields := s.shields[i := sh.(cap := sh.cap - damage)]), hit, i + 1, 0.0)
      else if sh.hasCap then
        var left := if sh.cap != 0.0 then damage - sh.cap else damage;
        var s2 := s1.(shields := s.shields[i := sh.(cap := 0.0)]);
        var k := FirstShield(s2.shields, sh.id);
        assert k <= i by { FirstIsEarliest(s2.shields, i); }
        DroppedKeepsShields(s2.(shields := Without(s2.shields, k)), s2.shields[k]);
        Absorbed(ShieldRemoved(s2, sh.id), hit, i, left)
      else Absorbed(s1, hit, i + 1, damage)
  }

  lemma FirstIsEarliest(shields: seq<Shield>, i: nat)
    requires i < |shields|
    ensures FirstShield(shields, shields[i].id) <= i
  {
  }
}
