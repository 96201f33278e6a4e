/** The durable outbox relay: rows of a table delivered to a channel, oldest first, with a wreck message edited
    when its player is jumpstarted. Delivery, marking and reading may each fail. */
module Outbox {
  const WINDOW: int := 1800  // seconds after a wreck in which a jumpstart still edits its message
  const MAX_CONTENT: nat := 2000

  const DESTROYED: string := "player_destroyed"
  const JUMPSTARTED: string := "jumpstarted"

  datatype Row = Row(id: int, kind: string, content: string, sent: bool)

  /** A posted wreck line that a jumpstart may still edit. */
  datatype Death = Death(message: nat, content: string, at: int)

  /** How a row was resolved. */
  datatype Deed = Posted(message: nat, text: string) | Edited(message: nat, text: string) | Consumed | Suppressed

  /** One resolution of a row, and whether the row could then be marked sent. */
  datatype Entry = Entry(row: Row, deed: Deed, at: int, marked: bool)

  /** The table is kept in the order of its ids. */
  datatype State = State(table: seq<Row>, deaths: map<string, Death>, log: seq<Entry>, nextMessage: nat)

  /** What happens while one row is handled: does delivery succeed, does it tell the message id, does marking
      succeed, and when is it. */
  datatype Turn = Turn(delivered: bool, named: bool, marked: bool, now: int)

  /** What happens during one drain. Rows beyond the listed turns fail to deliver. */
  datatype Weather = Weather(readable: bool, enabled: map<string, bool>, turns: seq<Turn>)

  datatype Outcome = Complete | Stopped | Failed

  function TurnAt(w: Weather, i: nat): Turn { if i < |w.turns| then w.turns[i] else Turn(false, false, false, 0) }

  predicate Disabled(w: Weather, kind: string) { kind in w.enabled && !w.enabled[kind] }

  // ----- Names in rendered lines -----

  predicate IsSpace(c: char) {
    var u := c as int;
    9 <= u <= 13 || u == 0x20 || u == 0x85 || u == 0xA0 || u == 0x1680 || 0x2000 <= u <= 0x200A
    || u == 0x2028 || u == 0x2029 || u == 0x202F || u == 0x205F || u == 0x3000
  }

  function Trimmed(s: string): (r: string)
    ensures |r| <= |s| && (r != [] ==> !IsSpace(r[0]))
  {
    if s == [] || !IsSpace(s[0]) then s else Trimmed(s[1..])
  }

  /** Length of the leading run without white space. */
  function WordLength(s: string): (n: nat)
    ensures n <= |s| && (forall i :: 0 <= i < n ==> !IsSpace(s[i])) && (n < |s| ==> IsSpace(s[n]))
  {
    if s == [] || IsSpace(s[0]) then 0 else 1 + WordLength(s[1..])
  }

  function Fields(s: string): seq<string>
    decreases |s|
  {
    var t := Trimmed(s);
    if t == [] then [] else [t[..WordLength(t)]] + Fields(t[WordLength(t)..])
  }

  /** The second field of a line that starts with the word "Player", or nothing. */
  function PlayerName(content: string): string {
    var f := Fields(content);
    if |f| >= 2 && f[0] == "Player" then f[1] else ""
  }

  lemma {:induction false} WordIs(word: string, rest: string)
    requires (forall c <- word :: !IsSpace(c)) && (rest != [] ==> IsSpace(rest[0]))
    ensures WordLength(word + rest) == |word|
  {
    if word == [] {
      assert word + rest == rest;
    } else {
      assert (word + rest)[0] == word[0] && (word + rest)[1..] == word[1..] + rest;
      WordIs(word[1..], rest);
    }
  }

  lemma FirstField(s: string, word: string, rest: string)
    requires Trimmed(s) == word + rest && word != ""
    requires (forall c <- word :: !IsSpace(c)) && (rest != [] ==> IsSpace(rest[0]))
    ensures Fields(s) == [word] + Fields(rest)
  {
    WordIs(word, rest);
    assert (word + rest)[..|word|] == word && (word + rest)[|word|..] == rest;
  }

  /** Both kinds of line give the player's name. */
  lemma NameInLine(name: string, rest: string)
    requires name != "" && (forall c <- name :: !IsSpace(c)) && (rest != [] ==> IsSpace(rest[0]))
    ensures PlayerName("Player " + name + rest) == name
  {
    hide Fields;
    var line, tail := "Player " + name + rest, " " + name + rest;
    assert line == "Player" + tail && Trimmed(line) == line;
    FirstField(line, "Player", tail);
    assert tail[1..] == name + rest && (name + rest)[0] == name[0];
    assert Trimmed(tail) == Trimmed(name + rest) == name + rest;
    FirstField(tail, name, rest);
  }

  // ----- The wreck records -----

  predicate Stale(d: Death, now: int) { now - d.at > WINDOW }

  function Pruned(deaths: map<string, Death>, now: int): map<string, Death> {
    map p | p in deaths && !Stale(deaths[p], now) :: deaths[p]
  }

  function Recorded(deaths: map<string, Death>, player: string, d: Death): map<string, Death> {
    Pruned(deaths, d.at)[player := d]
  }

  /** The records after looking a player up: a stale one is dropped. */
  function LookedUp(deaths: map<string, Death>, player: string, now: int): map<string, Death> {
    if player in deaths && Stale(deaths[player], now) then deaths - {player} else deaths
  }

  // ----- One row -----

  function Clipped(text: string): string { if |text| > MAX_CONTENT then text[..MAX_CONTENT] else text }

  function Struck(text: string): string { "~~" + text + "~~" }

  function Noted(s: State, row: Row, deed: Deed, now: int): State { s.(log := s.log + [Entry(row, deed, now, false)]) }

  function PostedState(s: State, row: Row, now: int): State {
    Noted(s, row, Posted(s.nextMessage, Clipped(row.content)), now).(nextMessage := s.nextMessage + 1)
  }

  function WreckPosted(s: State, row: Row, t: Turn): State {
    var name := PlayerName(row.content);
    var s1 := PostedState(s, row, t.now);
    if name != "" && t.named then s1.(deaths := Recorded(s.deaths, name, Death(s.nextMessage, row.content, t.now))) else s1
  }

  function WreckEdited(s: State, row: Row, now: int): State
    requires PlayerName(row.content) in s.deaths
  {
    var name := PlayerName(row.content);
    var d := s.deaths[name];
    Noted(s, row, Edited(d.message, Clipped(Struck(d.content) + " " + row.content)), now).(deaths := s.deaths - {name})
  }

  /** The state after trying to resolve a row, and whether it is resolved. */
  function Delivered(s: State, row: Row, t: Turn): (State, bool) {
    if row.kind == DESTROYED then
      if !t.delivered then (s, false) else (WreckPosted(s, row, t), true)
    else if row.kind == JUMPSTARTED then
      var s1 := s.(deaths := LookedUp(s.deaths, PlayerName(row.content), t.now));
      if PlayerName(row.content) !in s1.deaths then (Noted(s1, row, Consumed, t.now), true)
      else if !t.delivered then (s1, false)
      else (WreckEdited(s1, row, t.now), true)
    else if !t.delivered then (s, false)
    else (PostedState(s, row, t.now), true)
  }

  function SetSent(table: seq<Row>, id: int): (r: seq<Row>)
    ensures |r| == |table|
    ensures forall i :: 0 <= i < |table| ==> r[i] == if table[i].id == id then table[i].(sent := true) else table[i]
  {
    if table == [] then []
    else [if table[0].id == id then table[0].(sent := true) else table[0]] + SetSent(table[1..], id)
  }

  function Marked(s: State, id: int): State
    requires s.log != []
  {
    s.(table := SetSent(s.table, id), log := s.log[|s.log| - 1 := s.log[|s.log| - 1].(marked := true)])
  }

  /** One pass of the loop over the batch. */
  function Turned(s: State, row: Row, t: Turn, disabled: bool): (State, Outcome) {
    if disabled then
      var s1 := Noted(s, row, Suppressed, t.now);
      if t.marked then (Marked(s1, row.id), Complete) else (s1, Failed)
    else
      var (s1, ok) := Delivered(s, row, t);
      if !ok then (s1, Stopped)
      else if t.marked then (DeliveredLogs(s, row, t); (Marked(s1, row.id), Complete))
      else (s1, Failed)
  }

  /** A resolved row leaves one unmarked entry at the end of the log; an unresolved one leaves none. */
  lemma DeliveredLogs(s: State, row: Row, t: Turn)
    ensures var (r, ok) := Delivered(s, row, t);
      && r.table == s.table
      && (ok ==> |r.log| == |s.log| + 1 && r.log[..|s.log|] == s.log
                 && r.log[|s.log|].row == row && !r.log[|s.log|].marked && r.log[|s.log|].at == t.now)
      && (!ok ==> r.log == s.log)
  {
    hide PlayerName, Clipped, Recorded;
  }

  // ----- One drain -----

  function Unsent(table: seq<Row>): seq<Row> {
    if table == [] then [] else (if table[0].sent then [] else [table[0]]) + Unsent(table[1..])
  }

  function Drained(s: State, batch: seq<Row>, i: nat, w: Weather): (State, Outcome)
    requires i <= |batch|
    decreases |batch| - i
  {
    if i == |batch| then (s, Complete)
    else
      var (s1, o) := Turned(s, batch[i], TurnAt(w, i), Disabled(w, batch[i].kind));
      if o == Complete then Drained(s1, batch, i + 1, w) else (s1, o)
  }

  function DrainStep(s: State, w: Weather): (State, Outcome) {
    if !w.readable then (s, Failed) else Drained(s, Unsent(s.table), 0, w)
  }

  // ----- The code -----

  datatype Lookup = Missing | Found(death: Death)

  class DeathTracker {
    var m: map<string, Death>

    constructor ()
      ensures m == map[]
    {
      m := map[];
    }

    method RecordDeath(player: string, message: nat, content: string, now: int)
      modifies this
      ensures m == Recorded(old(m), player, Death(message, content, now))
    {
      var keys := m.Keys;
      while keys != {}
        invariant keys <= m.Keys <= old(m).Keys
        invariant forall k <- old(m).Keys - keys :: k in m <==> !Stale(old(m)[k], now)
        invariant forall k <- m.Keys :: m[k] == old(m)[k]
        decreases |keys|
      {
        var k :| k in keys;
        if now - m[k].at > WINDOW {
          m := m - {k};
        }
        keys := keys - {k};
      }
      assert m == Pruned(old(m), now);
      m := m[player := Death(message, content, now)];
    }

    method RecentDeath(player: string, now: int) returns (r: Lookup)
      modifies this
      ensures m == LookedUp(old(m), player, now)
      ensures r == if player in m then Found(m[player]) else Missing
    {
      if player !in m {
        return Missing;
      }
      if now - m[player].at > WINDOW {
        m := m - {player};
        return Missing;
      }
      return Found(m[player]);
    }

    method Clear(player: string)
      modifies this
      ensures m == old(m) - {player}
    {
      m := m - {player};
    }
  }

  class Relay {
    var table: seq<Row>
    const tracker: DeathTracker
    var log: seq<Entry>
    var nextMessage: nat

    ghost function View(): State
      reads this, tracker
    {
      State(table, tracker.m, log, nextMessage)
    }

    constructor (table: seq<Row>, tracker: DeathTracker)
      ensures this.tracker == tracker && View() == State(table, tracker.m, [], 0)
    {
      this.table, this.tracker, log, nextMessage := table, tracker, [], 0;
    }

    /** Reads the unsent rows in the order of their ids. */
    method ReadUnsent() returns (batch: seq<Row>)
      ensures batch == Unsent(table)
    {
      batch := [];
      for i := 0 to |table|
        invariant batch + Unsent(table[i..]) == Unsent(table)
      {
        assert table[i..][1..] == table[i + 1..];
        if !table[i].sent {
          batch := batch + [table[i]];
        }
      }
    }

    method Send(row: Row, t: Turn) returns (message: nat, ok: bool)
      modifies this`log, this`nextMessage
      ensures ok == t.delivered && message == old(nextMessage)
      ensures View() == if ok then PostedState(old(View()), row, t.now) else old(View())
    {
      message, ok := nextMessage, t.delivered;
      if ok {
        log := log + [Entry(row, Posted(message, Clipped(row.content)), t.now, false)];
        nextMessage := nextMessage + 1;
      }
    }

    method DeliverEvent(row: Row, t: Turn) returns (ok: bool)
      modifies this`log, this`nextMessage, tracker
      ensures (View(), ok) == Delivered(old(View()), row, t)
    {
      hide PlayerName, Clipped, Recorded, LookedUp;
      if row.kind == DESTROYED {
        var message, sent := Send(row, t);
        if !sent {
          return false;
        }
        var name := PlayerName(row.content);
        if name != "" && t.named {
          tracker.RecordDeath(name, message, row.content, t.now);
        }
        return true;
      } else if row.kind == JUMPSTARTED {
        var name := PlayerName(row.content);
        var found := tracker.RecentDeath(name, t.now);
        if found.Missing? {
          log := log + [Entry(row, Consumed, t.now, false)];
          return true;
        }
        if !t.delivered {
          return false;
        }
        var text := Clipped(Struck(found.death.content) + " " + row.content);
        log := log + [Entry(row, Edited(found.death.message, text), t.now, false)];
        tracker.Clear(name);
        return true;
      } else {
        var _, sent := Send(row, t);
        return sent;
      }
    }

    /** The update that marks a row sent. */
    method MarkSent(id: int, t: Turn) returns (ok: bool)
      requires log != []
      modifies this`table, this`log
      ensures ok == t.marked && View() == if ok then Marked(old(View()), id) else old(View())
    {
      ok := t.marked;
      if ok {
        table := SetSent(table, id);
        log := log[|log| - 1 := log[|log| - 1].(marked := true)];
      }
    }

    method HandleRow(row: Row, t: Turn, disabled: bool) returns (o: Outcome)
      modifies this`table, this`log, this`nextMessage, tracker
      ensures (View(), o) == Turned(old(View()), row, t, disabled)
    {
      hide Delivered, Marked;
      if disabled {
        log := log + [Entry(row, Suppressed, t.now, false)];
        var marked := MarkSent(row.id, t);
        return if marked then Complete else Failed;
      }
      DeliveredLogs(View(), row, t);
      var ok := DeliverEvent(row, t);
      if !ok {
        return Stopped;
      }
      var marked := MarkSent(row.id, t);
      return if marked then Complete else Failed;
    }

    /** Delivers every unsent row, oldest first, up to the first failure. */
    method Drain(w: Weather) returns (o: Outcome)
      modifies this`table, this`log, this`nextMessage, tracker
      ensures (View(), o) == DrainStep(old(View()), w)
    {
      hide Turned;
      if !w.readable {
        return Failed;
      }
      var batch := ReadUnsent();
      for i := 0 to |batch|
        invariant Drained(View(), batch, i, w) == Drained(old(View()), batch, 0, w)
      {
        o := HandleRow(batch[i], TurnAt(w, i), Disabled(w, batch[i].kind));
        if o != Complete {
          return;
        }
      }
      return Complete;
    }
  }
}
