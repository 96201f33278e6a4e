/** Safety of the outbox relay over whole runs: what each drain marks, what is never lost or marked twice, in what
    order rows are resolved, and that every wreck message is edited at most once. */
module OutboxRuns {
  import opened Outbox

  // ----- One drain -----

  /** How many rows of the batch, from `i` on, a drain resolves and marks before it ends. */
  function Progress(s: State, batch: seq<Row>, i: nat, w: Weather): (k: nat)
    requires i <= |batch|
    ensures i + k <= |batch|
    decreases |batch| - i
  {
    if i == |batch| then 0
    else
      var (s1, o) := Turned(s, batch[i], TurnAt(w, i), Disabled(w, batch[i].kind));
      if o == Complete then 1 + Progress(s1, batch, i + 1, w) else 0
  }

  predicate Among(batch: seq<Row>, i: nat, j: nat, id: int)
    requires i <= j <= |batch|
  {
    exists m :: i <= m < j && batch[m].id == id
  }

  function WithSent(row: Row, sent: bool): Row { row.(sent := row.sent || sent) }

  /** What one turn does to the table and the log. */
  lemma TurnEffect(s: State, row: Row, t: Turn, disabled: bool)
    ensures var (r, o) := Turned(s, row, t, disabled);
      && r.table == (if o == Complete then SetSent(s.table, row.id) else s.table)
      && |s.log| <= |r.log| && r.log[..|s.log|] == s.log
      && (o == Stopped ==> r.log == s.log)
      && (o != Stopped ==> |r.log| == |s.log| + 1 && r.log[|s.log|].row == row
                           && (r.log[|s.log|].marked <==> o == Complete))
      && (o == Complete ==> t.marked) && (o == Failed ==> !t.marked)
  {
    hide Delivered, SetSent;
    DeliveredLogs(s, row, t);
    var s1 := if disabled then Noted(s, row, Suppressed, t.now) else Delivered(s, row, t).0;
    if disabled || Delivered(s, row, t).1 {
      assert s1.log[..|s.log|] == s.log;
      assert Marked(s1, row.id).log[..|s.log|] == s1.log[..|s.log|];
    }
  }

  /** A drain marks exactly a prefix of what it read, each row after one resolution. It ends early at one row, which
      is resolved but unmarked if marking failed and untouched if delivery did. */
  lemma {:induction false} DrainMarksPrefix(s: State, batch: seq<Row>, i: nat, w: Weather)
    requires i <= |batch|
    ensures var (r, o) := Drained(s, batch, i, w);
      var k := Progress(s, batch, i, w);
      && (o == Complete <==> i + k == |batch|)
      && |r.table| == |s.table|
      && (forall m :: 0 <= m < |s.table| ==> r.table[m] == WithSent(s.table[m], Among(batch, i, i + k, s.table[m].id)))
      && |r.log| == |s.log| + k + (if o == Failed then 1 else 0) && r.log[..|s.log|] == s.log
      && (forall m :: |s.log| <= m < |s.log| + k ==> r.log[m].row == batch[i + m - |s.log|] && r.log[m].marked)
      && (o == Failed ==> r.log[|s.log| + k].row == batch[i + k] && !r.log[|s.log| + k].marked)
    decreases |batch| - i
  {
    hide Turned, SetSent, Among, Drained, TurnAt, Disabled;
    DrainedStep(s, batch, i, w);
    if i == |batch| {
      AmongNone(batch, i);
    } else {
      var t := TurnAt(w, i);
      var (s1, o) := Turned(s, batch[i], t, Disabled(w, batch[i].kind));
      TurnEffect(s, batch[i], t, Disabled(w, batch[i].kind));
      if o == Complete {
        DrainMarksPrefix(s1, batch, i + 1, w);
        PrefixGrows(s, s1, Drained(s1, batch, i + 1, w).0, batch, i, i + 1 + Progress(s1, batch, i + 1, w));
      } else {
        AmongNone(batch, i);
      }
    }
  }

  lemma DrainedStep(s: State, batch: seq<Row>, i: nat, w: Weather)
    requires i <= |batch|
    ensures Drained(s, batch, i, w) ==
      if i == |batch| then (s, Complete)
      else
        var (s1, o) := Turned(s, batch[i], TurnAt(w, i), Disabled(w, batch[i].kind));
        if o == Complete then Drained(s1, batch, i + 1, w) else (s1, o)
  {
    hide Turned;
  }

  lemma AmongNone(batch: seq<Row>, i: nat)
    requires i <= |batch|
    ensures forall id :: !Among(batch, i, i, id)
  {
  }

  lemma PrefixGrows(s: State, s1: State, r: State, batch: seq<Row>, i: nat, j: nat)
    requires i < j <= |batch| && s1.table == SetSent(s.table, batch[i].id) && |r.table| == |s1.table|
    requires forall m :: 0 <= m < |s1.table| ==> r.table[m] == WithSent(s1.table[m], Among(batch, i + 1, j, s1.table[m].id))
    ensures |r.table| == |s.table|
    ensures forall m :: 0 <= m < |s.table| ==> r.table[m] == WithSent(s.table[m], Among(batch, i, j, s.table[m].id))
  {
    hide SetSent, Among;
    forall m | 0 <= m < |s.table|
      ensures r.table[m] == WithSent(s.table[m], Among(batch, i, j, s.table[m].id))
    {
      AmongFirst(batch, i, j, s.table[m].id);
    }
  }

  lemma AmongFirst(batch: seq<Row>, i: nat, j: nat, id: int)
    requires i < j <= |batch|
    ensures Among(batch, i, j, id) <==> batch[i].id == id || Among(batch, i + 1, j, id)
  {
  }

  /** The text, or its first 2000 characters. */
  predicate FirstPart(part: string, text: string) { part == if |text| <= 2000 then text else text[..2000] }

  /** Why a row counts as resolved: suppressed exactly when its kind is switched off, consumed exactly when a
      jumpstart finds no recent wreck, posted or edited only when the channel took it. */
  lemma DeedEarned(s: State, row: Row, t: Turn, disabled: bool)
    ensures var (r, o) := Turned(s, row, t, disabled);
      var name := PlayerName(row.content);
      o != Stopped ==> r.log != [] && var deed := r.log[|r.log| - 1].deed;
        && (deed.Suppressed? <==> disabled)
        && (deed.Consumed? <==> !disabled && row.kind == JUMPSTARTED
                                && (name !in s.deaths || Stale(s.deaths[name], t.now)))
        && (deed.Posted? || deed.Edited? ==> t.delivered)
        && (deed.Edited? ==> row.kind == JUMPSTARTED)
        && (deed.Posted? ==> row.kind != JUMPSTARTED && deed.message == s.nextMessage && FirstPart(deed.text, row.content))
  {
    hide PlayerName, Recorded, SetSent;
    DeliveredLogs(s, row, t);
  }

  /** A drain suppresses exactly the rows of a kind that is on the list of kinds and switched off there. */
  lemma {:induction false} SuppressedExactly(s: State, batch: seq<Row>, i: nat, w: Weather)
    requires i <= |batch|
    ensures var r := Drained(s, batch, i, w).0;
      |s.log| <= |r.log| && forall m :: |s.log| <= m < |r.log| ==>
        (r.log[m].deed.Suppressed? <==> r.log[m].row.kind in w.enabled && !w.enabled[r.log[m].row.kind])
    decreases |batch| - i
  {
    hide Turned, Drained, Delivered, PlayerName, SetSent;
    DrainedStep(s, batch, i, w);
    if i < |batch| {
      var disabled := Disabled(w, batch[i].kind);
      var (s1, o) := Turned(s, batch[i], TurnAt(w, i), disabled);
      TurnEffect(s, batch[i], TurnAt(w, i), disabled);
      DeedEarned(s, batch[i], TurnAt(w, i), disabled);
      if o == Complete {
        SuppressedExactly(s1, batch, i + 1, w);
        DrainMarksPrefix(s1, batch, i + 1, w);
        var r := Drained(s1, batch, i + 1, w).0;
        assert r.log[|s.log|] == r.log[..|s1.log|][|s.log|];
      }
    }
  }

  // ----- Order and durability -----

  ghost predicate Ascending(table: seq<Row>) { forall i, j :: 0 <= i < j < |table| ==> table[i].id < table[j].id }

  /** Rows are resolved in the order of their ids; a row is resolved again only after a failed mark. */
  ghost predicate InOrder(log: seq<Entry>) {
    forall i, j :: 0 <= i < j < |log| ==> log[i].row.id <= log[j].row.id && (log[i].marked ==> log[i].row.id < log[j].row.id)
  }

  /** What was resolved lies before what is unsent, up to one resolution whose mark failed. */
  ghost predicate Behind(log: seq<Entry>, row: Row) {
    forall i :: 0 <= i < |log| ==> log[i].row.id <= row.id && (log[i].marked ==> log[i].row.id < row.id)
  }

  ghost predicate MarkedIn(log: seq<Entry>, row: Row) {
    exists i :: 0 <= i < |log| && log[i].marked && log[i].row == row
  }

  ghost predicate RelayInv(s: State) {
    && Ascending(s.table) && InOrder(s.log)
    && forall row :: row in s.table ==>
         if row.sent then MarkedIn(s.log, row.(sent := false)) else Behind(s.log, row)
  }

  lemma {:induction false} UnsentFacts(table: seq<Row>)
    requires Ascending(table)
    ensures forall row :: row in Unsent(table) <==> row in table && !row.sent
    ensures Ascending(Unsent(table))
  {
    if table != [] {
      UnsentFacts(table[1..]);
      var rest := Unsent(table[1..]);
      forall j | 0 <= j < |rest|
        ensures table[0].id < rest[j].id
      {
        assert rest[j] in rest;
      }
    }
  }

  /** Marking the first unsent row leaves the others unsent. */
  lemma {:induction false} UnsentAfterFirst(table: seq<Row>)
    requires Ascending(table) && Unsent(table) != []
    ensures Unsent(SetSent(table, Unsent(table)[0].id)) == Unsent(table)[1..]
  {
    var id := Unsent(table)[0].id;
    var r := SetSent(table, id);
    UnsentFacts(table);
    if table[0].sent {
      UnsentAfterFirst(table[1..]);
      assert r[1..] == SetSent(table[1..], id);
      assert r[0].sent;
    } else {
      assert r[1..] == table[1..];
    }
  }

  lemma AppendedOrder(log: seq<Entry>, e: Entry)
    requires InOrder(log) && Behind(log, e.row)
    ensures InOrder(log + [e])
  {
  }

  lemma MarkedInMore(log: seq<Entry>, more: seq<Entry>, row: Row)
    requires MarkedIn(log, row) && |log| <= |more| && more[..|log|] == log
    ensures MarkedIn(more, row)
  {
    var i :| 0 <= i < |log| && log[i].marked && log[i].row == row;
    assert more[i] == more[..|log|][i];
  }

  /** Handling the first unsent row keeps the invariant. */
  lemma TurnInv(s: State, row: Row, t: Turn, disabled: bool)
    requires RelayInv(s) && Unsent(s.table) != [] && row == Unsent(s.table)[0]
    ensures var (r, o) := Turned(s, row, t, disabled);
      RelayInv(r) && Unsent(r.table) == if o == Complete then Unsent(s.table)[1..] else Unsent(s.table)
  {
    hide Turned, SetSent, InOrder, Behind, MarkedIn, Unsent, RelayInv;
    TurnEffect(s, row, t, disabled);
    FirstUnsent(s);
    UnsentAfterFirst(s.table);
    var (r, o) := Turned(s, row, t, disabled);
    if o == Stopped {
      SameTableAndLog(s, r);
    } else {
      InvAfter(s, r, row, o == Complete);
    }
  }

  lemma SameTableAndLog(s: State, r: State)
    requires RelayInv(s) && r.table == s.table && r.log == s.log
    ensures RelayInv(r)
  {
  }

  lemma FirstUnsent(s: State)
    requires RelayInv(s) && Unsent(s.table) != []
    ensures Ascending(s.table)
    ensures var row := Unsent(s.table)[0];
      row in s.table && !row.sent && forall y :: y in s.table && !y.sent ==> row.id <= y.id
  {
    UnsentFacts(s.table);
    assert Unsent(s.table)[0] in Unsent(s.table);
  }

  lemma InvAfter(s: State, r: State, row: Row, marked: bool)
    requires RelayInv(s) && row in s.table && !row.sent
    requires forall y :: y in s.table && !y.sent ==> row.id <= y.id
    requires r.table == if marked then SetSent(s.table, row.id) else s.table
    requires |r.log| == |s.log| + 1 && r.log[..|s.log|] == s.log && r.log[|s.log|].row == row
    requires r.log[|s.log|].marked == marked
    ensures RelayInv(r)
  {
    hide SetSent, InOrder, Behind, MarkedIn, Ascending;
    MarkedAscending(s.table, row.id);
    assert r.log == s.log + [r.log[|s.log|]];
    AppendedOrder(s.log, r.log[|s.log|]);
    RowsAfter(s, r, row, marked);
  }

  lemma MarkedAscending(table: seq<Row>, id: int)
    requires Ascending(table)
    ensures Ascending(SetSent(table, id))
  {
    hide SetSent;
  }

  lemma RowsAfter(s: State, r: State, row: Row, marked: bool)
    requires RelayInv(s) && row in s.table && !row.sent
    requires forall y :: y in s.table && !y.sent ==> row.id <= y.id
    requires r.table == if marked then SetSent(s.table, row.id) else s.table
    requires |r.log| == |s.log| + 1 && r.log[..|s.log|] == s.log && r.log[|s.log|].row == row
    requires r.log[|s.log|].marked == marked
    ensures forall x <- r.table :: if x.sent then MarkedIn(r.log, x.(sent := false)) else Behind(r.log, x)
  {
    hide RelayInv, MarkedIn, Behind, SetSent;
    forall x | x in r.table
      ensures if x.sent then MarkedIn(r.log, x.(sent := false)) else Behind(r.log, x)
    {
      RowAfter(s, r, row, marked, x);
    }
  }

  lemma RowAfter(s: State, r: State, row: Row, marked: bool, x: Row)
    requires RelayInv(s) && row in s.table && !row.sent && x in r.table
    requires forall y :: y in s.table && !y.sent ==> row.id <= y.id
    requires r.table == if marked then SetSent(s.table, row.id) else s.table
    requires |r.log| == |s.log| + 1 && r.log[..|s.log|] == s.log && r.log[|s.log|].row == row
    requires r.log[|s.log|].marked == marked
    ensures if x.sent then MarkedIn(r.log, x.(sent := false)) else Behind(r.log, x)
  {
    hide SetSent, InOrder, MarkedIn, Behind, Ascending;
    var m :| 0 <= m < |r.table| && r.table[m] == x;
    var was := s.table[m];
    assert was in s.table;
    if marked && was.id == row.id {
      SameRow(s.table, was, row);
      NowMarked(s.log, r.log, row);
      assert row == x.(sent := false);
    } else if x.sent {
      MarkedInMore(s.log, r.log, x.(sent := false));
    } else {
      OtherId(s.table, was, row);
      BehindMore(s.log, r.log, row, x);
    }
  }

  lemma SameRow(table: seq<Row>, a: Row, b: Row)
    requires Ascending(table) && a in table && b in table && a.id == b.id
    ensures a == b
  {
  }

  lemma OtherId(table: seq<Row>, a: Row, b: Row)
    requires Ascending(table) && a in table && b in table
    ensures a == b || a.id != b.id
  {
  }

  lemma NowMarked(log: seq<Entry>, more: seq<Entry>, row: Row)
    requires |more| == |log| + 1 && more[|log|].row == row && more[|log|].marked
    ensures MarkedIn(more, row)
  {
  }

  /** A new entry for a row that lies before `x`, or for `x` itself if it could not be marked. */
  lemma BehindMore(log: seq<Entry>, more: seq<Entry>, row: Row, x: Row)
    requires Behind(log, x) && |more| == |log| + 1 && more[..|log|] == log && more[|log|].row == row
    requires row.id <= x.id && (more[|log|].marked ==> row.id < x.id)
    ensures Behind(more, x)
  {
    assert forall i :: 0 <= i < |log| ==> more[i] == log[i];
  }

  lemma {:induction false} DrainedInv(s: State, batch: seq<Row>, i: nat, w: Weather)
    requires RelayInv(s) && i <= |batch| && Unsent(s.table) == batch[i..]
    ensures RelayInv(Drained(s, batch, i, w).0)
    decreases |batch| - i
  {
    hide Turned, RelayInv, Unsent, Drained;
    DrainedStep(s, batch, i, w);
    if i < |batch| {
      assert batch[i..][0] == batch[i] && batch[i..][1..] == batch[i + 1..];
      TurnInv(s, batch[i], TurnAt(w, i), Disabled(w, batch[i].kind));
      var (s1, o) := Turned(s, batch[i], TurnAt(w, i), Disabled(w, batch[i].kind));
      if o == Complete {
        DrainedInv(s1, batch, i + 1, w);
      }
    }
  }

  // ----- Wrecks -----

  /** Entry `k` posted the wreck that record `d` of player `p` is about. */
  ghost predicate WreckAt(log: seq<Entry>, k: nat, p: string, d: Death) {
    && k < |log| && log[k].row.kind == DESTROYED && PlayerName(log[k].row.content) == p
    && log[k].row.content == d.content && log[k].at == d.at
    && log[k].deed.Posted? && log[k].deed.message == d.message
  }

  /** Entry `j` edits what entry `k` posted: a jumpstart of the same player, in time, whose text is the wreck line struck
      through and the jumpstart line behind it. */
  ghost predicate EditOf(log: seq<Entry>, k: nat, j: nat) {
    && k < j < |log| && log[j].deed.Edited? && log[j].row.kind == JUMPSTARTED
    && log[k].deed.Posted? && log[k].row.kind == DESTROYED && log[k].deed.message == log[j].deed.message
    && PlayerName(log[k].row.content) == PlayerName(log[j].row.content)
    && log[j].at - log[k].at <= WINDOW
    && log[j].deed.text == Clipped(Struck(log[k].row.content) + " " + log[j].row.content)
  }

  ghost predicate Known(s: State) { forall p :: p in s.deaths ==> exists k :: WreckAt(s.log, k, p, s.deaths[p]) }

  ghost predicate Unedited(s: State) {
    forall p, j :: p in s.deaths && 0 <= j < |s.log| && s.log[j].deed.Edited? ==> s.log[j].deed.message != s.deaths[p].message
  }

  ghost predicate Apart(s: State) {
    forall p, q :: p in s.deaths && q in s.deaths && p != q ==> s.deaths[p].message != s.deaths[q].message
  }

  ghost predicate MessagesBelow(s: State) {
    forall j :: 0 <= j < |s.log| && (s.log[j].deed.Posted? || s.log[j].deed.Edited?) ==> s.log[j].deed.message < s.nextMessage
  }

  ghost predicate EditsFounded(log: seq<Entry>) {
    forall j :: 0 <= j < |log| && log[j].deed.Edited? ==> exists k :: EditOf(log, k, j)
  }

  ghost predicate EditsApart(log: seq<Entry>) {
    forall i, j :: 0 <= i < j < |log| && log[i].deed.Edited? && log[j].deed.Edited? ==> log[i].deed.message != log[j].deed.message
  }

  ghost predicate WreckInv(s: State) {
    Known(s) && Unedited(s) && Apart(s) && MessagesBelow(s) && EditsFounded(s.log) && EditsApart(s.log)
  }

  /** Forgetting wrecks, or marking entries, keeps everything. */
  lemma FewerWrecks(s: State, r: State)
    requires WreckInv(s) && r.nextMessage == s.nextMessage && |r.log| == |s.log|
    requires forall i :: 0 <= i < |s.log| ==> r.log[i].row == s.log[i].row && r.log[i].deed == s.log[i].deed && r.log[i].at == s.log[i].at
    requires r.deaths.Keys <= s.deaths.Keys && forall p :: p in r.deaths ==> r.deaths[p] == s.deaths[p]
    ensures WreckInv(r)
  {
    hide PlayerName;
    forall p | p in r.deaths
      ensures exists k :: WreckAt(r.log, k, p, r.deaths[p])
    {
      var k :| WreckAt(s.log, k, p, s.deaths[p]);
      assert WreckAt(r.log, k, p, r.deaths[p]);
    }
    forall j | 0 <= j < |r.log| && r.log[j].deed.Edited?
      ensures exists k :: EditOf(r.log, k, j)
    {
      var k :| EditOf(s.log, k, j);
      assert EditOf(r.log, k, j);
    }
  }

  /** Whatever was founded on an entry stays founded when the log grows. */
  lemma FoundedMore(log: seq<Entry>, e: Entry, deaths: map<string, Death>)
    ensures forall p, k :: p in deaths && WreckAt(log, k, p, deaths[p]) ==> WreckAt(log + [e], k, p, deaths[p])
    ensures forall k, j :: EditOf(log, k, j) ==> EditOf(log + [e], k, j)
  {
    hide PlayerName;
  }

  /** An entry that edits nothing. */
  lemma NotedWrecks(s: State, r: State, e: Entry)
    requires WreckInv(s) && r.log == s.log + [e] && r.deaths == s.deaths && !e.deed.Edited?
    requires r.nextMessage >= s.nextMessage && (e.deed.Posted? ==> e.deed.message < r.nextMessage)
    ensures WreckInv(r)
  {
    hide WreckAt, EditOf;
    FoundedMore(s.log, e, s.deaths);
    forall j | 0 <= j < |r.log| && r.log[j].deed.Edited?
      ensures exists k :: EditOf(r.log, k, j)
    {
      var k :| EditOf(s.log, k, j);
      assert EditOf(r.log, k, j);
    }
  }

  /** Recording the wreck just posted. */
  lemma RecordedWrecks(s: State, r: State, p: string, d: Death, k: nat)
    requires WreckInv(s) && WreckAt(s.log, k, p, d)
    requires r == s.(deaths := s.deaths[p := d])
    requires forall q :: q in s.deaths ==> s.deaths[q].message != d.message
    requires forall j :: 0 <= j < |s.log| && s.log[j].deed.Edited? ==> s.log[j].deed.message != d.message
    ensures WreckInv(r)
  {
    hide WreckAt, EditOf, EditsFounded, EditsApart;
    forall q | q in r.deaths
      ensures exists m :: WreckAt(r.log, m, q, r.deaths[q])
    {
      if q != p {
        var m :| WreckAt(s.log, m, q, s.deaths[q]);
        assert WreckAt(r.log, m, q, r.deaths[q]);
      }
    }
  }

  lemma WreckPostedInv(s: State, row: Row, t: Turn)
    requires WreckInv(s) && row.kind == DESTROYED
    ensures WreckInv(WreckPosted(s, row, t))
  {
    hide PlayerName, Clipped, WreckInv;
    var s1 := PostedState(s, row, t.now);
    var e := s1.log[|s.log|];
    NotedWrecks(s, s1, e);
    var name := PlayerName(row.content);
    if name != "" && t.named {
      var d := Death(s.nextMessage, row.content, t.now);
      var s2 := s1.(deaths := Pruned(s.deaths, t.now));
      FewerWrecks(s1, s2);
      OldMessages(s, s1);
      RecordedWrecks(s2, s2.(deaths := s2.deaths[name := d]), name, d, |s.log|);
    }
  }

  /** A new message differs from every message on record or edited. */
  lemma OldMessages(s: State, s1: State)
    requires WreckInv(s) && |s1.log| == |s.log| + 1 && s1.log[..|s.log|] == s.log && s1.log[|s.log|].deed.Posted?
    ensures forall q :: q in s.deaths ==> s.deaths[q].message != s.nextMessage
    ensures forall j :: 0 <= j < |s1.log| && s1.log[j].deed.Edited? ==> s1.log[j].deed.message != s.nextMessage
  {
    hide PlayerName;
    forall q | q in s.deaths
      ensures s.deaths[q].message != s.nextMessage
    {
      var k: nat :| WreckAt(s.log, k, q, s.deaths[q]);
      assert s.log[k].deed.Posted?;
    }
    assert forall j :: 0 <= j < |s.log| ==> s1.log[j] == s.log[j];
  }

  lemma WreckEditedInv(s: State, row: Row, now: int)
    requires WreckInv(s) && row.kind == JUMPSTARTED && PlayerName(row.content) in s.deaths
    requires !Stale(s.deaths[PlayerName(row.content)], now)
    ensures WreckInv(WreckEdited(s, row, now))
  {
    hide PlayerName, Clipped, Known, EditsFounded;
    EditedKnown(s, row, now);
    EditFounded(s, row, now);
    KnownBelow(s, PlayerName(row.content));
  }

  lemma KnownBelow(s: State, p: string)
    requires Known(s) && MessagesBelow(s) && p in s.deaths
    ensures s.deaths[p].message < s.nextMessage
  {
    hide PlayerName;
    var k :| WreckAt(s.log, k, p, s.deaths[p]);
  }

  lemma EditedKnown(s: State, row: Row, now: int)
    requires Known(s) && PlayerName(row.content) in s.deaths
    ensures Known(WreckEdited(s, row, now))
  {
    hide PlayerName, Clipped;
    var r := WreckEdited(s, row, now);
    forall p | p in r.deaths
      ensures exists m :: WreckAt(r.log, m, p, r.deaths[p])
    {
      var m :| WreckAt(s.log, m, p, s.deaths[p]);
      assert WreckAt(r.log, m, p, r.deaths[p]);
    }
  }

  lemma EditFounded(s: State, row: Row, now: int)
    requires Known(s) && EditsFounded(s.log) && row.kind == JUMPSTARTED && PlayerName(row.content) in s.deaths
    requires !Stale(s.deaths[PlayerName(row.content)], now)
    ensures EditsFounded(WreckEdited(s, row, now).log)
  {
    hide PlayerName, Clipped, EditsFounded;
    var name := PlayerName(row.content);
    var r := WreckEdited(s, row, now);
    var k :| WreckAt(s.log, k, name, s.deaths[name]);
    assert EditOf(r.log, k, |s.log|);
    EditedFounded(s.log, r.log[|s.log|], k);
  }

  lemma EditedFounded(log: seq<Entry>, e: Entry, k: nat)
    requires EditsFounded(log) && EditOf(log + [e], k, |log|)
    ensures EditsFounded(log + [e])
  {
    hide EditOf;
    FoundedMore(log, e, map[]);
    forall j | 0 <= j <= |log| && (log + [e])[j].deed.Edited?
      ensures exists m :: EditOf(log + [e], m, j)
    {
      if j < |log| {
        var m :| EditOf(log, m, j);
        assert EditOf(log + [e], m, j);
      }
    }
  }

  lemma DeliveredWrecks(s: State, row: Row, t: Turn)
    requires WreckInv(s)
    ensures WreckInv(Delivered(s, row, t).0)
  {
    hide WreckInv, PlayerName, Clipped, WreckPosted, WreckEdited;
    if row.kind == DESTROYED {
      if t.delivered {
        WreckPostedInv(s, row, t);
      }
    } else if row.kind == JUMPSTARTED {
      var s1 := s.(deaths := LookedUp(s.deaths, PlayerName(row.content), t.now));
      FewerWrecks(s, s1);
      if PlayerName(row.content) !in s1.deaths {
        NotedWrecks(s1, Noted(s1, row, Consumed, t.now), Entry(row, Consumed, t.now, false));
      } else if t.delivered {
        WreckEditedInv(s1, row, t.now);
      }
    } else if t.delivered {
      var r := PostedState(s, row, t.now);
      NotedWrecks(s, r, r.log[|s.log|]);
    }
  }

  lemma TurnWrecks(s: State, row: Row, t: Turn, disabled: bool)
    requires WreckInv(s)
    ensures WreckInv(Turned(s, row, t, disabled).0)
  {
    hide WreckInv, Delivered, SetSent;
    DeliveredWrecks(s, row, t);
    DeliveredLogs(s, row, t);
    NotedWrecks(s, Noted(s, row, Suppressed, t.now), Entry(row, Suppressed, t.now, false));
    var s1 := if disabled then Noted(s, row, Suppressed, t.now) else Delivered(s, row, t).0;
    if s1.log != [] {
      FewerWrecks(s1, Marked(s1, row.id));
    }
  }

  lemma {:induction false} DrainedWrecks(s: State, batch: seq<Row>, i: nat, w: Weather)
    requires WreckInv(s) && i <= |batch|
    ensures WreckInv(Drained(s, batch, i, w).0)
    decreases |batch| - i
  {
    hide WreckInv, Turned, Drained;
    DrainedStep(s, batch, i, w);
    if i < |batch| {
      TurnWrecks(s, batch[i], TurnAt(w, i), Disabled(w, batch[i].kind));
      var (s1, o) := Turned(s, batch[i], TurnAt(w, i), Disabled(w, batch[i].kind));
      if o == Complete {
        DrainedWrecks(s1, batch, i + 1, w);
      }
    }
  }

  // ----- Runs -----

  /** The relay with everything ever inserted into its table. */
  datatype System = System(relay: State, nextId: int, inserted: seq<Row>)

  /** Ids are given out in ascending order, with gaps. A restart forgets the wreck records. A sweep may delete any of
      the rows that were sent. */
  datatype Event = Insert(kind: string, content: string, gap: nat) | Drain(w: Weather) | Restart | Sweep(ids: set<int>)

  function Swept(table: seq<Row>, ids: set<int>): seq<Row> {
    if table == [] then []
    else (if table[0].sent && table[0].id in ids then [] else [table[0]]) + Swept(table[1..], ids)
  }

  function Step(y: System, ev: Event): System {
    match ev
    case Insert(kind, content, gap) =>
      var row := Row(y.nextId + gap, kind, content, false);
      y.(relay := y.relay.(table := y.relay.table + [row]), nextId := row.id + 1, inserted := y.inserted + [row])
    case Drain(w) => y.(relay := DrainStep(y.relay, w).0)
    case Restart => y.(relay := y.relay.(deaths := map[]))
    case Sweep(ids) => y.(relay := y.relay.(table := Swept(y.relay.table, ids)))
  }

  function Run(events: seq<Event>): System {
    if events == [] then System(State([], map[], [], 0), 0, [])
    else Step(Run(events[..|events| - 1]), events[|events| - 1])
  }

  /** Every row ever inserted is waiting in the table or was resolved and marked. */
  ghost predicate NothingLost(y: System) {
    forall row :: row in y.inserted ==> row in y.relay.table || MarkedIn(y.relay.log, row)
  }

  ghost predicate Bounded(y: System) {
    && (forall row :: row in y.relay.table ==> row.id < y.nextId)
    && (forall i :: 0 <= i < |y.relay.log| ==> y.relay.log[i].row.id < y.nextId)
    && forall row :: row in y.inserted ==> !row.sent
  }

  ghost predicate SystemInv(y: System) {
    RelayInv(y.relay) && WreckInv(y.relay) && NothingLost(y) && Bounded(y)
  }

  lemma {:induction false} SweptFacts(table: seq<Row>, ids: set<int>)
    requires Ascending(table)
    ensures forall row :: row in Swept(table, ids) <==> row in table && !(row.sent && row.id in ids)
    ensures Ascending(Swept(table, ids))
  {
    if table != [] {
      SweptFacts(table[1..], ids);
      var rest := Swept(table[1..], ids);
      forall j | 0 <= j < |rest|
        ensures table[0].id < rest[j].id
      {
        assert rest[j] in rest;
      }
    }
  }

  lemma InsertInv(y: System, kind: string, content: string, gap: nat)
    requires SystemInv(y)
    ensures SystemInv(Step(y, Insert(kind, content, gap)))
  {
    hide MarkedIn;
    var r := Step(y, Insert(kind, content, gap));
    var row := Row(y.nextId + gap, kind, content, false);
    FewerWrecks(y.relay, r.relay);
    assert Ascending(r.relay.table) by {
      assert forall i :: 0 <= i < |y.relay.table| ==> y.relay.table[i] in y.relay.table;
    }
  }

  lemma SweepInv(y: System, ids: set<int>)
    requires SystemInv(y)
    ensures SystemInv(Step(y, Sweep(ids)))
  {
    hide MarkedIn;
    var r := Step(y, Sweep(ids));
    SweptFacts(y.relay.table, ids);
    FewerWrecks(y.relay, r.relay);
    forall row | row in y.inserted
      ensures row in r.relay.table || MarkedIn(r.relay.log, row)
    {
      assert !row.sent;
    }
  }

  /** What a drain does to the rows and to the log, without its details. */
  lemma DrainOutline(s: State, w: Weather)
    requires RelayInv(s)
    ensures var r := DrainStep(s, w).0;
      && RelayInv(r) && |r.table| == |s.table| && |s.log| <= |r.log| && r.log[..|s.log|] == s.log
      && (forall m :: 0 <= m < |s.table| ==> r.table[m] == s.table[m] || r.table[m] == s.table[m].(sent := true))
      && (forall m :: |s.log| <= m < |r.log| ==> r.log[m].row in s.table)
  {
    hide RelayInv, Drained, Unsent;
    if w.readable {
      var batch := Unsent(s.table);
      assert batch[0..] == batch;
      DrainedInv(s, batch, 0, w);
      DrainedOutline(s, batch, w);
      UnsentIn(s);
    }
  }

  lemma DrainedOutline(s: State, batch: seq<Row>, w: Weather)
    ensures var r := Drained(s, batch, 0, w).0;
      && |r.table| == |s.table| && |s.log| <= |r.log| && r.log[..|s.log|] == s.log
      && (forall m :: 0 <= m < |s.table| ==> r.table[m] == s.table[m] || r.table[m] == s.table[m].(sent := true))
      && (forall m :: |s.log| <= m < |r.log| ==> m - |s.log| < |batch| && r.log[m].row == batch[m - |s.log|])
  {
    hide Drained, Progress, Among;
    DrainMarksPrefix(s, batch, 0, w);
  }

  lemma UnsentIn(s: State)
    requires RelayInv(s)
    ensures forall i :: 0 <= i < |Unsent(s.table)| ==> Unsent(s.table)[i] in s.table
  {
    UnsentFacts(s.table);
    assert forall i :: 0 <= i < |Unsent(s.table)| ==> Unsent(s.table)[i] in Unsent(s.table);
  }

  lemma DrainInv(y: System, w: Weather)
    requires SystemInv(y)
    ensures SystemInv(Step(y, Drain(w)))
  {
    hide DrainStep, RelayInv, WreckInv, MarkedIn;
    var s, r := y.relay, DrainStep(y.relay, w).0;
    DrainOutline(s, w);
    DrainStepWrecks(s, w);
    forall row | row in y.inserted
      ensures row in r.table || MarkedIn(r.log, row)
    {
      StillThere(s, r, row);
    }
    forall row | row in r.table
      ensures row.id < y.nextId
    {
      var m :| 0 <= m < |r.table| && r.table[m] == row;
      assert s.table[m] in s.table;
    }
    forall i | 0 <= i < |r.log|
      ensures r.log[i].row.id < y.nextId
    {
      assert i < |s.log| ==> r.log[i] == r.log[..|s.log|][i];
    }
  }

  lemma DrainStepWrecks(s: State, w: Weather)
    requires WreckInv(s)
    ensures WreckInv(DrainStep(s, w).0)
  {
    hide WreckInv, Drained;
    DrainedWrecks(s, Unsent(s.table), 0, w);
  }

  lemma StillThere(s: State, r: State, row: Row)
    requires !row.sent && (row in s.table || MarkedIn(s.log, row))
    requires RelayInv(r) && |r.table| == |s.table| && |s.log| <= |r.log| && r.log[..|s.log|] == s.log
    requires forall m :: 0 <= m < |s.table| ==> r.table[m] == s.table[m] || r.table[m] == s.table[m].(sent := true)
    ensures row in r.table || MarkedIn(r.log, row)
  {
    hide MarkedIn, Behind;
    if row in s.table {
      var m :| 0 <= m < |s.table| && s.table[m] == row;
      assert r.table[m] in r.table;
      assert row.(sent := true).(sent := false) == row;
    } else {
      MarkedInMore(s.log, r.log, row);
    }
  }

  lemma StepInv(y: System, ev: Event)
    requires SystemInv(y)
    ensures SystemInv(Step(y, ev))
  {
    match ev {
      case Insert(kind, content, gap) => InsertInv(y, kind, content, gap);
      case Drain(w) => DrainInv(y, w);
      case Restart =>
        FewerWrecks(y.relay, Step(y, ev).relay);
      case Sweep(ids) => SweepInv(y, ids);
    }
  }

  lemma {:induction false} RunInv(events: seq<Event>)
    ensures SystemInv(Run(events))
  {
    hide Step, SystemInv;
    if events == [] {
      EmptyInv();
    } else {
      RunInv(events[..|events| - 1]);
      StepInv(Run(events[..|events| - 1]), events[|events| - 1]);
    }
  }

  lemma EmptyInv()
    ensures SystemInv(System(State([], map[], [], 0), 0, []))
  {
  }

  /** Over every run of inserts, drains that fail anywhere, restarts and sweeps: a row that is marked sent was
      resolved; nothing inserted is lost; and rows are resolved in the order of their ids, again only after a failed
      mark, so each is marked at most once and first resolved in order. */
  lemma EveryRunDelivers(events: seq<Event>)
    ensures var y := Run(events);
      && (forall row :: row in y.relay.table && row.sent ==> MarkedIn(y.relay.log, row.(sent := false)))
      && (forall row :: row in y.inserted ==> row in y.relay.table || MarkedIn(y.relay.log, row))
      && InOrder(y.relay.log)
  {
    hide Run, MarkedIn, InOrder, WreckInv;
    RunInv(events);
  }

  /** Over every run, each message is edited at most once, and each edit strikes a wreck posted for the same player no
      more than half an hour before. */
  lemma EveryEditOnce(events: seq<Event>)
    ensures var log := Run(events).relay.log;
      && (forall i, j :: 0 <= i < j < |log| && log[i].deed.Edited? && log[j].deed.Edited? ==> log[i].deed.message != log[j].deed.message)
      && (forall j :: 0 <= j < |log| && log[j].deed.Edited? ==> exists k :: EditOf(log, k, j))
  {
    hide Run, EditOf;
    RunInv(events);
  }

  /** Delivery is not only safe: one drain without failures leaves nothing waiting. */
  lemma FairWeatherDelivers(events: seq<Event>, w: Weather)
    requires w.readable && |w.turns| >= |Run(events).relay.table|
    requires forall i :: 0 <= i < |w.turns| ==> w.turns[i].delivered && w.turns[i].marked
    ensures var y := Step(Run(events), Drain(w));
      forall row :: row in y.inserted ==> MarkedIn(y.relay.log, row)
  {
    hide Run, Turned, Drained, MarkedIn, WreckInv;
    var y := Run(events);
    RunInv(events);
    var batch := Unsent(y.relay.table);
    UnsentShorter(y.relay.table);
    assert batch[0..] == batch;
    FairDrain(y.relay, batch, 0, w);
    DrainInv(y, w);
    var r := Drained(y.relay, batch, 0, w).0;
    UnsentFacts(r.table);
    forall row | row in y.inserted
      ensures MarkedIn(r.log, row)
    {
      assert row in r.table ==> row in Unsent(r.table);
    }
  }

  lemma {:induction false} UnsentShorter(table: seq<Row>)
    ensures |Unsent(table)| <= |table|
  {
    if table != [] {
      UnsentShorter(table[1..]);
    }
  }

  lemma FairTurn(s: State, row: Row, t: Turn, disabled: bool)
    requires t.delivered && t.marked
    ensures Turned(s, row, t, disabled).1 == Complete
  {
    hide Marked;
  }

  lemma {:induction false} FairDrain(s: State, batch: seq<Row>, i: nat, w: Weather)
    requires RelayInv(s) && i <= |batch| <= |w.turns| && Unsent(s.table) == batch[i..]
    requires forall j :: 0 <= j < |w.turns| ==> w.turns[j].delivered && w.turns[j].marked
    ensures Unsent(Drained(s, batch, i, w).0.table) == []
    decreases |batch| - i
  {
    hide Turned, RelayInv, Unsent, Drained;
    DrainedStep(s, batch, i, w);
    if i < |batch| {
      assert batch[i..][0] == batch[i] && batch[i..][1..] == batch[i + 1..];
      FairTurn(s, batch[i], TurnAt(w, i), Disabled(w, batch[i].kind));
      TurnInv(s, batch[i], TurnAt(w, i), Disabled(w, batch[i].kind));
      FairDrain(Turned(s, batch[i], TurnAt(w, i), Disabled(w, batch[i].kind)).0, batch, i + 1, w);
    }
  }

  // ----- How long a wreck record lasts -----

  /** This entry uses up the record of player `p`: it edits the recorded message, or posts another wreck of `p`. */
  ghost predicate Settles(e: Entry, p: string, message: nat) {
    && PlayerName(e.row.content) == p
    && ((e.deed.Edited? && e.deed.message == message) || (e.deed.Posted? && e.row.kind == DESTROYED))
  }

  ghost predicate SettledWithin(log: seq<Entry>, from: nat, to: nat, p: string, message: nat)
    requires to <= |log|
  {
    exists k :: from <= k < to && Settles(log[k], p, message)
  }

  /** A jumpstart of player `p` was consumed without an edit. */
  predicate ConsumedFor(e: Entry, p: string) { e.deed.Consumed? && PlayerName(e.row.content) == p }

  /** The record `p` has in `s` is still there in `r`, or an entry logged in between has used it up; and until such an
      entry, no jumpstart of `p` was consumed. */
  ghost predicate Outlives(s: State, r: State, p: string)
    requires p in s.deaths
  {
    && |s.log| <= |r.log| && r.log[..|s.log|] == s.log
    && ((p in r.deaths && r.deaths[p] == s.deaths[p])
        || SettledWithin(r.log, |s.log|, |r.log|, p, s.deaths[p].message))
    && forall k :: |s.log| <= k < |r.log| && ConsumedFor(r.log[k], p) ==>
         SettledWithin(r.log, |s.log|, k, p, s.deaths[p].message)
  }

  lemma DeliveredOutlives(s: State, row: Row, t: Turn, p: string)
    requires p in s.deaths && !Stale(s.deaths[p], t.now)
    ensures Outlives(s, Delivered(s, row, t).0, p)
  {
    hide PlayerName, Clipped;
    DeliveredLogs(s, row, t);
    var (r, ok) := Delivered(s, row, t);
    if ok && (r.log[|s.log|].deed.Edited? || row.kind == DESTROYED) && PlayerName(row.content) == p {
      assert Settles(r.log[|s.log|], p, s.deaths[p].message);
    }
  }

  lemma TurnOutlives(s: State, row: Row, t: Turn, disabled: bool, p: string)
    requires p in s.deaths && !Stale(s.deaths[p], t.now)
    ensures Outlives(s, Turned(s, row, t, disabled).0, p)
  {
    hide Delivered, SetSent, PlayerName;
    DeliveredOutlives(s, row, t, p);
    DeliveredLogs(s, row, t);
    TurnEffect(s, row, t, disabled);
    if !disabled {
      var s1, r := Delivered(s, row, t).0, Turned(s, row, t, disabled).0;
      MarkedOutlives(s, s1, r, p);
    }
  }

  /** Marking the last entry changes nothing that counts. */
  lemma MarkedOutlives(s: State, s1: State, r: State, p: string)
    requires p in s.deaths && Outlives(s, s1, p) && r.deaths == s1.deaths && |s1.log| <= |s.log| + 1
    requires |r.log| == |s1.log| && r.log[..|s.log|] == s.log
    requires |s1.log| > |s.log| ==> r.log[|s.log|] == s1.log[|s.log|].(marked := r.log[|s.log|].marked)
    ensures Outlives(s, r, p)
  {
    hide PlayerName;
    var m := s.deaths[p].message;
    if SettledWithin(s1.log, |s.log|, |s1.log|, p, m) {
      assert Settles(r.log[|s.log|], p, m);
    }
    assert |s1.log| > |s.log| ==> (ConsumedFor(r.log[|s.log|], p) <==> ConsumedFor(s1.log[|s.log|], p));
  }

  lemma OutlivesOn(s: State, s1: State, r: State, p: string)
    requires p in s.deaths && Outlives(s, s1, p)
    requires |s1.log| <= |r.log| && r.log[..|s1.log|] == s1.log
    requires p in s1.deaths && s1.deaths[p] == s.deaths[p] ==> Outlives(s1, r, p)
    ensures Outlives(s, r, p)
  {
    hide Settles, ConsumedFor, SettledWithin;
    var n, m := |s.log|, s.deaths[p].message;
    assert r.log[..n] == s1.log[..n];
    var kept := p in s1.deaths && s1.deaths[p] == s.deaths[p];
    if !kept {
      SettledStays(s1.log, r.log, n, |s1.log|, p, m);
      SettledLater(r.log, n, |s1.log|, |r.log|, p, m);
    } else if SettledWithin(r.log, |s1.log|, |r.log|, p, m) {
      SettledEarlier(r.log, n, |s1.log|, |r.log|, p, m);
    }
    forall k | n <= k < |r.log| && ConsumedFor(r.log[k], p)
      ensures SettledWithin(r.log, n, k, p, m)
    {
      if k < |s1.log| {
        assert r.log[k] == r.log[..|s1.log|][k];
        SettledStays(s1.log, r.log, n, k, p, m);
      } else if kept {
        SettledEarlier(r.log, n, |s1.log|, k, p, m);
      } else {
        SettledLater(r.log, n, |s1.log|, k, p, m);
      }
    }
  }

  lemma SettledStays(log: seq<Entry>, more: seq<Entry>, from: nat, to: nat, p: string, message: nat)
    requires to <= |log| <= |more| && more[..|log|] == log && SettledWithin(log, from, to, p, message)
    ensures SettledWithin(more, from, to, p, message)
  {
    hide Settles;
    var k :| from <= k < to && Settles(log[k], p, message);
    assert more[k] == more[..|log|][k];
  }

  lemma SettledLater(log: seq<Entry>, from: nat, to: nat, later: nat, p: string, message: nat)
    requires to <= later <= |log| && SettledWithin(log, from, to, p, message)
    ensures SettledWithin(log, from, later, p, message)
  {
  }

  lemma SettledEarlier(log: seq<Entry>, earlier: nat, from: nat, to: nat, p: string, message: nat)
    requires earlier <= from && to <= |log| && SettledWithin(log, from, to, p, message)
    ensures SettledWithin(log, earlier, to, p, message)
  {
  }

  lemma {:induction false} DrainedOutlives(s: State, batch: seq<Row>, i: nat, w: Weather, p: string)
    requires i <= |batch| && p in s.deaths && forall j :: !Stale(s.deaths[p], TurnAt(w, j).now)
    ensures Outlives(s, Drained(s, batch, i, w).0, p)
    decreases |batch| - i
  {
    hide Turned, Drained, SettledWithin, ConsumedFor, Stale, TurnAt;
    DrainedStep(s, batch, i, w);
    if i < |batch| {
      var disabled := Disabled(w, batch[i].kind);
      var (s1, o) := Turned(s, batch[i], TurnAt(w, i), disabled);
      TurnOutlives(s, batch[i], TurnAt(w, i), disabled, p);
      if o == Complete {
        DrainMarksPrefix(s1, batch, i + 1, w);
        if p in s1.deaths && s1.deaths[p] == s.deaths[p] {
          DrainedOutlives(s1, batch, i + 1, w, p);
        }
        OutlivesOn(s, s1, Drained(s1, batch, i + 1, w).0, p);
      }
    }
  }

  /** No restart, and no drain later than the window after the wreck. */
  ghost predicate InTime(ev: Event, d: Death) {
    ev != Restart && (ev.Drain? ==> forall j :: !Stale(d, TurnAt(ev.w, j).now))
  }

  lemma StepOutlives(y: System, ev: Event, p: string)
    requires p in y.relay.deaths && InTime(ev, y.relay.deaths[p])
    ensures Outlives(y.relay, Step(y, ev).relay, p)
  {
    hide SettledWithin, ConsumedFor, Drained;
    if ev.Drain? && ev.w.readable {
      DrainedOutlives(y.relay, Unsent(y.relay.table), 0, ev.w, p);
    }
  }

  lemma StepLog(y: System, ev: Event)
    ensures |y.relay.log| <= |Step(y, ev).relay.log| && Step(y, ev).relay.log[..|y.relay.log|] == y.relay.log
  {
    hide Drained;
    if ev.Drain? {
      DrainMarksPrefix(y.relay, Unsent(y.relay.table), 0, ev.w);
    }
  }

  /** A wreck record is lost to nothing but what it is for. However deliveries and marks fail after it was made,
      as long as its time has not run out and the relay has not restarted, it is there unchanged, or its message
      has been edited by a jumpstart of that player, or another wreck of that player has been posted; and until then no
      jumpstart of that player has been consumed. */
  lemma {:induction false} RecordSurvives(past: seq<Event>, more: seq<Event>, p: string)
    requires p in Run(past).relay.deaths
    requires forall ev <- more :: InTime(ev, Run(past).relay.deaths[p])
    ensures Outlives(Run(past).relay, Run(past + more).relay, p)
  {
    hide SettledWithin, ConsumedFor, InTime, Step;
    var s := Run(past).relay;
    if more == [] {
      assert past + more == past;
    } else {
      var n := |more| - 1;
      RecordSurvives(past, more[..n], p);
      assert (past + more)[..|past + more| - 1] == past + more[..n];
      var y := Run(past + more[..n]);
      StepLog(y, more[n]);
      if p in y.relay.deaths && y.relay.deaths[p] == s.deaths[p] {
        StepOutlives(y, more[n], p);
      }
      OutlivesOn(s, y.relay, Step(y, more[n]).relay, p);
    }
  }

  // ----- From a wreck to its edit -----

  /** A delivered wreck of a named player whose message id is known is on record. */
  lemma WreckRecorded(s: State, row: Row, t: Turn)
    requires row.kind == "player_destroyed" && t.delivered && t.named && PlayerName(row.content) != ""
    ensures var r, p := Turned(s, row, t, false).0, PlayerName(row.content);
      && p in r.deaths && r.deaths[p] == Death(s.nextMessage, row.content, t.now)
      && |r.log| == |s.log| + 1 && r.log[|s.log|].deed.Posted? && r.log[|s.log|].deed.message == s.nextMessage
      && FirstPart(r.log[|s.log|].deed.text, row.content)
  {
    hide PlayerName, SetSent;
    DeliveredLogs(s, row, t);
  }

  /** Recording a wreck forgets exactly the records of other players that are more than half an hour old. */
  lemma RecordedExactly(deaths: map<string, Death>, player: string, d: Death)
    ensures var r := Recorded(deaths, player, d);
      && player in r && r[player] == d
      && forall p :: p != player ==> (p in r <==> p in deaths && d.at - deaths[p].at <= 1800) && (p in r ==> r[p] == deaths[p])
  {
  }

  /** A jumpstart edits the message on record for its player if that is at most half an hour old, and is consumed
      otherwise. */
  lemma JumpstartResolved(s: State, row: Row, t: Turn)
    requires row.kind == "jumpstarted" && t.delivered
    ensures var r, p := Turned(s, row, t, false).0, PlayerName(row.content);
      && |r.log| == |s.log| + 1
      && var deed := r.log[|s.log|].deed;
         if p in s.deaths && t.now - s.deaths[p].at <= 1800 then
           && deed.Edited? && deed.message == s.deaths[p].message && p !in r.deaths
           && FirstPart(deed.text, "~~" + s.deaths[p].content + "~~" + " " + row.content)
         else deed == Consumed
  {
    hide PlayerName, SetSent;
    DeliveredLogs(s, row, t);
  }

  /** A wreck and then a jumpstart of the same player: the message of the wreck is edited if they are at most half an hour
      apart, its line struck through and the other behind it; otherwise the jumpstart is consumed. */
  lemma WreckThenJumpstart(s: State, wreck: Row, t: Turn, jump: Row, t': Turn)
    requires wreck.kind == "player_destroyed" && t.delivered && t.named && PlayerName(wreck.content) != ""
    requires jump.kind == "jumpstarted" && t'.delivered && PlayerName(jump.content) == PlayerName(wreck.content)
    ensures var s1 := Turned(s, wreck, t, false).0;
      var r := Turned(s1, jump, t', false).0;
      && |r.log| == |s.log| + 2
      && var deed := r.log[|s.log| + 1].deed;
         if t'.now - t.now <= 1800 then
           deed.Edited? && deed.message == s.nextMessage
           && FirstPart(deed.text, "~~" + wreck.content + "~~" + " " + jump.content)
         else deed == Consumed
  {
    hide Turned, PlayerName;
    WreckRecorded(s, wreck, t);
    JumpstartResolved(Turned(s, wreck, t, false).0, jump, t');
  }

  /** The rest of the drain that posts a wreck leaves its record, or what has used it up, behind. */
  lemma WreckDrained(s: State, batch: seq<Row>, i: nat, w: Weather)
    requires i < |batch| && batch[i].kind == "player_destroyed" && !Disabled(w, batch[i].kind)
    requires TurnAt(w, i).delivered && TurnAt(w, i).named && TurnAt(w, i).marked && PlayerName(batch[i].content) != ""
    requires forall j :: TurnAt(w, j).now - TurnAt(w, i).now <= 1800
    ensures var s1, p := Turned(s, batch[i], TurnAt(w, i), false).0, PlayerName(batch[i].content);
      && p in s1.deaths && s1.deaths[p] == Death(s.nextMessage, batch[i].content, TurnAt(w, i).now)
      && Outlives(s1, Drained(s, batch, i, w).0, p)
  {
    hide Turned, Drained, PlayerName, Outlives, TurnAt, Disabled;
    WreckRecorded(s, batch[i], TurnAt(w, i));
    DrainedStep(s, batch, i, w);
    var (s1, o) := Turned(s, batch[i], TurnAt(w, i), false);
    FairTurn(s, batch[i], TurnAt(w, i), false);
    DrainedOutlives(s1, batch, i + 1, w, PlayerName(batch[i].content));
  }
}
