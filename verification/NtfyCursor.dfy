/**
 Reading the zero-setup transport. The server keeps messages for about twelve hours; the client asks for
 what came after its cursor by message id, then by timestamp, and past that says outright that the read
 is truncated. Client and server share one clock here.
 */
module NtfyCursor {
  import opened Basics
  import opened Sorting
  import Decimal
  import FairSelect
  import SelectFair

  const HOUR_MS := 3600 * 1000
  const MESSAGE_ID_MAX_AGE_MS := 11 * HOUR_MS
  const CACHE_WINDOW_MS := 12 * HOUR_MS
  const CANDIDATE_WINDOW := 200

  const ALL: Text := [0x61, 0x6c, 0x6c]

  // ---------------------------------------------------------------- the server ---

  datatype Row = Row(topic: Text, id: Text, time: nat, message: Text, ordinal: nat, at: nat)

  // The store as publishing leaves it: ordinals count up, the clock does not run back, an id is twelve
  // characters and never reused.
  ghost predicate IsStore(rows: seq<Row>) {
    && (forall i :: 0 <= i < |rows| ==> rows[i].ordinal == i + 1 && rows[i].time == rows[i].at / 1000)
    && (forall i :: 0 <= i < |rows| ==> |rows[i].id| == 12)
    && (forall i, j :: 0 <= i < j < |rows| ==> rows[i].at <= rows[j].at && rows[i].id != rows[j].id)
  }

  predicate InCache(row: Row, now: int) { now - row.at <= CACHE_WINDOW_MS }

  function OnTopic(topic: Text, now: int): Row -> bool { (row: Row) => row.topic == topic && InCache(row, now) }

  function After(ordinal: nat): Row -> bool { (row: Row) => row.ordinal > ordinal }

  function SinceTime(ts: nat): Row -> bool { (row: Row) => row.time >= ts }

  // The first stored message with this id, in the cache or not.
  function FindId(rows: seq<Row>, id: Text): Option<Row> {
    if rows == [] then None else if rows[0].id == id then Some(rows[0]) else FindId(rows[1..], id)
  }

  function Poll(rows: seq<Row>, topic: Text, since: Text, now: int): seq<Row> {
    var cached := Filter(rows, OnTopic(topic, now));
    if since == ALL || since == [] then cached
    else
      var byId := FindId(rows, since);
      if byId.Some? then Filter(cached, After(byId.value.ordinal))
      else if Decimal.AllDigits(since) then Filter(cached, SinceTime(Decimal.Value(since)))
      else cached
  }

  class Server {
    var messages: seq<Row>
    var ordinal: nat

    ghost predicate Valid()
      reads this
    {
      IsStore(messages) && ordinal == |messages|
    }

    constructor ()
      ensures Valid() && messages == []
    {
      messages, ordinal := [], 0;
    }

    // POST /<topic>, at the server's clock and under a fresh id.
    method Store(topic: Text, message: Text, at: nat, id: Text) returns (row: Row)
      requires Valid() && |id| == 12
      requires forall i :: 0 <= i < |messages| ==> messages[i].at <= at && messages[i].id != id
      modifies this
      ensures Valid() && messages == old(messages) + [row]
      ensures row.topic == topic && row.message == message && row.at == at && row.id == id
    {
      ordinal := ordinal + 1;
      row := Row(topic, id, at / 1000, message, ordinal, at);
      messages := messages + [row];
    }
  }

  // ---------------------------------------------------------------- the cursor ---

  datatype Cursor = Cursor(messageId: Text, unixTs: nat)

  datatype Tier = AllTier | MessageIdTier | UnixTsTier | BeyondCacheTier

  datatype Plan = Plan(since: Text, tier: Tier, truncated: bool)

  function CursorOf(row: Row): Cursor { Cursor(row.id, row.time) }

  function SinceParam(cursor: Option<Cursor>, now: int): Plan {
    if cursor.None? || cursor.value.messageId == [] then Plan(ALL, AllTier, false)
    else
      var age := now - cursor.value.unixTs * 1000;
      if age < MESSAGE_ID_MAX_AGE_MS then Plan(cursor.value.messageId, MessageIdTier, false)
      else if age < CACHE_WINDOW_MS then Plan(Decimal.Digits(cursor.value.unixTs), UnixTsTier, false)
      else Plan(ALL, BeyondCacheTier, true)
  }

  // Unix seconds stay below 10^11 until the year 5138, so a timestamp is never mistaken for an id.
  const MAX_UNIX_TS: nat := 100_000_000_000

  // ---------------------------------------------------------- nothing is missed ---

  lemma {:induction false} FindIdFinds(rows: seq<Row>, id: Text)
    ensures FindId(rows, id).Some? ==> FindId(rows, id).value in rows && FindId(rows, id).value.id == id
    ensures FindId(rows, id).None? ==> forall i :: 0 <= i < |rows| ==> rows[i].id != id
  {
    if rows != [] && rows[0].id != id {
      FindIdFinds(rows[1..], id);
      if FindId(rows, id).None? {
        forall i | 0 <= i < |rows| ensures rows[i].id != id { if i > 0 { assert rows[i] == rows[1..][i - 1]; } }
      }
    }
  }

  // The stored id a cursor carries leads back to the row it was taken from.
  lemma CursorFindsItsRow(rows: seq<Row>, c: nat)
    requires IsStore(rows) && c < |rows|
    ensures FindId(rows, rows[c].id) == Some(rows[c])
  {
    FindIdFinds(rows, rows[c].id);
    var row := FindId(rows, rows[c].id);
    if row.Some? {
      var i :| 0 <= i < |rows| && rows[i] == row.value;
    }
  }

  lemma TimestampIsNoId(rows: seq<Row>, ts: nat)
    requires IsStore(rows) && ts < MAX_UNIX_TS
    ensures FindId(rows, Decimal.Digits(ts)).None?
    ensures Decimal.Digits(ts) != ALL
  {
    assert Decimal.Power10(11) == MAX_UNIX_TS;
    Decimal.DigitsLength(ts, 11);
    Decimal.ValueOfDigits(ts);
    FindIdFinds(rows, Decimal.Digits(ts));
    assert !Decimal.IsDigit(ALL[0]);
  }

  // A read that does not call itself truncated polled every message published on the topic after its
  // cursor, in whichever tier it was asked.
  lemma UntruncatedPollMissesNothing(rows: seq<Row>, topic: Text, c: nat, i: nat, now: nat)
    requires IsStore(rows) && c < i < |rows|
    requires rows[c].time < MAX_UNIX_TS && rows[i].topic == topic && rows[|rows| - 1].at <= now
    requires !SinceParam(Some(CursorOf(rows[c])), now).truncated
    ensures rows[i] in Poll(rows, topic, SinceParam(Some(CursorOf(rows[c])), now).since, now)
  {
    var plan := SinceParam(Some(CursorOf(rows[c])), now);
    var cached := Filter(rows, OnTopic(topic, now));
    assert rows[c].at <= rows[i].at && rows[c].time * 1000 <= rows[c].at;
    FilterMembers(rows, OnTopic(topic, now), rows[i]);
    assert rows[i] in cached;
    if plan.tier == MessageIdTier {
      CursorFindsItsRow(rows, c);
      FilterMembers(cached, After(rows[c].ordinal), rows[i]);
    } else {
      TimestampIsNoId(rows, rows[c].time);
      Decimal.ValueOfDigits(rows[c].time);
      FilterMembers(cached, SinceTime(rows[c].time), rows[i]);
    }
  }

  // ------------------------------------------------------- exactly what is polled ---

  // Row i is what this cursor asks the topic for: published on it at most twelve hours ago and, for a cursor
  // under eleven hours old, stored after the row whose id it has, for one under twelve, not before its second. An
  // id that no row has asks for everything, unless it is all digits: then it is taken for a second.
  ghost predicate Wanted(rows: seq<Row>, topic: Text, cursor: Option<Cursor>, now: int, i: nat)
    requires i < |rows|
  {
    && rows[i].topic == topic && now - rows[i].at <= 43_200_000
    && (cursor.Some? && cursor.value.messageId != [] ==>
          var age := now - 1000 * cursor.value.unixTs;
          && (age < 39_600_000 ==> IsAfterId(rows, cursor.value.messageId, i))
          && (39_600_000 <= age < 43_200_000 ==> rows[i].time >= cursor.value.unixTs))
  }

  ghost predicate IsAfterId(rows: seq<Row>, id: Text, i: nat)
    requires i < |rows|
  {
    && (forall c :: 0 <= c < |rows| && rows[c].id == id ==> i > c)
    && (Unknown(rows, id) && Decimal.AllDigits(id) ==> rows[i].time >= Decimal.Value(id))
  }

  ghost predicate Unknown(rows: seq<Row>, id: Text) { forall c :: 0 <= c < |rows| ==> rows[c].id != id }

  // A poll gives exactly the rows the cursor asks for, each once and in the order they were stored in.
  lemma PollIsExact(rows: seq<Row>, topic: Text, cursor: Option<Cursor>, now: int) returns (at: seq<nat>)
    requires IsStore(rows) && (cursor.Some? ==> cursor.value.unixTs < MAX_UNIX_TS)
    ensures Picks(Poll(rows, topic, SinceParam(cursor, now).since, now), rows, at)
    ensures forall i :: 0 <= i < |rows| ==> (i in at <==> Wanted(rows, topic, cursor, now, i))
  {
    var plan := SinceParam(cursor, now);
    if plan.tier == MessageIdTier {
      at := PollById(rows, topic, plan.since, now);
    } else if plan.tier == UnixTsTier {
      var ts := cursor.value.unixTs;
      TimestampIsNoId(rows, ts);
      Decimal.ValueOfDigits(ts);
      at := PollByTime(rows, topic, plan.since, now);
    } else {
      at := FilterPositions(rows, OnTopic(topic, now));
    }
  }

  lemma PollByTime(rows: seq<Row>, topic: Text, since: Text, now: int) returns (at: seq<nat>)
    requires FindId(rows, since).None? && since != ALL && since != [] && Decimal.AllDigits(since)
    ensures Picks(Poll(rows, topic, since, now), rows, at)
    ensures forall i :: 0 <= i < |rows| ==> (i in at <==>
      rows[i].topic == topic && now - rows[i].at <= 43_200_000 && rows[i].time >= Decimal.Value(since))
  {
    var ts := Decimal.Value(since);
    var both := (row: Row) => OnTopic(topic, now)(row) && SinceTime(ts)(row);
    FilterTwice(rows, OnTopic(topic, now), SinceTime(ts), both);
    at := FilterPositions(rows, both);
  }

  lemma PollAfter(rows: seq<Row>, topic: Text, c: nat, now: int) returns (at: seq<nat>)
    requires IsStore(rows) && c < |rows|
    ensures Picks(Poll(rows, topic, rows[c].id, now), rows, at)
    ensures forall i :: 0 <= i < |rows| ==> (i in at <==>
      rows[i].topic == topic && now - rows[i].at <= 43_200_000 && i > c)
  {
    CursorFindsItsRow(rows, c);
    var both := (row: Row) => OnTopic(topic, now)(row) && After(c + 1)(row);
    FilterTwice(rows, OnTopic(topic, now), After(c + 1), both);
    at := FilterPositions(rows, both);
  }

  lemma PollById(rows: seq<Row>, topic: Text, id: Text, now: int) returns (at: seq<nat>)
    requires IsStore(rows) && id != []
    ensures Picks(Poll(rows, topic, id, now), rows, at)
    ensures forall i :: 0 <= i < |rows| ==> (i in at <==>
      rows[i].topic == topic && now - rows[i].at <= 43_200_000 && IsAfterId(rows, id, i))
  {
    FindIdFinds(rows, id);
    if c :| 0 <= c < |rows| && rows[c].id == id {
      at := PollAfter(rows, topic, c, now);
      IdIsAt(rows, c);
    } else if Decimal.AllDigits(id) {
      assert !Decimal.IsDigit(ALL[0]);
      at := PollByTime(rows, topic, id, now);
    } else {
      at := FilterPositions(rows, OnTopic(topic, now));
    }
  }

  lemma IdIsAt(rows: seq<Row>, c: nat)
    requires IsStore(rows) && c < |rows|
    ensures forall i :: 0 <= i < |rows| ==> (IsAfterId(rows, rows[c].id, i) <==> i > c)
  {
    assert !Unknown(rows, rows[c].id);
    assert forall d :: 0 <= d < |rows| && rows[d].id == rows[c].id ==> d == c;
  }

  // Read from a stored row: exactly what was stored after it, or from its second on, or all there is.
  lemma PollFromRow(rows: seq<Row>, topic: Text, c: nat, now: int) returns (at: seq<nat>)
    requires IsStore(rows) && c < |rows| && rows[c].time < MAX_UNIX_TS
    ensures Picks(Poll(rows, topic, SinceParam(Some(CursorOf(rows[c])), now).since, now), rows, at)
    ensures var age := now - 1000 * rows[c].time; forall i :: 0 <= i < |rows| ==> (i in at <==>
      && rows[i].topic == topic && now - rows[i].at <= 43_200_000
      && (age < 39_600_000 ==> i > c) && (39_600_000 <= age < 43_200_000 ==> rows[i].time >= rows[c].time))
  {
    at := PollIsExact(rows, topic, Some(CursorOf(rows[c])), now);
    IdIsAt(rows, c);
  }

  // With no cursor yet, all there is: the topic's messages of the last twelve hours.
  lemma PollFromNothing(rows: seq<Row>, topic: Text, now: int) returns (at: seq<nat>)
    requires IsStore(rows)
    ensures Picks(Poll(rows, topic, SinceParam(None, now).since, now), rows, at)
    ensures forall i :: 0 <= i < |rows| ==> (i in at <==> rows[i].topic == topic && now - rows[i].at <= 43_200_000)
  {
    at := PollIsExact(rows, topic, None, now);
  }

  // -------------------------------------------------------------------- the read ---

  // What decoding the n-th polled row gives: the sender and type of an accepted envelope, or nothing. It
  // may depend on the position, because the replay memory does.
  datatype Message = Message(sender: string, kind: string)

  type Decoder = (nat, Row) -> Option<Message>

  datatype Candidate = Candidate(item: FairSelect.Item, row: Row)

  datatype Read = Read(chosen: seq<FairSelect.Item>, candidates: seq<Candidate>, next: Option<Cursor>, more: nat, truncated: bool)

  function Items(candidates: seq<Candidate>): (items: seq<FairSelect.Item>)
    ensures |items| == |candidates|
  {
    seq(|candidates|, i requires 0 <= i < |candidates| => candidates[i].item)
  }

  // Row `n` was accepted and is a candidate.
  ghost predicate Kept(candidates: seq<Candidate>, row: Row) {
    exists k :: 0 <= k < |candidates| && candidates[k].row == row
  }

  lemma KeptGrows(candidates: seq<Candidate>, c: Candidate, row: Row)
    ensures Kept(candidates, row) || c.row == row ==> Kept(candidates + [c], row)
  {
    if c.row == row {
      assert (candidates + [c])[|candidates|] == c;
    } else if Kept(candidates, row) {
      var k :| 0 <= k < |candidates| && candidates[k].row == row;
      assert (candidates + [c])[k] == candidates[k];
    }
  }

  // The candidate stands for the n-th polled row: accepted, under its sender and type, at its position inside
  // the window, a priority message past it.
  ghost predicate StandsFor(c: Candidate, rows: seq<Row>, decode: Decoder, n: nat) {
    && n < |rows| && c.row == rows[n] && decode(n, rows[n]) == Some(Message(c.item.sender, c.item.kind))
    && (if n < 200 then c.item.order == n else FairSelect.IsPriorityType(c.item.kind))
  }

  ghost predicate AllStand(candidates: seq<Candidate>, rows: seq<Row>, decode: Decoder) {
    forall k :: 0 <= k < |candidates| ==> Stands(candidates[k], rows, decode)
  }

  ghost predicate Stands(c: Candidate, rows: seq<Row>, decode: Decoder) {
    exists n: nat :: StandsFor(c, rows, decode, n)
  }

  // Some candidate has the row's message id.
  ghost predicate Represented(candidates: seq<Candidate>, row: Row) {
    exists k :: 0 <= k < |candidates| && candidates[k].row.id == row.id
  }

  // Orders rise from candidate to candidate.
  ghost predicate Rising(candidates: seq<Candidate>, order: nat) {
    && (forall k :: 0 <= k < |candidates| ==> 0 <= candidates[k].item.order < order)
    && (forall k, l :: 0 <= k < l < |candidates| ==> candidates[k].item.order < candidates[l].item.order)
  }

  ghost predicate WindowKept(candidates: seq<Candidate>, rows: seq<Row>, decode: Decoder, n: nat) {
    forall m :: 0 <= m < n && m < |rows| && decode(m, rows[m]).Some? ==> Kept(candidates, rows[m])
  }

  predicate IsPriorityRow(rows: seq<Row>, decode: Decoder, n: nat) {
    n < |rows| && decode(n, rows[n]).Some? && FairSelect.IsPriorityType(decode(n, rows[n]).value.kind)
  }

  ghost predicate PriorityKept(candidates: seq<Candidate>, rows: seq<Row>, decode: Decoder, from: nat, n: nat) {
    forall m :: from <= m < n && IsPriorityRow(rows, decode, m) ==> Represented(candidates, rows[m])
  }

  // What both passes leave: every accepted row of the window, every priority row past it, and no other.
  ghost predicate Gathered(candidates: seq<Candidate>, rows: seq<Row>, decode: Decoder) {
    && AllStand(candidates, rows, decode) && WindowKept(candidates, rows, decode, Min(|rows|, 200))
    && PriorityKept(candidates, rows, decode, 200, |rows|)
  }

  lemma RepresentedGrows(candidates: seq<Candidate>, c: Candidate, row: Row)
    requires Represented(candidates, row) || c.row.id == row.id
    ensures Represented(candidates + [c], row)
  {
    if c.row.id == row.id {
      assert (candidates + [c])[|candidates|] == c;
    } else {
      var k :| 0 <= k < |candidates| && candidates[k].row.id == row.id;
      assert (candidates + [c])[k] == candidates[k];
    }
  }

  lemma StandGrows(candidates: seq<Candidate>, c: Candidate, rows: seq<Row>, decode: Decoder, n: nat)
    requires AllStand(candidates, rows, decode) && StandsFor(c, rows, decode, n)
    ensures AllStand(candidates + [c], rows, decode)
  {
    assert Stands(c, rows, decode);
    var all := candidates + [c];
    assert forall k :: 0 <= k < |candidates| ==> all[k] == candidates[k];
  }

  lemma WindowGrows(candidates: seq<Candidate>, c: Candidate, rows: seq<Row>, decode: Decoder, n: nat)
    requires WindowKept(candidates, rows, decode, n) && n < |rows| && c.row == rows[n]
    ensures WindowKept(candidates + [c], rows, decode, n + 1)
  {
    forall m | 0 <= m < n + 1 && decode(m, rows[m]).Some? ensures Kept(candidates + [c], rows[m]) {
      KeptGrows(candidates, c, rows[m]);
    }
  }

  // The rows inside the candidate window.
  method TakeWindow(rows: seq<Row>, decode: Decoder) returns (candidates: seq<Candidate>, order: nat)
    ensures order == Min(|rows|, CANDIDATE_WINDOW) && Rising(candidates, order)
    ensures AllStand(candidates, rows, decode) && WindowKept(candidates, rows, decode, order)
  {
    candidates, order := [], 0;
    while order < |rows| && order < CANDIDATE_WINDOW
      invariant order <= |rows| && order <= CANDIDATE_WINDOW && Rising(candidates, order)
      invariant AllStand(candidates, rows, decode) && WindowKept(candidates, rows, decode, order)
    {
      var env := decode(order, rows[order]);
      if env.Some? {
        var c := Candidate(FairSelect.Item(order, env.value.sender, env.value.kind), rows[order]);
        StandGrows(candidates, c, rows, decode, order);
        WindowGrows(candidates, c, rows, decode, order);
        candidates := candidates + [c];
      }
      order := order + 1;
    }
  }

  // One row past the window: a priority message is taken, unless its id already is.
  method TakeOne(rows: seq<Row>, decode: Decoder, candidates: seq<Candidate>, order: nat, n: nat)
    returns (candidates': seq<Candidate>, order': nat)
    requires CANDIDATE_WINDOW <= n < |rows| && Rising(candidates, order) && AllStand(candidates, rows, decode)
    ensures Rising(candidates', order') && AllStand(candidates', rows, decode)
    ensures candidates' == candidates || (|candidates'| == |candidates| + 1 && candidates <= candidates')
    ensures forall row :: Kept(candidates, row) ==> Kept(candidates', row)
    ensures forall row :: Represented(candidates, row) ==> Represented(candidates', row)
    ensures IsPriorityRow(rows, decode, n) ==> Represented(candidates', rows[n])
  {
    candidates', order' := candidates, order;
    if exists k :: 0 <= k < |candidates| && candidates[k].row.id == rows[n].id { return; }
    var env := decode(n, rows[n]);
    if env.Some? && FairSelect.IsPriorityType(env.value.kind) {
      var c := Candidate(FairSelect.Item(order, env.value.sender, env.value.kind), rows[n]);
      StandGrows(candidates, c, rows, decode, n);
      candidates' := candidates + [c];
      RepresentedGrows(candidates, c, rows[n]);
      forall row | Kept(candidates, row) ensures Kept(candidates', row) { KeptGrows(candidates, c, row); }
      forall row | Represented(candidates, row) ensures Represented(candidates', row) { RepresentedGrows(candidates, c, row); }
    }
    order' := order + 1;
  }

  // The rows past it, for priority messages only: the reserved floor must be real.
  method TakePriority(rows: seq<Row>, decode: Decoder, window: seq<Candidate>, from: nat) returns (candidates: seq<Candidate>)
    requires from == Min(|rows|, CANDIDATE_WINDOW) && Rising(window, from)
    requires AllStand(window, rows, decode) && WindowKept(window, rows, decode, from)
    ensures exists order: nat :: Rising(candidates, order)
    ensures Gathered(candidates, rows, decode)
  {
    candidates := window;
    var order, n := from, from;
    while n < |rows|
      invariant from <= n <= |rows| && Rising(candidates, order) && AllStand(candidates, rows, decode)
      invariant WindowKept(candidates, rows, decode, from) && PriorityKept(candidates, rows, decode, from, n)
    {
      candidates, order := TakeOne(rows, decode, candidates, order, n);
      n := n + 1;
    }
  }

  // Both passes over the polled rows.
  method Gather(rows: seq<Row>, decode: Decoder) returns (candidates: seq<Candidate>)
    ensures FairSelect.DistinctOrders(Items(candidates))
    ensures Gathered(candidates, rows, decode)
  {
    var window, order := TakeWindow(rows, decode);
    candidates := TakePriority(rows, decode, window, order);
    ghost var last: nat :| Rising(candidates, last);
  }

  // The cap of one read.
  function CapFor(limit: Option<nat>): nat {
    if limit.Some? then Min(limit.value, FairSelect.FETCH_CAP) else FairSelect.FETCH_CAP
  }

  // The last candidate's row, which AllStand says is a polled row.
  function NextCursor(candidates: seq<Candidate>, cursor: Option<Cursor>): Option<Cursor> {
    if candidates == [] then cursor else Some(CursorOf(candidates[|candidates| - 1].row))
  }

  lemma WholeWindowKept(candidates: seq<Candidate>, rows: seq<Row>, decode: Decoder)
    requires Gathered(candidates, rows, decode) && |rows| <= 200
    ensures forall n :: 0 <= n < |rows| && decode(n, rows[n]).Some? ==> Kept(candidates, rows[n])
  {
  }

  ghost predicate AllChosen(candidates: seq<Candidate>, chosen: seq<FairSelect.Item>) {
    forall k :: 0 <= k < |candidates| ==> candidates[k].item in chosen
  }

  // Every candidate is returned exactly when there are no more of them than the cap.
  lemma AllChosenExactlyWhen(candidates: seq<Candidate>, cap: nat, reserved: nat)
    requires FairSelect.DistinctOrders(Items(candidates))
    ensures AllChosen(candidates, SelectFair.Select(Items(candidates), cap, reserved)) <==> |candidates| <= cap
  {
    SelectFair.SelectTakesAllExactlyWhen(Items(candidates), cap, reserved);
    AllItemsChosen(candidates, SelectFair.Select(Items(candidates), cap, reserved));
  }

  lemma AllItemsChosen(candidates: seq<Candidate>, chosen: seq<FairSelect.Item>)
    ensures AllChosen(candidates, chosen) <==> forall x :: x in Items(candidates) ==> x in chosen
  {
    var items := Items(candidates);
    assert forall k :: 0 <= k < |candidates| ==> items[k] == candidates[k].item && items[k] in items;
    forall x | x in items && AllChosen(candidates, chosen) ensures x in chosen {
      var k :| 0 <= k < |items| && items[k] == x;
      assert candidates[k].item == x;
    }
  }

  // The answer: a fair selection, how much it left behind, and whether the read was complete.
  method Answer(candidates: seq<Candidate>, count: nat, cursor: Option<Cursor>, cap: nat, reserved: nat, truncatedPlan: bool)
    returns (read: Read)
    requires FairSelect.DistinctOrders(Items(candidates))
    ensures read.candidates == candidates
    ensures read.chosen == SelectFair.Select(Items(candidates), cap, reserved)
    ensures |read.chosen| == Min(cap, |candidates|)
    ensures read.more == |candidates| - |read.chosen| + Max(0, count - CANDIDATE_WINDOW)
    ensures read.truncated <==> truncatedPlan || count > CANDIDATE_WINDOW
    ensures read.next == NextCursor(candidates, cursor)
  {
    SelectFair.SelectFillsTheCap(Items(candidates), cap, reserved);
    var chosen := SelectFair.SelectLoops(Items(candidates), cap, reserved);
    var beyond := Max(0, count - CANDIDATE_WINDOW);
    var next := if candidates == [] then cursor else Some(CursorOf(candidates[|candidates| - 1].row));
    return Read(chosen, candidates, next, |candidates| - |chosen| + beyond, truncatedPlan || beyond > 0);
  }

  ghost predicate IsWanted(row: Row, store: seq<Row>, topic: Text, cursor: Option<Cursor>, now: int) {
    exists i: nat :: i < |store| && store[i] == row && Wanted(store, topic, cursor, now, i)
  }

  // Nothing comes from another topic, from before the cursor, or from outside the store.
  lemma CandidatesAreWanted(candidates: seq<Candidate>, decode: Decoder, store: seq<Row>, topic: Text,
                            cursor: Option<Cursor>, now: int)
    requires IsStore(store) && (cursor.Some? ==> cursor.value.unixTs < MAX_UNIX_TS)
    requires AllStand(candidates, Poll(store, topic, SinceParam(cursor, now).since, now), decode)
    ensures forall k :: 0 <= k < |candidates| ==> IsWanted(candidates[k].row, store, topic, cursor, now)
  {
    var rows := Poll(store, topic, SinceParam(cursor, now).since, now);
    var at := PollIsExact(store, topic, cursor, now);
    forall k | 0 <= k < |candidates| ensures IsWanted(candidates[k].row, store, topic, cursor, now) {
      assert Stands(candidates[k], rows, decode);
      var n: nat :| StandsFor(candidates[k], rows, decode, n);
      assert at[n] in at && store[at[n]] == rows[n];
    }
  }

  // fetch: plan from the cursor, poll, decode, select. A read not reported truncated kept every accepted
  // row of the poll, what it kept is what the cursor asks the topic for, and the next cursor comes from a polled row.
  method Fetch(store: seq<Row>, topic: Text, cursor: Option<Cursor>, limit: Option<nat>, now: int, decode: Decoder)
    returns (read: Read)
    ensures var plan := SinceParam(cursor, now);
            var rows := Poll(store, topic, plan.since, now);
            && (read.truncated <==> plan.truncated || |rows| > 200)
            && Gathered(read.candidates, rows, decode)
            && (!read.truncated ==>
                  forall n :: 0 <= n < |rows| && decode(n, rows[n]).Some? ==> Kept(read.candidates, rows[n]))
            && read.next == NextCursor(read.candidates, cursor)
            && read.more == |read.candidates| - |read.chosen| + Max(0, |rows| - 200)
    ensures var cap := if limit.Some? then Min(limit.value, 20) else 20;
            && |read.chosen| == Min(cap, |read.candidates|)
            && (AllChosen(read.candidates, read.chosen) <==> |read.candidates| <= cap)
            && read.chosen == SelectFair.Select(Items(read.candidates), cap, 5)
    ensures read.more == 0 ==> AllChosen(read.candidates, read.chosen)
    ensures !read.truncated && AllChosen(read.candidates, read.chosen) ==> read.more == 0
    ensures IsStore(store) && (cursor.Some? ==> cursor.value.unixTs < MAX_UNIX_TS) ==>
              forall k :: 0 <= k < |read.candidates| ==> IsWanted(read.candidates[k].row, store, topic, cursor, now)
  {
    var plan := SinceParam(cursor, now);
    var rows := Poll(store, topic, plan.since, now);
    var candidates := Gather(rows, decode);
    if IsStore(store) && (cursor.Some? ==> cursor.value.unixTs < MAX_UNIX_TS) {
      CandidatesAreWanted(candidates, decode, store, topic, cursor, now);
    }
    if |rows| <= CANDIDATE_WINDOW { WholeWindowKept(candidates, rows, decode); }
    AllChosenExactlyWhen(candidates, CapFor(limit), FairSelect.RESERVED_SLOTS);
    read := Answer(candidates, |rows|, cursor, CapFor(limit), FairSelect.RESERVED_SLOTS, plan.truncated);
  }

  // ------------------------------------------------------------ a chain of reads ---

  // One read of a chain: when it happened, how many messages were stored by then, the stored row its
  // cursor came from.
  datatype Step = Step(now: nat, stored: nat, cursor: nat)

  // Each read polls the store as it was, starts from a stored row, and is not reported truncated; the next
  // one starts from the same row or from one the previous read polled.
  ghost predicate Chain(store: seq<Row>, topic: Text, steps: seq<Step>) {
    && IsStore(store)
    && (forall k :: 0 <= k < |steps| ==>
          && steps[k].cursor < steps[k].stored <= |store|
          && store[steps[k].stored - 1].at <= steps[k].now
          && store[steps[k].cursor].time < MAX_UNIX_TS
          && !SinceParam(Some(CursorOf(store[steps[k].cursor])), steps[k].now).truncated)
    && (forall k :: 0 < k < |steps| ==>
          steps[k - 1].stored <= steps[k].stored && steps[k].cursor < steps[k - 1].stored)
  }

  function Polled(store: seq<Row>, topic: Text, step: Step): seq<Row>
    requires step.cursor < step.stored <= |store|
  {
    Poll(store[..step.stored], topic, SinceParam(Some(CursorOf(store[step.cursor])), step.now).since, step.now)
  }

  lemma PrefixIsStore(store: seq<Row>, n: nat)
    requires IsStore(store) && n <= |store|
    ensures IsStore(store[..n])
  {
  }

  // Over a whole chain of reads, each continuing from the last, no message published on the topic after
  // the first cursor is missed: some read of the chain polled it.
  lemma {:induction false} ChainMissesNothing(store: seq<Row>, topic: Text, steps: seq<Step>, i: nat)
    requires Chain(store, topic, steps) && steps != []
    requires steps[0].cursor < i < steps[|steps| - 1].stored && store[i].topic == topic
    ensures exists k :: 0 <= k < |steps| && store[i] in Polled(store, topic, steps[k])
    decreases |steps|
  {
    var last := |steps| - 1;
    if last > 0 && i < steps[last - 1].stored {
      ChainPrefix(store, topic, steps, last);
      var before := steps[..last];
      ChainMissesNothing(store, topic, before, i);
      var k :| 0 <= k < last && store[i] in Polled(store, topic, before[k]);
      assert before[k] == steps[k];
    } else {
      LastReadPolls(store, topic, steps, i);
    }
  }

  lemma LastReadPolls(store: seq<Row>, topic: Text, steps: seq<Step>, i: nat)
    requires Chain(store, topic, steps) && steps != []
    requires steps[0].cursor < i < steps[|steps| - 1].stored && store[i].topic == topic
    requires |steps| > 1 ==> steps[|steps| - 2].stored <= i
    ensures store[i] in Polled(store, topic, steps[|steps| - 1])
  {
    ReadPolls(store, topic, steps[|steps| - 1], i);
  }

  lemma ChainPrefix(store: seq<Row>, topic: Text, steps: seq<Step>, n: nat)
    requires Chain(store, topic, steps) && n <= |steps|
    ensures Chain(store, topic, steps[..n])
  {
    var shorter := steps[..n];
    assert forall k :: 0 <= k < n ==> shorter[k] == steps[k];
  }

  lemma ReadPolls(store: seq<Row>, topic: Text, step: Step, i: nat)
    requires IsStore(store) && step.cursor < i < step.stored <= |store| && store[i].topic == topic
    requires store[step.stored - 1].at <= step.now && store[step.cursor].time < MAX_UNIX_TS
    requires !SinceParam(Some(CursorOf(store[step.cursor])), step.now).truncated
    ensures store[i] in Polled(store, topic, step)
  {
    var rows := store[..step.stored];
    PrefixIsStore(store, step.stored);
    assert rows[step.cursor] == store[step.cursor] && rows[i] == store[i];
    UntruncatedPollMissesNothing(rows, topic, step.cursor, i, step.now);
  }
}
