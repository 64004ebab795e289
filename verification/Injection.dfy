/**
 Injection, hooks/user-prompt-submit.js: every turn renders the waiting digest, and a parent's unmuted turn
 consumes what was rendered - from the digest, into the replay memory, past the watermark.
 */
module Injection {
  import opened Basics
  import opened Sorting
  import Render
  import RenderSafety
  import Replay

  // from and senderSeq are the replay key; from [] and senderSeq None stand for missing ones.
  datatype Item = Item(kind: string, member: string, text: string, priority: bool,
                       from: Text, senderSeq: Option<nat>, nonce: Option<Text>)

  // A read position: a sequence number on the relay, a message id and time on ntfy.
  datatype Cursor = AtSeq(n: nat) | AtMessage(id: Text, unixTs: int)

  // ------------------------------------------------------------------ the watermark ---

  function Position(c: Cursor): int { if c.AtSeq? then c.n else c.unixTs }

  // cursorIsAhead: strictly on the relay, where a missing watermark is 0; at or past on ntfy.
  predicate Ahead(relay: bool, next: Cursor, current: Option<Cursor>) {
    if relay then Position(next) > (if current.Some? then Position(current.value) else 0)
    else current.None? || Position(next) >= Position(current.value)
  }

  function Advanced(relay: bool, next: Option<Cursor>, current: Option<Cursor>): Option<Cursor> {
    if next.Some? && Ahead(relay, next.value, current) then next else current
  }

  predicate NotBefore(a: Option<Cursor>, b: Option<Cursor>) {
    b.Some? ==> a.Some? && Position(a.value) >= Position(b.value)
  }

  // ------------------------------------------------------------- the specification ---

  const PriorityFirst: Item -> int := (i: Item) => if i.priority then 0 else 1

  // buildView's order: priority items first, otherwise as they came.
  function InOrder(items: seq<Item>): seq<Item> { SortBy(items, PriorityFirst) }

  function ForView(items: seq<Item>): (r: seq<Render.Item>)
    ensures |r| == |items|
    ensures forall i :: 0 <= i < |items| ==>
      r[i] == Render.Item(items[i].kind, items[i].member, items[i].text, items[i].priority)
  {
    if items == [] then []
    else [Render.Item(items[0].kind, items[0].member, items[0].text, items[0].priority)] + ForView(items[1..])
  }

  // The digest's items, what has been consumed of it, and the watermark.
  datatype Progress = Progress(items: seq<Item>, consumed: seq<Item>, watermark: Option<Cursor>)

  // The end of a turn that showed k of these items: whatever the digest holds by then, what was not shown
  // replaces it, and the watermark follows the cursor the digest has by then.
  function Finish(p: Progress, view: seq<Item>, k: nat, relay: bool, next: Option<Cursor>): Progress
    requires k <= |view|
  {
    if k == 0 then p else Progress(view[k..], p.consumed + view[..k], Advanced(relay, next, p.watermark))
  }

  // A turn that consumes the first k items in order, with no refresh in between.
  function Consume(p: Progress, k: nat, relay: bool, next: Option<Cursor>): Progress
    requires k <= |p.items|
  {
    Finish(p, InOrder(p.items), k, relay, next)
  }

  // What a refresh writes.
  datatype Digest = Digest(items: seq<Item>, next: Option<Cursor>)

  function Refreshed(p: Progress, during: Option<Digest>): Progress {
    if during.Some? then p.(items := during.value.items) else p
  }

  function Remembered(s: Replay.Store, now: int, items: seq<Item>): Replay.Store {
    if items == [] then s
    else
      var before, i := Remembered(s, now, items[..|items| - 1]), items[|items| - 1];
      if i.from != [] && i.senderSeq.Some? then Replay.Added(before, now, i.from, i.senderSeq.value, i.nonce) else before
  }

  // The replay memory after a turn that showed these items: opened, told of them without being asked, flushed.
  function TurnStored(s: Replay.Store, now: int, items: seq<Item>): Replay.Store {
    Replay.Pruned(Remembered(Replay.Pruned(s, now), now, items), now)
  }

  // ----------------------------------------------------------------------- the program ---

  class Session {
    const relay: bool
    const seen: Replay.SeenFile
    var items: seq<Item>
    var nextCursor: Option<Cursor>
    var watermark: Option<Cursor>
    var pendingCursorCommit: bool
    ghost var consumed: seq<Item>

    // A fresh digest, as a refresh leaves it.
    constructor (relay: bool, seen: Replay.SeenFile, items: seq<Item>, nextCursor: Option<Cursor>, watermark: Option<Cursor>)
      ensures this.relay == relay && this.seen == seen && this.nextCursor == nextCursor
      ensures Now() == Progress(items, [], watermark)
    {
      this.relay := relay;
      this.seen := seen;
      this.items := items;
      this.nextCursor := nextCursor;
      this.watermark := watermark;
      pendingCursorCommit := false;
      consumed := [];
    }

    ghost function Now(): Progress
      reads this
    {
      Progress(items, consumed, watermark)
    }

    method AdvanceWatermark(next: Cursor) returns (advanced: bool)
      modifies this`watermark
      ensures watermark == Advanced(relay, Some(next), old(watermark))
      ensures watermark == if advanced then Some(next) else old(watermark)
      ensures relay && next.AtSeq? && (old(watermark).Some? ==> old(watermark).value.AtSeq?) ==>
        (advanced <==> next.n > if old(watermark).Some? then old(watermark).value.n else 0)
      ensures !relay && next.AtMessage? && (old(watermark).Some? ==> old(watermark).value.AtMessage?) ==>
        (advanced <==> old(watermark).None? || next.unixTs >= old(watermark).value.unixTs)
    {
      advanced := Ahead(relay, next, watermark);
      if advanced { watermark := Some(next); }
    }

    // A refresh replaces the digest.
    method Refresh(digest: Digest)
      modifies this`items, this`nextCursor
      ensures Now() == Refreshed(old(Now()), Some(digest)) && nextCursor == digest.next
    {
      items := digest.items;
      nextCursor := digest.next;
    }

    // Consumes exactly the items the plan rendered; returns how many. A refresh may land after the digest was read
    // back and before it is written.
    method Advance(view: seq<Item>, muted: bool, child: bool, digestCap: nat, now: int, inherited: set<Text>,
                   late: Option<Digest>)
      returns (shown: nat)
      modifies this, seen
      ensures shown == if muted || child then 0 else Min(|view|, Min(digestCap, 5))
      ensures Now() == Finish(old(Now()), view, shown, relay, nextCursor) && nextCursor == old(nextCursor)
      ensures seen.contents == if shown == 0 then old(seen.contents)
        else TurnStored(old(seen.contents), now, view[..shown])
    {
      shown := 0;
      if muted { return; }
      if child { return; }
      if view == [] { return; }
      var cap := Max(0, Min(digestCap, Render.INJECT_CAP));
      if cap == 0 { return; }
      shown := Min(|view|, cap);
      Remember(view[..shown], now, inherited);
      Store(view, shown, late);
    }

    // What was rendered leaves the digest, the rest is carried, and the watermark follows the cursor read back.
    method Store(view: seq<Item>, shown: nat, late: Option<Digest>)
      requires 0 < shown <= |view|
      modifies this
      ensures Now() == Finish(old(Now()), view, shown, relay, nextCursor) && nextCursor == old(nextCursor)
    {
      var stored := Digest(items, nextCursor);
      if late.Some? { Refresh(late.value); }
      items, nextCursor := view[shown..], stored.next;
      consumed := consumed + view[..shown];
      if nextCursor.Some? {
        var advanced := AdvanceWatermark(nextCursor.value);
        if advanced { pendingCursorCommit := true; }
      }
    }

    method Remember(rendered: seq<Item>, now: int, inherited: set<Text>)
      modifies seen
      ensures seen.contents == TurnStored(old(seen.contents), now, rendered)
    {
      var dedupe := new Replay.Dedupe(seen, now, inherited);
      ghost var start := dedupe.store;
      var i := 0;
      while i < |rendered|
        invariant i <= |rendered| && dedupe.store == Remembered(start, now, rendered[..i])
        invariant seen.contents == old(seen.contents)
      {
        var it := rendered[i];
        assert rendered[..i + 1][..i] == rendered[..i];
        if it.from != [] && it.senderSeq.Some? { dedupe.Add(it.from, it.senderSeq.value, it.nonce); }
        i := i + 1;
      }
      assert rendered[..i] == rendered;
      dedupe.Flush();
    }

    // One prompt: build the view, render it, and consume what the chosen plan rendered. Refreshes may land after the
    // view was read, and between the two halves of the turn's own write.
    method Turn(slot: Render.Slot, base: Render.View, muted: bool, child: bool, budget: nat, now: int,
                inherited: set<Text>, during: Option<Digest>, late: Option<Digest>)
      returns (block: string, shown: nat, ghost view: Render.View, ghost plan: Render.Plan)
      modifies this, seen
      ensures view == base.(items := ForView(InOrder(old(items))), muted := muted)
      ensures block == Render.Assemble(slot, view, plan)
      ensures shown == if muted || child then 0 else |Render.First(view.items, plan.digestCap)|
      ensures shown > 0 ==> nextCursor == if during.Some? then during.value.next else old(nextCursor)
      ensures shown > 0 ==> Now() == Finish(Refreshed(old(Now()), during), InOrder(old(items)), shown, relay, nextCursor)
      ensures shown == 0 ==> Now() == Refreshed(Refreshed(old(Now()), during), late)
      ensures shown == 0 ==> nextCursor == if late.Some? then late.value.next
                                           else if during.Some? then during.value.next else old(nextCursor)
      ensures during.None? && late.None? ==>
        Now() == Consume(old(Now()), shown, relay, nextCursor) && nextCursor == old(nextCursor)
      ensures seen.contents == if shown == 0 then old(seen.contents)
        else TurnStored(old(seen.contents), now, InOrder(old(items))[..shown])
    {
      var sorted := InOrder(items);
      view := base.(items := ForView(sorted), muted := muted);
      var chosen: Render.Plan;
      ghost var plans: seq<Render.Plan>;
      ghost var k: nat;
      block, chosen, plans, k := Render.RenderWithPlan(slot, base.(items := ForView(sorted), muted := muted), budget);
      plan := chosen;
      RenderSafety.TrimmingNeverLoosens(plans, Render.Floor(view), 0, k);
      if during.Some? { Refresh(during.value); }
      shown := Advance(sorted, muted, child, chosen.digestCap, now, inherited, late);
      if shown == 0 && late.Some? { Refresh(late.value); }
    }
  }

  // ---------------------------------------------------------------------- whole runs ---

  // Turns between two refreshes: how many items each consumed (0 for a child's or a muted turn).
  ghost predicate Feasible(p: Progress, relay: bool, next: Option<Cursor>, turns: seq<nat>)
    decreases |turns|
  {
    turns != [] ==> turns[0] <= |p.items| && Feasible(Consume(p, turns[0], relay, next), relay, next, turns[1..])
  }

  ghost function Run(p: Progress, relay: bool, next: Option<Cursor>, turns: seq<nat>): Progress
    requires Feasible(p, relay, next, turns)
    decreases |turns|
  {
    if turns == [] then p else Run(Consume(p, turns[0], relay, next), relay, next, turns[1..])
  }

  lemma SuffixStaysSorted(sorted: seq<Item>, k: nat)
    requires SortedBy(sorted, PriorityFirst) && k <= |sorted|
    ensures InOrder(sorted[k..]) == sorted[k..]
  {
    SortedIsFixed(sorted[k..], PriorityFirst);
  }

  lemma Regroup(consumed: seq<Item>, sorted: seq<Item>, k: nat)
    requires k <= |sorted|
    ensures consumed + sorted == (consumed + sorted[..k]) + sorted[k..]
  {
  }

  lemma TurnKeepsOrder(p: Progress, k: nat, relay: bool, next: Option<Cursor>)
    requires k <= |p.items|
    ensures var q := Consume(p, k, relay, next);
      q.consumed + InOrder(q.items) == p.consumed + InOrder(p.items) && NotBefore(q.watermark, p.watermark)
  {
    if k > 0 {
      var sorted := InOrder(p.items);
      SortBySorts(p.items, PriorityFirst);
      SuffixStaysSorted(sorted, k);
      Regroup(p.consumed, sorted, k);
    }
  }

  // Over any mix of turns, what was consumed followed by what waits, in order, is the digest as it was, in
  // order; so each item is consumed at most once and none is lost. And the watermark never moves back.
  lemma {:induction false} ConsumedThenWaiting(p: Progress, relay: bool, next: Option<Cursor>, turns: seq<nat>)
    requires Feasible(p, relay, next, turns)
    ensures var q := Run(p, relay, next, turns);
      q.consumed + InOrder(q.items) == p.consumed + InOrder(p.items) &&
      multiset(q.consumed) + multiset(q.items) == multiset(p.consumed) + multiset(p.items) &&
      NotBefore(q.watermark, p.watermark)
    decreases |turns|
  {
    if turns != [] {
      TurnKeepsOrder(p, turns[0], relay, next);
      ConsumedThenWaiting(Consume(p, turns[0], relay, next), relay, next, turns[1..]);
    }
    var q := Run(p, relay, next, turns);
    assert multiset(q.consumed + InOrder(q.items)) == multiset(q.consumed) + multiset(q.items);
    assert multiset(p.consumed + InOrder(p.items)) == multiset(p.consumed) + multiset(p.items);
  }

  // No ordinary item is consumed while a priority item waits.
  lemma PriorityGoesFirst(p: Progress, k: nat, relay: bool, next: Option<Cursor>, i: nat)
    requires k <= |p.items| && i < k && !InOrder(p.items)[i].priority
    ensures forall j :: 0 <= j < |Consume(p, k, relay, next).items| ==> !Consume(p, k, relay, next).items[j].priority
  {
    var sorted := InOrder(p.items);
    SortBySorts(p.items, PriorityFirst);
    forall j | 0 <= j < |sorted[k..]| ensures !sorted[k..][j].priority {
      assert PriorityFirst(sorted[i]) <= PriorityFirst(sorted[k + j]);
    }
  }

  // ------------------------------------------------------------------------- refreshes ---

  // Of the items a refresh brings while a turn is on, one is neither consumed by the turn nor left waiting exactly
  // when the turn consumed anything and the item was not in its view; and the watermark then follows the cursor of
  // the digest that was overwritten.
  lemma RefreshDuringTurn(p: Progress, brought: Digest, k: nat, relay: bool, x: Item)
    requires k <= |p.items| && x in brought.items
    ensures var q := Finish(Refreshed(p, Some(brought)), InOrder(p.items), k, relay, brought.next);
      (x !in q.items && x !in q.consumed[|p.consumed|..] <==> k > 0 && x !in p.items) &&
      (k > 0 ==> q.watermark == Advanced(relay, brought.next, p.watermark))
  {
    var view := InOrder(p.items);
    SameElements(view, p.items, x);
    if k > 0 {
      assert view == view[..k] + view[k..];
      assert (p.consumed + view[..k])[|p.consumed|..] == view[..k];
    } else {
      assert p.consumed[|p.consumed|..] == [];
    }
  }

  // What a fetch from a watermark brings, where every item has a place in the feed and a cursor names one: what is
  // past it (relay numbers, ntfy message ids), or at it or past it (ntfy timestamps); without a watermark, all.
  function Beyond(w: Option<Cursor>, place: Item -> int, placeOf: Cursor -> int, strict: bool): Item -> bool {
    (i: Item) => w.None? || place(i) > placeOf(w.value) || (!strict && place(i) == placeOf(w.value))
  }

  // What a turn leaves waiting had been fetched from the watermark, and the digest's cursor is at its last place. The
  // next fetch brings it back exactly when the turn consumed nothing, or when the feed goes by timestamps and the
  // item is of the cursor's own second; what it does not bring back is dropped, since a refresh replaces the digest.
  lemma CarriedComesBackExactlyWhen(p: Progress, k: nat, relay: bool, next: Cursor, place: Item -> int,
                                    placeOf: Cursor -> int, strict: bool, log: seq<Item>, x: Item)
    requires k <= |p.items| && x in Consume(p, k, relay, Some(next)).items && x in log
    requires Beyond(p.watermark, place, placeOf, strict)(x) && place(x) <= placeOf(next)
    requires Ahead(relay, next, p.watermark)
    ensures var w := Consume(p, k, relay, Some(next)).watermark;
      x in Filter(log, Beyond(w, place, placeOf, strict)) <==> k == 0 || (!strict && place(x) == placeOf(next))
  {
    var w := Consume(p, k, relay, Some(next)).watermark;
    assert w == if k == 0 then p.watermark else Some(next);
    FilterMembers(log, Beyond(w, place, placeOf, strict), x);
  }

  // On the relay, then, what a consuming turn carried over never comes back.
  lemma CarriedIsDroppedByTheNextRefresh(p: Progress, k: nat, next: nat, number: Item -> nat, log: seq<Item>, x: Item)
    requires 0 < k <= |p.items| && forall i :: 0 <= i < |p.items| ==> number(p.items[i]) <= next
    requires x in Consume(p, k, true, Some(AtSeq(next))).items
    ensures x !in Filter(log, PastWatermark(Consume(p, k, true, Some(AtSeq(next))).watermark, number))
  {
    var view := InOrder(p.items);
    SameElements(view, p.items, x);
    var i :| 0 <= i < |view| - k && view[k..][i] == x;
    assert view[k + i] == x;
    FilterMembers(log, PastWatermark(Advanced(true, Some(AtSeq(next)), p.watermark), number), x);
  }

  function PastWatermark(watermark: Option<Cursor>, number: Item -> nat): Item -> bool {
    (i: Item) => number(i) > (if watermark.Some? then Position(watermark.value) else 0)
  }

  // A refresh that lands inside the turn's own write is overwritten whole, cursor and all: the watermark follows the
  // old cursor, so whatever it brought from past that cursor is fetched again.
  lemma LateRefreshIsFetchedAgain(p: Progress, k: nat, relay: bool, next: Option<Cursor>, place: Item -> int,
                                  placeOf: Cursor -> int, strict: bool, log: seq<Item>, x: Item)
    requires k <= |p.items| && x in log
    requires Beyond(p.watermark, place, placeOf, strict)(x) && Beyond(next, place, placeOf, strict)(x)
    ensures x in Filter(log, Beyond(Consume(p, k, relay, next).watermark, place, placeOf, strict))
  {
    FilterMembers(log, Beyond(Consume(p, k, relay, next).watermark, place, placeOf, strict), x);
  }
}
