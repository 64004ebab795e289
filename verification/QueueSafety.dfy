/** One fate for every envelope, first in first out, and rising sequence numbers, over any run of the queue. */
module QueueSafety {
  import opened Basics
  import opened OfflineQueue
  import opened Sorting

  predicate Rising(entries: seq<Entry>) {
    forall i, j :: 0 <= i < j < |entries| ==> entries[i].envelope.serial < entries[j].envelope.serial
  }

  // What the file holds is exactly what the ledger calls pending, oldest first, within the cap.
  ghost predicate QueueOk(w: Snapshot) {
    var entries, fates := Entries(w), w.ledger.fates;
    |entries| <= 200 && Rising(entries) &&
    (forall i :: 0 <= i < |entries| ==> entries[i].envelope.serial < |fates|) &&
    (forall s :: 0 <= s < |fates| ==> (fates[s] == Pending <==> Carries(entries, s)))
  }

  // Attempts: numbers rise, envelopes go in order, and a delivered one is never tried again.
  ghost predicate InSequence(attempts: seq<Attempt>, last: Option<int>) {
    (forall i, j :: 0 <= i < j < |attempts| ==>
      attempts[i].senderSeq < attempts[j].senderSeq && Before(attempts[i], attempts[j].serial)) &&
    (forall i :: 0 <= i < |attempts| ==> last.Some? && attempts[i].senderSeq <= last.value)
  }

  predicate Before(a: Attempt, serial: nat) { a.serial <= serial && (a.delivered ==> a.serial < serial) }

  ghost predicate AheadOf(attempts: seq<Attempt>, entries: seq<Entry>) {
    forall i, k :: 0 <= i < |attempts| && 0 <= k < |entries| ==> Before(attempts[i], entries[k].envelope.serial)
  }

  // The fate Sent and the delivered attempts tell the same story.
  ghost predicate Accounted(l: Ledger) {
    (forall i :: 0 <= i < |l.attempts| ==>
      l.attempts[i].serial < |l.fates| &&
      (l.attempts[i].delivered ==> l.fates[l.attempts[i].serial] == Sent(l.attempts[i].senderSeq))) &&
    (forall s :: 0 <= s < |l.fates| && l.fates[s].Sent? ==> Delivered(l, s))
  }

  ghost predicate Delivered(l: Ledger, s: nat)
    requires s < |l.fates| && l.fates[s].Sent?
  {
    exists i :: 0 <= i < |l.attempts| && l.attempts[i] == Attempt(s, l.fates[s].senderSeq, true)
  }

  ghost predicate Valid(w: Snapshot) {
    QueueOk(w) && InSequence(w.ledger.attempts, w.senderSeq) && AheadOf(w.ledger.attempts, Entries(w)) &&
    Accounted(w.ledger)
  }

  // A fate other than Pending is final, and the ledger only grows.
  ghost predicate Advances(l: Ledger, m: Ledger) {
    |l.fates| <= |m.fates| && l.attempts <= m.attempts &&
    forall s :: 0 <= s < |l.fates| && l.fates[s] != Pending ==> m.fates[s] == l.fates[s]
  }

  lemma AdvancesTransitive(a: Ledger, b: Ledger, c: Ledger)
    requires Advances(a, b) && Advances(b, c)
    ensures Advances(a, c)
  {
  }

  // ------------------------------------------------------- entries that leave ---

  // Entries that go were pending, so no settled fate changes.
  lemma MarkPending(l: Ledger, go: seq<Entry>, fate: Fate)
    requires Accounted(l) && fate != Pending && !fate.Sent?
    requires forall s: nat :: Carries(go, s) ==> s < |l.fates| && l.fates[s] == Pending
    ensures Accounted(Mark(l, go, fate)) && Advances(l, Mark(l, go, fate))
  {
    var m := Mark(l, go, fate);
    forall s | 0 <= s < |m.fates| && m.fates[s].Sent? ensures Delivered(m, s) {
      assert Delivered(l, s);
      var i :| 0 <= i < |l.attempts| && l.attempts[i] == Attempt(s, l.fates[s].senderSeq, true);
      assert m.attempts[i] == Attempt(s, m.fates[s].senderSeq, true);
    }
  }

  // The entries split into those that stay and those that go.
  ghost predicate Splits(entries: seq<Entry>, stay: seq<Entry>, go: seq<Entry>) {
    forall s: nat :: (Carries(entries, s) <==> Carries(stay, s) || Carries(go, s)) && !(Carries(stay, s) && Carries(go, s))
  }

  lemma LeavingKeepsValid(w: Snapshot, stay: seq<Entry>, go: seq<Entry>, fate: Fate, next: Snapshot)
    requires Valid(w) && Splits(Entries(w), stay, go) && Rising(stay) && |stay| <= |Entries(w)|
    requires fate != Pending && !fate.Sent?
    requires next.ledger == Mark(w.ledger, go, fate) && Entries(next) == stay && next.senderSeq == w.senderSeq
    ensures Valid(next) && Advances(w.ledger, next.ledger)
  {
    StaysAhead(w.ledger.attempts, Entries(w), stay, go);
    MarkPending(w.ledger, go, fate);
    forall i | 0 <= i < |stay| ensures stay[i].envelope.serial < |w.ledger.fates| {
      assert Carries(stay, stay[i].envelope.serial);
    }
  }

  lemma StaysAhead(attempts: seq<Attempt>, entries: seq<Entry>, stay: seq<Entry>, go: seq<Entry>)
    requires AheadOf(attempts, entries) && Splits(entries, stay, go)
    ensures AheadOf(attempts, stay)
  {
    forall i, k | 0 <= i < |attempts| && 0 <= k < |stay| ensures Before(attempts[i], stay[k].envelope.serial) {
      assert Carries(stay, stay[k].envelope.serial);
      assert Carries(entries, stay[k].envelope.serial);
    }
  }

  lemma {:induction false} FilterRises(entries: seq<Entry>, p: Entry -> bool)
    requires Rising(entries)
    ensures Rising(Filter(entries, p))
  {
    if entries != [] {
      FilterRises(entries[1..], p);
      var r := Filter(entries[1..], p);
      forall i | 0 <= i < |r| ensures entries[0].envelope.serial < r[i].envelope.serial {
        assert r[i] in r;
        FilterMembers(entries[1..], p, r[i]);
        var j :| 0 <= j < |entries| - 1 && entries[1..][j] == r[i];
        assert entries[j + 1] == r[i];
      }
    }
  }

  lemma CarriesFiltered(entries: seq<Entry>, p: Entry -> bool, s: nat)
    ensures Carries(Filter(entries, p), s) <==>
            exists i :: 0 <= i < |entries| && p(entries[i]) && entries[i].envelope.serial == s
  {
    var r := Filter(entries, p);
    if Carries(r, s) {
      var i :| 0 <= i < |r| && r[i].envelope.serial == s;
      FilterMembers(entries, p, r[i]);
      assert r[i] in entries;
    }
    if i :| 0 <= i < |entries| && p(entries[i]) && entries[i].envelope.serial == s {
      FilterMembers(entries, p, entries[i]);
      assert entries[i] in r;
    }
  }

  lemma SweepSplits(entries: seq<Entry>, now: int)
    requires Rising(entries)
    ensures Splits(entries, Filter(entries, LiveAt(now)), Filter(entries, DeadAt(now)))
    ensures Rising(Filter(entries, LiveAt(now)))
  {
    FilterRises(entries, LiveAt(now));
    forall s: nat ensures
      (Carries(entries, s) <==> Carries(Filter(entries, LiveAt(now)), s) || Carries(Filter(entries, DeadAt(now)), s)) &&
      !(Carries(Filter(entries, LiveAt(now)), s) && Carries(Filter(entries, DeadAt(now)), s))
    {
      CarriesFiltered(entries, LiveAt(now), s);
      CarriesFiltered(entries, DeadAt(now), s);
    }
  }

  lemma SliceSplits(entries: seq<Entry>, n: nat)
    requires Rising(entries) && n <= |entries|
    ensures Splits(entries, entries[n..], entries[..n]) && Rising(entries[n..])
  {
    var stay, go := entries[n..], entries[..n];
    forall s: nat ensures
      (Carries(entries, s) <==> Carries(stay, s) || Carries(go, s)) && !(Carries(stay, s) && Carries(go, s))
    {
      if i :| 0 <= i < |entries| && entries[i].envelope.serial == s {
        assert if i < n then go[i].envelope.serial == s else stay[i - n].envelope.serial == s;
      }
      if j :| 0 <= j < |stay| && stay[j].envelope.serial == s { assert entries[n + j].envelope.serial == s; }
      if j :| 0 <= j < |go| && go[j].envelope.serial == s { assert entries[j].envelope.serial == s; }
    }
  }

  // ----------------------------------------------------------- each operation ---

  lemma AllGo(entries: seq<Entry>)
    ensures Splits(entries, [], entries)
  {
  }

  lemma ReboundKeeps(w: Snapshot, mine: Fingerprint)
    requires Valid(w)
    ensures Valid(Rebound(w, mine)) && Advances(w.ledger, Rebound(w, mine).ledger)
  {
    AllGo(Entries(w));
    if w.file.Some? && w.file.value.binding != mine {
      LeavingKeepsValid(w, [], Entries(w), Discarded, Rebound(w, mine));
    }
  }

  lemma SweptKeeps(w: Snapshot, now: int)
    requires Valid(w)
    ensures Valid(Swept(w, now)) && Advances(w.ledger, Swept(w, now).ledger)
    ensures forall i :: 0 <= i < |Entries(Swept(w, now))| ==> Entries(Swept(w, now))[i].expiresAt > now
  {
    if w.file.Some? {
      var entries := Entries(w);
      SweepSplits(entries, now);
      var live, dead := Filter(entries, LiveAt(now)), Filter(entries, DeadAt(now));
      LeavingKeepsValid(w, live, dead, Expired, Swept(w, now));
      forall i | 0 <= i < |live| ensures live[i].expiresAt > now {
        assert live[i] in live;
        FilterMembers(entries, LiveAt(now), live[i]);
      }
    }
  }

  lemma ClearedKeeps(w: Snapshot, mine: Fingerprint)
    requires Valid(w)
    ensures Valid(ClearedQueue(w, mine)) && Advances(w.ledger, ClearedQueue(w, mine).ledger)
  {
    AllGo(Entries(w));
    LeavingKeepsValid(w, [], Entries(w), Cleared, ClearedQueue(w, mine));
  }

  lemma AppendedCarries(entries: seq<Entry>, entry: Entry, s: nat)
    ensures Carries(entries + [entry], s) <==> Carries(entries, s) || entry.envelope.serial == s
  {
    var all := entries + [entry];
    assert all[|entries|] == entry;
    if i :| 0 <= i < |entries| && entries[i].envelope.serial == s { assert all[i].envelope.serial == s; }
  }

  lemma PushedKeeps(w: Snapshot, mine: Fingerprint, entry: Entry)
    requires Valid(w) && entry.envelope.serial == |w.ledger.fates|
    ensures Valid(Pushed(w, mine, entry)) && Advances(w.ledger, Pushed(w, mine, entry).ledger)
  {
    var entries := Entries(w);
    var all := entries + [entry];
    var over := Excess(all);
    var queued := w.ledger.(fates := w.ledger.fates + [Pending]);
    var next := Pushed(w, mine, entry);
    SliceSplits(all, over);
    AppendKeepsLedger(w, entry);
    forall s: nat | Carries(all[..over], s) ensures s < |queued.fates| && queued.fates[s] == Pending {
      AppendedCarries(entries, entry, s);
      assert Carries(all, s);
    }
    MarkPending(queued, all[..over], CapDropped);
    StaysAhead(queued.attempts, all, all[over..], all[..over]);
    forall s | 0 <= s < |queued.fates| ensures next.ledger.fates[s] == Pending <==> Carries(all[over..], s) {
      AppendedCarries(entries, entry, s);
    }
    forall i | 0 <= i < |all[over..]| ensures all[over..][i].envelope.serial < |queued.fates| {}
  }

  lemma AppendKeepsLedger(w: Snapshot, entry: Entry)
    requires Valid(w) && entry.envelope.serial == |w.ledger.fates|
    ensures var queued := w.ledger.(fates := w.ledger.fates + [Pending]);
      Accounted(queued) && Advances(w.ledger, queued) && AheadOf(queued.attempts, Entries(w) + [entry])
    ensures Rising(Entries(w) + [entry])
  {
    var l, queued := w.ledger, w.ledger.(fates := w.ledger.fates + [Pending]);
    forall s | 0 <= s < |queued.fates| && queued.fates[s].Sent? ensures Delivered(queued, s) {
      assert Delivered(l, s);
      var i :| 0 <= i < |l.attempts| && l.attempts[i] == Attempt(s, l.fates[s].senderSeq, true);
    }
  }

  lemma EnqueuedKeeps(w: Snapshot, mine: Fingerprint, keepalive: int, env: Envelope, allowed: bool, now: int)
    requires Valid(w) && (allowed ==> env.serial == |w.ledger.fates|)
    ensures var next := Enqueued(w, mine, keepalive, env, allowed, now);
      Valid(next) && Advances(w.ledger, next.ledger) &&
      |next.ledger.fates| == |w.ledger.fates| + (if allowed then 1 else 0)
  {
    var rebound := Rebound(w, mine);
    ReboundKeeps(w, mine);
    if allowed {
      SweptKeeps(rebound, now);
      PushedKeeps(Swept(rebound, now), mine, Entry(env, now, QueueExpiryAt(env, keepalive, now)));
    }
  }

  // An overfull queue loses its oldest, and only down to the cap.
  lemma CapDropsOldest(w: Snapshot, mine: Fingerprint, entry: Entry, s: nat)
    requires Valid(w) && entry.envelope.serial == |w.ledger.fates|
    requires s < |w.ledger.fates| && w.ledger.fates[s] == Pending && Pushed(w, mine, entry).ledger.fates[s] != Pending
    ensures var kept := Entries(Pushed(w, mine, entry));
      |kept| == 200 && forall i :: 0 <= i < |kept| ==> s < kept[i].envelope.serial
  {
    var all := Entries(w) + [entry];
    var over := Excess(all);
    AppendKeepsLedger(w, entry);
    assert Carries(all[..over], s);
    var j :| 0 <= j < over && all[..over][j].envelope.serial == s;
    forall i | 0 <= i < |all[over..]| ensures s < all[over..][i].envelope.serial {
      assert all[j].envelope.serial < all[over + i].envelope.serial;
    }
  }

  // ------------------------------------------------------------------- draining ---

  lemma NextSeqRises(last: Option<int>, clock: int)
    requires clock > 0
    ensures NextSeq(last, clock) > 0 && (last.Some? ==> NextSeq(last, clock) > last.value)
  {
  }

  lemma AttemptKeepsSequence(w: Snapshot, clock: int, delivered: bool)
    requires Valid(w) && Entries(w) != [] && clock > 0
    ensures var tried := Attempted(w, clock, delivered); InSequence(tried.ledger.attempts, tried.senderSeq)
  {
    NextSeqRises(w.senderSeq, clock);
    assert Entries(w)[0] == Entries(w)[0];
  }

  lemma FailedKeeps(w: Snapshot, clock: int)
    requires Valid(w) && Entries(w) != [] && clock > 0
    ensures var tried := Attempted(w, clock, false); Valid(tried) && Advances(w.ledger, tried.ledger)
  {
    var tried := Attempted(w, clock, false);
    AttemptKeepsSequence(w, clock, false);
    MoreAttempts(w.ledger, tried.ledger);
  }

  lemma MoreAttempts(l: Ledger, m: Ledger)
    requires l.fates == m.fates && l.attempts <= m.attempts
    requires forall s :: 0 <= s < |l.fates| && l.fates[s].Sent? ==> Delivered(l, s)
    ensures forall s :: 0 <= s < |m.fates| && m.fates[s].Sent? ==> Delivered(m, s)
  {
    forall s | 0 <= s < |m.fates| && m.fates[s].Sent? ensures Delivered(m, s) {
      assert Delivered(l, s);
      var i :| 0 <= i < |l.attempts| && l.attempts[i] == Attempt(s, l.fates[s].senderSeq, true);
      assert m.attempts[i] == Attempt(s, m.fates[s].senderSeq, true);
    }
  }

  lemma RefusedKeeps(w: Snapshot, clock: int)
    requires Valid(w) && Entries(w) != [] && clock > 0
    ensures var next := Shifted(Attempted(w, clock, false), Filtered); Valid(next) && Advances(w.ledger, next.ledger)
  {
    var tried := Attempted(w, clock, false);
    var entries := Entries(w);
    FailedKeeps(w, clock);
    SliceSplits(entries, 1);
    assert entries[..1] == [entries[0]];
    LeavingKeepsValid(tried, entries[1..], [entries[0]], Filtered, Shifted(tried, Filtered));
  }

  lemma DeliveredKeeps(w: Snapshot, clock: int)
    requires Valid(w) && Entries(w) != [] && clock > 0
    ensures var tried := Attempted(w, clock, true);
      var next := Shifted(tried, Sent(tried.senderSeq.value));
      Valid(next) && Advances(w.ledger, next.ledger)
  {
    var tried := Attempted(w, clock, true);
    var number := tried.senderSeq.value;
    var next := Shifted(tried, Sent(number));
    var entries, rest, l, m := Entries(w), Entries(w)[1..], w.ledger, next.ledger;
    var head := entries[0].envelope.serial;
    AttemptKeepsSequence(w, clock, true);
    SliceSplits(entries, 1);
    assert entries[..1] == [entries[0]];
    HeadOnly(entries[0]);
    StaysAhead(l.attempts, entries, rest, [entries[0]]);
    forall k | 0 <= k < |rest| ensures head < rest[k].envelope.serial < |m.fates| {
      assert rest[k] == entries[k + 1];
    }
    assert Carries(entries, head);
    forall s | 0 <= s < |m.fates| && m.fates[s].Sent? ensures Delivered(m, s) {
      if s == head {
        assert m.attempts[|l.attempts|] == Attempt(s, m.fates[s].senderSeq, true);
      } else {
        assert Delivered(l, s);
        var i :| 0 <= i < |l.attempts| && l.attempts[i] == Attempt(s, l.fates[s].senderSeq, true);
        assert m.attempts[i] == Attempt(s, m.fates[s].senderSeq, true);
      }
    }
    forall i | 0 <= i < |m.attempts|
      ensures m.attempts[i].serial < |m.fates| &&
              (m.attempts[i].delivered ==> m.fates[m.attempts[i].serial] == Sent(m.attempts[i].senderSeq))
    {
      if i < |l.attempts| { assert Before(l.attempts[i], entries[0].envelope.serial); }
    }
  }

  lemma HeadOnly(entry: Entry)
    ensures forall s: nat :: Carries([entry], s) <==> entry.envelope.serial == s
  {
    assert [entry][0] == entry;
  }

  ghost predicate Ticking(script: Script) { forall i: nat :: script(i).1 > 0 }

  lemma {:induction false} DrainedKeeps(w: Snapshot, script: Script, i: nat)
    requires Valid(w) && Ticking(script)
    ensures Valid(Drained(w, script, i)) && Advances(w.ledger, Drained(w, script, i).ledger)
    decreases |Entries(w)|
  {
    if Entries(w) != [] {
      var (outcome, clock) := script(i);
      assert script(i).1 > 0;
      match outcome
      case Refuse => RefusedKeeps(w, clock);
      case Deliver =>
        DeliveredKeeps(w, clock);
        var tried := Attempted(w, clock, true);
        DrainedKeeps(Shifted(tried, Sent(tried.senderSeq.value)), script, i + 1);
      case Fail(_) => FailedKeeps(w, clock);
    }
  }

  lemma DrainedQueueKeeps(w: Snapshot, mine: Fingerprint, script: Script, now: int)
    requires Valid(w) && Ticking(script)
    ensures Valid(DrainedQueue(w, mine, script, now))
    ensures Advances(w.ledger, DrainedQueue(w, mine, script, now).ledger)
  {
    ReboundKeeps(w, mine);
    SweptKeeps(Rebound(w, mine), now);
    DrainedKeeps(Swept(Rebound(w, mine), now), script, 0);
    var end := Drained(Swept(Rebound(w, mine), now), script, 0);
    assert Entries(Kept(end, mine)) == Entries(end);
  }

  // ------------------------------------------------------------------ whole runs ---

  // Each under its own binding. TakeNumber is a message posted past the queue.
  datatype Event =
    | Enqueue(mine: Fingerprint, keepalive: int, env: Envelope, allowed: bool, now: int)
    | Drain(mine: Fingerprint, script: Script, now: int)
    | SweepNow(now: int) | Rebind(mine: Fingerprint) | ClearAll(mine: Fingerprint) | TakeNumber(clock: int)

  function Step(w: Snapshot, e: Event): Snapshot {
    match e
    case Enqueue(mine, keepalive, env, allowed, now) => Enqueued(w, mine, keepalive, env, allowed, now)
    case Drain(mine, script, now) => DrainedQueue(w, mine, script, now)
    case SweepNow(now) => Swept(w, now)
    case Rebind(mine) => Rebound(w, mine)
    case ClearAll(mine) => ClearedQueue(w, mine)
    case TakeNumber(clock) => w.(senderSeq := Some(NextSeq(w.senderSeq, clock)))
  }

  function Run(w: Snapshot, events: seq<Event>): Snapshot {
    if events == [] then w else Step(Run(w, events[..|events| - 1]), events[|events| - 1])
  }

  // Serials number the queued envelopes, and clocks are past the epoch.
  ghost predicate Proper(w: Snapshot, e: Event) {
    (e.Enqueue? && e.allowed ==> e.env.serial == |w.ledger.fates|) &&
    (e.Drain? ==> Ticking(e.script)) && (e.TakeNumber? ==> e.clock > 0)
  }

  ghost predicate ProperRun(w: Snapshot, events: seq<Event>) {
    forall k :: 0 <= k < |events| ==> Proper(Run(w, events[..k]), events[k])
  }

  lemma StepKeeps(w: Snapshot, e: Event)
    requires Valid(w) && Proper(w, e)
    ensures Valid(Step(w, e)) && Advances(w.ledger, Step(w, e).ledger)
  {
    match e
    case Enqueue(mine, keepalive, env, allowed, now) => EnqueuedKeeps(w, mine, keepalive, env, allowed, now);
    case Drain(mine, script, now) => DrainedQueueKeeps(w, mine, script, now);
    case SweepNow(now) => SweptKeeps(w, now);
    case Rebind(mine) => ReboundKeeps(w, mine);
    case ClearAll(mine) => ClearedKeeps(w, mine);
    case TakeNumber(clock) => NextSeqRises(w.senderSeq, clock);
  }

  // The last step of a run.
  lemma LastStep(w: Snapshot, events: seq<Event>)
    requires ProperRun(w, events) && events != [] && Valid(Run(w, events[..|events| - 1]))
    ensures Valid(Run(w, events)) && Advances(Run(w, events[..|events| - 1]).ledger, Run(w, events).ledger)
  {
    var n := |events| - 1;
    StepKeeps(Run(w, events[..n]), events[n]);
  }

  lemma PrefixIsProper(w: Snapshot, events: seq<Event>)
    requires ProperRun(w, events) && events != []
    ensures ProperRun(w, events[..|events| - 1])
  {
    var n := |events| - 1;
    assert forall j :: 0 <= j < n ==> events[..n][..j] == events[..j];
  }

  lemma {:induction false} RunKeeps(w: Snapshot, events: seq<Event>, k: nat)
    requires Valid(w) && ProperRun(w, events) && k <= |events|
    ensures Valid(Run(w, events)) && Advances(Run(w, events[..k]).ledger, Run(w, events).ledger)
  {
    if events != [] {
      var before := events[..|events| - 1];
      PrefixIsProper(w, events);
      RunKeeps(w, before, Min(k, |before|));
      LastStep(w, events);
      if k < |events| {
        assert before[..k] == events[..k];
        AdvancesTransitive(Run(w, events[..k]).ledger, Run(w, before).ledger, Run(w, events).ledger);
      } else {
        assert events[..k] == events;
      }
    }
  }

  const NOTHING_QUEUED: Snapshot := Snapshot(None, None, Ledger([], []))

  // Over any run from an empty state: the file holds exactly the pending envelopes, at most 200, in
  // queueing order; a settled fate never changes; and attempts go out with rising numbers, in queueing order,
  // never again after a delivery.
  lemma EveryEnvelopeHasOneFate(events: seq<Event>, k: nat)
    requires ProperRun(NOTHING_QUEUED, events) && k <= |events|
    ensures var w := Run(NOTHING_QUEUED, events);
      QueueOk(w) && InSequence(w.ledger.attempts, w.senderSeq) && Accounted(w.ledger) &&
      Advances(Run(NOTHING_QUEUED, events[..k]).ledger, w.ledger)
  {
    RunKeeps(NOTHING_QUEUED, events, k);
  }

  // ---------------------------------------------------------- the dropped count ---

  predicate IsDrop(fate: Fate) { fate == CapDropped || fate == Discarded || fate == Cleared }

  ghost function Drops(l: Ledger): set<int> {
    set s | 0 <= s < |l.fates| && IsDrop(l.fates[s])
  }

  // dropped_total is the number of envelopes the queue gave up on.
  ghost predicate Counted(w: Snapshot) {
    (if w.file.Some? then w.file.value.droppedTotal else 0) == |Drops(w.ledger)|
  }

  ghost function Serials(entries: seq<Entry>): set<int> {
    set i | 0 <= i < |entries| :: entries[i].envelope.serial as int
  }

  lemma {:induction false} RisingSerials(entries: seq<Entry>)
    requires Rising(entries)
    ensures |Serials(entries)| == |entries|
  {
    if entries != [] {
      var n := |entries| - 1;
      RisingSerials(entries[..n]);
      var last := entries[n].envelope.serial as int;
      assert last !in Serials(entries[..n]);
      forall x ensures x in Serials(entries) <==> x in Serials(entries[..n]) + {last} {
        if x in Serials(entries[..n]) {
          var i :| 0 <= i < n && entries[..n][i].envelope.serial == x;
          assert entries[i].envelope.serial == x;
        }
        if i :| 0 <= i < |entries| && entries[i].envelope.serial == x && i < n { assert entries[..n][i].envelope.serial == x; }
      }
      assert Serials(entries) == Serials(entries[..n]) + {last};
    }
  }

  lemma SerialsCarried(go: seq<Entry>, x: int)
    ensures x in Serials(go) <==> x >= 0 && Carries(go, x)
  {
    if x in Serials(go) {
      var i :| 0 <= i < |go| && go[i].envelope.serial == x;
      assert Carries(go, x);
    }
  }

  // The drops after a marking: those before, and the marked ones when the fate is a drop.
  lemma MarkDrops(l: Ledger, go: seq<Entry>, fate: Fate)
    requires forall s: nat :: Carries(go, s) ==> s < |l.fates| && l.fates[s] == Pending
    ensures Drops(Mark(l, go, fate)) == Drops(l) + (if IsDrop(fate) then Serials(go) else {})
    ensures Drops(l) !! Serials(go)
  {
    forall x ensures x in Serials(go) <==> x >= 0 && Carries(go, x) { SerialsCarried(go, x); }
  }

  lemma MarkCounts(l: Ledger, go: seq<Entry>, fate: Fate)
    requires Rising(go) && forall s: nat :: Carries(go, s) ==> s < |l.fates| && l.fates[s] == Pending
    ensures |Drops(Mark(l, go, fate))| == |Drops(l)| + (if IsDrop(fate) then |go| else 0)
  {
    RisingSerials(go);
    MarkDrops(l, go, fate);
  }

  lemma PendingGo(w: Snapshot, stay: seq<Entry>, go: seq<Entry>)
    requires QueueOk(w) && Splits(Entries(w), stay, go)
    ensures forall s: nat :: Carries(go, s) ==> s < |w.ledger.fates| && w.ledger.fates[s] == Pending
  {
    forall s: nat | Carries(go, s) ensures s < |w.ledger.fates| && w.ledger.fates[s] == Pending {
      assert Carries(Entries(w), s);
      var i :| 0 <= i < |Entries(w)| && Entries(w)[i].envelope.serial == s;
    }
  }

  lemma ReboundCounts(w: Snapshot, mine: Fingerprint)
    requires Valid(w) && Counted(w)
    ensures Counted(Rebound(w, mine))
  {
    AllGo(Entries(w));
    PendingGo(w, [], Entries(w));
    MarkCounts(w.ledger, Entries(w), Discarded);
  }

  lemma SweptCounts(w: Snapshot, now: int)
    requires Valid(w) && Counted(w)
    ensures Counted(Swept(w, now))
  {
    var entries := Entries(w);
    SweepSplits(entries, now);
    FilterRises(entries, DeadAt(now));
    PendingGo(w, Filter(entries, LiveAt(now)), Filter(entries, DeadAt(now)));
    MarkCounts(w.ledger, Filter(entries, DeadAt(now)), Expired);
  }

  lemma PushedCounts(w: Snapshot, mine: Fingerprint, entry: Entry)
    requires Valid(w) && Counted(w) && entry.envelope.serial == |w.ledger.fates|
    ensures Counted(Pushed(w, mine, entry))
  {
    var all := Entries(w) + [entry];
    var over := Excess(all);
    var queued := w.ledger.(fates := w.ledger.fates + [Pending]);
    AppendKeepsLedger(w, entry);
    SliceSplits(all, over);
    forall s: nat | Carries(all[..over], s) ensures s < |queued.fates| && queued.fates[s] == Pending {
      AppendedCarries(Entries(w), entry, s);
      assert Carries(all, s);
    }
    MarkCounts(queued, all[..over], CapDropped);
    assert Drops(queued) == Drops(w.ledger);
  }

  lemma {:induction false} DrainedCounts(w: Snapshot, script: Script, i: nat)
    requires Valid(w) && Counted(w) && Ticking(script)
    ensures Counted(Drained(w, script, i))
    decreases |Entries(w)|
  {
    if Entries(w) != [] {
      var (outcome, clock) := script(i);
      assert script(i).1 > 0;
      var tried := Attempted(w, clock, outcome == Deliver);
      var head := Entries(w)[0];
      HeadOnly(head);
      assert Carries(Entries(w), head.envelope.serial);
      assert Drops(tried.ledger) == Drops(w.ledger);
      MarkCounts(tried.ledger, [head], Filtered);
      MarkCounts(tried.ledger, [head], Sent(tried.senderSeq.value));
      if outcome == Deliver {
        DeliveredKeeps(w, clock);
        DrainedCounts(Shifted(tried, Sent(tried.senderSeq.value)), script, i + 1);
      }
    }
  }

  lemma StepCounts(w: Snapshot, e: Event)
    requires Valid(w) && Counted(w) && Proper(w, e)
    ensures Counted(Step(w, e))
  {
    match e
    case Enqueue(mine, keepalive, env, allowed, now) =>
      ReboundCounts(w, mine);
      ReboundKeeps(w, mine);
      if allowed {
        SweptCounts(Rebound(w, mine), now);
        SweptKeeps(Rebound(w, mine), now);
        PushedCounts(Swept(Rebound(w, mine), now), mine, Entry(env, now, QueueExpiryAt(env, keepalive, now)));
      }
    case Drain(mine, script, now) =>
      ReboundCounts(w, mine);
      ReboundKeeps(w, mine);
      SweptCounts(Rebound(w, mine), now);
      SweptKeeps(Rebound(w, mine), now);
      DrainedCounts(Swept(Rebound(w, mine), now), script, 0);
    case SweepNow(now) => SweptCounts(w, now);
    case Rebind(mine) => ReboundCounts(w, mine);
    case ClearAll(mine) =>
      AllGo(Entries(w));
      PendingGo(w, [], Entries(w));
      MarkCounts(w.ledger, Entries(w), Cleared);
    case TakeNumber(clock) =>
  }

  // Over any run, dropped_total counts exactly the envelopes dropped by the cap, a rebind or a clear.
  lemma {:induction false} DroppedTotalIsExact(events: seq<Event>)
    requires ProperRun(NOTHING_QUEUED, events)
    ensures Counted(Run(NOTHING_QUEUED, events))
  {
    if events == [] {
      assert Drops(NOTHING_QUEUED.ledger) == {};
    } else {
      var n := |events| - 1;
      var before := events[..n];
      assert forall j :: 0 <= j < n ==> before[..j] == events[..j];
      DroppedTotalIsExact(before);
      RunKeeps(NOTHING_QUEUED, before, 0);
      StepCounts(Run(NOTHING_QUEUED, before), events[n]);
    }
  }
}
