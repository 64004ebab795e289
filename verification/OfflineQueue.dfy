/**
 The offline queue, lib/state.js: a capped, expiring first-in first-out file that is discarded when the
 transport binding changes and drained under fresh sequence numbers. A ledger beside it records what became
 of every envelope and every attempt to send one.
 */
module OfflineQueue {
  import opened Basics
  import opened Sorting

  const QUEUE_MAX: nat := 200
  const NOTE_EXPIRY_MS := 3_600_000
  const LEAVE_EXPIRY_MS := 86_400_000
  const DEFAULT_CLAIM_TTL := 7200

  type Fingerprint = nat

  // serial numbers the envelopes in the order they are queued; the proofs tell them apart by it.
  datatype Envelope = Envelope(serial: nat, kind: string, ts: int, ttl: Option<int>)

  datatype Entry = Entry(envelope: Envelope, enqueuedAt: int, expiresAt: int)

  // queue.json
  datatype QueueFile = QueueFile(binding: Fingerprint, entries: seq<Entry>, droppedTotal: nat)

  datatype Fate = Pending | Sent(senderSeq: int) | Filtered | Expired | CapDropped | Discarded | Cleared

  datatype Attempt = Attempt(serial: nat, senderSeq: int, delivered: bool)

  datatype Ledger = Ledger(fates: seq<Fate>, attempts: seq<Attempt>)

  datatype Snapshot = Snapshot(file: Option<QueueFile>, senderSeq: Option<int>, ledger: Ledger)

  // ------------------------------------------------------------------- expiry ---

  // queueExpiryAt; clock stands in for a missing or zero ts.
  function QueueExpiryAt(env: Envelope, keepaliveSeconds: int, clock: int): int {
    var base := if env.ts == 0 then clock else env.ts;
    if "presence." <= env.kind then base + 2500 * (if keepaliveSeconds == 0 then 60 else keepaliveSeconds)
    else if "task." <= env.kind then
      base + 1000 * (if env.ttl.Some? && env.ttl.value > 0 then env.ttl.value else DEFAULT_CLAIM_TTL)
    else if env.kind == "ws.leave" then base + LEAVE_EXPIRY_MS
    else base + NOTE_EXPIRY_MS
  }

  // --------------------------------------------------------------- sender_seq ---

  // nextSenderSeq: one more than the last, or the clock when there is none.
  function NextSeq(last: Option<int>, clock: int): int {
    if last.Some? && last.value + 1 > 0 then last.value + 1 else clock
  }

  // ------------------------------------------------------- the specification ---

  function Entries(w: Snapshot): seq<Entry> { if w.file.Some? then w.file.value.entries else [] }

  function Read(w: Snapshot, mine: Fingerprint): QueueFile {
    if w.file.Some? then w.file.value else QueueFile(mine, [], 0)
  }

  predicate Carries(entries: seq<Entry>, serial: nat) {
    exists i :: 0 <= i < |entries| && entries[i].envelope.serial == serial
  }

  // The ledger after these entries met this fate.
  function Mark(l: Ledger, entries: seq<Entry>, fate: Fate): (r: Ledger)
    ensures |r.fates| == |l.fates| && r.attempts == l.attempts
    ensures forall s :: 0 <= s < |l.fates| ==> r.fates[s] == if Carries(entries, s) then fate else l.fates[s]
  {
    l.(fates := seq(|l.fates|, s requires 0 <= s < |l.fates| => if Carries(entries, s) then fate else l.fates[s]))
  }

  function LiveAt(now: int): Entry -> bool { (e: Entry) => e.expiresAt > now }

  function DeadAt(now: int): Entry -> bool { (e: Entry) => e.expiresAt <= now }

  // reconcileBinding
  function Rebound(w: Snapshot, mine: Fingerprint): Snapshot {
    if w.file.None? || w.file.value.binding == mine then w
    else
      var q := w.file.value;
      Snapshot(Some(QueueFile(mine, [], q.droppedTotal + |q.entries|)), w.senderSeq,
            Mark(w.ledger, q.entries, Discarded))
  }

  // sweep
  function Swept(w: Snapshot, now: int): Snapshot {
    if w.file.None? then w
    else
      var q := w.file.value;
      Snapshot(Some(q.(entries := Filter(q.entries, LiveAt(now)))), w.senderSeq,
            Mark(w.ledger, Filter(q.entries, DeadAt(now)), Expired))
  }

  function Excess(entries: seq<Entry>): nat { if |entries| > QUEUE_MAX then |entries| - QUEUE_MAX else 0 }

  // The part of enqueue after the filter let the envelope through.
  function Pushed(w: Snapshot, mine: Fingerprint, entry: Entry): Snapshot {
    var q := Read(w, mine);
    var all := q.entries + [entry];
    var over := Excess(all);
    var queued := w.ledger.(fates := w.ledger.fates + [Pending]);
    Snapshot(Some(QueueFile(mine, all[over..], q.droppedTotal + over)), w.senderSeq, Mark(queued, all[..over], CapDropped))
  }

  function Enqueued(w: Snapshot, mine: Fingerprint, keepalive: int, env: Envelope, allowed: bool, now: int): Snapshot {
    var rebound := Rebound(w, mine);
    if !allowed then rebound
    else Pushed(Swept(rebound, now), mine, Entry(env, now, QueueExpiryAt(env, keepalive, now)))
  }

  // What happens to one attempt: re-signing or the filter refuses it, the transport takes it, or it fails.
  datatype Outcome = Refuse | Deliver | Fail(loud: bool)

  // Outcome and clock of every attempt of a drain, in order.
  type Script = nat -> (Outcome, int)

  function Attempted(w: Snapshot, clock: int, delivered: bool): Snapshot
    requires Entries(w) != []
  {
    var number := NextSeq(w.senderSeq, clock);
    var attempt := Attempt(Entries(w)[0].envelope.serial, number, delivered);
    Snapshot(w.file, Some(number), w.ledger.(attempts := w.ledger.attempts + [attempt]))
  }

  // The head leaves the queue with this fate.
  function Shifted(w: Snapshot, fate: Fate): Snapshot
    requires Entries(w) != []
  {
    var q := w.file.value;
    Snapshot(Some(q.(entries := q.entries[1..])), w.senderSeq, Mark(w.ledger, [q.entries[0]], fate))
  }

  function Drained(w: Snapshot, script: Script, i: nat): Snapshot
    decreases |Entries(w)|
  {
    if Entries(w) == [] then w
    else
      var (outcome, clock) := script(i);
      var tried := Attempted(w, clock, outcome == Deliver);
      match outcome
      case Refuse => Shifted(tried, Filtered)
      case Deliver => Drained(Shifted(tried, Sent(tried.senderSeq.value)), script, i + 1)
      case Fail(_) => tried
  }

  // What a drain reports of its attempts: how many were sent, how many refused, and why it stopped, if it did.
  datatype Tally = Tally(sent: nat, filtered: nat, stopped: Option<bool>)

  function Tallied(w: Snapshot, script: Script, i: nat): Tally
    decreases |Entries(w)|
  {
    if Entries(w) == [] then Tally(0, 0, None)
    else
      var (outcome, clock) := script(i);
      match outcome
      case Refuse => Tally(0, 1, Some(true))
      case Deliver =>
        var tried := Attempted(w, clock, true);
        var rest := Tallied(Shifted(tried, Sent(tried.senderSeq.value)), script, i + 1);
        Tally(rest.sent + 1, rest.filtered, rest.stopped)
      case Fail(loud) => Tally(0, 0, Some(loud))
  }

  // drain ends by writing what it holds, so the file exists afterwards.
  function Kept(w: Snapshot, mine: Fingerprint): Snapshot { w.(file := Some(Read(w, mine))) }

  function DrainedQueue(w: Snapshot, mine: Fingerprint, script: Script, now: int): Snapshot {
    Kept(Drained(Swept(Rebound(w, mine), now), script, 0), mine)
  }

  function ClearedQueue(w: Snapshot, mine: Fingerprint): Snapshot {
    var q := Read(w, mine);
    Snapshot(Some(QueueFile(mine, [], q.droppedTotal + |q.entries|)), w.senderSeq, Mark(w.ledger, q.entries, Cleared))
  }

  // ------------------------------------------------------------- the program ---

  class State {
    var file: Option<QueueFile>
    var senderSeq: Option<int>
    ghost var ledger: Ledger

    constructor ()
      ensures View() == Snapshot(None, None, Ledger([], []))
    {
      file := None;
      senderSeq := None;
      ledger := Ledger([], []);
    }

    ghost function View(): Snapshot
      reads this
    {
      Snapshot(file, senderSeq, ledger)
    }

    method NextSenderSeq(clock: int) returns (value: int)
      modifies this`senderSeq
      ensures value == NextSeq(old(senderSeq), clock) && senderSeq == Some(value)
    {
      value := if senderSeq.Some? then senderSeq.value + 1 else clock;
      if value <= 0 { value := clock; }
      senderSeq := Some(value);
    }
  }

  datatype Report = Report(sent: nat, expired: nat, filtered: nat, droppedOnRebind: nat, remaining: nat,
                           stopped: Option<bool>)

  class Queue {
    const state: State
    const fingerprint: Fingerprint
    const keepalive: int

    constructor (state: State, fingerprint: Fingerprint, keepalive: int)
      ensures this.state == state && this.fingerprint == fingerprint && this.keepalive == keepalive
    {
      this.state := state;
      this.fingerprint := fingerprint;
      this.keepalive := keepalive;
    }

    method ReadFile() returns (q: QueueFile)
      ensures q == Read(state.View(), fingerprint)
    {
      q := if state.file.Some? then state.file.value else QueueFile(fingerprint, [], 0);
    }

    method ReconcileBinding() returns (discarded: nat)
      modifies state
      ensures state.View() == Rebound(old(state.View()), fingerprint)
      ensures discarded == |Entries(old(state.View()))| - |Entries(state.View())|
    {
      var q := ReadFile();
      if q.binding == fingerprint { return 0; }
      discarded := |q.entries|;
      state.file := Some(QueueFile(fingerprint, [], q.droppedTotal + discarded));
      state.ledger := Mark(state.ledger, q.entries, Discarded);
    }

    method Sweep(now: int) returns (expired: nat)
      modifies state
      ensures state.View() == Swept(old(state.View()), now)
      ensures expired == |Entries(old(state.View()))| - |Entries(state.View())|
    {
      var q := ReadFile();
      var live := Filter(q.entries, LiveAt(now));
      expired := |q.entries| - |live|;
      LiveOrDead(q.entries, now);
      if expired > 0 {
        state.file := Some(q.(entries := live));
      } else {
        MarkNothing(state.ledger, Filter(q.entries, DeadAt(now)), Expired);
      }
      state.ledger := Mark(state.ledger, Filter(q.entries, DeadAt(now)), Expired);
    }

    // Some(queued length, dropped, discarded), or None when the filter throws.
    method Enqueue(env: Envelope, allowed: bool, now: int) returns (r: Option<(nat, nat, nat)>)
      modifies state
      ensures state.View() == Enqueued(old(state.View()), fingerprint, keepalive, env, allowed, now)
      ensures r.Some? <==> allowed
      ensures r.Some? ==>
        var before := Rebound(old(state.View()), fingerprint);
        r.value.0 == |Entries(state.View())| && r.value.0 + r.value.1 == |Entries(Swept(before, now))| + 1 &&
        r.value.2 == |Entries(old(state.View()))| - |Entries(before)|
    {
      var discarded := ReconcileBinding();
      if !allowed { return None; }
      var expired := Sweep(now);
      var q := ReadFile();
      var entries := q.entries + [Entry(env, now, QueueExpiryAt(env, keepalive, now))];
      var dropped := 0;
      if |entries| > QUEUE_MAX {
        dropped := |entries| - QUEUE_MAX;
      }
      state.ledger := Mark(state.ledger.(fates := state.ledger.fates + [Pending]), entries[..dropped], CapDropped);
      entries := entries[dropped..];
      state.file := Some(QueueFile(fingerprint, entries, q.droppedTotal + dropped));
      r := Some((|entries|, dropped, discarded));
    }

    method Drain(script: Script, now: int) returns (report: Report)
      modifies state
      ensures state.View() == DrainedQueue(old(state.View()), fingerprint, script, now)
      ensures report.remaining == |Entries(state.View())|
      ensures var bound := Rebound(old(state.View()), fingerprint);
        report.droppedOnRebind == |Entries(old(state.View()))| - |Entries(bound)| &&
        report.expired == |Entries(bound)| - |Entries(Swept(bound, now))| &&
        report.sent + report.filtered + report.remaining == |Entries(Swept(bound, now))| &&
        Tally(report.sent, report.filtered, report.stopped) == Tallied(Swept(bound, now), script, 0)
      ensures report.filtered <= 1 && (report.remaining > 0 ==> report.stopped.Some?)
    {
      var discarded := ReconcileBinding();
      var expired := Sweep(now);
      report := Report(0, expired, 0, discarded, 0, None);
      var i := 0;
      var stop := false;
      ghost var start := state.View();
      var q := ReadFile();
      while !stop && q.entries != []
        invariant q == Read(state.View(), fingerprint)
        invariant report.sent + report.filtered + |q.entries| == |Entries(start)|
        invariant report.droppedOnRebind == discarded && report.expired == expired
        invariant if stop then report.stopped.Some? && report.filtered <= 1 else report.filtered == 0 && report.stopped.None?
        invariant var all := Tallied(start, script, 0);
          if stop then all == Tally(report.sent, report.filtered, report.stopped)
          else var left := Tallied(state.View(), script, i);
               all == Tally(report.sent + left.sent, left.filtered, left.stopped)
        invariant Drained(start, script, 0) == if stop then state.View() else Drained(state.View(), script, i)
        decreases !stop, |q.entries|
      {
        var (outcome, clock) := script(i);
        var head := q.entries[0];
        var number := state.NextSenderSeq(clock);
        state.ledger := state.ledger.(attempts :=
          state.ledger.attempts + [Attempt(head.envelope.serial, number, outcome == Deliver)]);
        match outcome {
          case Refuse =>
            q := q.(entries := q.entries[1..]);
            state.file := Some(q);
            state.ledger := Mark(state.ledger, [head], Filtered);
            report := report.(filtered := report.filtered + 1, stopped := Some(true));
            stop := true;
          case Deliver =>
            q := q.(entries := q.entries[1..]);
            state.file := Some(q);
            state.ledger := Mark(state.ledger, [head], Sent(number));
            report := report.(sent := report.sent + 1);
          case Fail(loud) =>
            report := report.(stopped := Some(loud));
            stop := true;
        }
        i := i + 1;
      }
      state.file := Some(q);
      report := report.(remaining := |q.entries|);
    }

    method Clear() returns (n: nat)
      modifies state
      ensures state.View() == ClearedQueue(old(state.View()), fingerprint)
      ensures n == |Entries(old(state.View()))| && Entries(state.View()) == []
    {
      var q := ReadFile();
      n := |q.entries|;
      state.file := Some(QueueFile(fingerprint, [], q.droppedTotal + n));
      state.ledger := Mark(state.ledger, q.entries, Cleared);
    }
  }

  lemma {:induction false} LiveOrDead(entries: seq<Entry>, now: int)
    ensures |Filter(entries, LiveAt(now))| + |Filter(entries, DeadAt(now))| == |entries|
    ensures Filter(entries, DeadAt(now)) == [] ==> Filter(entries, LiveAt(now)) == entries
  {
    if entries != [] {
      LiveOrDead(entries[1..], now);
      assert entries == [entries[0]] + entries[1..];
    }
  }

  lemma MarkNothing(l: Ledger, entries: seq<Entry>, fate: Fate)
    requires entries == []
    ensures Mark(l, entries, fate) == l
  {
    assert Mark(l, entries, fate).fates == l.fates;
  }

  // ---------------------------------------------------------------- lifetimes ---

  // How long a queued envelope lives from its own time, by kind: a heartbeat two and a half keepalives, by default
  // of a minute, a task the lifetime it names or two hours, a departure a day, a note or a warning an hour.
  lemma LivesFor(env: Envelope, keepalive: int, queued: int, now: int, rest: string)
    requires env.ts != 0
    ensures var live := LiveAt(now)(Entry(env, queued, QueueExpiryAt(env, keepalive, queued))); var age := now - env.ts;
      && (env.kind == "presence." + rest ==>
            (live <==> if keepalive == 0 then age < 150_000 else age < 2500 * keepalive))
      && (env.kind == "task." + rest ==>
            (live <==> if env.ttl.Some? && env.ttl.value > 0 then age < 1000 * env.ttl.value else age < 7_200_000))
      && (env.kind == "ws.leave" ==> (live <==> age < 86_400_000))
      && (env.kind == "note." + rest || env.kind == "warn." + rest || env.kind == "ws.join" ==>
            (live <==> age < 3_600_000))
  {
    if env.kind == "note." + rest {
      assert env.kind[0] == 'n';
    } else if env.kind == "warn." + rest {
      assert env.kind[0] == 'w' && env.kind[1] == 'a';
    }
  }
}
