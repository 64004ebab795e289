/** At most once, and no false duplicates: what the replay memory guarantees over whole runs. */
module ReplaySafety {
  import opened Basics
  import opened Replay
  import opened Sorting

  // One use of the memory: opened at t, asked about some envelopes, flushed.
  datatype Sitting = Sitting(t: int, offers: seq<Offer>)

  // The store after the offers, and the envelopes consumed, in order.
  function Sit(s: Store, inherited: set<Text>, t: int, offers: seq<Offer>): (Store, seq<Offer>)
    decreases |offers|
  {
    if offers == [] then (s, [])
    else
      var (next, verdict) := Judge(s, inherited, t, offers[0]);
      var (end, log) := Sit(next, inherited, t, offers[1..]);
      (end, (if verdict == Accepted then [offers[0]] else []) + log)
  }

  // The file one sitting leaves.
  function After(file: Store, inherited: set<Text>, s: Sitting): Store {
    Pruned(Sit(Pruned(file, s.t), inherited, s.t, s.offers).0, s.t)
  }

  // Sittings one after another on the same file.
  function Consumed(file: Store, inherited: set<Text>, run: seq<Sitting>): seq<Offer>
    decreases |run|
  {
    if run == [] then []
    else
      var (end, log) := Sit(Pruned(file, run[0].t), inherited, run[0].t, run[0].offers);
      log + Consumed(Pruned(end, run[0].t), inherited, run[1..])
  }

  // How long after opening the memory an envelope may still be consumed.
  const SITTING_MS := 3_000_000

  // Clocks: sittings open in order, and each consumes within SITTING_MS of opening.
  ghost predicate InOrder(run: seq<Sitting>) {
    (forall i, j :: 0 <= i < j < |run| ==> run[i].t <= run[j].t) &&
    (forall i :: 0 <= i < |run| ==> OffersInTime(run[i].t, run[i].offers))
  }

  ghost predicate OffersInTime(t: int, offers: seq<Offer>) {
    forall i :: 0 <= i < |offers| ==> t <= offers[i].now <= t + SITTING_MS
  }

  // No prune finds more than 4000 pairs still in their time.
  ghost predicate WithinCap(file: Store, inherited: set<Text>, run: seq<Sitting>)
    decreases |run|
  {
    run == [] ||
    (var t := run[0].t;
     var end := Sit(Pruned(file, t), inherited, t, run[0].offers).0;
     |Filter(file.pairs, PairLives(t))| <= 4000 && |Filter(end.pairs, PairLives(t))| <= 4000 &&
     WithinCap(Pruned(end, t), inherited, run[1..]))
  }

  predicate SameEnvelope(a: Offer, b: Offer) {
    a.member == b.member && a.senderSeq == b.senderSeq && a.ts == b.ts
  }

  ghost predicate AtMostOnce(log: seq<Offer>) {
    forall i, j :: 0 <= i < j < |log| ==> !SameEnvelope(log[i], log[j])
  }

  // --------------------------------------------------------- what is remembered ---

  // The key was stored, no earlier than since.
  ghost predicate Known(s: Store, key: Text, since: int) {
    exists i :: 0 <= i < |s.pairs| && s.pairs[i].key == key && s.pairs[i].at >= since
  }

  lemma {:induction false} RememberStores(pairs: seq<Pair>, key: Text, t: int)
    ensures exists i :: 0 <= i < |Remember(pairs, key, t)| && Remember(pairs, key, t)[i] == Pair(key, t)
    ensures forall i :: 0 <= i < |pairs| && pairs[i].key != key ==> pairs[i] in Remember(pairs, key, t)
  {
    if pairs == [] || pairs[0].key == key {
      assert Remember(pairs, key, t)[0] == Pair(key, t);
    } else {
      RememberStores(pairs[1..], key, t);
      var r := Remember(pairs[1..], key, t);
      var i :| 0 <= i < |r| && r[i] == Pair(key, t);
      assert Remember(pairs, key, t)[i + 1] == Pair(key, t);
      forall i | 0 <= i < |pairs| && pairs[i].key != key ensures pairs[i] in Remember(pairs, key, t) {
        if i > 0 { assert pairs[i] == pairs[1..][i - 1]; }
      }
    }
  }

  lemma JudgeKeepsKnown(s: Store, inherited: set<Text>, t: int, o: Offer, key: Text, since: int)
    requires Known(s, key, since) && since <= t
    ensures Known(Judge(s, inherited, t, o).0, key, since)
  {
    var k := PairKey(o.member, o.senderSeq);
    var r := Remember(s.pairs, k, t);
    RememberStores(s.pairs, k, t);
    var i :| 0 <= i < |s.pairs| && s.pairs[i].key == key && s.pairs[i].at >= since;
    if key == k {
      var j :| 0 <= j < |r| && r[j] == Pair(k, t);
      assert r[j].key == key && r[j].at >= since;
    } else {
      var j :| 0 <= j < |r| && r[j] == s.pairs[i];
      assert r[j].key == key && r[j].at >= since;
    }
  }

  lemma PruneKeepsKnown(s: Store, t: int, key: Text, since: int)
    requires Known(s, key, since) && t - since <= 3_600_000
    requires |Filter(s.pairs, PairLives(t))| <= 4000
    ensures Known(Pruned(s, t), key, since)
  {
    var i :| 0 <= i < |s.pairs| && s.pairs[i].key == key && s.pairs[i].at >= since;
    FilterMembers(s.pairs, PairLives(t), s.pairs[i]);
    var live := Filter(s.pairs, PairLives(t));
    var j :| 0 <= j < |live| && live[j] == s.pairs[i];
    assert live[j].key == key && live[j].at >= since;
  }

  // -------------------------------------------------------------- at most once ---

  // e has been consumed at or after since; the store knows it for as long as a copy could still be timely.
  ghost predicate Guarded(s: Store, e: Offer, since: int, t: int) {
    Timely(e) && since <= t && e.now <= since + SITTING_MS &&
    (t - since <= 3_600_000 ==> Known(s, PairKey(e.member, e.senderSeq), since))
  }

  ghost predicate Absent(e: Offer, log: seq<Offer>) {
    forall i :: 0 <= i < |log| ==> !SameEnvelope(e, log[i])
  }

  lemma GuardRefuses(s: Store, inherited: set<Text>, t: int, o: Offer, e: Offer, since: int)
    requires Guarded(s, e, since, t) && t <= o.now
    ensures Guarded(Judge(s, inherited, t, o).0, e, since, t)
    ensures Judge(s, inherited, t, o).1 == Accepted ==> !SameEnvelope(e, o)
  {
    if t - since <= 3_600_000 {
      JudgeKeepsKnown(s, inherited, t, o, PairKey(e.member, e.senderSeq), since);
    }
  }

  lemma {:induction false} GuardRefusesAll(s: Store, inherited: set<Text>, t: int, offers: seq<Offer>, e: Offer, since: int)
    requires Guarded(s, e, since, t) && forall i :: 0 <= i < |offers| ==> t <= offers[i].now
    ensures Guarded(Sit(s, inherited, t, offers).0, e, since, t)
    ensures Absent(e, Sit(s, inherited, t, offers).1)
    decreases |offers|
  {
    if offers != [] {
      var (next, verdict) := Judge(s, inherited, t, offers[0]);
      GuardRefuses(s, inherited, t, offers[0], e, since);
      GuardRefusesAll(next, inherited, t, offers[1..], e, since);
    }
  }

  // Once consumed, an envelope is not consumed in any later sitting.
  lemma {:induction false} NeverAgain(file: Store, inherited: set<Text>, run: seq<Sitting>, e: Offer, since: int)
    requires InOrder(run) && WithinCap(file, inherited, run)
    requires forall i :: 0 <= i < |run| ==> since <= run[i].t
    requires run != [] ==> Guarded(file, e, since, run[0].t)
    ensures Absent(e, Consumed(file, inherited, run))
    decreases |run|
  {
    if run != [] {
      var t := run[0].t;
      var key := PairKey(e.member, e.senderSeq);
      var (end, log) := Sit(Pruned(file, t), inherited, t, run[0].offers);
      if t - since <= 3_600_000 { PruneKeepsKnown(file, t, key, since); }
      GuardRefusesAll(Pruned(file, t), inherited, t, run[0].offers, e, since);
      if t - since <= 3_600_000 { PruneKeepsKnown(end, t, key, since); }
      var rest := run[1..];
      assert forall i :: 0 <= i < |rest| ==> rest[i] == run[i + 1];
      NeverAgain(Pruned(end, t), inherited, rest, e, since);
    }
  }

  lemma {:induction false} OnceInASitting(s: Store, inherited: set<Text>, t: int, offers: seq<Offer>)
    requires OffersInTime(t, offers)
    ensures var (end, log) := Sit(s, inherited, t, offers);
      AtMostOnce(log) && forall i :: 0 <= i < |log| ==> Guarded(end, log[i], t, t)
    decreases |offers|
  {
    if offers != [] {
      var o, rest := offers[0], offers[1..];
      var (next, verdict) := Judge(s, inherited, t, o);
      var (end, log) := Sit(next, inherited, t, rest);
      assert forall i :: 0 <= i < |rest| ==> rest[i] == offers[i + 1];
      OnceInASitting(next, inherited, t, rest);
      if verdict == Accepted {
        RememberStores(s.pairs, PairKey(o.member, o.senderSeq), t);
        GuardRefusesAll(next, inherited, t, rest, o, t);
      }
    }
  }

  // Over any run of sittings on one file, no envelope is consumed twice.
  lemma {:induction false} ConsumedAtMostOnce(file: Store, inherited: set<Text>, run: seq<Sitting>)
    requires InOrder(run) && WithinCap(file, inherited, run)
    ensures AtMostOnce(Consumed(file, inherited, run))
    decreases |run|
  {
    if run != [] {
      var t, rest := run[0].t, run[1..];
      var (end, log) := Sit(Pruned(file, t), inherited, t, run[0].offers);
      var later := Consumed(Pruned(end, t), inherited, rest);
      assert forall i :: 0 <= i < |rest| ==> rest[i] == run[i + 1];
      OnceInASitting(Pruned(file, t), inherited, t, run[0].offers);
      ConsumedAtMostOnce(Pruned(end, t), inherited, rest);
      forall i | 0 <= i < |log| ensures Absent(log[i], later) {
        PruneKeepsKnown(end, t, PairKey(log[i].member, log[i].senderSeq), t);
        NeverAgain(Pruned(end, t), inherited, rest, log[i], t);
      }
      assert Consumed(file, inherited, run) == log + later;
    }
  }

  // -------------------------------------------------------- no false duplicates ---

  // Everything the store holds came from one of the envelopes offered before.
  ghost predicate Explained(s: Store, past: seq<Offer>) {
    (forall i :: 0 <= i < |s.pairs| ==>
      exists j :: 0 <= j < |past| && s.pairs[i].key == PairKey(past[j].member, past[j].senderSeq)) &&
    (forall n :: n in s.nonces ==> exists j :: 0 <= j < |past| && past[j].nonce == n)
  }

  lemma JudgeIsExplained(s: Store, inherited: set<Text>, t: int, o: Offer, past: seq<Offer>)
    requires Explained(s, past) && DistinctPairs(s.pairs)
    ensures Explained(Judge(s, inherited, t, o).0, past + [o]) && DistinctPairs(Judge(s, inherited, t, o).0.pairs)
  {
    var key, all := PairKey(o.member, o.senderSeq), past + [o];
    var next := Judge(s, inherited, t, o).0;
    RememberKeepsDistinct(s.pairs, key, t);
    assert all[|past|] == o;
    assert forall j :: 0 <= j < |past| ==> all[j] == past[j];
    forall i | 0 <= i < |next.pairs|
      ensures exists j :: 0 <= j < |all| && next.pairs[i].key == PairKey(all[j].member, all[j].senderSeq)
    {
      if next.pairs[i].key != key {
        assert Stored(s.pairs, next.pairs[i].key);
        var k :| 0 <= k < |s.pairs| && s.pairs[k].key == next.pairs[i].key;
        var j :| 0 <= j < |past| && s.pairs[k].key == PairKey(past[j].member, past[j].senderSeq);
        assert all[j] == past[j];
      }
    }
    forall n | n in next.nonces ensures exists j :: 0 <= j < |all| && all[j].nonce == n {
      if n != o.nonce {
        var j :| 0 <= j < |past| && past[j].nonce == n;
        assert all[j] == past[j];
      }
    }
  }

  lemma PruneIsExplained(s: Store, t: int, past: seq<Offer>)
    requires Explained(s, past) && DistinctPairs(s.pairs)
    ensures Explained(Pruned(s, t), past) && DistinctPairs(Pruned(s, t).pairs)
  {
    PrunedIsBounded(s, t);
    var pairs := Pruned(s, t).pairs;
    forall i | 0 <= i < |pairs|
      ensures exists j :: 0 <= j < |past| && pairs[i].key == PairKey(past[j].member, past[j].senderSeq)
    {
      assert pairs[i] in pairs;
      var k :| 0 <= k < |s.pairs| && s.pairs[k] == pairs[i];
    }
  }

  // The store a run reaches, and everything offered on the way.
  function Reached(file: Store, inherited: set<Text>, run: seq<Sitting>): Store
    decreases |run|
  {
    if run == [] then file
    else Reached(After(file, inherited, run[0]), inherited, run[1..])
  }

  function Offered(run: seq<Sitting>): seq<Offer> {
    if run == [] then [] else run[0].offers + Offered(run[1..])
  }

  lemma {:induction false} SitIsExplained(s: Store, inherited: set<Text>, t: int, offers: seq<Offer>, past: seq<Offer>)
    requires Explained(s, past) && DistinctPairs(s.pairs)
    ensures var end := Sit(s, inherited, t, offers).0; Explained(end, past + offers) && DistinctPairs(end.pairs)
    decreases |offers|
  {
    if offers == [] {
      assert past + offers == past;
    } else {
      JudgeIsExplained(s, inherited, t, offers[0], past);
      SitIsExplained(Judge(s, inherited, t, offers[0]).0, inherited, t, offers[1..], past + [offers[0]]);
      assert past + [offers[0]] + offers[1..] == past + offers;
    }
  }

  lemma AfterIsExplained(file: Store, inherited: set<Text>, s: Sitting, past: seq<Offer>)
    requires Explained(file, past) && DistinctPairs(file.pairs)
    ensures var end := After(file, inherited, s); Explained(end, past + s.offers) && DistinctPairs(end.pairs)
  {
    PruneIsExplained(file, s.t, past);
    SitIsExplained(Pruned(file, s.t), inherited, s.t, s.offers, past);
    PruneIsExplained(Sit(Pruned(file, s.t), inherited, s.t, s.offers).0, s.t, past + s.offers);
  }

  lemma {:induction false} RunIsExplained(file: Store, inherited: set<Text>, run: seq<Sitting>, past: seq<Offer>)
    requires Explained(file, past) && DistinctPairs(file.pairs)
    ensures var end := Reached(file, inherited, run); Explained(end, past + Offered(run)) && DistinctPairs(end.pairs)
    decreases |run|
  {
    if run == [] {
      assert past + Offered(run) == past;
    } else {
      AfterIsExplained(file, inherited, run[0], past);
      var head, rest := run[0].offers, Offered(run[1..]);
      RunIsExplained(After(file, inherited, run[0]), inherited, run[1..], past + head);
      assert (past + head) + rest == past + (head + rest);
    }
  }

  predicate NewTo(o: Offer, past: seq<Offer>) {
    forall j :: 0 <= j < |past| ==>
      (past[j].member != o.member || past[j].senderSeq != o.senderSeq) && past[j].nonce != o.nonce
  }

  lemma NewIsUnknown(s: Store, past: seq<Offer>, o: Offer)
    requires Explained(s, past) && NewTo(o, past)
    ensures !Stored(s.pairs, PairKey(o.member, o.senderSeq)) && o.nonce !in s.nonces
  {
    var key := PairKey(o.member, o.senderSeq);
    forall i | 0 <= i < |s.pairs| ensures s.pairs[i].key != key {
      var j :| 0 <= j < |past| && s.pairs[i].key == PairKey(past[j].member, past[j].senderSeq);
      if s.pairs[i].key == key { PairKeyIsInjective(past[j].member, past[j].senderSeq, o.member, o.senderSeq); }
    }
  }

  // After any run from an empty file and any part of a further sitting, an envelope whose pair and nonce are
  // both new is called a duplicate exactly when its nonce is a name every object answers to.
  lemma NewIsDuplicateOnlyByName(inherited: set<Text>, run: seq<Sitting>, t: int, offers: seq<Offer>, o: Offer)
    requires o.sound && Timely(o) && NewTo(o, Offered(run) + offers)
    ensures var s := Sit(Pruned(Reached(EMPTY, inherited, run), t), inherited, t, offers).0;
      Judge(s, inherited, t, o).1 == Duplicate <==> o.nonce in inherited
  {
    var file := Reached(EMPTY, inherited, run);
    RunFromEmptyIsExplained(inherited, run);
    PruneIsExplained(file, t, Offered(run));
    SitIsExplained(Pruned(file, t), inherited, t, offers, Offered(run));
    NewIsUnknown(Sit(Pruned(file, t), inherited, t, offers).0, Offered(run) + offers, o);
  }

  lemma RunFromEmptyIsExplained(inherited: set<Text>, run: seq<Sitting>)
    ensures var end := Reached(EMPTY, inherited, run); Explained(end, Offered(run)) && DistinctPairs(end.pairs)
  {
    RunIsExplained(EMPTY, inherited, run, []);
    assert [] + Offered(run) == Offered(run);
  }

  // The nonce pattern of the shape check.
  predicate NonceChar(u: Unit) {
    0x30 <= u <= 0x39 || 0x41 <= u <= 0x5a || 0x61 <= u <= 0x7a || u == 0x5f || u == 0x2d
  }

  predicate NoncePattern(nonce: Text) { 8 <= |nonce| <= 128 && forall i :: 0 <= i < |nonce| ==> NonceChar(nonce[i]) }

  // "toString" and "constructor", which every JavaScript object answers to.
  const TO_STRING: Text := [0x74, 0x6f, 0x53, 0x74, 0x72, 0x69, 0x6e, 0x67]
  const CONSTRUCTOR: Text := [0x63, 0x6f, 0x6e, 0x73, 0x74, 0x72, 0x75, 0x63, 0x74, 0x6f, 0x72]

  // Both pass for nonces, so a first envelope that carries one is refused by an empty memory.
  lemma InheritedNamesAreNonces(inherited: set<Text>, o: Offer, t: int)
    requires o.sound && Timely(o) && {TO_STRING, CONSTRUCTOR} <= inherited
    requires o.nonce == TO_STRING || o.nonce == CONSTRUCTOR
    ensures NoncePattern(o.nonce) && Judge(Pruned(EMPTY, t), inherited, t, o).1 == Duplicate
  {
    if o.nonce == TO_STRING {
      assert o.nonce in {TO_STRING, CONSTRUCTOR};
    } else {
      assert o.nonce in {TO_STRING, CONSTRUCTOR};
    }
  }
}
