/**
 Handles of the replay memory that overlap. Each is a copy of the file taken when it was opened, and a flush
 replaces the file, so what the file remembers is what one line of handles took, each opened after the one
 before it had flushed; what any other handle consumed is forgotten.
 */
module ReplayOverlap {
  import opened Basics
  import opened Replay
  import opened ReplaySafety
  import opened Sorting

  // The envelopes a sitting stored: its verdict on them was Accepted or UnknownType.
  function Took(s: Store, inherited: set<Text>, t: int, offers: seq<Offer>): seq<Offer>
    decreases |offers|
  {
    if offers == [] then []
    else
      var (next, verdict) := Judge(s, inherited, t, offers[0]);
      (if verdict.Accepted? || verdict.UnknownType? then [offers[0]] else []) + Took(next, inherited, t, offers[1..])
  }

  // Those stored by the sittings of a line that opened at or after since.
  function Taken(file: Store, inherited: set<Text>, line: seq<Sitting>, since: int): seq<Offer>
    decreases |line|
  {
    if line == [] then []
    else
      var t := line[0].t;
      (if since <= t then Took(Pruned(file, t), inherited, t, line[0].offers) else []) +
      Taken(After(file, inherited, line[0]), inherited, line[1..], since)
  }

  predicate HasPair(took: seq<Offer>, key: Text) {
    exists i :: 0 <= i < |took| && PairKey(took[i].member, took[i].senderSeq) == key
  }

  predicate HasNonce(took: seq<Offer>, nonce: Text) {
    nonce != [] && exists i :: 0 <= i < |took| && took[i].nonce == nonce
  }

  predicate NonceKnown(s: Store, nonce: Text, since: int) { nonce in s.nonces && s.nonces[nonce] >= since }

  // --------------------------------------------------------- what one handle adds ---

  lemma {:induction false} RememberAppends(pairs: seq<Pair>, key: Text, t: int)
    requires !Stored(pairs, key)
    ensures Remember(pairs, key, t) == pairs + [Pair(key, t)]
  {
    if pairs != [] {
      assert forall i :: 0 <= i < |pairs| - 1 ==> pairs[1..][i] == pairs[i + 1];
      RememberAppends(pairs[1..], key, t);
      assert pairs == [pairs[0]] + pairs[1..];
    }
  }

  lemma JudgeKnows(s: Store, inherited: set<Text>, t: int, o: Offer, key: Text, since: int)
    ensures var (next, verdict) := Judge(s, inherited, t, o);
      Known(next, key, since) <==>
      Known(s, key, since) ||
      (since <= t && (verdict.Accepted? || verdict.UnknownType?) && PairKey(o.member, o.senderSeq) == key)
  {
    var (next, verdict) := Judge(s, inherited, t, o);
    if verdict.Accepted? || verdict.UnknownType? {
      var k, n := PairKey(o.member, o.senderSeq), |s.pairs|;
      RememberAppends(s.pairs, k, t);
      assert next.pairs[n] == Pair(k, t);
      assert forall i :: 0 <= i < n ==> next.pairs[i] == s.pairs[i];
    }
  }

  lemma HasConcat(a: seq<Offer>, b: seq<Offer>, key: Text, nonce: Text)
    ensures HasPair(a + b, key) <==> HasPair(a, key) || HasPair(b, key)
    ensures HasNonce(a + b, nonce) <==> HasNonce(a, nonce) || HasNonce(b, nonce)
  {
    assert forall i :: 0 <= i < |a| ==> (a + b)[i] == a[i];
    assert forall i :: 0 <= i < |b| ==> (a + b)[|a| + i] == b[i];
    assert forall i :: |a| <= i < |a + b| ==> (a + b)[i] == b[i - |a|];
  }

  lemma {:induction false} SitKnows(s: Store, inherited: set<Text>, t: int, offers: seq<Offer>, key: Text, nonce: Text,
                                    since: int)
    ensures var end, took := Sit(s, inherited, t, offers).0, Took(s, inherited, t, offers);
      (Known(end, key, since) <==> Known(s, key, since) || (since <= t && HasPair(took, key))) &&
      (NonceKnown(end, nonce, since) <==> NonceKnown(s, nonce, since) || (since <= t && HasNonce(took, nonce)))
    decreases |offers|
  {
    if offers != [] {
      var o := offers[0];
      var (next, verdict) := Judge(s, inherited, t, o);
      var head := if verdict.Accepted? || verdict.UnknownType? then [o] else [];
      JudgeKnows(s, inherited, t, o, key, since);
      SitKnows(next, inherited, t, offers[1..], key, nonce, since);
      HasConcat(head, Took(next, inherited, t, offers[1..]), key, nonce);
      assert HasPair([o], key) <==> PairKey(o.member, o.senderSeq) == key by { assert [o][0] == o; }
      assert HasNonce([o], nonce) <==> nonce != [] && o.nonce == nonce by { assert [o][0] == o; }
    }
  }

  // -------------------------------------------------------- what a prune leaves ---

  lemma CapAddsNothing(pairs: seq<Pair>, cap: nat, p: Pair)
    requires p in Capped(pairs, cap)
    ensures p in pairs
  {
    if |pairs| > cap { FilterMembers(pairs, NotIn(SortBy(pairs, At)[..|pairs| - cap]), p); }
  }

  lemma PruneAddsNothing(s: Store, t: int, p: Pair)
    requires p in Pruned(s, t).pairs
    ensures p in s.pairs && PairLives(t)(p)
  {
    CapAddsNothing(Filter(s.pairs, PairLives(t)), SEEN_MAX, p);
    FilterMembers(s.pairs, PairLives(t), p);
  }

  lemma PruneForgets(s: Store, t: int, key: Text, since: int)
    ensures Known(Pruned(s, t), key, since) ==> Known(s, key, since)
    ensures Stored(Pruned(s, t).pairs, key) ==> Known(s, key, t - 3_600_000)
  {
    var pairs := Pruned(s, t).pairs;
    forall i | 0 <= i < |pairs| && pairs[i].key == key
      ensures exists j :: 0 <= j < |s.pairs| && s.pairs[j] == pairs[i] && t - pairs[i].at <= 3_600_000
    {
      PruneAddsNothing(s, t, pairs[i]);
    }
  }

  // Within the cap a prune forgets nothing but what is past its time.
  lemma PruneKnows(s: Store, t: int, key: Text, nonce: Text)
    requires |Filter(s.pairs, PairLives(t))| <= 4000
    ensures Stored(Pruned(s, t).pairs, key) <==> Known(s, key, t - 3_600_000)
    ensures nonce in Pruned(s, t).nonces <==> NonceKnown(s, nonce, t - 600_000)
  {
    PruneForgets(s, t, key, t - 3_600_000);
    if Known(s, key, t - 3_600_000) { PruneKeepsKnown(s, t, key, t - 3_600_000); }
  }

  // -------------------------------------------------------- what a line remembers ---

  // Whatever the cap drops: a pair known at the end was known at the start or stored by the line.
  lemma {:induction false} LineAddsNothingElse(file: Store, inherited: set<Text>, line: seq<Sitting>, key: Text,
                                               nonce: Text, since: int)
    ensures var end, taken := Reached(file, inherited, line), Taken(file, inherited, line, since);
      (Known(end, key, since) ==> Known(file, key, since) || HasPair(taken, key)) &&
      (NonceKnown(end, nonce, since) ==> NonceKnown(file, nonce, since) || HasNonce(taken, nonce))
    decreases |line|
  {
    if line != [] {
      var t, offers := line[0].t, line[0].offers;
      var s := Pruned(file, t);
      var end := Sit(s, inherited, t, offers).0;
      var head := if since <= t then Took(s, inherited, t, offers) else [];
      PruneForgets(file, t, key, since);
      SitKnows(s, inherited, t, offers, key, nonce, since);
      PruneForgets(end, t, key, since);
      LineAddsNothingElse(Pruned(end, t), inherited, line[1..], key, nonce, since);
      HasConcat(head, Taken(Pruned(end, t), inherited, line[1..], since), key, nonce);
    }
  }

  // Within the cap all of it is, for as long as it is in its time.
  lemma {:induction false} LineKeepsPairs(file: Store, inherited: set<Text>, line: seq<Sitting>, t: int, key: Text)
    requires WithinCap(file, inherited, line) && forall i :: 0 <= i < |line| ==> line[i].t <= t
    ensures var since := t - 3_600_000;
      Known(file, key, since) || HasPair(Taken(file, inherited, line, since), key) ==>
      Known(Reached(file, inherited, line), key, since)
    decreases |line|
  {
    if line != [] {
      var since, at, rest := t - 3_600_000, line[0].t, line[1..];
      var s := Pruned(file, at);
      var end := Sit(s, inherited, at, line[0].offers).0;
      var head := if since <= at then Took(s, inherited, at, line[0].offers) else [];
      if Known(file, key, since) { PruneKeepsKnown(file, at, key, since); }
      SitKnows(s, inherited, at, line[0].offers, key, [], since);
      if Known(end, key, since) { PruneKeepsKnown(end, at, key, since); }
      assert forall i :: 0 <= i < |rest| ==> rest[i] == line[i + 1];
      LineKeepsPairs(Pruned(end, at), inherited, rest, t, key);
      HasConcat(head, Taken(Pruned(end, at), inherited, rest, since), key, []);
    }
  }

  lemma {:induction false} LineKeepsNonces(file: Store, inherited: set<Text>, line: seq<Sitting>, t: int, nonce: Text)
    requires forall i :: 0 <= i < |line| ==> line[i].t <= t
    ensures var since := t - 600_000;
      NonceKnown(file, nonce, since) || HasNonce(Taken(file, inherited, line, since), nonce) ==>
      NonceKnown(Reached(file, inherited, line), nonce, since)
    decreases |line|
  {
    if line != [] {
      var since, at, rest := t - 600_000, line[0].t, line[1..];
      var s := Pruned(file, at);
      var end := Sit(s, inherited, at, line[0].offers).0;
      var head := if since <= at then Took(s, inherited, at, line[0].offers) else [];
      SitKnows(s, inherited, at, line[0].offers, [], nonce, since);
      assert forall i :: 0 <= i < |rest| ==> rest[i] == line[i + 1];
      LineKeepsNonces(Pruned(end, at), inherited, rest, t, nonce);
      HasConcat(head, Taken(Pruned(end, at), inherited, rest, since), [], nonce);
    }
  }

  // What the pair and the nonce of an envelope have to do with a file, asked at t.
  ghost predicate PairRemembered(file: Store, inherited: set<Text>, line: seq<Sitting>, t: int, o: Offer) {
    var key, since := PairKey(o.member, o.senderSeq), t - 3_600_000;
    Known(file, key, since) || HasPair(Taken(file, inherited, line, since), key)
  }

  ghost predicate NonceRemembered(file: Store, inherited: set<Text>, line: seq<Sitting>, t: int, o: Offer) {
    var since := t - 600_000;
    NonceKnown(file, o.nonce, since) || HasNonce(Taken(file, inherited, line, since), o.nonce)
  }

  // An envelope offered to a handle opened at t, on the file a line of sittings left, is called a duplicate only
  // when its nonce is an inherited name, or the line stored its pair within the hour or its nonce within ten
  // minutes (or the file held them at the start); and always then, when no prune is over its cap.
  lemma DuplicateExactlyWhen(file: Store, inherited: set<Text>, line: seq<Sitting>, t: int, o: Offer)
    requires o.sound && Timely(o) && forall i :: 0 <= i < |line| ==> line[i].t <= t
    ensures var verdict := Judge(Pruned(Reached(file, inherited, line), t), inherited, t, o).1;
      var remembered := PairRemembered(file, inherited, line, t, o) || NonceRemembered(file, inherited, line, t, o);
      (verdict == Duplicate ==> o.nonce in inherited || remembered) &&
      (WithinCap(file, inherited, line + [Sitting(t, [])]) && (o.nonce in inherited || remembered) ==>
        verdict == Duplicate)
  {
    var end, key := Reached(file, inherited, line), PairKey(o.member, o.senderSeq);
    PruneForgets(end, t, key, t - 3_600_000);
    LineAddsNothingElse(file, inherited, line, key, o.nonce, t - 3_600_000);
    LineAddsNothingElse(file, inherited, line, key, o.nonce, t - 600_000);
    LineKeepsNonces(file, inherited, line, t, o.nonce);
    if WithinCap(file, inherited, line + [Sitting(t, [])]) {
      CapSplits(file, inherited, line, Sitting(t, []));
      LineKeepsPairs(file, inherited, line, t, key);
      PruneKnows(end, t, key, o.nonce);
    }
  }

  lemma {:induction false} CapSplits(file: Store, inherited: set<Text>, line: seq<Sitting>, last: Sitting)
    ensures WithinCap(file, inherited, line + [last]) <==>
      WithinCap(file, inherited, line) && WithinCap(Reached(file, inherited, line), inherited, [last])
    decreases |line|
  {
    var all := line + [last];
    if line == [] {
      assert all == [last];
    } else {
      assert all[0] == line[0] && all[1..] == line[1..] + [last];
      CapSplits(After(file, inherited, line[0]), inherited, line[1..], last);
    }
  }

  // ------------------------------------------------------- any number of handles ---

  // A handle in use: when it was opened, its copy, and (for the statements) the line of sittings behind the
  // file it copied and what it was asked so far.
  datatype Handle = Handle(t: int, store: Store, line: seq<Sitting>, asked: seq<Offer>)

  // The file, the line of sittings it comes from, and the handles in use.
  datatype Shared = Shared(file: Store, line: seq<Sitting>, open: map<nat, Handle>)

  datatype Call = Open(h: nat, t: int) | Ask(h: nat, o: Offer) | Flush(h: nat)

  // A flush ends the use of a handle; one that is never flushed leaves no trace.
  function Called(inherited: set<Text>, s: Shared, c: Call): Shared {
    match c
    case Open(h, t) => s.(open := s.open[h := Handle(t, Pruned(s.file, t), s.line, [])])
    case Ask(h, o) =>
      if h !in s.open then s
      else
        var d := s.open[h];
        s.(open := s.open[h := d.(store := Judge(d.store, inherited, d.t, o).0, asked := d.asked + [o])])
    case Flush(h) =>
      if h !in s.open then s
      else
        var d := s.open[h];
        Shared(Pruned(d.store, d.t), d.line + [Sitting(d.t, d.asked)], s.open - {h})
  }

  function CalledAll(inherited: set<Text>, s: Shared, calls: seq<Call>): Shared
    decreases |calls|
  {
    if calls == [] then s else CalledAll(inherited, Called(inherited, s, calls[0]), calls[1..])
  }

  ghost predicate HandleFollows(start: Store, inherited: set<Text>, d: Handle) {
    d.store == Sit(Pruned(Reached(start, inherited, d.line), d.t), inherited, d.t, d.asked).0
  }

  ghost predicate FollowsLine(start: Store, inherited: set<Text>, s: Shared) {
    s.file == Reached(start, inherited, s.line) &&
    forall h :: h in s.open ==> HandleFollows(start, inherited, s.open[h])
  }

  lemma {:induction false} ReachedAppend(file: Store, inherited: set<Text>, line: seq<Sitting>, last: Sitting)
    ensures Reached(file, inherited, line + [last]) == After(Reached(file, inherited, line), inherited, last)
    decreases |line|
  {
    var all := line + [last];
    if line == [] {
      assert all == [last] && all[1..] == [];
    } else {
      assert all[0] == line[0] && all[1..] == line[1..] + [last];
      ReachedAppend(After(file, inherited, line[0]), inherited, line[1..], last);
    }
  }

  lemma {:induction false} SitAppend(s: Store, inherited: set<Text>, t: int, offers: seq<Offer>, o: Offer)
    ensures Sit(s, inherited, t, offers + [o]).0 == Judge(Sit(s, inherited, t, offers).0, inherited, t, o).0
    decreases |offers|
  {
    var all := offers + [o];
    if offers == [] {
      assert all == [o] && all[1..] == [];
    } else {
      assert all[0] == offers[0] && all[1..] == offers[1..] + [o];
      SitAppend(Judge(s, inherited, t, offers[0]).0, inherited, t, offers[1..], o);
    }
  }

  lemma CallKeepsLine(start: Store, inherited: set<Text>, s: Shared, c: Call)
    requires FollowsLine(start, inherited, s)
    ensures FollowsLine(start, inherited, Called(inherited, s, c))
  {
    if !c.Open? && c.h in s.open {
      var d := s.open[c.h];
      assert HandleFollows(start, inherited, d);
      if c.Ask? {
        SitAppend(Pruned(Reached(start, inherited, d.line), d.t), inherited, d.t, d.asked, c.o);
      } else {
        ReachedAppend(start, inherited, d.line, Sitting(d.t, d.asked));
      }
    }
  }

  // Whatever the handles do, in any order, the file is what its line of sittings leaves one after another.
  lemma {:induction false} FileFollowsItsLine(start: Store, inherited: set<Text>, s: Shared, calls: seq<Call>)
    requires FollowsLine(start, inherited, s)
    ensures FollowsLine(start, inherited, CalledAll(inherited, s, calls))
    decreases |calls|
  {
    if calls != [] {
      CallKeepsLine(start, inherited, s, calls[0]);
      FileFollowsItsLine(start, inherited, Called(inherited, s, calls[0]), calls[1..]);
    }
  }

  // The line at the end of any calls decides what a copy of an envelope meets, whichever handle it was first
  // consumed through.
  lemma ForgottenExactlyWhen(start: Store, inherited: set<Text>, calls: seq<Call>, t: int, o: Offer)
    requires o.sound && o.known && Timely(o)
    requires var line := CalledAll(inherited, Shared(start, [], map[]), calls).line;
      WithinCap(start, inherited, line + [Sitting(t, [])]) && forall i :: 0 <= i < |line| ==> line[i].t <= t
    ensures var end := CalledAll(inherited, Shared(start, [], map[]), calls);
      Judge(Pruned(end.file, t), inherited, t, o).1 == Accepted <==>
      o.nonce !in inherited &&
      !PairRemembered(start, inherited, end.line, t, o) && !NonceRemembered(start, inherited, end.line, t, o)
  {
    var end := CalledAll(inherited, Shared(start, [], map[]), calls);
    FileFollowsItsLine(start, inherited, Shared(start, [], map[]), calls);
    DuplicateExactlyWhen(start, inherited, end.line, t, o);
  }

  // ------------------------------------------------------------------ two handles ---

  method AskAll(d: Dedupe, offers: seq<Offer>) returns (consumed: seq<Offer>)
    modifies d`store
    ensures (d.store, consumed) == Sit(old(d.store), d.inherited, d.t, offers)
    decreases |offers|
  {
    consumed := [];
    if offers == [] { return; }
    var verdict := d.Accept(offers[0]);
    var rest := AskAll(d, offers[1..]);
    consumed := (if verdict == Accepted then [offers[0]] else []) + rest;
  }

  // Handle b opens before handle a has flushed, and flushes last: the file is what b alone leaves.
  method Overlap(file: SeenFile, inherited: set<Text>, a: Sitting, b: Sitting)
    returns (consumedByA: seq<Offer>, consumedByB: seq<Offer>)
    modifies file
    ensures consumedByA == Sit(Pruned(old(file.contents), a.t), inherited, a.t, a.offers).1
    ensures consumedByB == Sit(Pruned(old(file.contents), b.t), inherited, b.t, b.offers).1
    ensures file.contents == After(old(file.contents), inherited, b)
  {
    var early := new Dedupe(file, a.t, inherited);
    var late := new Dedupe(file, b.t, inherited);
    consumedByA := AskAll(early, a.offers);
    consumedByB := AskAll(late, b.offers);
    early.Flush();
    late.Flush();
  }

  // A pair or nonce the memory holds is not accepted.
  lemma {:induction false} AcceptedWasUnknown(s: Store, inherited: set<Text>, t: int, offers: seq<Offer>, o: Offer)
    requires o in Sit(s, inherited, t, offers).1
    ensures !Stored(s.pairs, PairKey(o.member, o.senderSeq)) && o.nonce !in s.nonces && o.nonce !in inherited
    ensures o.sound && o.known && Timely(o)
    decreases |offers|
  {
    var (next, verdict) := Judge(s, inherited, t, offers[0]);
    if o in Sit(next, inherited, t, offers[1..]).1 {
      AcceptedWasUnknown(next, inherited, t, offers[1..], o);
      if Stored(s.pairs, PairKey(o.member, o.senderSeq)) {
        KeepsStored(s, inherited, t, offers[0], PairKey(o.member, o.senderSeq));
      }
    }
  }

  lemma KeepsStored(s: Store, inherited: set<Text>, t: int, o: Offer, key: Text)
    requires Stored(s.pairs, key)
    ensures Stored(Judge(s, inherited, t, o).0.pairs, key)
  {
    if !Stored(s.pairs, PairKey(o.member, o.senderSeq)) {
      RememberAppends(s.pairs, PairKey(o.member, o.senderSeq), t);
      var i :| 0 <= i < |s.pairs| && s.pairs[i].key == key;
      assert (s.pairs + [Pair(PairKey(o.member, o.senderSeq), t)])[i].key == key;
    }
  }

  // What a handle consumed was not on the file it opened.
  lemma ConsumedWasUnknown(file: Store, inherited: set<Text>, a: Sitting, o: Offer)
    requires o in Sit(Pruned(file, a.t), inherited, a.t, a.offers).1 && |Filter(file.pairs, PairLives(a.t))| <= 4000
    ensures !Known(file, PairKey(o.member, o.senderSeq), a.t - 3_600_000)
    ensures !NonceKnown(file, o.nonce, a.t - 600_000)
    ensures o.nonce !in inherited && o.sound && o.known
  {
    AcceptedWasUnknown(Pruned(file, a.t), inherited, a.t, a.offers, o);
    PruneKnows(file, a.t, PairKey(o.member, o.senderSeq), o.nonce);
  }

  // What one sitting makes of an envelope offered at t.
  lemma AfterOneSitting(file: Store, inherited: set<Text>, s: Sitting, t: int, o: Offer)
    requires o.sound && o.known && Timely(o) && s.t <= t
    requires WithinCap(file, inherited, [s] + [Sitting(t, [])])
    ensures var took, key := Took(Pruned(file, s.t), inherited, s.t, s.offers), PairKey(o.member, o.senderSeq);
      Judge(Pruned(After(file, inherited, s), t), inherited, t, o).1 == Accepted <==>
      o.nonce !in inherited &&
      !Known(file, key, t - 3_600_000) && !(t - s.t <= 3_600_000 && HasPair(took, key)) &&
      !NonceKnown(file, o.nonce, t - 600_000) && !(t - s.t <= 600_000 && HasNonce(took, o.nonce))
  {
    TakenByOne(file, inherited, s, t - 3_600_000);
    TakenByOne(file, inherited, s, t - 600_000);
    DuplicateExactlyWhen(file, inherited, [s], t, o);
  }

  // What a consumed is accepted again after b's flush exactly when its pair and nonce are absent from what b's
  // prunes leave; within the cap, exactly when b stored neither its pair within the hour nor its nonce within ten
  // minutes, both of which b's own verdicts tell.
  lemma StaleFlushForgets(file: Store, inherited: set<Text>, a: Sitting, b: Sitting, t: int, o: Offer, now: int)
    requires a.t <= t && b.t <= t && o in Sit(Pruned(file, a.t), inherited, a.t, a.offers).1 && Timely(o.(now := now))
    ensures var left := Pruned(After(file, inherited, b), t);
      Judge(left, inherited, t, o.(now := now)).1 == Accepted <==>
      !Stored(left.pairs, PairKey(o.member, o.senderSeq)) && o.nonce !in left.nonces
    ensures WithinCap(file, inherited, [a]) && WithinCap(file, inherited, [b] + [Sitting(t, [])]) ==>
      var took := Took(Pruned(file, b.t), inherited, b.t, b.offers);
      (Judge(Pruned(After(file, inherited, b), t), inherited, t, o.(now := now)).1 == Accepted <==>
       !(t - b.t <= 3_600_000 && HasPair(took, PairKey(o.member, o.senderSeq))) &&
       !(t - b.t <= 600_000 && HasNonce(took, o.nonce)))
  {
    AcceptedWasUnknown(Pruned(file, a.t), inherited, a.t, a.offers, o);
    if WithinCap(file, inherited, [a]) && WithinCap(file, inherited, [b] + [Sitting(t, [])]) {
      ConsumedWasUnknown(file, inherited, a, o);
      AfterOneSitting(file, inherited, b, t, o.(now := now));
    }
  }

  lemma TakenByOne(file: Store, inherited: set<Text>, s: Sitting, since: int)
    ensures Taken(file, inherited, [s], since) ==
      if since <= s.t then Took(Pruned(file, s.t), inherited, s.t, s.offers) else []
    ensures Reached(file, inherited, [s]) == After(file, inherited, s)
  {
  }

  // So nothing is forgotten when b was asked about the envelope as well, ...
  lemma AskedIsNotForgotten(file: Store, inherited: set<Text>, a: Sitting, b: Sitting, t: int, o: Offer, now: int, k: nat)
    requires a.t <= b.t <= t <= b.t + 600_000
    requires o in Sit(Pruned(file, a.t), inherited, a.t, a.offers).1 && Timely(o.(now := now))
    requires WithinCap(file, inherited, [a]) && WithinCap(file, inherited, [b] + [Sitting(t, [])])
    requires k < |b.offers| && b.offers[k].sound && Timely(b.offers[k])
    requires SameEnvelope(b.offers[k], o) && b.offers[k].nonce == o.nonce
    ensures Judge(Pruned(After(file, inherited, b), t), inherited, t, o.(now := now)).1 == Duplicate
  {
    ConsumedWasUnknown(file, inherited, a, o);
    PruneForgets(file, b.t, PairKey(o.member, o.senderSeq), b.t - 3_600_000);
    AskedIsTaken(Pruned(file, b.t), inherited, b.t, b.offers, k);
    StaleFlushForgets(file, inherited, a, b, t, o, now);
  }

  lemma {:induction false} AskedIsTaken(s: Store, inherited: set<Text>, t: int, offers: seq<Offer>, k: nat)
    requires k < |offers| && offers[k].sound && Timely(offers[k])
    requires !Has(s, inherited, offers[k].member, offers[k].senderSeq, Some(offers[k].nonce))
    ensures var took := Took(s, inherited, t, offers);
      HasPair(took, PairKey(offers[k].member, offers[k].senderSeq)) || HasNonce(took, offers[k].nonce)
    decreases |offers|
  {
    var o, e := offers[0], offers[k];
    var (next, verdict) := Judge(s, inherited, t, o);
    var head := if verdict.Accepted? || verdict.UnknownType? then [o] else [];
    HasConcat(head, Took(next, inherited, t, offers[1..]), PairKey(e.member, e.senderSeq), e.nonce);
    if head != [] {
      assert head[0] == o;
      RememberAppends(s.pairs, PairKey(o.member, o.senderSeq), t);
    }
    if k > 0 && !Has(next, inherited, e.member, e.senderSeq, Some(e.nonce)) {
      AskedIsTaken(next, inherited, t, offers[1..], k - 1);
    }
  }

  // ... nor when b, and whatever came after it, opened after a's flush: a's sitting is then the head of the line.
  lemma OpenedAfterwardsRemembers(file: Store, inherited: set<Text>, line: seq<Sitting>, t: int, o: Offer, now: int)
    requires line != [] && Timely(o.(now := now))
    requires o in Sit(Pruned(file, line[0].t), inherited, line[0].t, line[0].offers).1
    requires WithinCap(file, inherited, line + [Sitting(t, [])])
    requires t <= line[0].t + 3_600_000 && forall i :: 0 <= i < |line| ==> line[i].t <= t
    ensures Judge(Pruned(Reached(file, inherited, line), t), inherited, t, o.(now := now)).1 == Duplicate
  {
    var a, since, key := line[0], t - 3_600_000, PairKey(o.member, o.senderSeq);
    ConsumedWasUnknown(file, inherited, a, o);
    AcceptedIsTaken(Pruned(file, a.t), inherited, a.t, a.offers, o);
    HasConcat(Took(Pruned(file, a.t), inherited, a.t, a.offers), Taken(After(file, inherited, a), inherited, line[1..], since),
              key, []);
    assert HasPair(Taken(file, inherited, line, since), key);
    DuplicateExactlyWhen(file, inherited, line, t, o.(now := now));
  }

  // The hour runs from the opening of the handle, not from the consumption: with nothing in between, a copy is
  // accepted again exactly through a handle opened more than an hour after the one that consumed it.
  lemma KeptForAnHour(file: Store, inherited: set<Text>, a: Sitting, t: int, o: Offer, now: int)
    requires o in Sit(Pruned(file, a.t), inherited, a.t, a.offers).1 && a.t <= t && Timely(o.(now := now))
    requires WithinCap(file, inherited, [a] + [Sitting(t, [])])
    ensures Judge(Pruned(After(file, inherited, a), t), inherited, t, o.(now := now)).1 == Accepted <==>
      t > a.t + 3_600_000
  {
    ConsumedWasUnknown(file, inherited, a, o);
    AcceptedIsTaken(Pruned(file, a.t), inherited, a.t, a.offers, o);
    AfterOneSitting(file, inherited, a, t, o.(now := now));
  }

  lemma {:induction false} AcceptedIsTaken(s: Store, inherited: set<Text>, t: int, offers: seq<Offer>, o: Offer)
    requires o in Sit(s, inherited, t, offers).1
    ensures HasPair(Took(s, inherited, t, offers), PairKey(o.member, o.senderSeq))
    decreases |offers|
  {
    var (next, verdict) := Judge(s, inherited, t, offers[0]);
    var head := if verdict.Accepted? || verdict.UnknownType? then [offers[0]] else [];
    HasConcat(head, Took(next, inherited, t, offers[1..]), PairKey(o.member, o.senderSeq), []);
    if o in Sit(next, inherited, t, offers[1..]).1 {
      AcceptedIsTaken(next, inherited, t, offers[1..], o);
    } else {
      assert head == [o] && head[0] == o;
    }
  }
}
