/**
 From a turn to a later fetch: what a turn showed is in the replay memory, and a copy of it that a fetch offers
 within the hour is refused, whatever was read, shown and flushed in between.
 */
module TurnMemory {
  import opened Basics
  import opened Replay
  import opened ReplaySafety
  import opened ReplayOverlap
  import opened Sorting
  import Injection

  // One use of the memory that ends with a flush: a fetch that asks, or a turn that stores without asking.
  datatype Use = Fetch(sitting: Sitting) | Turn(now: int, shown: seq<Injection.Item>)

  function TimeOf(u: Use): int { if u.Fetch? then u.sitting.t else u.now }

  // The store of the use before its flush prunes it.
  function Used(file: Store, inherited: set<Text>, u: Use): Store {
    match u
    case Fetch(s) => Sit(Pruned(file, s.t), inherited, s.t, s.offers).0
    case Turn(now, shown) => Injection.Remembered(Pruned(file, now), now, shown)
  }

  function AfterUse(file: Store, inherited: set<Text>, u: Use): Store { Pruned(Used(file, inherited, u), TimeOf(u)) }

  function AfterUses(file: Store, inherited: set<Text>, uses: seq<Use>): Store
    decreases |uses|
  {
    if uses == [] then file else AfterUses(AfterUse(file, inherited, uses[0]), inherited, uses[1..])
  }

  // No prune finds more than 4000 pairs still in their time.
  ghost predicate UseWithinCap(file: Store, inherited: set<Text>, u: Use) {
    |Filter(file.pairs, PairLives(TimeOf(u)))| <= 4000 &&
    |Filter(Used(file, inherited, u).pairs, PairLives(TimeOf(u)))| <= 4000
  }

  ghost predicate UsesWithinCap(file: Store, inherited: set<Text>, uses: seq<Use>)
    decreases |uses|
  {
    uses != [] ==>
      UseWithinCap(file, inherited, uses[0]) && UsesWithinCap(AfterUse(file, inherited, uses[0]), inherited, uses[1..])
  }

  // ------------------------------------------------------------ what a turn stores ---

  predicate HasReplayKey(i: Injection.Item) { i.from != [] && i.senderSeq.Some? }

  lemma AddKeepsKnown(s: Store, t: int, member: Text, senderSeq: nat, nonce: Option<Text>, key: Text, since: int)
    requires since <= t && (Known(s, key, since) || PairKey(member, senderSeq) == key)
    ensures Known(Added(s, t, member, senderSeq, nonce), key, since)
  {
    var k := PairKey(member, senderSeq);
    var r := Remember(s.pairs, k, t);
    RememberStores(s.pairs, k, t);
    var j :| 0 <= j < |r| && r[j] == Pair(k, t);
    if key != k {
      var i :| 0 <= i < |s.pairs| && s.pairs[i].key == key && s.pairs[i].at >= since;
      var m :| 0 <= m < |r| && r[m] == s.pairs[i];
    }
  }

  lemma {:induction false} RememberedKeepsKnown(s: Store, t: int, items: seq<Injection.Item>, key: Text, since: int)
    requires since <= t && Known(s, key, since)
    ensures Known(Injection.Remembered(s, t, items), key, since)
  {
    if items != [] {
      var n := |items| - 1;
      RememberedKeepsKnown(s, t, items[..n], key, since);
      if HasReplayKey(items[n]) {
        AddKeepsKnown(Injection.Remembered(s, t, items[..n]), t, items[n].from, items[n].senderSeq.value, items[n].nonce,
                      key, since);
      }
    }
  }

  lemma {:induction false} RememberedKnows(s: Store, t: int, items: seq<Injection.Item>, i: nat)
    requires i < |items| && HasReplayKey(items[i])
    ensures Known(Injection.Remembered(s, t, items), PairKey(items[i].from, items[i].senderSeq.value), t)
  {
    var n := |items| - 1;
    var before, key := Injection.Remembered(s, t, items[..n]), PairKey(items[i].from, items[i].senderSeq.value);
    if i < n { RememberedKnows(s, t, items[..n], i); }
    if HasReplayKey(items[n]) {
      AddKeepsKnown(before, t, items[n].from, items[n].senderSeq.value, items[n].nonce, key, t);
    }
  }

  // --------------------------------------------------------------- and it stays there ---

  lemma {:induction false} SitKeepsKnown(s: Store, inherited: set<Text>, t: int, offers: seq<Offer>, key: Text, since: int)
    requires since <= t && Known(s, key, since)
    ensures Known(Sit(s, inherited, t, offers).0, key, since)
  {
    SitKnows(s, inherited, t, offers, key, [], since);
  }

  lemma UseKeepsKnown(file: Store, inherited: set<Text>, u: Use, key: Text, since: int)
    requires UseWithinCap(file, inherited, u) && Known(file, key, since)
    requires since <= TimeOf(u) <= since + 3_600_000
    ensures Known(AfterUse(file, inherited, u), key, since)
  {
    PruneKeepsKnown(file, TimeOf(u), key, since);
    match u {
      case Fetch(s) => SitKeepsKnown(Pruned(file, s.t), inherited, s.t, s.offers, key, since);
      case Turn(now, shown) => RememberedKeepsKnown(Pruned(file, now), now, shown, key, since);
    }
    PruneKeepsKnown(Used(file, inherited, u), TimeOf(u), key, since);
  }

  lemma {:induction false} UsesKeepKnown(file: Store, inherited: set<Text>, uses: seq<Use>, key: Text, since: int)
    requires UsesWithinCap(file, inherited, uses) && Known(file, key, since)
    requires forall i :: 0 <= i < |uses| ==> since <= TimeOf(uses[i]) <= since + 3_600_000
    ensures Known(AfterUses(file, inherited, uses), key, since)
    decreases |uses|
  {
    if uses != [] {
      UseKeepsKnown(file, inherited, uses[0], key, since);
      assert forall i :: 0 <= i < |uses| - 1 ==> uses[1..][i] == uses[i + 1];
      UsesKeepKnown(AfterUse(file, inherited, uses[0]), inherited, uses[1..], key, since);
    }
  }

  // A turn leaves every item it showed known since its own time.
  lemma TurnIsKnown(file: Store, inherited: set<Text>, now: int, shown: seq<Injection.Item>, i: nat)
    requires i < |shown| && HasReplayKey(shown[i]) && UseWithinCap(file, inherited, Turn(now, shown))
    ensures Known(Injection.TurnStored(file, now, shown), PairKey(shown[i].from, shown[i].senderSeq.value), now)
  {
    RememberedKnows(Pruned(file, now), now, shown, i);
    PruneKeepsKnown(Used(file, inherited, Turn(now, shown)), now, PairKey(shown[i].from, shown[i].senderSeq.value), now);
  }

  // End to end: a turn showed an item; then come any fetches and turns, one after another, and after them any number
  // of fetches whose handles overlap as they like. A fetch that opens the memory within the hour of the turn and is
  // offered the item again calls it a duplicate.
  lemma ShownIsRefused(file: Store, inherited: set<Text>, now: int, shown: seq<Injection.Item>, i: nat,
                       uses: seq<Use>, calls: seq<Call>, t: int, o: Offer)
    requires i < |shown| && HasReplayKey(shown[i]) && o.sound && Timely(o)
    requires o.member == shown[i].from && o.senderSeq == shown[i].senderSeq.value
    requires UsesWithinCap(file, inherited, [Turn(now, shown)] + uses)
    requires now <= t <= now + 3_600_000 && forall j :: 0 <= j < |uses| ==> now <= TimeOf(uses[j]) <= t
    requires var start := AfterUses(Injection.TurnStored(file, now, shown), inherited, uses);
      var line := CalledAll(inherited, Shared(start, [], map[]), calls).line;
      WithinCap(start, inherited, line + [Sitting(t, [])]) && forall j :: 0 <= j < |line| ==> line[j].t <= t
    ensures var start := AfterUses(Injection.TurnStored(file, now, shown), inherited, uses);
      Judge(Pruned(CalledAll(inherited, Shared(start, [], map[]), calls).file, t), inherited, t, o).1 == Duplicate
  {
    var first, key := Turn(now, shown), PairKey(o.member, o.senderSeq);
    assert ([first] + uses)[0] == first && ([first] + uses)[1..] == uses;
    TurnIsKnown(file, inherited, now, shown, i);
    var stored := Injection.TurnStored(file, now, shown);
    UsesKeepKnown(stored, inherited, uses, key, now);
    var start := AfterUses(stored, inherited, uses);
    var end := CalledAll(inherited, Shared(start, [], map[]), calls);
    FileFollowsItsLine(start, inherited, Shared(start, [], map[]), calls);
    KnownIsRemembered(start, inherited, end.line, t, o, now);
    DuplicateExactlyWhen(start, inherited, end.line, t, o);
  }

  lemma KnownIsRemembered(start: Store, inherited: set<Text>, line: seq<Sitting>, t: int, o: Offer, since: int)
    requires Known(start, PairKey(o.member, o.senderSeq), since) && t <= since + 3_600_000
    ensures PairRemembered(start, inherited, line, t, o)
  {
  }
}
