/**
 Replay memory: State.dedupe of lib/state.js and accept of lib/envelope.js. What was consumed is remembered
 as (member, sender_seq) pairs and nonces in seen.json, both pruned by age, the pairs also by count.
 */
module Replay {
  import opened Basics
  import opened Sorting
  import Decimal

  const TS_SKEW_MS := 300_000
  const SEEN_PAIR_TTL_MS := 3_600_000
  const NONCE_TTL_MS := 2 * TS_SKEW_MS
  const SEEN_MAX: nat := 4000

  // One remembered pair: its key in store.pairs, and when it was stored.
  datatype Pair = Pair(key: Text, at: int)

  // seen.json. Pairs stand in insertion order, each key once.
  datatype Store = Store(pairs: seq<Pair>, nonces: map<Text, int>)

  const EMPTY: Store := Store([], map[])

  // member + '\0' + seq
  function PairKey(member: Text, senderSeq: nat): Text { member + [0] + Decimal.Digits(senderSeq) }

  lemma PairKeyIsInjective(m: Text, s: nat, m': Text, s': nat)
    requires PairKey(m, s) == PairKey(m', s')
    ensures m == m' && s == s'
  {
    Decimal.ValueOfDigits(s);
    Decimal.ValueOfDigits(s');
    var key := PairKey(m, s);
    assert key[|m|] == 0 && key[|m'|] == 0;
    assert forall i :: |m| < i < |key| ==> key[i] != 0;
    assert forall i :: |m'| < i < |key| ==> key[i] != 0;
    assert key[..|m|] == m && key[..|m'|] == m';
    assert key[|m| + 1..] == Decimal.Digits(s) && key[|m'| + 1..] == Decimal.Digits(s');
  }

  // ------------------------------------------------------------------ pruning ---

  function PairLives(t: int): Pair -> bool { (p: Pair) => t - p.at <= SEEN_PAIR_TTL_MS }

  const At: Pair -> int := (p: Pair) => p.at

  function NotIn(dropped: seq<Pair>): Pair -> bool { (p: Pair) => p !in dropped }

  function WithoutOldest(pairs: seq<Pair>, n: nat): seq<Pair>
    requires n <= |pairs|
  {
    Filter(pairs, NotIn(SortBy(pairs, At)[..n]))
  }

  // Over the cap, the oldest go.
  function Capped(pairs: seq<Pair>, cap: nat): seq<Pair> {
    if |pairs| > cap then WithoutOldest(pairs, |pairs| - cap) else pairs
  }

  function LiveNonces(nonces: map<Text, int>, t: int): map<Text, int> {
    map n | n in nonces && t - nonces[n] <= NONCE_TTL_MS :: nonces[n]
  }

  function Pruned(s: Store, t: int): Store {
    Store(Capped(Filter(s.pairs, PairLives(t)), SEEN_MAX), LiveNonces(s.nonces, t))
  }

  ghost predicate DistinctPairs(pairs: seq<Pair>) {
    forall i, j :: 0 <= i < j < |pairs| ==> pairs[i].key != pairs[j].key
  }

  ghost predicate KeepsNewest(kept: seq<Pair>, pairs: seq<Pair>) {
    forall p, q :: p in kept && q in pairs && q !in kept ==> q.at <= p.at
  }

  // The cap keeps exactly the newest.
  lemma CapKeepsNewest(pairs: seq<Pair>, cap: nat)
    requires DistinctPairs(pairs)
    ensures |Capped(pairs, cap)| == Min(|pairs|, cap)
    ensures KeepsNewest(Capped(pairs, cap), pairs)
  {
    var kept := Capped(pairs, cap);
    if |pairs| > cap {
      DropOldest(pairs, |pairs| - cap);
      assert kept == WithoutOldest(pairs, |pairs| - cap);
    } else {
      assert kept == pairs;
    }
  }

  lemma DropOldest(pairs: seq<Pair>, n: nat)
    requires n <= |pairs| && DistinctPairs(pairs)
    ensures |WithoutOldest(pairs, n)| == |pairs| - n
    ensures KeepsNewest(WithoutOldest(pairs, n), pairs)
  {
    var sorted := SortBy(pairs, At);
    var dropped, rest := sorted[..n], sorted[n..];
    var kept := WithoutOldest(pairs, n);
    SortBySorts(pairs, At);
    SortedIsDistinct(pairs, sorted);
    assert sorted == dropped + rest;
    FilterMultiset(pairs, sorted, NotIn(dropped));
    FilterConcat(dropped, rest, NotIn(dropped));
    KeepNone(dropped, dropped);
    KeepAll(rest, dropped);
    assert multiset(kept) == multiset(rest);
    assert |multiset(kept)| == |kept| && |multiset(rest)| == |rest|;
    forall p, q | p in kept && q in pairs && q !in kept ensures q.at <= p.at {
      assert p in multiset(rest);
      FilterMembers(pairs, NotIn(dropped), q);
      OlderFirst(sorted, n, q, p);
    }
  }

  lemma OlderFirst(sorted: seq<Pair>, n: nat, q: Pair, p: Pair)
    requires n <= |sorted| && SortedBy(sorted, At) && q in sorted[..n] && p in sorted[n..]
    ensures q.at <= p.at
  {
    var i :| 0 <= i < n && sorted[..n][i] == q;
    var j :| 0 <= j < |sorted| - n && sorted[n..][j] == p;
    assert At(sorted[i]) <= At(sorted[n + j]);
  }

  lemma SortedIsDistinct(pairs: seq<Pair>, sorted: seq<Pair>)
    requires DistinctPairs(pairs) && multiset(sorted) == multiset(pairs)
    ensures forall i, j :: 0 <= i < j < |sorted| ==> sorted[i] != sorted[j]
  {
    forall i, j | 0 <= i < j < |sorted| ensures sorted[i] != sorted[j] {
      if sorted[i] == sorted[j] {
        var x := sorted[i];
        assert sorted == sorted[..j] + sorted[j..];
        assert sorted[..j][i] == x && sorted[j..][0] == x;
        assert multiset(sorted)[x] >= 2;
        OnlyOnce(pairs, x);
      }
    }
  }

  lemma {:induction false} OnlyOnce(pairs: seq<Pair>, x: Pair)
    requires DistinctPairs(pairs)
    ensures multiset(pairs)[x] <= 1
  {
    if pairs != [] {
      OnlyOnce(pairs[1..], x);
      assert pairs == [pairs[0]] + pairs[1..];
      assert forall j :: 0 <= j < |pairs| - 1 ==> pairs[1..][j].key != pairs[0].key;
    }
  }

  lemma {:induction false} KeepNone(part: seq<Pair>, dropped: seq<Pair>)
    requires forall p :: p in part ==> p in dropped
    ensures Filter(part, NotIn(dropped)) == []
  {
    if part != [] {
      assert part[0] in part;
      KeepNone(part[1..], dropped);
    }
  }

  lemma {:induction false} KeepAll(part: seq<Pair>, dropped: seq<Pair>)
    requires forall p :: p in part ==> p !in dropped
    ensures Filter(part, NotIn(dropped)) == part
  {
    if part != [] {
      assert part[0] in part;
      KeepAll(part[1..], dropped);
      assert part == [part[0]] + part[1..];
    }
  }

  // ------------------------------------------------------ asking and storing ---

  // store.pairs[key] = t: in place when the key is there, else at the end.
  function Remember(pairs: seq<Pair>, key: Text, t: int): seq<Pair> {
    if pairs == [] then [Pair(key, t)]
    else if pairs[0].key == key then [Pair(key, t)] + pairs[1..]
    else [pairs[0]] + Remember(pairs[1..], key, t)
  }

  predicate Stored(pairs: seq<Pair>, key: Text) {
    exists i :: 0 <= i < |pairs| && pairs[i].key == key
  }

  // A nonce counts as seen when it is stored, or when every object answers to it: the lookup finds the
  // properties an empty object inherits ("toString", "constructor", ...), and those match the nonce pattern.
  predicate Has(s: Store, inherited: set<Text>, member: Text, senderSeq: nat, nonce: Option<Text>) {
    Stored(s.pairs, PairKey(member, senderSeq)) ||
    (nonce.Some? && (nonce.value in s.nonces || nonce.value in inherited))
  }

  function Added(s: Store, t: int, member: Text, senderSeq: nat, nonce: Option<Text>): Store {
    Store(Remember(s.pairs, PairKey(member, senderSeq), t),
          if nonce.Some? && nonce.value != [] then s.nonces[nonce.value := t] else s.nonces)
  }

  lemma {:induction false} RememberKeepsDistinct(pairs: seq<Pair>, key: Text, t: int)
    requires DistinctPairs(pairs)
    ensures DistinctPairs(Remember(pairs, key, t))
    ensures forall i :: 0 <= i < |Remember(pairs, key, t)| ==>
      Remember(pairs, key, t)[i].key == key || Stored(pairs, Remember(pairs, key, t)[i].key)
  {
    if pairs != [] && pairs[0].key != key {
      RememberKeepsDistinct(pairs[1..], key, t);
      var r := Remember(pairs[1..], key, t);
      assert pairs[0].key == pairs[0].key;
      forall i | 0 <= i < |r| ensures r[i].key != pairs[0].key && (r[i].key == key || Stored(pairs, r[i].key)) {
        if r[i].key != key {
          var j :| 0 <= j < |pairs| - 1 && pairs[1..][j].key == r[i].key;
          assert pairs[j + 1].key == r[i].key;
        }
      }
    }
  }

  lemma {:induction false} FilterKeepsDistinct(pairs: seq<Pair>, p: Pair -> bool)
    requires DistinctPairs(pairs)
    ensures DistinctPairs(Filter(pairs, p))
  {
    if pairs != [] {
      FilterKeepsDistinct(pairs[1..], p);
      var r := Filter(pairs[1..], p);
      forall i | 0 <= i < |r| ensures r[i].key != pairs[0].key {
        assert r[i] in r;
        FilterMembers(pairs[1..], p, r[i]);
        var j :| 0 <= j < |pairs| - 1 && pairs[1..][j] == r[i];
        assert pairs[j + 1] == r[i];
      }
    }
  }

  // After a prune: no key twice, at most 4000 pairs, none past its hour.
  lemma PrunedIsBounded(s: Store, t: int)
    requires DistinctPairs(s.pairs)
    ensures DistinctPairs(Pruned(s, t).pairs) && |Pruned(s, t).pairs| <= 4000
    ensures forall p :: p in Pruned(s, t).pairs ==> p in s.pairs && t - p.at <= 3_600_000
  {
    var live := Filter(s.pairs, PairLives(t));
    FilterKeepsDistinct(s.pairs, PairLives(t));
    CapKeepsNewest(live, SEEN_MAX);
    CappedIsPart(live, SEEN_MAX);
    forall p | p in Capped(live, SEEN_MAX) ensures p in s.pairs && t - p.at <= SEEN_PAIR_TTL_MS {
      FilterMembers(s.pairs, PairLives(t), p);
    }
  }

  lemma CappedIsPart(pairs: seq<Pair>, cap: nat)
    requires DistinctPairs(pairs)
    ensures DistinctPairs(Capped(pairs, cap)) && forall p :: p in Capped(pairs, cap) ==> p in pairs
  {
    var kept := Capped(pairs, cap);
    if |pairs| > cap {
      RestIsPart(pairs, |pairs| - cap);
      assert kept == WithoutOldest(pairs, |pairs| - cap);
    } else {
      assert kept == pairs;
    }
  }

  lemma RestIsPart(pairs: seq<Pair>, n: nat)
    requires DistinctPairs(pairs) && n <= |pairs|
    ensures DistinctPairs(WithoutOldest(pairs, n)) && forall p :: p in WithoutOldest(pairs, n) ==> p in pairs
  {
    var dropped := SortBy(pairs, At)[..n];
    FilterKeepsDistinct(pairs, NotIn(dropped));
    forall p | p in WithoutOldest(pairs, n) ensures p in pairs { FilterMembers(pairs, NotIn(dropped), p); }
  }

  // -------------------------------------------------------------- the handle ---

  class SeenFile {
    var contents: Store

    constructor ()
      ensures contents == EMPTY
    {
      contents := EMPTY;
    }
  }

  // What dedupe(now) returns: a copy of the file pruned at a fixed time, written back only by Flush.
  class Dedupe {
    const file: SeenFile
    const t: int
    const inherited: set<Text>
    var store: Store

    constructor (file: SeenFile, now: int, inherited: set<Text>)
      ensures this.file == file && t == now && this.inherited == inherited
      ensures store == Pruned(file.contents, now)
    {
      this.file := file;
      t := now;
      this.inherited := inherited;
      store := file.contents;
      new;
      Prune();
    }

    method Prune()
      modifies this`store
      ensures store == Pruned(old(store), t)
    {
      var live: seq<Pair> := [];
      var i := 0;
      while i < |store.pairs|
        invariant i <= |store.pairs| && store == old(store)
        invariant live == Filter(store.pairs[..i], PairLives(t))
      {
        var p := store.pairs[i];
        assert store.pairs[..i + 1] == store.pairs[..i] + [p];
        FilterConcat(store.pairs[..i], [p], PairLives(t));
        assert Filter([p], PairLives(t)) == if PairLives(t)(p) then [p] else [];
        if t - p.at <= SEEN_PAIR_TTL_MS { live := live + [p]; }
        i := i + 1;
      }
      assert store.pairs[..i] == store.pairs;
      if |live| > SEEN_MAX {
        live := WithoutOldest(live, |live| - SEEN_MAX);
      }
      store := Store(live, LiveNonces(store.nonces, t));
    }

    method Add(member: Text, senderSeq: nat, nonce: Option<Text>)
      modifies this`store
      ensures store == Added(old(store), t, member, senderSeq, nonce)
    {
      store := Store(Remember(store.pairs, PairKey(member, senderSeq), t), store.nonces);
      if nonce.Some? && nonce.value != [] {
        store := Store(store.pairs, store.nonces[nonce.value := t]);
      }
    }

    method Flush()
      modifies this`store, file
      ensures store == Pruned(old(store), t) && file.contents == store
    {
      Prune();
      file.contents := store;
    }

    // The receive pipeline, with the checks that read no memory summed up in o.sound.
    method Accept(o: Offer) returns (verdict: Verdict)
      modifies this`store
      ensures (store, verdict) == Judge(old(store), inherited, t, o)
      ensures verdict.Rejected? <==> !o.sound || o.now - o.ts > 300_000 || o.ts - o.now > 300_000
    {
      if !o.sound || !Timely(o) { return Rejected; }
      if Has(store, inherited, o.member, o.senderSeq, Some(o.nonce)) { return Duplicate; }
      Add(o.member, o.senderSeq, Some(o.nonce));
      return if o.known then Accepted else UnknownType;
    }
  }

  // An envelope offered for consumption: what memory is keyed by, its time, and the clock when offered.
  datatype Offer = Offer(member: Text, senderSeq: nat, nonce: Text, ts: int, now: int, sound: bool, known: bool)

  datatype Verdict = Accepted | UnknownType | Duplicate | Rejected

  predicate Timely(o: Offer) { -TS_SKEW_MS <= o.now - o.ts <= TS_SKEW_MS }

  function Judge(s: Store, inherited: set<Text>, t: int, o: Offer): (Store, Verdict) {
    if !o.sound || !Timely(o) then (s, Rejected)
    else if Has(s, inherited, o.member, o.senderSeq, Some(o.nonce)) then (s, Duplicate)
    else (Added(s, t, o.member, o.senderSeq, Some(o.nonce)), if o.known then Accepted else UnknownType)
  }
}
