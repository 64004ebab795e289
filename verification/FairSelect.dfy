/**
 Per-sender-fair selection, lib/transport.js: one chatty peer must not bury a quiet peer's warning. A
 round robin over the senders' queues, run twice: first over the priority items for a reserved floor,
 then over everything.
 */
module FairSelect {
  import opened Basics
  import opened Sorting

  datatype Item = Item(order: int, sender: string, kind: string)

  const FETCH_CAP := 20
  const RESERVED_SLOTS := 5

  const WARN_PREFIX := "warn."
  const BLOCKER := "note.blocker"

  predicate IsPriorityType(kind: string) { WARN_PREFIX <= kind || kind == BLOCKER }

  const ByOrder: Item -> int := (i: Item) => i.order

  const IsPriority: Item -> bool := (i: Item) => IsPriorityType(i.kind)

  const OldestOrder: seq<Item> -> int := (q: seq<Item>) => if q == [] then 0 else q[0].order

  function NotIn(taken: set<int>): Item -> bool { (i: Item) => i.order !in taken }

  function From(sender: string): Item -> bool { (i: Item) => i.sender == sender }

  // Orders are sequence numbers or a counter: no two candidates share one.
  ghost predicate DistinctOrders(items: seq<Item>) {
    forall i, j :: 0 <= i < j < |items| ==> items[i].order != items[j].order
  }

  // ---------------------------------------------------------------- queues ---

  // The pending items, oldest first.
  function Pending(items: seq<Item>, taken: set<int>): seq<Item> {
    Filter(SortBy(items, ByOrder), NotIn(taken))
  }

  // The senders, in the order of their oldest pending item.
  function Senders(pending: seq<Item>): (senders: seq<string>) {
    if pending == [] then []
    else
      var before := Senders(pending[..|pending| - 1]);
      var last := pending[|pending| - 1];
      if last.sender in before then before else before + [last.sender]
  }

  lemma {:induction false} SendersAreTheSenders(pending: seq<Item>)
    ensures NoDuplicates(Senders(pending))
    ensures forall i :: 0 <= i < |pending| ==> pending[i].sender in Senders(pending)
    ensures forall s :: s in Senders(pending) ==> exists i :: 0 <= i < |pending| && pending[i].sender == s
  {
    if pending != [] {
      var init := pending[..|pending| - 1];
      SendersAreTheSenders(init);
      forall s | s in Senders(pending) ensures exists i :: 0 <= i < |pending| && pending[i].sender == s {
        if s in Senders(init) {
          var i :| 0 <= i < |init| && init[i].sender == s;
          assert pending[i].sender == s;
        } else {
          assert pending[|pending| - 1].sender == s;
        }
      }
      forall i | 0 <= i < |pending| ensures pending[i].sender in Senders(pending) {
        if i < |init| { assert init[i] == pending[i]; }
      }
    }
  }

  function Queue(pending: seq<Item>, sender: string): seq<Item> { Filter(pending, From(sender)) }

  function Queues(pending: seq<Item>, senders: seq<string>): (queues: seq<seq<Item>>)
    ensures |queues| == |senders|
    ensures forall i :: 0 <= i < |senders| ==> queues[i] == Queue(pending, senders[i])
  {
    seq(|senders|, i requires 0 <= i < |senders| => Queue(pending, senders[i]))
  }

  // --------------------------------------------------------------- dealing ---

  predicate Exhausted(queues: seq<seq<Item>>, round: nat) {
    forall i :: 0 <= i < |queues| ==> |queues[i]| <= round
  }

  function Longest(queues: seq<seq<Item>>): (n: nat)
    ensures Exhausted(queues, n)
  {
    if queues == [] then 0 else Max(|queues[0]|, Longest(queues[1..]))
  }

  // What is dealt from queue `g` of round `round` on, within the budget.
  function Deal(queues: seq<seq<Item>>, budget: nat, round: nat, g: nat): (out: seq<Item>)
    requires g <= |queues|
    ensures |out| <= budget
    decreases Longest(queues) - round, |queues| - g
  {
    if budget == 0 || Exhausted(queues, round) then []
    else if g == |queues| then
      assert round < Longest(queues);
      Deal(queues, budget, round + 1, 0)
    else if round < |queues[g]| then [queues[g][round]] + Deal(queues, budget - 1, round, g + 1)
    else Deal(queues, budget, round, g + 1)
  }

  function RoundRobin(items: seq<Item>, budget: nat, taken: set<int>): (out: seq<Item>)
    ensures |out| <= budget
  {
    var pending := Pending(items, taken);
    Deal(Queues(pending, Senders(pending)), budget, 0, 0)
  }

  // roundRobin: group by sender, order the groups by their oldest item, deal round by round.
  method RoundRobinLoops(items: seq<Item>, budget: nat, taken: set<int>) returns (out: seq<Item>)
    ensures out == RoundRobin(items, budget, taken)
  {
    var queues := GroupBySender(items, taken);
    out := DealRounds(queues, budget);
  }

  // groups[s] is the queue of each sender seen so far.
  ghost predicate Grouped(groups: map<string, seq<Item>>, seen: seq<Item>) {
    && (forall s :: s in groups <==> s in Senders(seen))
    && (forall s :: s in groups ==> groups[s] == Queue(seen, s))
  }

  function Add(groups: map<string, seq<Item>>, item: Item): map<string, seq<Item>> {
    groups[item.sender := (if item.sender in groups then groups[item.sender] else []) + [item]]
  }

  // groups.values(), in insertion order.
  function Values(senders: seq<string>, groups: map<string, seq<Item>>): (queues: seq<seq<Item>>)
    requires forall s :: s in senders ==> s in groups
  {
    seq(|senders|, g requires 0 <= g < |senders| => groups[senders[g]])
  }

  lemma ValuesAreTheQueues(groups: map<string, seq<Item>>, pending: seq<Item>)
    requires Grouped(groups, pending)
    ensures Values(Senders(pending), groups) == Queues(pending, Senders(pending))
  {
    var senders := Senders(pending);
    forall g | 0 <= g < |senders| ensures Values(senders, groups)[g] == Queues(pending, senders)[g] {
      assert senders[g] in senders;
    }
  }

  method GroupBySender(items: seq<Item>, taken: set<int>) returns (queues: seq<seq<Item>>)
    ensures queues == Queues(Pending(items, taken), Senders(Pending(items, taken)))
  {
    var senders, groups := FillGroups(SortBy(items, ByOrder), taken);
    ValuesAreTheQueues(groups, Pending(items, taken));
    queues := Values(senders, groups);
    // The queues by their oldest item.
    AlreadyInOrder(items, taken);
    queues := SortBy(queues, OldestOrder);
  }

  method FillGroups(sorted: seq<Item>, taken: set<int>) returns (senders: seq<string>, groups: map<string, seq<Item>>)
    ensures senders == Senders(Filter(sorted, NotIn(taken))) && Grouped(groups, Filter(sorted, NotIn(taken)))
  {
    senders, groups := [], map[];
    ghost var all := Filter(sorted, NotIn(taken));
    ghost var seen: seq<Item> := [];
    var i := 0;
    while i < |sorted|
      invariant i <= |sorted|
      invariant seen + Filter(sorted[i..], NotIn(taken)) == all
      invariant senders == Senders(seen) && Grouped(groups, seen)
    {
      PendingStep(seen, sorted, i, taken);
      if sorted[i].order !in taken {
        senders, groups := FillGroup(senders, groups, seen, sorted[i]);
        seen := seen + [sorted[i]];
      }
      i := i + 1;
    }
    assert seen == all;
  }

  method FillGroup(senders: seq<string>, groups: map<string, seq<Item>>, ghost seen: seq<Item>, item: Item)
    returns (senders': seq<string>, groups': map<string, seq<Item>>)
    requires senders == Senders(seen) && Grouped(groups, seen)
    ensures senders' == Senders(seen + [item]) && Grouped(groups', seen + [item])
  {
    GroupStep(groups, seen, item);
    senders' := if item.sender !in groups then senders + [item.sender] else senders;
    groups' := Add(groups, item);
  }

  lemma PendingStep(seen: seq<Item>, sorted: seq<Item>, i: nat, taken: set<int>)
    requires i < |sorted|
    ensures seen + Filter(sorted[i..], NotIn(taken)) ==
            (if sorted[i].order !in taken then seen + [sorted[i]] else seen) + Filter(sorted[i + 1..], NotIn(taken))
  {
    var rest, head := sorted[i..], if sorted[i].order !in taken then [sorted[i]] else [];
    assert rest[0] == sorted[i] && rest[1..] == sorted[i + 1..];
    assert seen + (head + Filter(rest[1..], NotIn(taken))) == (seen + head) + Filter(rest[1..], NotIn(taken));
  }

  lemma GroupStep(groups: map<string, seq<Item>>, seen: seq<Item>, item: Item)
    requires Grouped(groups, seen)
    ensures Senders(seen + [item]) == if item.sender in groups then Senders(seen) else Senders(seen) + [item.sender]
    ensures Grouped(Add(groups, item), seen + [item])
  {
    SendersAppend(seen, item);
    forall s ensures Queue(seen + [item], s) == if s == item.sender then Queue(seen, s) + [item] else Queue(seen, s) {
      QueueAppend(seen, item, s);
    }
    if item.sender !in groups { NoQueueYet(seen, item.sender); }
  }

  lemma SendersAppend(seen: seq<Item>, item: Item)
    ensures Senders(seen + [item]) == if item.sender in Senders(seen) then Senders(seen) else Senders(seen) + [item.sender]
  {
    assert (seen + [item])[..|seen|] == seen;
  }

  lemma QueueAppend(seen: seq<Item>, item: Item, s: string)
    ensures Queue(seen + [item], s) == if s == item.sender then Queue(seen, s) + [item] else Queue(seen, s)
  {
    FilterConcat(seen, [item], From(s));
    assert [item][1..] == [];
  }

  // Groups come into being in the order of their oldest item, so sorting them by it changes nothing.
  lemma AlreadyInOrder(items: seq<Item>, taken: set<int>)
    ensures var pending := Pending(items, taken);
            var queues := Queues(pending, Senders(pending));
            SortedBy(queues, OldestOrder) && SortBy(queues, OldestOrder) == queues
  {
    var pending := Pending(items, taken);
    SortBySorts(items, ByOrder);
    FilterSorted(SortBy(items, ByOrder), NotIn(taken), ByOrder);
    var queues := Queues(pending, Senders(pending));
    forall i, j | 0 <= i < j < |queues| ensures OldestOrder(queues[i]) <= OldestOrder(queues[j]) {
      HeadsInOrder(pending, i, j);
    }
    SortedIsFixed(queues, OldestOrder);
  }

  lemma QueueNotEmpty(pending: seq<Item>, i: nat)
    requires i < |Senders(pending)|
    ensures Queue(pending, Senders(pending)[i]) != []
  {
    SendersAreTheSenders(pending);
    var s := Senders(pending)[i];
    assert s in Senders(pending);
    var m :| 0 <= m < |pending| && pending[m].sender == s;
    FilterMembers(pending, From(s), pending[m]);
  }

  lemma HeadStays(seen: seq<Item>, item: Item, s: string)
    requires Queue(seen, s) != []
    ensures Queue(seen + [item], s) != [] && OldestOrder(Queue(seen + [item], s)) == OldestOrder(Queue(seen, s))
  {
    QueueAppend(seen, item, s);
  }

  lemma NewHead(seen: seq<Item>, item: Item)
    requires item.sender !in Senders(seen)
    ensures Queue(seen + [item], item.sender) == [item]
  {
    QueueAppend(seen, item, item.sender);
    NoQueueYet(seen, item.sender);
  }

  lemma {:induction false} HeadsInOrder(pending: seq<Item>, i: nat, j: nat)
    requires SortedBy(pending, ByOrder) && i < j < |Senders(pending)|
    ensures OldestOrder(Queue(pending, Senders(pending)[i])) <= OldestOrder(Queue(pending, Senders(pending)[j]))
  {
    var init, last := pending[..|pending| - 1], pending[|pending| - 1];
    assert pending == init + [last];
    var before := Senders(init);
    SendersAppend(init, last);
    QueueNotEmpty(init, i);
    HeadStays(init, last, before[i]);
    if j < |before| {
      QueueNotEmpty(init, j);
      HeadStays(init, last, before[j]);
      HeadsInOrder(init, i, j);
    } else {
      NewHead(init, last);
      HeadIsOlder(pending, init, last, before[i]);
    }
  }

  lemma HeadIsOlder(pending: seq<Item>, init: seq<Item>, last: Item, s: string)
    requires SortedBy(pending, ByOrder) && pending == init + [last] && Queue(init, s) != []
    ensures ByOrder(Queue(init, s)[0]) <= ByOrder(last)
  {
    var x := Queue(init, s)[0];
    FilterMembers(init, From(s), x);
    var m :| 0 <= m < |init| && init[m] == x;
    assert ByOrder(pending[m]) <= ByOrder(pending[|pending| - 1]);
  }

  lemma NoQueueYet(seen: seq<Item>, sender: string)
    requires sender !in Senders(seen)
    ensures Queue(seen, sender) == []
  {
    SendersAreTheSenders(seen);
    if Queue(seen, sender) != [] {
      var x := Queue(seen, sender)[0];
      FilterMembers(seen, From(sender), x);
    }
  }

  method DealRounds(queues: seq<seq<Item>>, budget: nat) returns (out: seq<Item>)
    ensures out == Deal(queues, budget, 0, 0)
  {
    out := [];
    var round := 0;
    while |out| < budget
      invariant |out| <= budget
      invariant out + Deal(queues, budget - |out|, round, 0) == Deal(queues, budget, 0, 0)
      decreases Longest(queues) + 1 - round
    {
      var progressed := false;
      var g := 0;
      while g < |queues| && |out| < budget
        invariant g <= |queues| && |out| <= budget
        invariant !progressed ==> forall i :: 0 <= i < g ==> |queues[i]| <= round
        invariant progressed ==> !Exhausted(queues, round)
        invariant out + Deal(queues, budget - |out|, round, g) == Deal(queues, budget, 0, 0)
      {
        if |queues[g]| > round {
          DealTakes(queues, budget - |out|, round, g, out);
          out := out + [queues[g][round]];
          progressed := true;
        }
        g := g + 1;
      }
      if !progressed { break; }
      round := round + 1;
    }
  }

  lemma DealTakes(queues: seq<seq<Item>>, budget: nat, round: nat, g: nat, out: seq<Item>)
    requires g < |queues| && round < |queues[g]| && budget > 0
    ensures out + Deal(queues, budget, round, g) == out + [queues[g][round]] + Deal(queues, budget - 1, round, g + 1)
  {
    assert !Exhausted(queues, round);
    var rest := Deal(queues, budget - 1, round, g + 1);
    assert out + ([queues[g][round]] + rest) == out + [queues[g][round]] + rest;
  }

  // ------------------------------------------------ the position dealt up to ---

  // Everything dealt in the rounds before `round`, and by the first `g` queues of it.
  function Dealt(queues: seq<seq<Item>>, round: nat, g: nat): seq<Item>
    requires g <= |queues|
    decreases round, g
  {
    if g > 0 then Dealt(queues, round, g - 1) + (if round < |queues[g - 1]| then [queues[g - 1][round]] else [])
    else if round > 0 then Dealt(queues, round - 1, |queues|)
    else []
  }

  // Dealing stops somewhere in the round robin, at the budget or with every queue empty.
  lemma {:induction false} DealStops(queues: seq<seq<Item>>, budget: nat, round: nat, g: nat)
    returns (round': nat, g': nat)
    requires g <= |queues|
    ensures g' <= |queues|
    ensures Dealt(queues, round, g) + Deal(queues, budget, round, g) == Dealt(queues, round', g')
    ensures |Deal(queues, budget, round, g)| == budget || Exhausted(queues, round')
    decreases Longest(queues) - round, |queues| - g
  {
    if budget == 0 || Exhausted(queues, round) {
      round', g' := round, g;
    } else if g == |queues| {
      DealTurns(queues, budget, round);
      round', g' := DealStops(queues, budget, round + 1, 0);
    } else if round < |queues[g]| {
      round', g' := DealStops(queues, budget - 1, round, g + 1);
      DealTakes(queues, budget, round, g, Dealt(queues, round, g));
    } else {
      round', g' := DealStops(queues, budget, round, g + 1);
    }
  }

  lemma DealTurns(queues: seq<seq<Item>>, budget: nat, round: nat)
    requires budget > 0 && !Exhausted(queues, round)
    ensures Deal(queues, budget, round, |queues|) == Deal(queues, budget, round + 1, 0)
    ensures Dealt(queues, round, |queues|) == Dealt(queues, round + 1, 0)
  {
  }

  // How many items queue `i` has given at that position.
  function Given(queues: seq<seq<Item>>, round: nat, g: nat, i: nat): int
    requires i < |queues|
  {
    Min(|queues[i]|, if i < g then round + 1 else round)
  }

  // The queues as `Queues` builds them: one sender each, no sender twice.
  ghost predicate BySender(queues: seq<seq<Item>>, senders: seq<string>) {
    && |queues| == |senders| && NoDuplicates(senders)
    && forall i, k :: 0 <= i < |queues| && 0 <= k < |queues[i]| ==> queues[i][k].sender == senders[i]
  }

  // A sender's share of what was dealt is the oldest-first prefix of its queue.
  lemma {:induction false} DealtPrefix(queues: seq<seq<Item>>, senders: seq<string>, round: nat, g: nat, i: nat)
    requires BySender(queues, senders) && g <= |queues| && i < |queues|
    ensures Queue(Dealt(queues, round, g), senders[i]) == queues[i][..Given(queues, round, g, i)]
    decreases round, g
  {
    if g > 0 {
      DealtPrefix(queues, senders, round, g - 1, i);
      var piece := if round < |queues[g - 1]| then [queues[g - 1][round]] else [];
      FilterConcat(Dealt(queues, round, g - 1), piece, From(senders[i]));
      if round < |queues[g - 1]| {
        assert queues[g - 1][round].sender == senders[g - 1];
        assert piece[1..] == [];
      }
    } else if round > 0 {
      DealtPrefix(queues, senders, round - 1, |queues|, i);
    }
  }

  lemma {:induction false} DealtFromSenders(queues: seq<seq<Item>>, senders: seq<string>, round: nat, g: nat)
    requires BySender(queues, senders) && g <= |queues|
    ensures forall x :: x in Dealt(queues, round, g) ==> exists i :: 0 <= i < |queues| && x in queues[i]
    decreases round, g
  {
    if g > 0 {
      DealtFromSenders(queues, senders, round, g - 1);
    } else if round > 0 {
      DealtFromSenders(queues, senders, round - 1, |queues|);
    }
  }

  // ------------------------------------------------------------- the counts ---

  function SumMin(queues: seq<seq<Item>>, cap: nat): nat {
    if queues == [] then 0 else Min(|queues[0]|, cap) + SumMin(queues[1..], cap)
  }

  function Total(queues: seq<seq<Item>>): nat {
    if queues == [] then 0 else |queues[0]| + Total(queues[1..])
  }

  lemma {:induction false} SumMinAppend(queues: seq<seq<Item>>, last: seq<Item>, cap: nat)
    ensures SumMin(queues + [last], cap) == SumMin(queues, cap) + Min(|last|, cap)
  {
    if queues == [] {
      assert queues + [last] == [last];
      assert SumMin([last], cap) == Min(|last|, cap) + SumMin([], cap);
    } else {
      assert (queues + [last])[1..] == queues[1..] + [last];
      SumMinAppend(queues[1..], last, cap);
    }
  }

  lemma {:induction false} SumMinBound(queues: seq<seq<Item>>, cap: nat)
    ensures SumMin(queues, cap) <= Total(queues)
    ensures Exhausted(queues, cap) ==> SumMin(queues, cap) == Total(queues)
  {
    if queues != [] {
      SumMinBound(queues[1..], cap);
      if Exhausted(queues, cap) { assert Exhausted(queues[1..], cap) && |queues[0]| <= cap; }
    }
  }

  lemma {:induction false} DealtCount(queues: seq<seq<Item>>, round: nat, g: nat)
    requires g <= |queues|
    ensures |Dealt(queues, round, g)| == SumMin(queues[..g], round + 1) + SumMin(queues[g..], round)
    decreases round, g
  {
    if g > 0 {
      DealtCount(queues, round, g - 1);
      assert queues[..g] == queues[..g - 1] + [queues[g - 1]];
      SumMinAppend(queues[..g - 1], queues[g - 1], round + 1);
      assert queues[g - 1..][1..] == queues[g..];
    } else if round > 0 {
      DealtCount(queues, round - 1, |queues|);
      assert queues[..|queues|] == queues && queues[|queues|..] == [] && queues[0..] == queues;
    } else {
      SumMinZero(queues[0..]);
    }
  }

  lemma {:induction false} SumMinZero(queues: seq<seq<Item>>)
    ensures SumMin(queues, 0) == 0
  {
    if queues != [] { SumMinZero(queues[1..]); }
  }

  lemma {:induction false} TotalAppend(a: seq<seq<Item>>, b: seq<seq<Item>>)
    ensures Total(a + b) == Total(a) + Total(b)
  {
    if a == [] {
      assert a + b == b;
    } else {
      assert (a + b)[1..] == a[1..] + b;
      TotalAppend(a[1..], b);
    }
  }

  // Dealing is work-conserving: it stops at the budget or with nothing left.
  lemma DealCount(queues: seq<seq<Item>>, budget: nat)
    ensures |Deal(queues, budget, 0, 0)| == Min(budget, Total(queues))
  {
    var round, g := DealStops(queues, budget, 0, 0);
    assert Dealt(queues, 0, 0) == [];
    assert [] + Deal(queues, budget, 0, 0) == Deal(queues, budget, 0, 0);
    DealtCount(queues, round, g);
    assert queues[..g] + queues[g..] == queues;
    TotalAppend(queues[..g], queues[g..]);
    SumMinBound(queues[..g], round + 1);
    SumMinBound(queues[g..], round);
    if Exhausted(queues, round) { assert Exhausted(queues[..g], round + 1) && Exhausted(queues[g..], round); }
  }

  // --------------------------------------------------------- roundRobin's promise ---

  lemma QueuesAreBySender(pending: seq<Item>)
    ensures BySender(Queues(pending, Senders(pending)), Senders(pending))
  {
    SendersAreTheSenders(pending);
    var senders := Senders(pending);
    var queues: seq<seq<Item>> := Queues(pending, senders);
    forall i: nat, k: nat | i < |queues| && k < |queues[i]| ensures queues[i][k].sender == senders[i] {
      FilterMembers(pending, From(senders[i]), queues[i][k]);
    }
  }

  lemma {:induction false} FilterSplit(s: seq<Item>, p: Item -> bool)
    ensures |Filter(s, p)| + |Filter(s, (x: Item) => !p(x))| == |s|
  {
    if s != [] { FilterSplit(s[1..], p); }
  }

  lemma {:induction false} FilterOther(s: seq<Item>, a: string, b: string)
    requires a != b
    ensures Queue(Filter(s, (x: Item) => !From(a)(x)), b) == Queue(s, b)
  {
    if s != [] {
      FilterOther(s[1..], a, b);
      var head := if From(a)(s[0]) then [] else [s[0]];
      FilterConcat(head, Filter(s[1..], (x: Item) => !From(a)(x)), From(b));
    }
  }

  // The queues share out the pending items.
  lemma {:induction false} QueuesPartition(pending: seq<Item>, senders: seq<string>)
    requires NoDuplicates(senders)
    requires forall i :: 0 <= i < |pending| ==> pending[i].sender in senders
    ensures Total(Queues(pending, senders)) == |pending|
    decreases |senders|
  {
    if senders != [] {
      var s := senders[0];
      var others := Filter(pending, (x: Item) => !From(s)(x));
      FilterSplit(pending, From(s));
      forall i | 0 <= i < |others| ensures others[i].sender in senders[1..] {
        FilterMembers(pending, (x: Item) => !From(s)(x), others[i]);
      }
      QueuesPartition(others, senders[1..]);
      forall i | 0 <= i < |senders[1..]| ensures Queue(others, senders[1..][i]) == Queue(pending, senders[1..][i]) {
        FilterOther(pending, s, senders[1..][i]);
      }
      assert Queues(pending, senders)[1..] == Queues(others, senders[1..]);
    }
  }

  // Work-conserving: as many items as the budget allows and are pending.
  lemma RoundRobinConservesWork(items: seq<Item>, budget: nat, taken: set<int>)
    ensures |RoundRobin(items, budget, taken)| == Min(budget, |Pending(items, taken)|)
  {
    var pending := Pending(items, taken);
    SendersAreTheSenders(pending);
    DealCount(Queues(pending, Senders(pending)), budget);
    QueuesPartition(pending, Senders(pending));
  }

  lemma SenderIndex(pending: seq<Item>, s: string) returns (i: nat)
    requires Queue(pending, s) != []
    ensures i < |Senders(pending)| && Senders(pending)[i] == s
  {
    SendersAreTheSenders(pending);
    FilterMembers(pending, From(s), Queue(pending, s)[0]);
    i :| 0 <= i < |Senders(pending)| && Senders(pending)[i] == s;
  }

  // Where a round robin stopped, each sender's share is a prefix of its queue whose length the position fixes.
  lemma Shares(items: seq<Item>, budget: nat, taken: set<int>) returns (round: nat, g: nat)
    ensures var pending := Pending(items, taken);
            var senders := Senders(pending);
            && g <= |senders|
            && forall i :: 0 <= i < |senders| ==>
                 Queue(RoundRobin(items, budget, taken), senders[i]) ==
                 Queue(pending, senders[i])[..Given(Queues(pending, senders), round, g, i)]
  {
    var pending := Pending(items, taken);
    var senders := Senders(pending);
    var queues: seq<seq<Item>> := Queues(pending, senders);
    QueuesAreBySender(pending);
    round, g := DealStops(queues, budget, 0, 0);
    assert Dealt(queues, 0, 0) == [];
    assert [] + Deal(queues, budget, 0, 0) == Deal(queues, budget, 0, 0);
    forall i | 0 <= i < |senders|
      ensures Queue(RoundRobin(items, budget, taken), senders[i]) == Queue(pending, senders[i])[..Given(queues, round, g, i)]
    {
      DealtPrefix(queues, senders, round, g, i);
    }
  }

  lemma {:induction false} QueueOfStrangers(out: seq<Item>, pending: seq<Item>, s: string)
    requires Queue(pending, s) == []
    requires forall x :: x in out ==> x in pending
    ensures Queue(out, s) == []
  {
    if Queue(out, s) != [] {
      var x := Queue(out, s)[0];
      FilterMembers(out, From(s), x);
      FilterMembers(pending, From(s), x);
    }
  }

  lemma RoundRobinFromPending(items: seq<Item>, budget: nat, taken: set<int>)
    ensures forall x :: x in RoundRobin(items, budget, taken) ==> x in Pending(items, taken)
  {
    var pending := Pending(items, taken);
    var senders := Senders(pending);
    var queues: seq<seq<Item>> := Queues(pending, senders);
    QueuesAreBySender(pending);
    var round, g := DealStops(queues, budget, 0, 0);
    assert Dealt(queues, 0, 0) == [];
    assert [] + Deal(queues, budget, 0, 0) == Deal(queues, budget, 0, 0);
    DealtFromSenders(queues, senders, round, g);
    forall x | x in RoundRobin(items, budget, taken) ensures x in pending {
      var i :| 0 <= i < |queues| && x in queues[i];
      FilterMembers(pending, From(senders[i]), x);
    }
  }

  // Oldest first: what a sender got is a prefix of its queue.
  lemma RoundRobinTakesOldestFirst(items: seq<Item>, budget: nat, taken: set<int>, s: string)
    ensures Queue(RoundRobin(items, budget, taken), s) <= Queue(Pending(items, taken), s)
  {
    var pending := Pending(items, taken);
    if Queue(pending, s) == [] {
      RoundRobinFromPending(items, budget, taken);
      QueueOfStrangers(RoundRobin(items, budget, taken), pending, s);
    } else {
      var i := SenderIndex(pending, s);
      var round, g := Shares(items, budget, taken);
    }
  }

  // Max-min fair: when some sender got k, every sender got its whole queue or at least k - 1; and at
  // least k if its oldest item is the older one.
  lemma RoundRobinIsFair(items: seq<Item>, budget: nat, taken: set<int>, s: string, t: string)
    ensures var pending := Pending(items, taken);
            var out := RoundRobin(items, budget, taken);
            var k := |Queue(out, t)|;
            && |Queue(out, s)| >= Min(|Queue(pending, s)|, k - 1)
            && (Queue(pending, s) != [] && Queue(pending, t) != [] &&
                Queue(pending, s)[0].order < Queue(pending, t)[0].order ==>
                  |Queue(out, s)| >= Min(|Queue(pending, s)|, k))
  {
    var pending := Pending(items, taken);
    RoundRobinTakesOldestFirst(items, budget, taken, t);
    if Queue(pending, s) != [] && Queue(pending, t) != [] {
      var i := SenderIndex(pending, s);
      var j := SenderIndex(pending, t);
      var round, g := Shares(items, budget, taken);
      if j < i { EarlierIndexIsOlder(items, taken, j, i); }
    }
  }

  lemma EarlierIndexIsOlder(items: seq<Item>, taken: set<int>, j: nat, i: nat)
    requires j < i < |Senders(Pending(items, taken))|
    ensures var pending := Pending(items, taken);
            OldestOrder(Queue(pending, Senders(pending)[j])) <= OldestOrder(Queue(pending, Senders(pending)[i]))
  {
    AlreadyInOrder(items, taken);
    var qs := Queues(Pending(items, taken), Senders(Pending(items, taken)));
    assert OldestOrder(qs[j]) <= OldestOrder(qs[i]);
  }

  // Nothing is dealt twice.
  lemma RoundRobinDealsOnce(items: seq<Item>, budget: nat, taken: set<int>)
    ensures multiset(RoundRobin(items, budget, taken)) <= multiset(Pending(items, taken))
  {
    var out, pending := RoundRobin(items, budget, taken), Pending(items, taken);
    forall x: Item ensures multiset(out)[x] <= multiset(pending)[x] {
      RoundRobinTakesOldestFirst(items, budget, taken, x.sender);
      FilterCount(out, From(x.sender), x);
      FilterCount(pending, From(x.sender), x);
      PrefixMultiset(Queue(out, x.sender), Queue(pending, x.sender));
    }
  }

  lemma PrefixMultiset(a: seq<Item>, b: seq<Item>)
    requires a <= b
    ensures multiset(a) <= multiset(b)
  {
    assert b == a + b[|a|..];
  }

  // The order candidates arrive in does not matter.
  lemma RoundRobinIgnoresArrivalOrder(items: seq<Item>, items': seq<Item>, budget: nat, taken: set<int>)
    requires multiset(items) == multiset(items') && DistinctOrders(items)
    ensures RoundRobin(items, budget, taken) == RoundRobin(items', budget, taken)
  {
    SortIgnoresArrivalOrder(items, items');
  }

  lemma SortIgnoresArrivalOrder(items: seq<Item>, items': seq<Item>)
    requires multiset(items) == multiset(items') && DistinctOrders(items)
    ensures SortBy(items, ByOrder) == SortBy(items', ByOrder)
  {
    var a, b := SortBy(items, ByOrder), SortBy(items', ByOrder);
    SortBySorts(items, ByOrder);
    SortBySorts(items', ByOrder);
    forall x, y | x in a && y in a && ByOrder(x) == ByOrder(y) ensures x == y {
      SameElements(a, items, x);
      SameElements(a, items, y);
    }
    SortedIsUnique(a, b, ByOrder);
  }
}
