/**
 The exhaustive relay walk of e2e/lib/relay-dev.js. A page is a fair selection, so it can skip messages
 and `next_cursor` could jump over one; the walk restarts at the smallest sequence number of each page.
 */
module PagingWalk {
  import opened Basics
  import opened Sorting
  import opened FairSelect
  import opened SelectFair

  const MAX_PAGES := 500

  // The relay's log: sequence numbers from 1 up, ascending.
  ghost predicate IsLog(log: seq<Item>) {
    && (forall i :: 0 <= i < |log| ==> log[i].order > 0)
    && (forall i, j :: 0 <= i < j < |log| ==> log[i].order < log[j].order)
  }

  // `/sync?cursor=c`: the page the server returns for each cursor.
  type Server = int -> seq<Item>

  function Beyond(cursor: int): Item -> bool { (i: Item) => i.order > cursor }

  // A relay whose pages are fair selections from the messages after the cursor.
  function FairServer(log: seq<Item>, cap: nat, reserved: nat): Server {
    (cursor: int) => Select(Filter(log, Beyond(cursor)), cap, reserved)
  }

  // The cursor once the `p` oldest messages are behind it.
  function CursorAt(log: seq<Item>, p: nat): int
    requires p <= |log|
  {
    if p == 0 then 0 else log[p - 1].order
  }

  // What the walk needs of a page: up to a cap of the pending messages, the oldest first.
  ghost predicate GoodPage(page: seq<Item>, pending: seq<Item>, cap: nat) {
    && multiset(page) <= multiset(pending)
    && |page| == Min(cap, |pending|)
    && SortedBy(page, ByOrder)
    && (pending != [] && cap > 0 ==> page[0] == pending[0])
  }

  ghost predicate GoodServer(log: seq<Item>, server: Server, cap: nat) {
    forall p: nat :: p <= |log| ==> GoodPage(server(CursorAt(log, p)), log[p..], cap)
  }

  lemma BeyondIsSuffix(log: seq<Item>, p: nat)
    requires IsLog(log) && p <= |log|
    ensures Filter(log, Beyond(CursorAt(log, p))) == log[p..]
  {
    var c := CursorAt(log, p);
    PrefixIsBehind(log, p, c);
    SuffixIsBeyond(log, p, c);
    FilterTail(log, p, Beyond(c));
  }

  lemma FilterTail(log: seq<Item>, p: nat, keep: Item -> bool)
    requires p <= |log| && Filter(log[..p], keep) == [] && Filter(log[p..], keep) == log[p..]
    ensures Filter(log, keep) == log[p..]
  {
    FilterParts(log, p, keep);
    assert [] + log[p..] == log[p..];
  }

  lemma FilterParts(log: seq<Item>, p: nat, keep: Item -> bool)
    requires p <= |log|
    ensures Filter(log, keep) == Filter(log[..p], keep) + Filter(log[p..], keep)
  {
    var a, b := log[..p], log[p..];
    assert a + b == log;
    FilterConcat(a, b, keep);
  }

  lemma PrefixIsBehind(log: seq<Item>, p: nat, c: int)
    requires IsLog(log) && p <= |log| && c == CursorAt(log, p)
    ensures Filter(log[..p], Beyond(c)) == []
  {
    NonePass(log[..p], Beyond(c));
  }

  lemma SuffixIsBeyond(log: seq<Item>, p: nat, c: int)
    requires IsLog(log) && p <= |log| && c == CursorAt(log, p)
    ensures Filter(log[p..], Beyond(c)) == log[p..]
  {
    forall x | x in log[p..] ensures Beyond(c)(x) {
      var i :| 0 <= i < |log[p..]| && log[p..][i] == x;
      assert x == log[p + i];
    }
    AllPass(log[p..], Beyond(c));
  }

  lemma {:induction false} NonePass(items: seq<Item>, p: Item -> bool)
    requires forall i :: 0 <= i < |items| ==> !p(items[i])
    ensures Filter(items, p) == []
  {
    if items != [] { NonePass(items[1..], p); }
  }

  // Fair selection gives the walk what it needs: above all, a page always starts with the oldest pending
  // message, because the cap exceeds the reserved floor.
  lemma FairServerIsGood(log: seq<Item>, cap: nat, reserved: nat)
    requires IsLog(log) && cap > reserved
    ensures GoodServer(log, FairServer(log, cap, reserved), cap)
  {
    forall p: nat | p <= |log| ensures GoodPage(FairServer(log, cap, reserved)(CursorAt(log, p)), log[p..], cap) {
      BeyondIsSuffix(log, p);
      FairPageIsGood(log[p..], cap, reserved);
    }
  }

  lemma FairPageIsGood(pending: seq<Item>, cap: nat, reserved: nat)
    requires cap > reserved
    requires forall i, j :: 0 <= i < j < |pending| ==> pending[i].order < pending[j].order
    ensures GoodPage(Select(pending, cap, reserved), pending, cap)
  {
    SelectFillsTheCap(pending, cap, reserved);
    if pending != [] {
      OldestAlwaysSelected(pending, cap, reserved);
      SortedIsFixed(pending, ByOrder);
      OldestComesFirst(Select(pending, cap, reserved), pending);
    }
  }

  lemma OldestComesFirst(page: seq<Item>, pending: seq<Item>)
    requires forall i, j :: 0 <= i < j < |pending| ==> pending[i].order < pending[j].order
    requires pending != [] && multiset(page) <= multiset(pending) && SortedBy(page, ByOrder) && pending[0] in page
    ensures page[0] == pending[0]
  {
    var k :| 0 <= k < |page| && page[k] == pending[0];
    assert k > 0 ==> ByOrder(page[0]) <= ByOrder(page[k]);
    assert page[0] in multiset(page) && page[0] in multiset(pending);
    var j :| 0 <= j < |pending| && pending[j] == page[0];
  }

  // Everything the walk reads, with `pages` pages left and `p` messages behind the cursor.
  function Walk(log: seq<Item>, server: Server, p: nat, pages: nat): seq<Item>
    requires p <= |log|
    decreases pages
  {
    if pages == 0 then []
    else
      var page := server(CursorAt(log, p));
      if page == [] || |log| - p == |page| || p == |log| then page
      else page + Walk(log, server, p + 1, pages - 1)
  }

  ghost predicate SameMembers(a: seq<Item>, b: seq<Item>) { forall x :: x in a <==> x in b }

  ghost predicate AllIn(a: seq<Item>, b: seq<Item>) { forall x :: x in a ==> x in b }

  // allRelayMessages: it reads what `Walk` describes, each message once and in order. `more` is the number
  // of pending messages the page left out.
  method AllRelayMessages(log: seq<Item>, server: Server, ghost cap: nat, pages: nat := MAX_PAGES) returns (out: seq<Item>)
    requires IsLog(log) && GoodServer(log, server, cap) && cap > 0
    ensures SameMembers(out, Walk(log, server, 0, pages))
    ensures SortedBy(out, ByOrder) && DistinctOrders(out)
  {
    out := ReadPages(log, server, cap, pages);
    SortOut(out);
    out := SortBy(out, ByOrder);
  }

  method ReadPages(log: seq<Item>, server: Server, ghost cap: nat, pages: nat) returns (out: seq<Item>)
    requires IsLog(log) && GoodServer(log, server, cap) && cap > 0
    ensures SameMembers(out, Walk(log, server, 0, pages)) && DistinctOrders(out)
  {
    out := [];
    var seen: set<int> := {};
    var cursor := 0;
    var guard := 0;
    ghost var covered: seq<Item> := [];
    while guard < pages
      invariant guard <= pages && guard <= |log| && cursor == CursorAt(log, guard)
      invariant DistinctOrders(out) && seen == Orders(out) && AllIn(out, log) && SameMembers(out, covered)
      invariant covered + Walk(log, server, guard, pages - guard) == Walk(log, server, 0, pages)
    {
      var msgs := server(cursor);
      var more := |log| - guard - |msgs|;
      out, seen := CollectPage(log, server, cap, guard, out, seen, msgs);
      WalkStep(log, server, cap, guard, pages - guard, covered);
      covered := covered + msgs;
      if msgs == [] || more == 0 { return; }
      // Math.min over the page's sequence numbers: its first, the page being in order.
      cursor := msgs[0].order;
      guard := guard + 1;
    }
    assert covered + [] == covered;
  }

  method CollectPage(log: seq<Item>, server: Server, ghost cap: nat, ghost p: nat, out: seq<Item>, seen: set<int>, msgs: seq<Item>)
    returns (out': seq<Item>, seen': set<int>)
    requires IsLog(log) && GoodServer(log, server, cap) && cap > 0 && p <= |log| && msgs == server(CursorAt(log, p))
    requires DistinctOrders(out) && seen == Orders(out) && AllIn(out, log)
    ensures DistinctOrders(out') && seen' == Orders(out') && AllIn(out', log) && SameMembers(out', out + msgs)
  {
    PageFromLog(log, server, cap, p);
    out', seen' := Collect(log, out, seen, msgs);
  }

  lemma SortOut(out: seq<Item>)
    requires DistinctOrders(out)
    ensures SortedBy(SortBy(out, ByOrder), ByOrder) && DistinctOrders(SortBy(out, ByOrder))
    ensures SameMembers(SortBy(out, ByOrder), out)
  {
    SortBySorts(out, ByOrder);
    WithinKeepsDistinct(SortBy(out, ByOrder), out);
    forall x ensures x in SortBy(out, ByOrder) <==> x in out { SameElements(SortBy(out, ByOrder), out, x); }
  }

  lemma WalkStep(log: seq<Item>, server: Server, cap: nat, p: nat, pages: nat, covered: seq<Item>)
    requires IsLog(log) && GoodServer(log, server, cap) && cap > 0 && p <= |log| && pages > 0
    ensures var page := server(CursorAt(log, p));
            if page == [] || |log| - p == |page| then covered + Walk(log, server, p, pages) == covered + page
            else && p < |log| && page[0].order == CursorAt(log, p + 1)
                 && covered + Walk(log, server, p, pages) == covered + page + Walk(log, server, p + 1, pages - 1)
  {
    var page := server(CursorAt(log, p));
    assert GoodPage(page, log[p..], cap);
    if p < |log| && |log| - p != |page| {
      assert covered + (page + Walk(log, server, p + 1, pages - 1)) == covered + page + Walk(log, server, p + 1, pages - 1);
    }
  }

  lemma PageFromLog(log: seq<Item>, server: Server, cap: nat, p: nat)
    requires GoodServer(log, server, cap) && cap > 0 && p <= |log|
    ensures AllIn(server(CursorAt(log, p)), log)
  {
    var page := server(CursorAt(log, p));
    assert GoodPage(page, log[p..], cap);
    forall x | x in page ensures x in log { assert x in multiset(page) && x in multiset(log[p..]) && x in log[p..]; }
  }

  // The messages of a page not seen before are kept.
  method Collect(log: seq<Item>, out: seq<Item>, seen: set<int>, msgs: seq<Item>) returns (out': seq<Item>, seen': set<int>)
    requires IsLog(log) && DistinctOrders(out) && seen == Orders(out)
    requires AllIn(out, log) && AllIn(msgs, log)
    ensures DistinctOrders(out') && seen' == Orders(out') && AllIn(out', log)
    ensures SameMembers(out', out + msgs)
  {
    out', seen' := out, seen;
    var i := 0;
    while i < |msgs|
      invariant i <= |msgs|
      invariant DistinctOrders(out') && seen' == Orders(out')
      invariant forall x :: x in out' <==> x in out || x in msgs[..i]
    {
      assert msgs[..i + 1] == msgs[..i] + [msgs[i]];
      OrdersMember(out', msgs[i].order);
      if msgs[i].order !in seen' {
        OrdersAppend(out', msgs[i]);
        seen' := seen' + {msgs[i].order};
        out' := out' + [msgs[i]];
      } else {
        ghost var y :| y in out' && y.order == msgs[i].order;
        SameOrderSameItem(log, y, msgs[i]);
      }
      i := i + 1;
    }
  }

  // The cursor strictly advances from page to page, by exactly one message.
  lemma CursorAdvances(log: seq<Item>, server: Server, cap: nat, p: nat)
    requires IsLog(log) && GoodServer(log, server, cap) && cap > 0 && p < |log|
    ensures var page := server(CursorAt(log, p));
            page != [] && CursorAt(log, p) < page[0].order == CursorAt(log, p + 1)
            && forall i :: 0 <= i < |page| ==> page[0].order <= page[i].order
  {
    var page := server(CursorAt(log, p));
    assert GoodPage(page, log[p..], cap);
    forall i | 0 <= i < |page| ensures page[0].order <= page[i].order {
      assert i > 0 ==> ByOrder(page[0]) <= ByOrder(page[i]);
    }
  }

  // What a walk reads: its first page, and what the rest of the walk reads when there is one.
  lemma WalkHas(log: seq<Item>, server: Server, p: nat, pages: nat, x: Item)
    requires p <= |log| && pages > 0
    ensures var page := server(CursorAt(log, p));
      x in Walk(log, server, p, pages) <==>
        x in page || (page != [] && p < |log| && |log| - p != |page| && x in Walk(log, server, p + 1, pages - 1))
  {
  }

  // With enough pages left the walk reads every message still pending.
  lemma {:induction false} WalkReadsEverything(log: seq<Item>, server: Server, cap: nat, p: nat, pages: nat, x: Item)
    requires IsLog(log) && GoodServer(log, server, cap) && cap > 0
    requires p <= |log| && pages > 0 && |log| - p <= pages + cap - 1 && x in log[p..]
    ensures x in Walk(log, server, p, pages)
    decreases pages
  {
    var page := server(CursorAt(log, p));
    assert GoodPage(page, log[p..], cap);
    WalkHas(log, server, p, pages, x);
    if |log| - p == |page| {
      FullPage(page, log[p..], x);
    } else {
      OldestOrLater(log, p, x);
      if x != log[p] { WalkReadsEverything(log, server, cap, p + 1, pages - 1, x); }
    }
  }

  lemma OldestOrLater(log: seq<Item>, p: nat, x: Item)
    requires p < |log| && x in log[p..]
    ensures log[p..][0] == log[p] && (x == log[p] || x in log[p + 1..])
  {
    assert log[p..] == [log[p]] + log[p + 1..];
  }

  lemma FullPage(page: seq<Item>, pending: seq<Item>, x: Item)
    requires multiset(page) <= multiset(pending) && |page| == |pending| && x in pending
    ensures x in page
  {
    var rest := multiset(pending) - multiset(page);
    assert multiset(pending) == multiset(page) + rest;
    assert |multiset(pending)| == |pending| && |multiset(page)| == |page|;
    assert |rest| == 0;
    assert x in multiset(pending);
    assert multiset(pending)[x] == multiset(page)[x] + rest[x];
  }

  // Any log of up to pages + cap - 1 messages is read completely: 519 under the 500-page guard with cap 20.
  lemma WalkIsComplete(log: seq<Item>, cap: nat, reserved: nat, pages: nat, x: Item)
    requires IsLog(log) && cap > reserved && pages > 0 && |log| <= pages + cap - 1 && x in log
    ensures x in Walk(log, FairServer(log, cap, reserved), 0, pages)
  {
    FairServerIsGood(log, cap, reserved);
    assert log[0..] == log;
    WalkReadsEverything(log, FairServer(log, cap, reserved), cap, 0, pages, x);
  }

  // ------------------------------------------------------ 519 is the exact bound ---

  // All from one sender, none of them priority.
  ghost predicate OneChattySender(log: seq<Item>, s: string) {
    forall i :: 0 <= i < |log| ==> log[i].sender == s && !IsPriority(log[i])
  }

  lemma {:induction false} DealOne(q: seq<Item>, budget: nat, round: nat)
    requires round <= |q|
    ensures Deal([q], budget, round, 0) == q[round..][..Min(budget, |q| - round)]
    decreases |q| - round
  {
    if budget > 0 && round < |q| {
      DealOne(q, budget - 1, round + 1);
      assert Deal([q], budget, round, 0) == [q[round]] + Deal([q], budget - 1, round, 1);
      if budget > 1 && round + 1 < |q| {
        assert Deal([q], budget - 1, round, 1) == Deal([q], budget - 1, round + 1, 0);
      } else {
        DealStopsHere(q, budget - 1, round);
      }
      assert q[round..] == [q[round]] + q[round + 1..];
    }
  }

  lemma DealStopsHere(q: seq<Item>, budget: nat, round: nat)
    requires round < |q| && (budget == 0 || round + 1 == |q|)
    ensures Deal([q], budget, round, 1) == []
  {
    if budget > 0 {
      assert Deal([q], budget, round, 1) == Deal([q], budget, round + 1, 0);
      assert Exhausted([q], round + 1);
    }
  }

  lemma {:induction false} OneSender(log: seq<Item>, s: string)
    requires OneChattySender(log, s) && log != []
    ensures Senders(log) == [s]
  {
    if |log| > 1 { OneSender(log[..|log| - 1], s); }
  }

  // From one sender's chatter a fair page is simply the oldest messages.
  lemma ChatterPage(pending: seq<Item>, s: string, cap: nat, reserved: nat)
    requires OneChattySender(pending, s)
    requires forall i, j :: 0 <= i < j < |pending| ==> pending[i].order < pending[j].order
    ensures Select(pending, cap, reserved) == pending[..Min(cap, |pending|)]
  {
    ChatterFirstPass(pending, s, cap, reserved);
    ChatterSecondPass(pending, s, cap);
    var oldest := pending[..Min(cap, |pending|)];
    assert [] + oldest == oldest;
    StrictlySorted(oldest);
  }

  lemma ChatterFirstPass(pending: seq<Item>, s: string, cap: nat, reserved: nat)
    requires OneChattySender(pending, s)
    ensures FirstPass(pending, cap, reserved) == []
  {
    NonePass(pending, IsPriority);
    ChatterRound([], Min(reserved, cap), s);
  }

  lemma ChatterSecondPass(pending: seq<Item>, s: string, cap: nat)
    requires OneChattySender(pending, s)
    requires forall i, j :: 0 <= i < j < |pending| ==> pending[i].order < pending[j].order
    ensures SecondPass(pending, cap, []) == pending[..Min(cap, |pending|)]
  {
    assert Orders([]) == {};
    ChatterRound(pending, cap, s);
  }

  lemma StrictlySorted(items: seq<Item>)
    requires forall i, j :: 0 <= i < j < |items| ==> items[i].order < items[j].order
    ensures SortBy(items, ByOrder) == items
  {
    SortedIsFixed(items, ByOrder);
  }

  lemma ChatterRound(pending: seq<Item>, budget: nat, s: string)
    requires OneChattySender(pending, s)
    requires forall i, j :: 0 <= i < j < |pending| ==> pending[i].order < pending[j].order
    ensures RoundRobin(pending, budget, {}) == pending[..Min(budget, |pending|)]
  {
    SortedIsFixed(pending, ByOrder);
    NothingTaken(pending);
    if pending == [] {
      assert Queues([], []) == [];
    } else {
      OneSender(pending, s);
      forall x | x in pending ensures From(s)(x) { var i :| 0 <= i < |pending| && pending[i] == x; }
      AllPass(pending, From(s));
      assert Queues(pending, [s]) == [pending];
      DealOne(pending, budget, 0);
      assert pending[0..] == pending;
    }
  }

  // A server that answers with the oldest pending messages.
  ghost predicate OldestFirst(log: seq<Item>, server: Server, cap: nat) {
    forall p: nat :: p <= |log| ==> server(CursorAt(log, p)) == log[p..][..Min(cap, |log| - p)]
  }

  lemma ChatterServer(log: seq<Item>, s: string, cap: nat, reserved: nat)
    requires IsLog(log) && OneChattySender(log, s)
    ensures OldestFirst(log, FairServer(log, cap, reserved), cap)
  {
    forall p: nat | p <= |log| ensures FairServer(log, cap, reserved)(CursorAt(log, p)) == log[p..][..Min(cap, |log| - p)] {
      ChatterAnswer(log, s, cap, reserved, p);
    }
  }

  lemma ChatterAnswer(log: seq<Item>, s: string, cap: nat, reserved: nat, p: nat)
    requires IsLog(log) && OneChattySender(log, s) && p <= |log|
    ensures FairServer(log, cap, reserved)(CursorAt(log, p)) == log[p..][..Min(cap, |log| - p)]
  {
    BeyondIsSuffix(log, p);
    ChatterPage(log[p..], s, cap, reserved);
  }

  lemma PageStopsShort(log: seq<Item>, server: Server, cap: nat, p: nat, x: Item, n: nat)
    requires IsLog(log) && OldestFirst(log, server, cap) && p + cap <= n < |log| && x in server(CursorAt(log, p))
    ensures x.order < log[n].order
  {
    var page := server(CursorAt(log, p));
    assert page == log[p..][..cap];
    var i :| 0 <= i < |page| && page[i] == x;
    assert x == log[p + i];
  }

  lemma {:induction false} WalkStopsShort(log: seq<Item>, server: Server, cap: nat, p: nat, pages: nat, x: Item)
    requires IsLog(log) && OldestFirst(log, server, cap) && p <= |log| && |log| - p >= pages + cap && cap > 0
    requires x in Walk(log, server, p, pages)
    ensures x.order < log[p + pages + cap - 1].order
    decreases pages
  {
    if pages > 0 {
      WalkHas(log, server, p, pages, x);
      if x in server(CursorAt(log, p)) {
        PageStopsShort(log, server, cap, p, x, p + pages + cap - 1);
      } else {
        WalkStopsShort(log, server, cap, p + 1, pages - 1, x);
      }
    }
  }

  lemma NewestIsMissed(log: seq<Item>, server: Server, cap: nat, pages: nat)
    requires IsLog(log) && OldestFirst(log, server, cap) && cap > 0 && |log| >= pages + cap
    ensures log[pages + cap - 1] !in Walk(log, server, 0, pages)
  {
    var newest := log[pages + cap - 1];
    if newest in Walk(log, server, 0, pages) { WalkStopsShort(log, server, cap, 0, pages, newest); }
  }

  // One message more than that, all from one chatty sender, and the guard stops the walk short.
  lemma TheBoundIsExact(log: seq<Item>, s: string, cap: nat, reserved: nat, pages: nat)
    requires IsLog(log) && OneChattySender(log, s) && cap > 0 && |log| >= pages + cap
    ensures log[pages + cap - 1] !in Walk(log, FairServer(log, cap, reserved), 0, pages)
  {
    ChatterServer(log, s, cap, reserved);
    NewestIsMissed(log, FairServer(log, cap, reserved), cap, pages);
  }

  // With the walk's own page count and the relay's caps that is 519 messages.
  lemma DefaultWalkReads(log: seq<Item>, s: string)
    requires IsLog(log) && OneChattySender(log, s)
    ensures AllIn(log, Walk(log, FairServer(log, FETCH_CAP, RESERVED_SLOTS), 0, MAX_PAGES)) <==> |log| <= 519
  {
    if |log| <= 519 {
      forall x | x in log ensures x in Walk(log, FairServer(log, FETCH_CAP, RESERVED_SLOTS), 0, MAX_PAGES) {
        WalkIsComplete(log, FETCH_CAP, RESERVED_SLOTS, MAX_PAGES, x);
      }
    } else {
      TheBoundIsExact(log, s, FETCH_CAP, RESERVED_SLOTS, MAX_PAGES);
      assert log[MAX_PAGES + FETCH_CAP - 1] in log;
    }
  }
}
