/** `selectFair` of lib/transport.js: the reserved priority pass, the fair pass, and one order. */
module SelectFair {
  import opened Basics
  import opened Sorting
  import opened FairSelect

  function Orders(items: seq<Item>): set<int> { set i | 0 <= i < |items| :: items[i].order }

  // The priority items the reserved floor lets through.
  function FirstPass(candidates: seq<Item>, cap: nat, reserved: nat): (first: seq<Item>)
    ensures |first| <= cap
  {
    RoundRobin(Filter(candidates, IsPriority), Min(reserved, cap), {})
  }

  // The fair pass over what `first` left, within what it left of the cap.
  function SecondPass(candidates: seq<Item>, cap: nat, first: seq<Item>): seq<Item>
    requires |first| <= cap
  {
    RoundRobin(candidates, cap - |first|, Orders(first))
  }

  function Select(candidates: seq<Item>, cap: nat, reserved: nat): seq<Item> {
    var first := FirstPass(candidates, cap, reserved);
    SortBy(first + SecondPass(candidates, cap, first), ByOrder)
  }

  method FirstPassLoops(candidates: seq<Item>, cap: nat, reserved: nat) returns (first: seq<Item>)
    ensures first == FirstPass(candidates, cap, reserved)
  {
    first := RoundRobinLoops(Filter(candidates, IsPriority), Min(reserved, cap), {});
  }

  method SelectLoops(candidates: seq<Item>, cap: nat, reserved: nat) returns (chosen: seq<Item>)
    ensures chosen == Select(candidates, cap, reserved)
  {
    var first := FirstPassLoops(candidates, cap, reserved);
    var taken: set<int>;
    chosen, taken := TakeAll([], {}, first);
    assert chosen == first && taken == Orders(first);
    var second := RoundRobinLoops(candidates, cap - |chosen|, taken);
    chosen, taken := TakeAll(chosen, taken, second);
    chosen := SortBy(chosen, ByOrder);
  }

  // Every pick is chosen, and its number is taken.
  method TakeAll(chosen: seq<Item>, taken: set<int>, picks: seq<Item>) returns (chosen': seq<Item>, taken': set<int>)
    ensures chosen' == chosen + picks && taken' == taken + Orders(picks)
  {
    chosen', taken' := chosen, taken;
    var i := 0;
    while i < |picks|
      invariant i <= |picks|
      invariant chosen' == chosen + picks[..i] && taken' == taken + Orders(picks[..i])
    {
      assert picks[..i + 1] == picks[..i] + [picks[i]];
      OrdersAppend(picks[..i], picks[i]);
      taken' := taken' + {picks[i].order};
      chosen' := chosen' + [picks[i]];
      i := i + 1;
    }
    assert picks[..|picks|] == picks;
  }

  lemma OrdersAppend(items: seq<Item>, x: Item)
    ensures Orders(items + [x]) == Orders(items) + {x.order}
  {
    var all := items + [x];
    forall o | o in Orders(items) + {x.order} ensures o in Orders(all) {
      if o == x.order {
        assert all[|items|].order == o;
      } else {
        var i :| 0 <= i < |items| && items[i].order == o;
        assert all[i].order == o;
      }
    }
  }

  // ---------------------------------------------------------------- counting ---

  lemma OrdersMember(items: seq<Item>, o: int)
    ensures o in Orders(items) <==> exists x :: x in items && x.order == o
  {
    if o in Orders(items) {
      var i :| 0 <= i < |items| && items[i].order == o;
      assert items[i] in items;
    }
    if exists x :: x in items && x.order == o {
      var x :| x in items && x.order == o;
      var i :| 0 <= i < |items| && items[i] == x;
    }
  }

  lemma DistinctMeansOnce(items: seq<Item>, x: Item)
    requires DistinctOrders(items)
    ensures multiset(items)[x] <= 1
  {
    if items != [] {
      var init := items[..|items| - 1];
      assert items == init + [items[|items| - 1]];
      DistinctMeansOnce(init, x);
      forall i | 0 <= i < |init| ensures init[i] != items[|items| - 1] {
        assert items[i].order != items[|items| - 1].order;
      }
    }
  }

  lemma SameOrderSameItem(items: seq<Item>, x: Item, y: Item)
    requires DistinctOrders(items) && x in items && y in items && x.order == y.order
    ensures x == y
  {
    var i :| 0 <= i < |items| && items[i] == x;
    var j :| 0 <= j < |items| && items[j] == y;
  }

  // Setting `first` aside leaves all the others pending.
  lemma PendingCount(items: seq<Item>, first: seq<Item>)
    requires DistinctOrders(items) && multiset(first) <= multiset(items)
    ensures |Pending(items, Orders(first))| == |items| - |first|
  {
    var sorted := SortBy(items, ByOrder);
    var keep := NotIn(Orders(first));
    var drop := (x: Item) => !keep(x);
    FilterSplit(sorted, keep);
    var gone := Filter(sorted, drop);
    forall x: Item ensures multiset(gone)[x] == multiset(first)[x] {
      FilterCount(sorted, drop, x);
      DistinctMeansOnce(items, x);
      OrdersMember(first, x.order);
      assert x in first <==> x in multiset(first);
      assert x in multiset(first) ==> x in multiset(items);
      if x in items && x.order in Orders(first) {
        var y :| y in first && y.order == x.order;
        assert y in multiset(first) && y in multiset(items);
        SameOrderSameItem(items, x, y);
      }
    }
    assert multiset(gone) == multiset(first);
    assert |gone| == |multiset(gone)| == |multiset(first)| == |first|;
  }

  lemma FilterWithin(items: seq<Item>, p: Item -> bool)
    ensures multiset(Filter(items, p)) <= multiset(items)
  {
    forall x: Item ensures multiset(Filter(items, p))[x] <= multiset(items)[x] { FilterCount(items, p, x); }
  }

  lemma PendingWithin(items: seq<Item>, taken: set<int>)
    ensures multiset(Pending(items, taken)) <= multiset(items)
  {
    FilterWithin(SortBy(items, ByOrder), NotIn(taken));
  }

  lemma FirstPassIsPriority(candidates: seq<Item>, cap: nat, reserved: nat)
    ensures multiset(FirstPass(candidates, cap, reserved)) <= multiset(Filter(candidates, IsPriority)) <= multiset(candidates)
    ensures |FirstPass(candidates, cap, reserved)| == Min(Min(reserved, cap), |Filter(candidates, IsPriority)|)
  {
    var priority := Filter(candidates, IsPriority);
    RoundRobinDealsOnce(priority, Min(reserved, cap), {});
    PendingWithin(priority, {});
    FilterWithin(candidates, IsPriority);
    RoundRobinConservesWork(priority, Min(reserved, cap), {});
    NothingTaken(SortBy(priority, ByOrder));
  }

  lemma {:induction false} NothingTaken(items: seq<Item>)
    ensures Filter(items, NotIn({})) == items
  {
    if items != [] { NothingTaken(items[1..]); }
  }

  // What the first pass took is out of the second pass's reach.
  lemma SecondPassExcludes(candidates: seq<Item>, cap: nat, first: seq<Item>, x: Item)
    requires |first| <= cap
    ensures multiset(SecondPass(candidates, cap, first))[x] <= if x in first then 0 else multiset(candidates)[x]
  {
    PendingExcludes(candidates, first, x);
    SecondPassWithinPending(candidates, cap, first);
    CountsCompare(multiset(SecondPass(candidates, cap, first)), multiset(Pending(candidates, Orders(first))), x);
    PendingWithin(candidates, Orders(first));
    CountsCompare(multiset(Pending(candidates, Orders(first))), multiset(candidates), x);
  }

  lemma SecondPassWithinPending(candidates: seq<Item>, cap: nat, first: seq<Item>)
    requires |first| <= cap
    ensures multiset(SecondPass(candidates, cap, first)) <= multiset(Pending(candidates, Orders(first)))
  {
    var budget, taken := cap - |first|, Orders(first);
    var second := SecondPass(candidates, cap, first);
    assert second == RoundRobin(candidates, budget, taken);
    RoundRobinDealsOnce(candidates, budget, taken);
  }

  lemma CountsCompare(a: multiset<Item>, b: multiset<Item>, x: Item)
    requires a <= b
    ensures a[x] <= b[x]
  {
  }

  lemma PendingExcludes(candidates: seq<Item>, first: seq<Item>, x: Item)
    ensures x in first ==> multiset(Pending(candidates, Orders(first)))[x] == 0
  {
    if x in first {
      OrdersMember(first, x.order);
      FilterMembers(SortBy(candidates, ByOrder), NotIn(Orders(first)), x);
    }
  }

  // Every candidate is selected at most once.
  lemma SelectWithin(candidates: seq<Item>, cap: nat, reserved: nat)
    ensures multiset(Select(candidates, cap, reserved)) <= multiset(candidates)
  {
    var first := FirstPass(candidates, cap, reserved);
    FirstPassIsPriority(candidates, cap, reserved);
    BothWithin(candidates, cap, first);
  }

  lemma BothWithin(candidates: seq<Item>, cap: nat, first: seq<Item>)
    requires |first| <= cap && multiset(first) <= multiset(candidates)
    ensures multiset(first + SecondPass(candidates, cap, first)) <= multiset(candidates)
  {
    var second := SecondPass(candidates, cap, first);
    forall x: Item ensures multiset(first + second)[x] <= multiset(candidates)[x] {
      SecondPassExcludes(candidates, cap, first, x);
      assert multiset(first + second)[x] == multiset(first)[x] + multiset(second)[x];
    }
  }

  lemma {:induction false} WithinKeepsDistinct(items: seq<Item>, all: seq<Item>)
    requires multiset(items) <= multiset(all) && DistinctOrders(all)
    ensures DistinctOrders(items)
  {
    forall i, j | 0 <= i < j < |items| ensures items[i].order != items[j].order {
      assert items[i] in multiset(all) && items[j] in multiset(all);
      if items[i].order == items[j].order {
        SameOrderSameItem(all, items[i], items[j]);
        DistinctMeansOnce(all, items[i]);
        TwiceCounts(items, i, j);
      }
    }
  }

  lemma TwiceCounts(items: seq<Item>, i: nat, j: nat)
    requires i < j < |items| && items[i] == items[j]
    ensures multiset(items)[items[i]] >= 2
  {
    assert items == items[..i] + [items[i]] + items[i + 1..j] + [items[j]] + items[j + 1..];
  }

  // ------------------------------------------------------------- the promise ---

  lemma BothCount(candidates: seq<Item>, cap: nat, first: seq<Item>)
    requires DistinctOrders(candidates) && |first| <= cap && multiset(first) <= multiset(candidates)
    ensures |first + SecondPass(candidates, cap, first)| == Min(cap, |candidates|)
  {
    FirstIsNoLonger(candidates, first);
    assert |SecondPass(candidates, cap, first)| == Min(cap - |first|, |candidates| - |first|) by {
      RoundRobinConservesWork(candidates, cap - |first|, Orders(first));
      PendingCount(candidates, first);
    }
  }

  lemma FirstIsNoLonger(candidates: seq<Item>, first: seq<Item>)
    requires multiset(first) <= multiset(candidates)
    ensures |first| <= |candidates|
  {
    MultisetSize(multiset(first), multiset(candidates));
    assert |multiset(first)| == |first| && |multiset(candidates)| == |candidates|;
  }

  // min(cap, n) distinct candidates, oldest first, and as many priority ones as the floor reserves.
  lemma SelectFillsTheCap(candidates: seq<Item>, cap: nat, reserved: nat)
    requires DistinctOrders(candidates)
    ensures var chosen := Select(candidates, cap, reserved);
            && |chosen| == Min(cap, |candidates|)
            && SortedBy(chosen, ByOrder) && DistinctOrders(chosen)
            && multiset(chosen) <= multiset(candidates)
            && |Filter(chosen, IsPriority)| >= Min(Min(reserved, cap), |Filter(candidates, IsPriority)|)
  {
    var first := FirstPass(candidates, cap, reserved);
    FirstPassIsPriority(candidates, cap, reserved);
    BothCount(candidates, cap, first);
    SortBySorts(first + SecondPass(candidates, cap, first), ByOrder);
    SelectWithin(candidates, cap, reserved);
    WithinKeepsDistinct(Select(candidates, cap, reserved), candidates);
    PriorityKept(candidates, first, SecondPass(candidates, cap, first));
  }

  // Every candidate is taken exactly when the cap has room for all.
  lemma SelectTakesAllExactlyWhen(candidates: seq<Item>, cap: nat, reserved: nat)
    requires DistinctOrders(candidates)
    ensures (forall x :: x in candidates ==> x in Select(candidates, cap, reserved)) <==> |candidates| <= cap
  {
    var chosen := Select(candidates, cap, reserved);
    SelectFillsTheCap(candidates, cap, reserved);
    if forall x :: x in candidates ==> x in chosen {
      forall x ensures multiset(candidates)[x] <= multiset(chosen)[x] {
        DistinctMeansOnce(candidates, x);
        if multiset(candidates)[x] > 0 { assert x in multiset(candidates) && x in chosen && x in multiset(chosen); }
      }
      MultisetSize(multiset(candidates), multiset(chosen));
      assert |multiset(candidates)| == |candidates| && |multiset(chosen)| == |chosen|;
    } else if |candidates| <= cap {
      WholeSelection(candidates, chosen);
    }
  }

  lemma WholeSelection(candidates: seq<Item>, chosen: seq<Item>)
    requires multiset(chosen) <= multiset(candidates) && |chosen| == |candidates|
    ensures forall x :: x in candidates ==> x in chosen
  {
    var missing := multiset(candidates) - multiset(chosen);
    assert multiset(candidates) == multiset(chosen) + missing;
    assert |multiset(candidates)| == |candidates| && |multiset(chosen)| == |chosen|;
    assert missing == multiset{};
    forall x | x in candidates ensures x in chosen { assert x in multiset(candidates); }
  }

  lemma MultisetSize(a: multiset<Item>, b: multiset<Item>)
    requires a <= b
    ensures |a| <= |b|
  {
    assert b == a + (b - a);
  }

  lemma PriorityKept(candidates: seq<Item>, first: seq<Item>, second: seq<Item>)
    requires multiset(first) <= multiset(Filter(candidates, IsPriority))
    ensures |Filter(SortBy(first + second, ByOrder), IsPriority)| >= |first|
  {
    FilterMultiset(SortBy(first + second, ByOrder), first + second, IsPriority);
    var a, b := Filter(SortBy(first + second, ByOrder), IsPriority), Filter(first + second, IsPriority);
    assert |a| == |multiset(a)| == |multiset(b)| == |b|;
    FilterConcat(first, second, IsPriority);
    forall x | x in first ensures IsPriority(x) {
      assert x in multiset(first) && x in multiset(Filter(candidates, IsPriority));
      FilterMembers(candidates, IsPriority, x);
    }
    AllPass(first, IsPriority);
  }

  // ------------------------------------------------------- the oldest candidate ---

  function Oldest(candidates: seq<Item>): Item
    requires candidates != []
  {
    SortBy(candidates, ByOrder)[0]
  }

  lemma OldestIsOldest(candidates: seq<Item>, x: Item)
    requires candidates != [] && x in candidates
    ensures Oldest(candidates) in candidates && Oldest(candidates).order <= x.order
  {
    var sorted := SortBy(candidates, ByOrder);
    SortBySorts(candidates, ByOrder);
    SameElements(sorted, candidates, x);
    SameElements(sorted, candidates, sorted[0]);
    var i :| 0 <= i < |sorted| && sorted[i] == x;
    assert i > 0 ==> ByOrder(sorted[0]) <= ByOrder(sorted[i]);
  }

  // Any budget at all reaches the oldest pending item: round 0 of the first queue.
  lemma RoundRobinTakesTheOldest(items: seq<Item>, budget: nat, taken: set<int>)
    requires budget > 0 && Pending(items, taken) != []
    ensures Pending(items, taken)[0] in RoundRobin(items, budget, taken)
  {
    var pending := Pending(items, taken);
    FirstSender(pending);
    var queues := Queues(pending, Senders(pending));
    assert queues[0][0] == pending[0];
    assert !Exhausted(queues, 0);
    assert Deal(queues, budget, 0, 0) == [queues[0][0]] + Deal(queues, budget - 1, 0, 1);
  }

  lemma {:induction false} FirstSender(pending: seq<Item>)
    requires pending != []
    ensures |Senders(pending)| > 0 && Senders(pending)[0] == pending[0].sender
    ensures Queue(pending, pending[0].sender) != [] && Queue(pending, pending[0].sender)[0] == pending[0]
  {
    if |pending| > 1 { FirstSender(pending[..|pending| - 1]); }
  }

  // Exactly when the oldest candidate is selected: when it is a priority item and there is any room, or
  // when the priority pass leaves room.
  lemma OldestSelectedExactlyWhen(candidates: seq<Item>, cap: nat, reserved: nat)
    requires DistinctOrders(candidates) && candidates != []
    ensures Oldest(candidates) in Select(candidates, cap, reserved) <==>
              || (cap > 0 && IsPriority(Oldest(candidates)))
              || Min(Min(reserved, cap), |Filter(candidates, IsPriority)|) < cap
  {
    var first := FirstPass(candidates, cap, reserved);
    var oldest := Oldest(candidates);
    FirstPassIsPriority(candidates, cap, reserved);
    SameElements(Select(candidates, cap, reserved), first + SecondPass(candidates, cap, first), oldest);
    if |first| < cap {
      OldestInSecondPass(candidates, cap, first);
    } else {
      RoundRobinEmptyBudget(candidates, Orders(first));
      if cap > 0 && IsPriority(oldest) {
        OldestInFirstPass(candidates, cap, reserved);
      } else if oldest in first {
        assert oldest in multiset(first) && oldest in multiset(Filter(candidates, IsPriority));
        FilterMembers(candidates, IsPriority, oldest);
      }
    }
  }

  lemma RoundRobinEmptyBudget(items: seq<Item>, taken: set<int>)
    ensures RoundRobin(items, 0, taken) == []
  {
  }

  lemma OldestInSecondPass(candidates: seq<Item>, cap: nat, first: seq<Item>)
    requires DistinctOrders(candidates) && candidates != []
    requires |first| < cap && multiset(first) <= multiset(candidates)
    ensures Oldest(candidates) in first + SecondPass(candidates, cap, first)
  {
    var oldest := Oldest(candidates);
    if oldest !in first {
      OldestStaysPending(candidates, first);
      RoundRobinTakesTheOldest(candidates, cap - |first|, Orders(first));
    }
  }

  lemma OldestStaysPending(candidates: seq<Item>, first: seq<Item>)
    requires DistinctOrders(candidates) && candidates != [] && multiset(first) <= multiset(candidates)
    requires Oldest(candidates) !in first
    ensures Pending(candidates, Orders(first)) != [] && Pending(candidates, Orders(first))[0] == Oldest(candidates)
  {
    var oldest := Oldest(candidates);
    OldestIsOldest(candidates, candidates[0]);
    OrdersMember(first, oldest.order);
    forall y | y in first ensures y.order != oldest.order {
      assert y in multiset(first) && y in multiset(candidates);
      if y.order == oldest.order { SameOrderSameItem(candidates, y, oldest); }
    }
  }

  lemma OldestInFirstPass(candidates: seq<Item>, cap: nat, reserved: nat)
    requires DistinctOrders(candidates) && candidates != [] && cap > 0 && IsPriority(Oldest(candidates))
    requires |FirstPass(candidates, cap, reserved)| >= cap
    ensures Oldest(candidates) in FirstPass(candidates, cap, reserved)
  {
    var priority := Filter(candidates, IsPriority);
    var oldest := Oldest(candidates);
    OldestIsOldest(candidates, candidates[0]);
    FilterMembers(candidates, IsPriority, oldest);
    FirstPassIsPriority(candidates, cap, reserved);
    NothingTaken(SortBy(priority, ByOrder));
    var p := Oldest(priority);
    OldestIsOldest(priority, oldest);
    FilterMembers(candidates, IsPriority, p);
    OldestIsOldest(candidates, p);
    SameOrderSameItem(candidates, p, oldest);
    RoundRobinTakesTheOldest(priority, Min(reserved, cap), {});
  }

  // Above the reserved floor the oldest candidate is always selected.
  lemma OldestAlwaysSelected(candidates: seq<Item>, cap: nat, reserved: nat)
    requires DistinctOrders(candidates) && candidates != [] && cap > reserved
    ensures Oldest(candidates) in Select(candidates, cap, reserved)
  {
    OldestSelectedExactlyWhen(candidates, cap, reserved);
  }

  // The selection does not depend on the order the candidates arrive in.
  lemma SelectIgnoresArrivalOrder(candidates: seq<Item>, candidates': seq<Item>, cap: nat, reserved: nat)
    requires multiset(candidates) == multiset(candidates') && DistinctOrders(candidates)
    ensures Select(candidates, cap, reserved) == Select(candidates', cap, reserved)
  {
    FirstPassIgnoresArrivalOrder(candidates, candidates', cap, reserved);
    var first := FirstPass(candidates, cap, reserved);
    RoundRobinIgnoresArrivalOrder(candidates, candidates', cap - |first|, Orders(first));
    assert SecondPass(candidates, cap, first) == SecondPass(candidates', cap, first);
  }

  lemma FirstPassIgnoresArrivalOrder(candidates: seq<Item>, candidates': seq<Item>, cap: nat, reserved: nat)
    requires multiset(candidates) == multiset(candidates') && DistinctOrders(candidates)
    ensures FirstPass(candidates, cap, reserved) == FirstPass(candidates', cap, reserved)
  {
    var priority, priority' := Filter(candidates, IsPriority), Filter(candidates', IsPriority);
    FilterMultiset(candidates, candidates', IsPriority);
    FilterWithin(candidates, IsPriority);
    WithinKeepsDistinct(priority, candidates);
    RoundRobinIgnoresArrivalOrder(priority, priority', Min(reserved, cap), {});
  }

  // ------------------------------------------------------------------- the floor ---

  // A warning of any sort, or the note that reports a blocker.
  predicate Urgent(kind: string) { (|kind| >= 5 && kind[..5] == "warn.") || kind == "note.blocker" }

  lemma UrgentIsPriority(kind: string)
    ensures Urgent(kind) <==> IsPriorityType(kind)
  {
    if Urgent(kind) && kind != "note.blocker" { assert kind == kind[..5] + kind[5..]; }
  }

  // When no more of them wait than the floor reserves, every warning and every blocker is selected.
  lemma UrgentIsSelected(candidates: seq<Item>, cap: nat, reserved: nat, x: Item)
    requires DistinctOrders(candidates) && x in candidates && Urgent(x.kind)
    requires |Filter(candidates, (i: Item) => Urgent(i.kind))| <= Min(reserved, cap)
    ensures x in Select(candidates, cap, reserved)
  {
    var urgent: Item -> bool := (i: Item) => Urgent(i.kind);
    forall i ensures urgent(i) <==> IsPriority(i) { UrgentIsPriority(i.kind); }
    FilterAgrees(candidates, IsPriority, urgent);
    SelectFillsTheCap(candidates, cap, reserved);
    FullFloor(candidates, Select(candidates, cap, reserved), x);
  }

  lemma FullFloor(candidates: seq<Item>, chosen: seq<Item>, x: Item)
    requires multiset(chosen) <= multiset(candidates) && x in candidates && IsPriority(x)
    requires |Filter(chosen, IsPriority)| >= |Filter(candidates, IsPriority)|
    ensures x in chosen
  {
    var some, all := Filter(chosen, IsPriority), Filter(candidates, IsPriority);
    forall i: Item ensures multiset(some)[i] <= multiset(all)[i] {
      FilterCount(chosen, IsPriority, i);
      FilterCount(candidates, IsPriority, i);
    }
    assert multiset(all) == multiset(some) + (multiset(all) - multiset(some));
    assert |multiset(some)| == |some| && |multiset(all)| == |all|;
    assert multiset(all) - multiset(some) == multiset{};
    FilterMembers(candidates, IsPriority, x);
    assert x in multiset(all) && x in multiset(some) && x in some;
    FilterMembers(chosen, IsPriority, x);
  }
}
