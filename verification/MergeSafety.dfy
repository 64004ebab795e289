/** The merged scan loses nothing silently, stays under the cap, and is the same when merged again. */
module MergeSafety {
  import opened Basics
  import opened MergeScans
  import opened Sorting

  // ------------------------------------------------------------- fresh records ---

  // A fresh record was in the list and its key was new; every listed key is seen or fresh.
  lemma {:induction false} FreshIsExact(list: seq<Record>, seen: Seen)
    ensures forall x :: x in Fresh(list, seen) ==> x in list && Tag(x) !in seen
    ensures forall i :: 0 <= i < |list| ==> Tag(list[i]) in seen || Tag(list[i]) in Tags(Fresh(list, seen))
  {
    if list != [] {
      var t := Tag(list[0]);
      var rest := list[1..];
      if t in seen {
        FreshIsExact(rest, seen);
      } else {
        FreshIsExact(rest, seen + {t});
        var f := Fresh(list, seen);
        assert f[0] == list[0] && f[1..] == Fresh(rest, seen + {t});
        assert Tag(f[0]) in Tags(f);
        forall i | 1 <= i < |list| && Tag(list[i]) !in seen ensures Tag(list[i]) in Tags(f) {
          assert rest[i - 1] == list[i];
          TagsOfTail(f);
        }
      }
    }
  }

  lemma TagsOfTail(f: seq<Record>)
    requires f != []
    ensures forall t :: t in Tags(f[1..]) ==> t in Tags(f)
  {
    forall t | t in Tags(f[1..]) ensures t in Tags(f) {
      var j :| 0 <= j < |f| - 1 && Tag(f[1..][j]) == t;
      assert Tag(f[j + 1]) == t;
    }
  }

  lemma TagOfMember(records: seq<Record>, x: Record)
    requires x in records
    ensures Tag(x) in Tags(records)
  {
    var i :| 0 <= i < |records| && records[i] == x;
    assert Tag(records[i]) in Tags(records);
  }

  // What the working tree offers for m: records of m from the working tree, with keys the ref lacks; and
  // every record of m there shares its key with one of the ref or one of these.
  lemma CandidatesAreExact(wt: Scan, ref: Scan, m: Text)
    ensures forall x :: x in Candidates(wt, ref, m) ==> x in wt.records && x.member == m && Tag(x) !in Tags(ref.records)
    ensures forall x :: x in wt.records && x.member == m ==>
      Tag(x) in Tags(ref.records) || Tag(x) in Tags(Candidates(wt, ref, m))
  {
    var list, seen := Filter(wt.records, IsOf(m)), Tags(ref.records);
    var f, c := Fresh(list, seen), Candidates(wt, ref, m);
    FreshIsExact(list, seen);
    forall x | x in c ensures x in wt.records && x.member == m && Tag(x) !in seen {
      SameElements(c, f, x);
      FilterMembers(wt.records, IsOf(m), x);
    }
    forall x | x in wt.records && x.member == m && Tag(x) !in seen ensures Tag(x) in Tags(c) {
      FilterMembers(wt.records, IsOf(m), x);
      var i :| 0 <= i < |list| && list[i] == x;
      var j :| 0 <= j < |f| && Tag(f[j]) == Tag(x);
      SameElements(c, f, f[j]);
      TagOfMember(c, f[j]);
    }
  }

  lemma {:induction false} AllOrNone(list: seq<Record>, m: Text, n: Text)
    requires forall i :: 0 <= i < |list| ==> list[i].member == m
    ensures Filter(list, IsOf(n)) == if n == m then list else []
  {
    if list != [] {
      AllOrNone(list[1..], m, n);
      assert list == [list[0]] + list[1..];
    }
  }

  lemma ContributionOf(wt: Scan, ref: Scan, cap: nat, m: Text, n: Text)
    ensures Filter(Contribution(wt, ref, cap, m), IsOf(n)) == if n == m then Contribution(wt, ref, cap, m) else []
  {
    var c := Contribution(wt, ref, cap, m);
    CandidatesAreExact(wt, ref, m);
    forall i | 0 <= i < |c| ensures c[i].member == m { assert c[i] in Candidates(wt, ref, m); }
    AllOrNone(c, m, n);
  }

  // The recovered records of one member are its contribution.
  lemma {:induction false} RecoveredOf(wt: Scan, ref: Scan, cap: nat, ms: seq<Text>, m: Text)
    requires NoDuplicates(ms)
    ensures Filter(Recovered(wt, ref, cap, ms), IsOf(m)) == if m in ms then Contribution(wt, ref, cap, m) else []
  {
    if ms != [] {
      var n := |ms| - 1;
      RecoveredOf(wt, ref, cap, ms[..n], m);
      ContributionOf(wt, ref, cap, ms[n], m);
      FilterConcat(Recovered(wt, ref, cap, ms[..n]), Contribution(wt, ref, cap, ms[n]), IsOf(m));
      LastOnce(ms, m);
    }
  }

  lemma LastOnce(ms: seq<Text>, m: Text)
    requires NoDuplicates(ms) && ms != []
    ensures m in ms <==> m in ms[..|ms| - 1] || m == ms[|ms| - 1]
    ensures m == ms[|ms| - 1] ==> m !in ms[..|ms| - 1]
  {
  }

  // -------------------------------------------------------------- the whole list ---

  function Overlapping(wt: Scan, ref: Scan): seq<Text> { Overlap(wt.records, Members(ref.shards)) }

  function FromWorktreeOnly(wt: Scan, ref: Scan): seq<Record> {
    Filter(wt.records, IsAmong(Members(ExtraShards(wt, ref))))
  }

  function AllRecovered(wt: Scan, ref: Scan, cap: nat): seq<Record> { Recovered(wt, ref, cap, Overlapping(wt, ref)) }

  lemma {:induction false} FilterNothing(records: seq<Record>)
    ensures Filter(records, IsAmong({})) == []
  {
    if records != [] { FilterNothing(records[1..]); }
  }

  // The union is the ref's records, those of members the ref lacks, and the recovered ones: no other, each
  // as often as it occurs there.
  lemma UnionHoldsExactly(wt: Scan, ref: Scan, cap: nat)
    ensures multiset(Union(wt, ref, cap).records) ==
            multiset(ref.records) + multiset(FromWorktreeOnly(wt, ref)) + multiset(AllRecovered(wt, ref, cap))
  {
    if ExtraShards(wt, ref) == [] {
      assert Members(ExtraShards(wt, ref)) == {};
      FilterNothing(wt.records);
    }
    JoinsMultisets(ref.records, FromWorktreeOnly(wt, ref), AllRecovered(wt, ref, cap));
  }

  lemma JoinsMultisets(a: seq<Record>, b: seq<Record>, c: seq<Record>)
    ensures multiset(a + b + c) == multiset(a) + multiset(b) + multiset(c)
  {
  }

  lemma CountOfUnion(wt: Scan, ref: Scan, cap: nat, m: Text)
    ensures Count(Union(wt, ref, cap).records, m) ==
            Count(ref.records, m) + Count(FromWorktreeOnly(wt, ref), m) + Count(AllRecovered(wt, ref, cap), m)
  {
    var a, b, c := ref.records, FromWorktreeOnly(wt, ref), AllRecovered(wt, ref, cap);
    UnionHoldsExactly(wt, ref, cap);
    JoinsMultisets(a, b, c);
    SameCount(Union(wt, ref, cap).records, a + b + c, m);
    FilterConcat(a + b, c, IsOf(m));
    FilterConcat(a, b, IsOf(m));
  }

  lemma SameCount(x: seq<Record>, y: seq<Record>, m: Text)
    requires multiset(x) == multiset(y)
    ensures Count(x, m) == Count(y, m)
  {
    FilterMultiset(x, y, IsOf(m));
    assert |multiset(Filter(x, IsOf(m)))| == Count(x, m) && |multiset(Filter(y, IsOf(m)))| == Count(y, m);
  }

  lemma ExtraMembers(wt: Scan, ref: Scan, m: Text)
    ensures m in Members(ExtraShards(wt, ref)) <==> m in Members(wt.shards) && m !in Members(ref.shards)
  {
    var extra, off := ExtraShards(wt, ref), IsOff(Members(ref.shards));
    if m in Members(extra) {
      var i :| 0 <= i < |extra| && extra[i].member == m;
      FilterMembers(wt.shards, off, extra[i]);
      var j :| 0 <= j < |wt.shards| && wt.shards[j] == extra[i];
    }
    if m in Members(wt.shards) && m !in Members(ref.shards) {
      var i :| 0 <= i < |wt.shards| && wt.shards[i].member == m;
      FilterMembers(wt.shards, off, wt.shards[i]);
      var j :| 0 <= j < |extra| && extra[j] == wt.shards[i];
    }
  }

  // Every ref record survives; so does every working-tree record of a member the ref lacks, as often as it
  // occurs. A record of a member both have survives, or one of the same key does, or one of the same key is
  // among those the cap dropped; and the count the union reports includes all that the cap dropped.
  lemma NothingIsLostSilently(wt: Scan, ref: Scan, cap: nat, r: Record)
    requires r.member in Members(wt.shards)
    ensures multiset(ref.records) <= multiset(Union(wt, ref, cap).records)
    ensures r.member !in Members(ref.shards) ==>
      multiset(wt.records)[r] <= multiset(Union(wt, ref, cap).records)[r]
    ensures r in wt.records && r.member in Members(ref.shards) ==>
      Tag(r) in Tags(Union(wt, ref, cap).records) || Tag(r) in Tags(CapDropped(wt, ref, cap, r.member))
    ensures var capped := Capped(wt, ref, cap, Overlapping(wt, ref));
      Union(wt, ref, cap).truncated.records >= ref.truncated.records + capped &&
      (r in wt.records && r.member in Members(ref.shards) ==> |CapDropped(wt, ref, cap, r.member)| <= capped)
  {
    UnionHoldsExactly(wt, ref, cap);
    OverlapIsDistinct(wt.records, Members(ref.shards));
    if r.member in Members(ref.shards) {
      if r in wt.records { RecordOfBoth(wt, ref, cap, r); }
    } else {
      ExtraMembers(wt, ref, r.member);
      FilterCount(wt.records, IsAmong(Members(ExtraShards(wt, ref))), r);
    }
  }

  lemma RecordOfBoth(wt: Scan, ref: Scan, cap: nat, r: Record)
    requires r in wt.records && r.member in Members(ref.shards)
    ensures Tag(r) in Tags(Union(wt, ref, cap).records) || Tag(r) in Tags(CapDropped(wt, ref, cap, r.member))
    ensures |CapDropped(wt, ref, cap, r.member)| <= Capped(wt, ref, cap, Overlapping(wt, ref))
  {
    var m := r.member;
    InOverlap(wt, ref, r);
    CappedCovers(wt, ref, cap, Overlapping(wt, ref), m);
    CandidatesAreExact(wt, ref, m);
    if Tag(r) in Tags(ref.records) {
      RefTagSurvives(wt, ref, cap, Tag(r));
    } else {
      CandidateIsAccounted(wt, ref, cap, m, Tag(r));
    }
  }

  lemma InOverlap(wt: Scan, ref: Scan, r: Record)
    requires r in wt.records && r.member in Members(ref.shards)
    ensures r.member in Overlapping(wt, ref)
  {
    OverlapIsDistinct(wt.records, Members(ref.shards));
    var k :| 0 <= k < |wt.records| && wt.records[k] == r;
    assert wt.records[k].member in Overlapping(wt, ref);
  }

  lemma RefTagSurvives(wt: Scan, ref: Scan, cap: nat, t: (Text, Key))
    requires t in Tags(ref.records)
    ensures t in Tags(Union(wt, ref, cap).records)
  {
    var i :| 0 <= i < |ref.records| && Tag(ref.records[i]) == t;
    var x, out := ref.records[i], Union(wt, ref, cap).records;
    UnionHoldsExactly(wt, ref, cap);
    assert x in multiset(ref.records);
    assert x in multiset(out);
    TagOfMember(out, x);
  }

  lemma CandidateIsAccounted(wt: Scan, ref: Scan, cap: nat, m: Text, t: (Text, Key))
    requires m in Overlapping(wt, ref) && t in Tags(Candidates(wt, ref, m))
    ensures t in Tags(Union(wt, ref, cap).records) || t in Tags(CapDropped(wt, ref, cap, m))
  {
    var c, kept, dropped := Candidates(wt, ref, m), Contribution(wt, ref, cap, m), CapDropped(wt, ref, cap, m);
    var i :| 0 <= i < |c| && Tag(c[i]) == t;
    if i < |kept| {
      assert kept[i] == c[i];
      ContributionSurvives(wt, ref, cap, m, c[i]);
      TagOfMember(Union(wt, ref, cap).records, c[i]);
    } else {
      assert dropped[i - |kept|] == c[i];
      TagOfMember(dropped, c[i]);
    }
  }

  lemma ContributionSurvives(wt: Scan, ref: Scan, cap: nat, m: Text, x: Record)
    requires m in Overlapping(wt, ref) && x in Contribution(wt, ref, cap, m)
    ensures x in Union(wt, ref, cap).records
  {
    var recovered := AllRecovered(wt, ref, cap);
    UnionHoldsExactly(wt, ref, cap);
    OverlapIsDistinct(wt.records, Members(ref.shards));
    RecoveredOf(wt, ref, cap, Overlapping(wt, ref), m);
    FilterMembers(recovered, IsOf(m), x);
    assert x in multiset(recovered);
    assert x in multiset(Union(wt, ref, cap).records);
  }

  lemma {:induction false} CappedCovers(wt: Scan, ref: Scan, cap: nat, ms: seq<Text>, m: Text)
    requires m in ms
    ensures |CapDropped(wt, ref, cap, m)| <= Capped(wt, ref, cap, ms)
  {
    var n := |ms| - 1;
    if m != ms[n] {
      assert m in ms[..n];
      CappedCovers(wt, ref, cap, ms[..n], m);
    }
  }

  // ------------------------------------------------------------------- the cap ---

  // For a member of the ref, the working tree adds no more than the cap leaves room for.
  lemma UnionRespectsTheCap(wt: Scan, ref: Scan, cap: nat, m: Text)
    requires m in Members(ref.shards)
    ensures Count(Union(wt, ref, cap).records, m) <= Max(cap, Count(ref.records, m))
    ensures m in Overlapping(wt, ref) && CapDropped(wt, ref, cap, m) != [] ==>
      Count(Union(wt, ref, cap).records, m) == Max(cap, Count(ref.records, m))
  {
    CountOfUnion(wt, ref, cap, m);
    NoneFromWorktreeOnly(wt, ref, m);
    OverlapIsDistinct(wt.records, Members(ref.shards));
    RecoveredOf(wt, ref, cap, Overlapping(wt, ref), m);
  }

  lemma NoneFromWorktreeOnly(wt: Scan, ref: Scan, m: Text)
    requires m in Members(ref.shards)
    ensures Count(FromWorktreeOnly(wt, ref), m) == 0
  {
    ExtraMembers(wt, ref, m);
    FilterTwice(wt.records, Members(ExtraShards(wt, ref)), m);
  }

  lemma {:induction false} FilterTwice(records: seq<Record>, ms: set<Text>, m: Text)
    ensures Filter(Filter(records, IsAmong(ms)), IsOf(m)) == if m in ms then Filter(records, IsOf(m)) else []
  {
    if records != [] {
      FilterTwice(records[1..], ms, m);
      var head := if IsAmong(ms)(records[0]) then [records[0]] else [];
      FilterConcat(head, Filter(records[1..], IsAmong(ms)), IsOf(m));
      AllOrNone(head, records[0].member, m);
    }
  }

  // ---------------------------------------------------------------- merging again ---

  lemma {:induction false} SameMembersWidened(shards: seq<Shard>, wtShards: seq<Shard>, recovered: seq<Record>)
    ensures |WidenedShards(shards, wtShards, recovered)| == |shards|
    ensures forall i :: 0 <= i < |shards| ==>
      WidenedShards(shards, wtShards, recovered)[i] == Widened(shards[i], wtShards, Count(recovered, shards[i].member))
  {
    if shards != [] {
      var n := |shards| - 1;
      SameMembersWidened(shards[..n], wtShards, recovered);
      assert forall i :: 0 <= i < n ==> shards[..n][i] == shards[i];
    }
  }

  // The merged scan has an entry for every member either side has.
  lemma UnionMembers(wt: Scan, ref: Scan, cap: nat, m: Text)
    ensures m in Members(Union(wt, ref, cap).shards) <==> m in Members(ref.shards) || m in Members(wt.shards)
  {
    var extra, recovered := ExtraShards(wt, ref), AllRecovered(wt, ref, cap);
    var widened := WidenedShards(ref.shards, wt.shards, recovered);
    ExtraMembers(wt, ref, m);
    SameMembersWidened(ref.shards, wt.shards, recovered);
    assert Members(widened) == Members(ref.shards) by {
      forall i | 0 <= i < |widened| ensures widened[i].member == ref.shards[i].member {}
      MembersByIndex(widened, ref.shards);
    }
    MembersConcat(widened, extra);
  }

  lemma MembersByIndex(a: seq<Shard>, b: seq<Shard>)
    requires |a| == |b| && forall i :: 0 <= i < |a| ==> a[i].member == b[i].member
    ensures Members(a) == Members(b)
  {
    forall m ensures m in Members(a) <==> m in Members(b) {
      if i :| 0 <= i < |a| && a[i].member == m { assert b[i].member == m; }
      if i :| 0 <= i < |b| && b[i].member == m { assert a[i].member == m; }
    }
  }

  lemma MembersConcat(a: seq<Shard>, b: seq<Shard>)
    ensures Members(a + b) == Members(a) + Members(b)
  {
    forall m ensures m in Members(a + b) <==> m in Members(a) + Members(b) {
      if i :| 0 <= i < |a| && a[i].member == m { assert (a + b)[i].member == m; }
      if i :| 0 <= i < |b| && b[i].member == m { assert (a + b)[|a| + i].member == m; }
    }
  }

  // Nothing is left to recover.
  lemma NothingLeftFor(wt: Scan, ref: Scan, cap: nat, m: Text)
    requires m in Members(ref.shards) || m in Members(wt.shards)
    ensures Contribution(wt, Union(wt, ref, cap), cap, m) == []
  {
    var out := Union(wt, ref, cap);
    var again := Candidates(wt, out, m);
    CandidatesAreExact(wt, out, m);
    if again != [] {
      var x := again[0];
      assert x in again && Tag(x) !in Tags(out.records);
      if m in Members(ref.shards) {
        RecordOfBoth(wt, ref, cap, x);
        InOverlap(wt, ref, x);
        UnionRespectsTheCap(wt, ref, cap, m);
      } else {
        RecordOfWorktreeOnly(wt, ref, cap, x);
      }
    }
  }

  lemma RecordOfWorktreeOnly(wt: Scan, ref: Scan, cap: nat, x: Record)
    requires x in wt.records && x.member in Members(wt.shards) && x.member !in Members(ref.shards)
    ensures Tag(x) in Tags(Union(wt, ref, cap).records)
  {
    NothingIsLostSilently(wt, ref, cap, x);
    assert multiset(wt.records)[x] > 0;
    assert x in multiset(Union(wt, ref, cap).records);
    TagOfMember(Union(wt, ref, cap).records, x);
  }

  lemma {:induction false} NothingRecovered(wt: Scan, out: Scan, cap: nat, ms: seq<Text>)
    requires forall m :: m in ms ==> Contribution(wt, out, cap, m) == []
    ensures Recovered(wt, out, cap, ms) == []
  {
    if ms != [] { NothingRecovered(wt, out, cap, ms[..|ms| - 1]); }
  }

  // Merging the same working-tree scan into the result leaves its records as they are.
  lemma MergingAgainChangesNoRecord(wt: Scan, ref: Scan, cap: nat)
    ensures Union(wt, Union(wt, ref, cap), cap).records == Union(wt, ref, cap).records
  {
    var out := Union(wt, ref, cap);
    var ms := Overlapping(wt, out);
    OverlapIsDistinct(wt.records, Members(out.shards));
    forall m | m in ms ensures Contribution(wt, out, cap, m) == [] {
      UnionMembers(wt, ref, cap, m);
      NothingLeftFor(wt, ref, cap, m);
    }
    NothingRecovered(wt, out, cap, ms);
    NoExtraShards(wt, ref, cap);
    if out != ref { OutIsSorted(wt, ref, cap); }
    SecondUnion(wt, ref, cap);
  }

  lemma NoExtraShards(wt: Scan, ref: Scan, cap: nat)
    ensures ExtraShards(wt, Union(wt, ref, cap)) == []
  {
    var out := Union(wt, ref, cap);
    var extra := ExtraShards(wt, out);
    if extra != [] {
      var m := extra[0].member;
      assert m in Members(extra);
      ExtraMembers(wt, out, m);
      UnionMembers(wt, ref, cap, m);
    }
  }

  lemma OutIsSorted(wt: Scan, ref: Scan, cap: nat)
    requires Union(wt, ref, cap) != ref
    ensures SortedBy(Union(wt, ref, cap).records, NewestFirst)
  {
    SortBySorts(ref.records + FromWorktreeOnly(wt, ref) + AllRecovered(wt, ref, cap), NewestFirst);
  }

  lemma SecondUnion(wt: Scan, ref: Scan, cap: nat)
    requires var out := Union(wt, ref, cap);
      ExtraShards(wt, out) == [] && AllRecovered(wt, out, cap) == [] &&
      (out != ref ==> SortedBy(out.records, NewestFirst))
    ensures Union(wt, Union(wt, ref, cap), cap).records == Union(wt, ref, cap).records
  {
    var out := Union(wt, ref, cap);
    if out != ref {
      assert Members(ExtraShards(wt, out)) == {};
      FilterNothing(wt.records);
      SortedIsFixed(out.records, NewestFirst);
      assert out.records + FromWorktreeOnly(wt, out) + AllRecovered(wt, out, cap) == out.records;
    }
  }

  // ----------------------------------------------------------- the shard entries ---

  function SumKept(shards: seq<Shard>, m: Text): nat {
    if shards == [] then 0
    else SumKept(shards[..|shards| - 1], m) +
         (if shards[|shards| - 1].member == m then shards[|shards| - 1].kept else 0)
  }

  // A scan's shard entries describe its records.
  ghost predicate Describes(s: Scan) {
    (forall m :: SumKept(s.shards, m) == Count(s.records, m)) &&
    (forall i :: 0 <= i < |s.shards| && s.shards[i].excluded ==> Count(s.records, s.shards[i].member) == 0)
  }

  ghost predicate DistinctShards(shards: seq<Shard>) {
    forall i, j :: 0 <= i < j < |shards| ==> shards[i].member != shards[j].member
  }

  lemma {:induction false} NoShardNoKept(shards: seq<Shard>, m: Text)
    requires forall i :: 0 <= i < |shards| ==> shards[i].member != m
    ensures SumKept(shards, m) == 0
  {
    if shards != [] { NoShardNoKept(shards[..|shards| - 1], m); }
  }

  lemma {:induction false} WidenedKept(shards: seq<Shard>, wtShards: seq<Shard>, recovered: seq<Record>, m: Text)
    requires DistinctShards(shards)
    ensures SumKept(WidenedShards(shards, wtShards, recovered), m) ==
            SumKept(shards, m) + (if m in Members(shards) then Count(recovered, m) else 0)
  {
    if shards != [] {
      var n := |shards| - 1;
      var before := shards[..n];
      var widened := WidenedShards(shards, wtShards, recovered);
      SameMembersWidened(shards, wtShards, recovered);
      assert widened[..n] == WidenedShards(before, wtShards, recovered);
      WidenedKept(before, wtShards, recovered, m);
      LastMember(shards, m);
    }
  }

  lemma LastMember(shards: seq<Shard>, m: Text)
    requires shards != [] && DistinctShards(shards)
    ensures var n := |shards| - 1;
      (m in Members(shards) <==> m in Members(shards[..n]) || m == shards[n].member) &&
      (m == shards[n].member ==> m !in Members(shards[..n]))
  {
    var n := |shards| - 1;
    assert shards == shards[..n] + [shards[n]];
    MembersConcat(shards[..n], [shards[n]]);
    assert Members([shards[n]]) == {shards[n].member} by { assert [shards[n]][0] == shards[n]; }
  }

  lemma {:induction false} KeptConcat(a: seq<Shard>, b: seq<Shard>, m: Text)
    ensures SumKept(a + b, m) == SumKept(a, m) + SumKept(b, m)
  {
    if b == [] {
      assert a + b == a;
    } else {
      var n := |b| - 1;
      assert (a + b)[..|a| + n] == a + b[..n];
      KeptConcat(a, b[..n], m);
    }
  }

  lemma {:induction false} KeptFiltered(shards: seq<Shard>, onRef: set<Text>, m: Text)
    ensures SumKept(Filter(shards, IsOff(onRef)), m) == if m in onRef then 0 else SumKept(shards, m)
  {
    if shards != [] {
      var n := |shards| - 1;
      KeptFiltered(shards[..n], onRef, m);
      assert shards == shards[..n] + [shards[n]];
      FilterConcat(shards[..n], [shards[n]], IsOff(onRef));
      assert Filter([shards[n]], IsOff(onRef)) == if IsOff(onRef)(shards[n]) then [shards[n]] else [];
      KeptConcat(Filter(shards[..n], IsOff(onRef)), Filter([shards[n]], IsOff(onRef)), m);
    }
  }

  lemma CountWorktreeOnly(wt: Scan, ref: Scan, m: Text)
    requires Describes(wt)
    ensures Count(FromWorktreeOnly(wt, ref), m) == if m in Members(ref.shards) then 0 else Count(wt.records, m)
  {
    ExtraMembers(wt, ref, m);
    FilterTwice(wt.records, Members(ExtraShards(wt, ref)), m);
    if m !in Members(wt.shards) {
      forall i | 0 <= i < |wt.shards| ensures wt.shards[i].member != m { assert wt.shards[i].member in Members(wt.shards); }
      NoShardNoKept(wt.shards, m);
    }
  }

  lemma CountRecovered(wt: Scan, ref: Scan, cap: nat, m: Text)
    ensures m !in Members(ref.shards) ==> Count(AllRecovered(wt, ref, cap), m) == 0
    ensures Count(AllRecovered(wt, ref, cap), m) > 0 ==> Count(wt.records, m) > 0
  {
    OverlapIsDistinct(wt.records, Members(ref.shards));
    RecoveredOf(wt, ref, cap, Overlapping(wt, ref), m);
    if Count(AllRecovered(wt, ref, cap), m) > 0 {
      var x := Contribution(wt, ref, cap, m)[0];
      CandidatesAreExact(wt, ref, m);
      assert x in Candidates(wt, ref, m);
      FilterMembers(wt.records, IsOf(m), x);
    }
  }

  // When both scans' entries describe their records, so do the merged scan's.
  lemma EntriesDescribeTheRecords(wt: Scan, ref: Scan, cap: nat)
    requires Describes(wt) && Describes(ref) && DistinctShards(ref.shards)
    ensures Describes(Union(wt, ref, cap))
  {
    var out := Union(wt, ref, cap);
    if out != ref {
      forall m ensures SumKept(out.shards, m) == Count(out.records, m) {
        KeptOfUnion(wt, ref, cap, m);
      }
      forall i | 0 <= i < |out.shards| && out.shards[i].excluded ensures Count(out.records, out.shards[i].member) == 0 {
        ExcludedOfUnion(wt, ref, cap, i);
      }
    }
  }

  lemma KeptOfUnion(wt: Scan, ref: Scan, cap: nat, m: Text)
    requires Describes(wt) && Describes(ref) && DistinctShards(ref.shards) && Union(wt, ref, cap) != ref
    ensures SumKept(Union(wt, ref, cap).shards, m) == Count(Union(wt, ref, cap).records, m)
  {
    var recovered := AllRecovered(wt, ref, cap);
    CountOfUnion(wt, ref, cap, m);
    CountWorktreeOnly(wt, ref, m);
    CountRecovered(wt, ref, cap, m);
    WidenedKept(ref.shards, wt.shards, recovered, m);
    KeptConcat(WidenedShards(ref.shards, wt.shards, recovered), ExtraShards(wt, ref), m);
    KeptFiltered(wt.shards, Members(ref.shards), m);
  }

  lemma {:induction false} FirstIsThere(shards: seq<Shard>, m: Text)
    ensures FirstOf(shards, m).Some? ==> FirstOf(shards, m).value in shards && FirstOf(shards, m).value.member == m
  {
    if shards != [] && shards[0].member != m { FirstIsThere(shards[1..], m); }
  }

  lemma ExcludedOfUnion(wt: Scan, ref: Scan, cap: nat, i: nat)
    requires Describes(wt) && Describes(ref) && Union(wt, ref, cap) != ref
    requires i < |Union(wt, ref, cap).shards| && Union(wt, ref, cap).shards[i].excluded
    ensures Count(Union(wt, ref, cap).records, Union(wt, ref, cap).shards[i].member) == 0
  {
    ShardOfUnion(wt, ref, cap, i);
    if i < |ref.shards| {
      ExcludedRefEntry(wt, ref, cap, i);
    } else {
      ExcludedExtraEntry(wt, ref, cap, i - |ref.shards|);
    }
  }

  lemma ExcludedRefEntry(wt: Scan, ref: Scan, cap: nat, i: nat)
    requires Describes(wt) && Describes(ref) && i < |ref.shards|
    requires Widened(ref.shards[i], wt.shards, Count(AllRecovered(wt, ref, cap), ref.shards[i].member)).excluded
    ensures Count(Union(wt, ref, cap).records, ref.shards[i].member) == 0
  {
    var m := ref.shards[i].member;
    CountRecovered(wt, ref, cap, m);
    ExcludedEntry(wt, ref, AllRecovered(wt, ref, cap), i);
    CountWorktreeOnly(wt, ref, m);
    CountOfUnion(wt, ref, cap, m);
  }

  lemma ExcludedExtraEntry(wt: Scan, ref: Scan, cap: nat, j: nat)
    requires Describes(wt) && Describes(ref) && j < |ExtraShards(wt, ref)| && ExtraShards(wt, ref)[j].excluded
    ensures Count(Union(wt, ref, cap).records, ExtraShards(wt, ref)[j].member) == 0
  {
    var m := ExtraShards(wt, ref)[j].member;
    ExcludedExtra(wt, ref, j);
    CountRecovered(wt, ref, cap, m);
    CountWorktreeOnly(wt, ref, m);
    CountOfUnion(wt, ref, cap, m);
  }

  lemma ShardOfUnion(wt: Scan, ref: Scan, cap: nat, i: nat)
    requires Union(wt, ref, cap) != ref && i < |Union(wt, ref, cap).shards|
    ensures i < |ref.shards| ==>
      Union(wt, ref, cap).shards[i] ==
      Widened(ref.shards[i], wt.shards, Count(AllRecovered(wt, ref, cap), ref.shards[i].member))
    ensures i >= |ref.shards| ==>
      i - |ref.shards| < |ExtraShards(wt, ref)| && Union(wt, ref, cap).shards[i] == ExtraShards(wt, ref)[i - |ref.shards|]
  {
    SameMembersWidened(ref.shards, wt.shards, AllRecovered(wt, ref, cap));
  }

  lemma ExcludedEntry(wt: Scan, ref: Scan, recovered: seq<Record>, i: nat)
    requires Describes(wt) && Describes(ref) && i < |ref.shards|
    requires var s := ref.shards[i];
      Widened(s, wt.shards, Count(recovered, s.member)).excluded &&
      (Count(recovered, s.member) > 0 ==> Count(wt.records, s.member) > 0)
    ensures ref.shards[i].member in Members(ref.shards)
    ensures Count(ref.records, ref.shards[i].member) == 0 && Count(recovered, ref.shards[i].member) == 0
  {
    var s := ref.shards[i];
    FirstIsThere(wt.shards, s.member);
    var w := FirstOf(wt.shards, s.member);
    if w.Some? && w.value.excluded {
      var j :| 0 <= j < |wt.shards| && wt.shards[j] == w.value;
      assert Count(wt.records, wt.shards[j].member) == 0;
    }
  }

  lemma ExcludedExtra(wt: Scan, ref: Scan, i: nat)
    requires Describes(wt) && Describes(ref) && i < |ExtraShards(wt, ref)| && ExtraShards(wt, ref)[i].excluded
    ensures ExtraShards(wt, ref)[i].member !in Members(ref.shards)
    ensures Count(ref.records, ExtraShards(wt, ref)[i].member) == 0
    ensures Count(wt.records, ExtraShards(wt, ref)[i].member) == 0
  {
    var s := ExtraShards(wt, ref)[i];
    assert s in ExtraShards(wt, ref);
    FilterMembers(wt.shards, IsOff(Members(ref.shards)), s);
    var j :| 0 <= j < |wt.shards| && wt.shards[j] == s;
    assert wt.shards[j].excluded;
    NoRefRecords(ref, s.member);
  }

  lemma NoRefRecords(ref: Scan, m: Text)
    requires Describes(ref) && m !in Members(ref.shards)
    ensures Count(ref.records, m) == 0
  {
    forall i | 0 <= i < |ref.shards| ensures ref.shards[i].member != m { assert ref.shards[i].member in Members(ref.shards); }
    NoShardNoKept(ref.shards, m);
  }
}
