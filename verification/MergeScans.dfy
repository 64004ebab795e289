/**
 mergeScans, lib/shard-scan.js: the working tree's records and the fetched ref's records made into one list,
 member by member, record by record, under a cap on what the working tree may add.
 */
module MergeScans {
  import opened Basics
  import opened Sorting

  const MAX_RECORDS_PER_SHARD: nat := 200

  datatype Record = Record(member: Text, kind: Text, at: Option<int>, id: Option<Text>, fields: Text)

  datatype Shard = Shard(member: Text, status: Text, excluded: bool, records: nat, kept: nat, worktreeExtra: Option<nat>)

  datatype Truncated = Truncated(shards: nat, records: nat)

  datatype Scan = Scan(shards: seq<Shard>, records: seq<Record>, truncated: Truncated, worktreeOnly: nat,
                       worktreeExtraRecords: nat)

  // What makes two records the same: the id when there is one, else the content.
  datatype Key = ById(id: Text) | ByContent(kind: Text, at: Option<int>, fields: Text)

  function RecordKey(r: Record): Key {
    if r.id.Some? && r.id.value != [] then ById(r.id.value) else ByContent(r.kind, r.at, r.fields)
  }

  type Seen = set<(Text, Key)>

  function Tag(r: Record): (Text, Key) { (r.member, RecordKey(r)) }

  function SortKey(r: Record): int { if r.at.Some? then r.at.value else -1 }

  const NewestFirst: Record -> int := (r: Record) => -SortKey(r)

  function IsOf(m: Text): Record -> bool { (r: Record) => r.member == m }

  function IsAmong(ms: set<Text>): Record -> bool { (r: Record) => r.member in ms }

  function IsOff(ms: set<Text>): Shard -> bool { (s: Shard) => s.member !in ms }

  function Members(shards: seq<Shard>): set<Text> { set i | 0 <= i < |shards| :: shards[i].member }

  function Tags(records: seq<Record>): Seen { set i | 0 <= i < |records| :: Tag(records[i]) }

  function Count(records: seq<Record>, m: Text): nat { |Filter(records, IsOf(m))| }

  // --------------------------------------------------------- the specification ---

  // The records not seen yet, each key once.
  function Fresh(list: seq<Record>, seen: Seen): seq<Record> {
    if list == [] then []
    else if Tag(list[0]) in seen then Fresh(list[1..], seen)
    else [list[0]] + Fresh(list[1..], seen + {Tag(list[0])})
  }

  function Room(ref: Scan, cap: nat, m: Text): nat { Max(0, cap - Count(ref.records, m)) }

  // What the working tree has for a member the ref carries too, newest first.
  function Candidates(wt: Scan, ref: Scan, m: Text): seq<Record> {
    SortBy(Fresh(Filter(wt.records, IsOf(m)), Tags(ref.records)), NewestFirst)
  }

  function Contribution(wt: Scan, ref: Scan, cap: nat, m: Text): seq<Record> {
    var news := Candidates(wt, ref, m);
    news[..Min(|news|, Room(ref, cap, m))]
  }

  function CapDropped(wt: Scan, ref: Scan, cap: nat, m: Text): seq<Record> {
    var news := Candidates(wt, ref, m);
    news[Min(|news|, Room(ref, cap, m))..]
  }

  // Members of these records that the ref carries, in order of first appearance.
  function Overlap(records: seq<Record>, onRef: set<Text>): seq<Text> {
    if records == [] then []
    else
      var before, m := Overlap(records[..|records| - 1], onRef), records[|records| - 1].member;
      if m in onRef && m !in before then before + [m] else before
  }

  function Recovered(wt: Scan, ref: Scan, cap: nat, ms: seq<Text>): seq<Record> {
    if ms == [] then []
    else Recovered(wt, ref, cap, ms[..|ms| - 1]) + Contribution(wt, ref, cap, ms[|ms| - 1])
  }

  function Capped(wt: Scan, ref: Scan, cap: nat, ms: seq<Text>): nat {
    if ms == [] then 0
    else Capped(wt, ref, cap, ms[..|ms| - 1]) + |CapDropped(wt, ref, cap, ms[|ms| - 1])|
  }

  function ExtraShards(wt: Scan, ref: Scan): seq<Shard> { Filter(wt.shards, IsOff(Members(ref.shards))) }

  function FirstOf(shards: seq<Shard>, m: Text): Option<Shard> {
    if shards == [] then None else if shards[0].member == m then Some(shards[0]) else FirstOf(shards[1..], m)
  }

  // A shard entry of the ref, describing the records the working tree added to it.
  function Widened(s: Shard, wtShards: seq<Shard>, extra: nat): Shard {
    if extra == 0 then s
    else
      var wt := FirstOf(wtShards, s.member);
      var wtExcluded := wt.Some? && wt.value.excluded;
      Shard(s.member,
            if s.excluded && !wtExcluded && wt.Some? && wt.value.status != [] then wt.value.status else s.status,
            s.excluded && wtExcluded,
            Max(s.records, if wt.Some? then wt.value.records else 0),
            s.kept + extra, Some(extra))
  }

  function WidenedShards(shards: seq<Shard>, wtShards: seq<Shard>, recovered: seq<Record>): seq<Shard> {
    if shards == [] then []
    else WidenedShards(shards[..|shards| - 1], wtShards, recovered) +
         [Widened(shards[|shards| - 1], wtShards, Count(recovered, shards[|shards| - 1].member))]
  }

  function Assembled(wt: Scan, ref: Scan, recovered: seq<Record>, capped: nat): Scan {
    var extra := ExtraShards(wt, ref);
    if extra == [] && recovered == [] && capped == 0 then ref
    else
      Scan(WidenedShards(ref.shards, wt.shards, recovered) + extra,
           SortBy(ref.records + Filter(wt.records, IsAmong(Members(extra))) + recovered, NewestFirst),
           Truncated(Max(wt.truncated.shards, ref.truncated.shards),
                     wt.truncated.records + ref.truncated.records + capped),
           |extra|, |recovered|)
  }

  function Union(wt: Scan, ref: Scan, cap: nat): Scan {
    var ms := Overlap(wt.records, Members(ref.shards));
    Assembled(wt, ref, Recovered(wt, ref, cap, ms), Capped(wt, ref, cap, ms))
  }

  function CapOf(maxRecords: Option<int>): nat {
    if maxRecords.Some? && maxRecords.value >= 0 then maxRecords.value else MAX_RECORDS_PER_SHARD
  }

  // -------------------------------------------------------------- the program ---

  method MergeScans(worktree: Option<Scan>, refScan: Option<Scan>, maxRecords: Option<int>) returns (r: Option<Scan>)
    ensures worktree.None? ==> r == refScan
    ensures worktree.Some? && refScan.None? ==> r == worktree
    ensures worktree.Some? && refScan.Some? ==>
      var cap := if maxRecords.Some? && maxRecords.value >= 0 then maxRecords.value else 200;
      r == Some(Union(worktree.value, refScan.value, cap))
  {
    if worktree.None? { return refScan; }
    if refScan.None? { return worktree; }
    var wt, ref := worktree.value, refScan.value;
    var cap := CapOf(maxRecords);
    var onRef := Members(ref.shards);
    forall m | m in onRef ensures m !in Members(ExtraShards(wt, ref)) { ExtraIsOff(wt, ref, m); }
    OverlapIsDistinct(wt.records, onRef);
    var order, byMember := GroupOverlap(wt, onRef, Members(ExtraShards(wt, ref)));
    var recovered, capped := Recover(wt, ref, cap, order, byMember);
    var union := Assemble(wt, ref, recovered, capped);
    r := Some(union);
  }

  method Assemble(wt: Scan, ref: Scan, recovered: seq<Record>, capped: nat) returns (out: Scan)
    ensures out == Assembled(wt, ref, recovered, capped)
  {
    var extra := ExtraShards(wt, ref);
    if extra == [] && recovered == [] && capped == 0 { return ref; }
    var shards := WidenShards(ref.shards, wt.shards, recovered);
    var records := SortBy(ref.records + Filter(wt.records, IsAmong(Members(extra))) + recovered, NewestFirst);
    var truncated := Truncated(Max(wt.truncated.shards, ref.truncated.shards),
                               wt.truncated.records + ref.truncated.records + capped);
    out := Scan(shards + extra, records, truncated, |extra|, |recovered|);
  }

  lemma ExtraIsOff(wt: Scan, ref: Scan, m: Text)
    requires m in Members(ref.shards)
    ensures m !in Members(ExtraShards(wt, ref))
  {
    var extra := ExtraShards(wt, ref);
    forall i | 0 <= i < |extra| ensures extra[i].member != m {
      assert extra[i] in extra;
      FilterMembers(wt.shards, IsOff(Members(ref.shards)), extra[i]);
    }
  }

  ghost predicate Grouped(records: seq<Record>, onRef: set<Text>, order: seq<Text>, byMember: map<Text, seq<Record>>) {
    order == Overlap(records, onRef) && (forall m :: m in byMember <==> m in order) &&
    (forall m :: m in byMember ==> byMember[m] == Filter(records, IsOf(m))) &&
    (forall m :: m in onRef && m !in byMember ==> Filter(records, IsOf(m)) == [])
  }

  // The working tree's records of members the ref carries, grouped, in order of first appearance.
  method GroupOverlap(wt: Scan, onRef: set<Text>, extraMembers: set<Text>)
    returns (order: seq<Text>, byMember: map<Text, seq<Record>>)
    requires onRef !! extraMembers
    ensures Grouped(wt.records, onRef, order, byMember)
  {
    order, byMember := [], map[];
    var i := 0;
    while i < |wt.records|
      invariant i <= |wt.records| && Grouped(wt.records[..i], onRef, order, byMember)
    {
      order, byMember := GroupOne(wt.records[..i], wt.records[i], onRef, extraMembers, order, byMember);
      assert wt.records[..i + 1] == wt.records[..i] + [wt.records[i]];
      i := i + 1;
    }
    assert wt.records[..i] == wt.records;
  }

  method GroupOne(ghost done: seq<Record>, r: Record, onRef: set<Text>, extraMembers: set<Text>,
                  order: seq<Text>, byMember: map<Text, seq<Record>>)
    returns (order': seq<Text>, byMember': map<Text, seq<Record>>)
    requires onRef !! extraMembers && Grouped(done, onRef, order, byMember)
    ensures Grouped(done + [r], onRef, order', byMember')
  {
    GroupStep(done, r, onRef, order, byMember);
    OverlapIsDistinct(done, onRef);
    order', byMember' := order, byMember;
    if r.member in extraMembers || r.member !in onRef { return; }
    if r.member !in byMember {
      order' := order + [r.member];
      byMember' := byMember[r.member := []];
    }
    byMember' := byMember'[r.member := byMember'[r.member] + [r]];
    if r.member !in byMember { assert byMember' == byMember[r.member := [] + [r]]; }
  }

  lemma GroupStep(records: seq<Record>, r: Record, onRef: set<Text>, order: seq<Text>, byMember: map<Text, seq<Record>>)
    requires Grouped(records, onRef, order, byMember)
    ensures r.member !in onRef ==> Grouped(records + [r], onRef, order, byMember)
    ensures r.member in byMember ==>
      Grouped(records + [r], onRef, order, byMember[r.member := byMember[r.member] + [r]])
    ensures r.member in onRef && r.member !in byMember ==>
      Grouped(records + [r], onRef, order + [r.member], byMember[r.member := [] + [r]])
  {
    assert (records + [r])[..|records|] == records;
    OverlapIsDistinct(records, onRef);
    forall m ensures Filter(records + [r], IsOf(m)) == Filter(records, IsOf(m)) + (if r.member == m then [r] else []) {
      FilterConcat(records, [r], IsOf(m));
      assert Filter([r], IsOf(m)) == if IsOf(m)(r) then [r] else [];
    }
  }

  // One member's records past the seen ones.
  method TakeFresh(list: seq<Record>, seen: Seen) returns (news: seq<Record>, after: Seen)
    ensures news == Fresh(list, seen) && after == seen + Tags(news)
  {
    news, after := [], seen;
    var i := 0;
    while i < |list|
      invariant i <= |list| && Fresh(list, seen) == news + Fresh(list[i..], after)
      invariant after == seen + Tags(news)
    {
      assert list[i..][0] == list[i] && list[i..][1..] == list[i + 1..];
      if Tag(list[i]) !in after {
        assert news + ([list[i]] + Fresh(list[i + 1..], after + {Tag(list[i])})) ==
               (news + [list[i]]) + Fresh(list[i + 1..], after + {Tag(list[i])});
        TagsAppend(news, list[i]);
        news := news + [list[i]];
        after := after + {Tag(list[i])};
      }
      i := i + 1;
    }
  }

  lemma TagsAppend(records: seq<Record>, r: Record)
    ensures Tags(records + [r]) == Tags(records) + {Tag(r)}
  {
    var all := records + [r];
    assert all[|records|] == r;
    forall i | 0 <= i < |records| ensures Tag(records[i]) in Tags(all) { assert all[i] == records[i]; }
  }

  // Tags of other members do not matter.
  lemma {:induction false} FreshIsByMember(list: seq<Record>, m: Text, a: Seen, b: Seen)
    requires forall i :: 0 <= i < |list| ==> list[i].member == m
    requires forall t: (Text, Key) :: t.0 == m ==> (t in a <==> t in b)
    ensures Fresh(list, a) == Fresh(list, b)
  {
    if list != [] {
      if Tag(list[0]) in a {
        FreshIsByMember(list[1..], m, a, b);
      } else {
        FreshIsByMember(list[1..], m, a + {Tag(list[0])}, b + {Tag(list[0])});
      }
    }
  }

  lemma {:induction false} OfMember(records: seq<Record>, m: Text)
    ensures forall i :: 0 <= i < |Filter(records, IsOf(m))| ==> Filter(records, IsOf(m))[i].member == m
  {
    if records != [] { OfMember(records[1..], m); }
  }

  lemma {:induction false} FreshOfMember(list: seq<Record>, seen: Seen, m: Text)
    requires forall i :: 0 <= i < |list| ==> list[i].member == m
    ensures forall i :: 0 <= i < |Fresh(list, seen)| ==> Fresh(list, seen)[i].member == m
  {
    if list != [] {
      FreshOfMember(list[1..], seen, m);
      FreshOfMember(list[1..], seen + {Tag(list[0])}, m);
    }
  }

  lemma {:induction false} OverlapIsDistinct(records: seq<Record>, onRef: set<Text>)
    ensures NoDuplicates(Overlap(records, onRef))
    ensures forall m :: m in Overlap(records, onRef) ==> m in onRef
    ensures forall i :: 0 <= i < |records| && records[i].member in onRef ==> records[i].member in Overlap(records, onRef)
  {
    if records != [] {
      var n := |records| - 1;
      OverlapIsDistinct(records[..n], onRef);
      forall i | 0 <= i < |records| && records[i].member in onRef ensures records[i].member in Overlap(records, onRef) {
        if i < n { assert records[..n][i] == records[i]; }
      }
    }
  }

  // Nothing seen so far bears on the members still to come.
  ghost predicate Clear(seen: Seen, tags: Seen, order: seq<Text>, i: nat) {
    forall k, t: (Text, Key) :: i <= k < |order| && t.0 == order[k] ==> (t in seen <==> t in tags)
  }

  method Recover(wt: Scan, ref: Scan, cap: nat, order: seq<Text>, byMember: map<Text, seq<Record>>)
    returns (recovered: seq<Record>, capped: nat)
    requires NoDuplicates(order)
    requires forall m :: m in order ==> m in byMember && byMember[m] == Filter(wt.records, IsOf(m))
    ensures recovered == Recovered(wt, ref, cap, order) && capped == Capped(wt, ref, cap, order)
  {
    recovered, capped := [], 0;
    var seen := Tags(ref.records);
    var i := 0;
    while i < |order|
      invariant i <= |order|
      invariant recovered == Recovered(wt, ref, cap, order[..i]) && capped == Capped(wt, ref, cap, order[..i])
      invariant Clear(seen, Tags(ref.records), order, i)
    {
      var part, left, after := RecoverMember(wt, ref, cap, order, i, byMember[order[i]], seen);
      assert order[..i + 1][..i] == order[..i];
      recovered, capped, seen := recovered + part, capped + left, after;
      i := i + 1;
    }
    assert order[..i] == order;
  }

  method RecoverMember(wt: Scan, ref: Scan, cap: nat, order: seq<Text>, i: nat, list: seq<Record>, seen: Seen)
    returns (part: seq<Record>, left: nat, after: Seen)
    requires NoDuplicates(order) && i < |order| && Clear(seen, Tags(ref.records), order, i)
    requires list == Filter(wt.records, IsOf(order[i]))
    ensures part == Contribution(wt, ref, cap, order[i]) && left == |CapDropped(wt, ref, cap, order[i])|
    ensures Clear(after, Tags(ref.records), order, i + 1)
  {
    var m := order[i];
    OfMember(wt.records, m);
    FreshIsByMember(list, m, seen, Tags(ref.records));
    FreshOfMember(list, seen, m);
    part, after := TakeFresh(list, seen);
    StillClear(seen, Tags(ref.records), order, i, part);
    part := SortBy(part, NewestFirst);
    left := 0;
    var room := Max(0, cap - Count(ref.records, m));
    if |part| > room {
      left := |part| - room;
      part := part[..room];
    }
  }

  lemma StillClear(seen: Seen, tags: Seen, order: seq<Text>, i: nat, added: seq<Record>)
    requires NoDuplicates(order) && i < |order| && Clear(seen, tags, order, i)
    requires forall j :: 0 <= j < |added| ==> added[j].member == order[i]
    ensures Clear(seen + Tags(added), tags, order, i + 1)
  {
    forall k, t: (Text, Key) | i + 1 <= k < |order| && t.0 == order[k] ensures t in seen + Tags(added) <==> t in tags {
      assert order[k] != order[i];
    }
  }

  method WidenShards(shards: seq<Shard>, wtShards: seq<Shard>, recovered: seq<Record>) returns (out: seq<Shard>)
    ensures out == WidenedShards(shards, wtShards, recovered)
  {
    out := [];
    var i := 0;
    while i < |shards|
      invariant i <= |shards| && out == WidenedShards(shards[..i], wtShards, recovered)
    {
      assert shards[..i + 1][..i] == shards[..i];
      out := out + [Widened(shards[i], wtShards, Count(recovered, shards[i].member))];
      i := i + 1;
    }
    assert shards[..i] == shards;
  }
}
