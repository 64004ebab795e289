/** What the merged scan holds and drops, said of the records' own fields. */
module MergeRecords {
  import opened Basics
  import opened MergeScans
  import opened MergeSafety
  import opened Sorting

  predicate HasId(r: Record) { r.id.Some? && r.id.value != [] }

  // One member's record twice over: by the id when there is one, else by kind, time and fields.
  predicate SameRecord(a: Record, b: Record) {
    a.member == b.member &&
    (if HasId(a) || HasId(b) then HasId(a) && HasId(b) && a.id.value == b.id.value
     else a.kind == b.kind && a.at == b.at && a.fields == b.fields)
  }

  lemma TagTells(a: Record, b: Record)
    ensures Tag(a) == Tag(b) <==> SameRecord(a, b)
  {
  }

  lemma TaggedIsThere(records: seq<Record>, r: Record)
    requires Tag(r) in Tags(records)
    ensures exists x :: x in records && SameRecord(x, r)
  {
    var i :| 0 <= i < |records| && Tag(records[i]) == Tag(r);
    TagTells(records[i], r);
  }

  ghost predicate HasSame(records: seq<Record>, r: Record) { exists x :: x in records && SameRecord(x, r) }

  // Every working-tree record is there in the end, itself or as a record that is the same; or, of a member the ref
  // carries too, the cap dropped one that is the same, and all it dropped is counted.
  lemma EveryRecordIsThereOrCounted(wt: Scan, ref: Scan, cap: nat, r: Record)
    requires r in wt.records && r.member in Members(wt.shards)
    ensures r.member !in Members(ref.shards) ==> r in Union(wt, ref, cap).records
    ensures r.member in Members(ref.shards) ==>
      HasSame(Union(wt, ref, cap).records, r) || HasSame(CapDropped(wt, ref, cap, r.member), r)
    ensures r.member in Members(ref.shards) ==>
      Union(wt, ref, cap).truncated.records >= ref.truncated.records + |CapDropped(wt, ref, cap, r.member)|
  {
    NothingIsLostSilently(wt, ref, cap, r);
    if r.member in Members(ref.shards) {
      if Tag(r) in Tags(Union(wt, ref, cap).records) {
        TaggedIsThere(Union(wt, ref, cap).records, r);
      } else {
        TaggedIsThere(CapDropped(wt, ref, cap, r.member), r);
      }
    } else {
      assert multiset(wt.records)[r] > 0;
      assert r in multiset(Union(wt, ref, cap).records);
    }
  }

  // ------------------------------------------------------------ and nothing comes twice ---

  ghost predicate AllDiffer(records: seq<Record>) {
    forall i, j :: 0 <= i < j < |records| ==> !SameRecord(records[i], records[j])
  }

  lemma {:induction false} FreshDiffers(list: seq<Record>, seen: Seen)
    ensures AllDiffer(Fresh(list, seen))
  {
    if list != [] {
      var t := Tag(list[0]);
      if t in seen {
        FreshDiffers(list[1..], seen);
      } else {
        var rest := Fresh(list[1..], seen + {t});
        FreshDiffers(list[1..], seen + {t});
        FreshIsExact(list[1..], seen + {t});
        forall j | 0 <= j < |rest| ensures !SameRecord(list[0], rest[j]) {
          assert rest[j] in rest && Tag(rest[j]) !in seen + {t};
          TagTells(list[0], rest[j]);
        }
      }
    }
  }

  lemma {:induction false} DifferOnce(records: seq<Record>, x: Record)
    requires AllDiffer(records)
    ensures multiset(records)[x] <= 1
  {
    if records != [] {
      var rest := records[1..];
      assert records == [records[0]] + rest;
      forall j | 0 <= j < |rest| ensures rest[j] == records[j + 1] && rest[j] != records[0] {
        assert !SameRecord(records[0], records[j + 1]);
      }
      DifferOnce(rest, x);
    }
  }

  lemma SortedDiffers(records: seq<Record>, sorted: seq<Record>)
    requires AllDiffer(records) && multiset(sorted) == multiset(records)
    ensures AllDiffer(sorted)
  {
    forall i, j | 0 <= i < j < |sorted| ensures !SameRecord(sorted[i], sorted[j]) {
      var x, y := sorted[i], sorted[j];
      assert x in multiset(records) && y in multiset(records);
      var k :| 0 <= k < |records| && records[k] == x;
      var l :| 0 <= l < |records| && records[l] == y;
      if k == l {
        assert sorted == sorted[..j] + sorted[j..] && sorted[..j][i] == x && sorted[j..][0] == x;
        DifferOnce(records, x);
      } else {
        Symmetric(records[Min(k, l)], records[Max(k, l)]);
      }
    }
  }

  lemma Symmetric(a: Record, b: Record)
    ensures SameRecord(a, b) <==> SameRecord(b, a)
  {
  }

  // What one member contributes is new to the ref and comes once.
  lemma ContributionIsNew(wt: Scan, ref: Scan, cap: nat, m: Text)
    ensures AllDiffer(Contribution(wt, ref, cap, m))
    ensures forall x, y :: x in Contribution(wt, ref, cap, m) && y in ref.records ==> !SameRecord(x, y)
    ensures forall x :: x in Contribution(wt, ref, cap, m) ==> x.member == m && x in wt.records
  {
    var news := Fresh(Filter(wt.records, IsOf(m)), Tags(ref.records));
    FreshDiffers(Filter(wt.records, IsOf(m)), Tags(ref.records));
    SortedDiffers(news, Candidates(wt, ref, m));
    CandidatesAreExact(wt, ref, m);
    forall x, y | x in Contribution(wt, ref, cap, m) && y in ref.records ensures !SameRecord(x, y) {
      assert x in Candidates(wt, ref, m);
      TagOfMember(ref.records, y);
      TagTells(x, y);
    }
  }

  lemma {:induction false} RecoveredAreNew(wt: Scan, ref: Scan, cap: nat, ms: seq<Text>)
    requires NoDuplicates(ms)
    ensures AllDiffer(Recovered(wt, ref, cap, ms))
    ensures forall x, y :: x in Recovered(wt, ref, cap, ms) && y in ref.records ==> !SameRecord(x, y)
    ensures forall x :: x in Recovered(wt, ref, cap, ms) ==> x.member in ms && x in wt.records
  {
    if ms != [] {
      var n := |ms| - 1;
      var before, part := Recovered(wt, ref, cap, ms[..n]), Contribution(wt, ref, cap, ms[n]);
      RecoveredAreNew(wt, ref, cap, ms[..n]);
      ContributionIsNew(wt, ref, cap, ms[n]);
      forall i, j | 0 <= i < |before| && 0 <= j < |part| ensures !SameRecord(before[i], part[j]) {
        assert before[i] in before && part[j] in part;
        LastOnce(ms, part[j].member);
      }
      ConcatDiffers(before, part);
    }
  }

  lemma ConcatDiffers(a: seq<Record>, b: seq<Record>)
    requires AllDiffer(a) && AllDiffer(b)
    requires forall i, j :: 0 <= i < |a| && 0 <= j < |b| ==> !SameRecord(a[i], b[j])
    ensures AllDiffer(a + b)
  {
  }

  // Nothing recovered is the same as a record of the ref or as another recovered one.
  lemma NothingIsRecoveredTwice(wt: Scan, ref: Scan, cap: nat)
    ensures AllDiffer(AllRecovered(wt, ref, cap))
    ensures forall x, y :: x in AllRecovered(wt, ref, cap) && y in ref.records ==> !SameRecord(x, y)
    ensures forall x :: x in AllRecovered(wt, ref, cap) ==> x in wt.records && x.member in Members(ref.shards)
  {
    OverlapIsDistinct(wt.records, Members(ref.shards));
    RecoveredAreNew(wt, ref, cap, Overlapping(wt, ref));
  }

  // ------------------------------------------------------------------ the newest stay ---

  // The first is no older; a record without a time counts as from just before time zero.
  predicate NoOlder(a: Record, b: Record) {
    match (a.at, b.at)
    case (Some(s), Some(t)) => t <= s
    case (Some(s), None) => s >= -1
    case (None, Some(t)) => t <= -1
    case (None, None) => true
  }

  // What the cap drops of a member is no newer than what it keeps.
  lemma CapKeepsTheNewest(wt: Scan, ref: Scan, cap: nat, m: Text, x: Record, y: Record)
    requires x in Contribution(wt, ref, cap, m) && y in CapDropped(wt, ref, cap, m)
    ensures NoOlder(x, y)
  {
    var news, room := Candidates(wt, ref, m), Room(ref, cap, m);
    SortBySorts(Fresh(Filter(wt.records, IsOf(m)), Tags(ref.records)), NewestFirst);
    var k := Min(|news|, room);
    var i :| 0 <= i < k && news[..k][i] == x;
    var j :| 0 <= j < |news| - k && news[k..][j] == y;
    assert NewestFirst(news[i]) <= NewestFirst(news[k + j]);
  }

  // And the merged list runs from the newest to the oldest, unless the ref's own is returned.
  lemma MergedIsNewestFirst(wt: Scan, ref: Scan, cap: nat, i: nat, j: nat)
    requires Union(wt, ref, cap) != ref && i < j < |Union(wt, ref, cap).records|
    ensures NoOlder(Union(wt, ref, cap).records[i], Union(wt, ref, cap).records[j])
  {
    OutIsSorted(wt, ref, cap);
    var records := Union(wt, ref, cap).records;
    assert NewestFirst(records[i]) <= NewestFirst(records[j]);
  }

  // --------------------------------------------------------- what an entry then says ---

  lemma {:induction false} FirstOfIsAt(shards: seq<Shard>, m: Text, j: nat)
    requires j < |shards| && shards[j].member == m && forall l :: 0 <= l < j ==> shards[l].member != m
    ensures FirstOf(shards, m) == Some(shards[j])
  {
    if j > 0 { FirstOfIsAt(shards[1..], m, j - 1); }
  }

  // The entry of a member that had records recovered counts them, reports the larger of both carriers' counts, is
  // excluded only when both are, and takes the working tree's status when that copy was cleared and the ref's not.
  lemma EntryTells(wt: Scan, ref: Scan, cap: nat, i: nat, j: nat)
    requires Union(wt, ref, cap) != ref && i < |ref.shards| && j < |wt.shards|
    requires wt.shards[j].member == ref.shards[i].member
    requires forall l :: 0 <= l < j ==> wt.shards[l].member != wt.shards[j].member
    ensures i < |Union(wt, ref, cap).shards|
    ensures var was, copy, entry := ref.shards[i], wt.shards[j], Union(wt, ref, cap).shards[i];
      var extra := Count(AllRecovered(wt, ref, cap), was.member);
      if extra == 0 then entry == was
      else
        && entry.member == was.member && entry.kept == was.kept + extra && entry.worktreeExtra == Some(extra)
        && entry.records >= was.records && entry.records >= copy.records
        && (entry.records == was.records || entry.records == copy.records)
        && (entry.excluded <==> was.excluded && copy.excluded)
        && entry.status == if was.excluded && !copy.excluded && copy.status != [] then copy.status else was.status
  {
    FirstOfIsAt(wt.shards, wt.shards[j].member, j);
    SameMembersWidened(ref.shards, wt.shards, AllRecovered(wt, ref, cap));
  }
}
