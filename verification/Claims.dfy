/**
 A member's own claims and what keeps their acquisition times: addOwnClaim, removeOwnClaim, getOwnClaims of
 lib/state.js, reconcileOwnClaims of hooks/sync.js, and the conflict notices of hooks/common.js.
 */
module Claims {
  import opened Basics
  import opened Sorting
  import Tiebreak
  import Utf8

  type Key = Text

  // renewedAt 0 stands for an absent or zero renewed_at.
  datatype Row = Row(key: Key, acquiredAt: int, renewedAt: int, ttl: int)

  function ExpiresAt(r: Row): int { (if r.renewedAt != 0 then r.renewedAt else r.acquiredAt) + r.ttl * 1000 }

  function LiveAt(now: int): Row -> bool { (r: Row) => ExpiresAt(r) > now }

  function NotOf(key: Key): Row -> bool { (r: Row) => r.key != key }

  const ByAcquisition: Row -> int := (r: Row) => r.acquiredAt

  // ----------------------------------------------------------- the specification ---

  function Live(rows: seq<Row>, now: int): seq<Row> { SortBy(Filter(rows, LiveAt(now)), ByAcquisition) }

  function Find(rows: seq<Row>, key: Key): Option<Row> {
    if rows == [] then None else if rows[0].key == key then Some(rows[0]) else Find(rows[1..], key)
  }

  // What a Map filled with the rows under their keys holds: the last row of the key.
  function Keyed(rows: seq<Row>, key: Key): Option<Row> {
    if rows == [] then None
    else
      var n := |rows| - 1;
      if rows[n].key == key then Some(rows[n]) else Keyed(rows[..n], key)
  }

  // The first row of the key keeps its acquisition time; a new key goes to the end.
  function Put(rows: seq<Row>, claim: Row): seq<Row> {
    if rows == [] then [claim]
    else if rows[0].key == claim.key then [claim.(acquiredAt := rows[0].acquiredAt)] + rows[1..]
    else [rows[0]] + Put(rows[1..], claim)
  }

  function Without(rows: seq<Row>, key: Key): seq<Row> { Filter(rows, NotOf(key)) }

  // An own claim as the transport reports it; acquiredAt 0 stands for a missing one.
  datatype Remote = Remote(key: Key, acquiredAt: int, ttl: int)

  function RemoteTime(c: Remote, now: int): int { if c.acquiredAt != 0 then c.acquiredAt else now }

  function RemoteRow(c: Remote, now: int): Row {
    Row(c.key, RemoteTime(c, now), now, if c.ttl != 0 then c.ttl else 7200)
  }

  predicate Rewinds(before: seq<Row>, c: Remote, now: int) {
    var local := Keyed(before, c.key);
    local.Some? && local.value.acquiredAt > RemoteTime(c, now)
  }

  function ReconciledOne(rows: seq<Row>, before: seq<Row>, c: Remote, now: int): seq<Row> {
    if c.key == [] then rows
    else Put(if Rewinds(before, c, now) then Without(rows, c.key) else rows, RemoteRow(c, now))
  }

  function ReconciledAll(rows: seq<Row>, before: seq<Row>, remotes: seq<Remote>, now: int): seq<Row> {
    if remotes == [] then rows
    else ReconciledOne(ReconciledAll(rows, before, remotes[..|remotes| - 1], now), before, remotes[|remotes| - 1], now)
  }

  // Reported keys the snapshot does not show, and those it shows with a later time.
  function Readopted(before: seq<Row>, remotes: seq<Remote>): nat {
    if remotes == [] then 0
    else
      var c := remotes[|remotes| - 1];
      Readopted(before, remotes[..|remotes| - 1]) + (if c.key != [] && Keyed(before, c.key).None? then 1 else 0)
  }

  function Rewound(before: seq<Row>, remotes: seq<Remote>, now: int): nat {
    if remotes == [] then 0
    else
      var c := remotes[|remotes| - 1];
      Rewound(before, remotes[..|remotes| - 1], now) + (if c.key != [] && Rewinds(before, c, now) then 1 else 0)
  }

  // before is read once, so it shows the rows as they were.
  function Reconciled(rows: seq<Row>, remotes: seq<Remote>, now: int): seq<Row> {
    ReconciledAll(rows, Live(rows, now), remotes, now)
  }

  // -------------------------------------------------------------------- the program ---

  class State {
    var rows: seq<Row>

    constructor ()
      ensures rows == []
    {
      rows := [];
    }

    method GetOwnClaims(now: int) returns (claims: seq<Row>)
      ensures claims == Live(rows, now)
    {
      claims := SortBy(Filter(rows, LiveAt(now)), ByAcquisition);
    }

    method AddOwnClaim(claim: Row)
      modifies this
      ensures rows == Put(old(rows), claim)
    {
      var i := 0;
      while i < |rows| && rows[i].key != claim.key
        invariant i <= |rows| && forall k :: 0 <= k < i ==> rows[k].key != claim.key
      {
        i := i + 1;
      }
      PutAt(rows, claim, i);
      if i < |rows| {
        rows := rows[i := claim.(acquiredAt := rows[i].acquiredAt)];
      } else {
        rows := rows + [claim];
      }
    }

    method RemoveOwnClaim(key: Key) returns (removed: bool)
      modifies this
      ensures rows == Without(old(rows), key) && removed == Find(old(rows), key).Some?
    {
      FindIsThere(rows, key);
      removed := exists i :: 0 <= i < |rows| && rows[i].key == key;
      rows := Filter(rows, NotOf(key));
    }

    method ReconcileOwnClaims(remotes: seq<Remote>, now: int) returns (readopted: nat, rewound: nat)
      modifies this
      ensures rows == Reconciled(old(rows), remotes, now)
      ensures readopted == Readopted(Live(old(rows), now), remotes)
      ensures rewound == Rewound(Live(old(rows), now), remotes, now)
    {
      readopted, rewound := 0, 0;
      var before := GetOwnClaims(now);
      var i := 0;
      ghost var start, done: seq<Remote> := rows, [];
      while i < |remotes|
        invariant i <= |remotes| && done == remotes[..i]
        invariant Standing(rows, readopted, rewound) == After(start, before, done, now)
      {
        readopted, rewound := Report(start, before, done, remotes[i], now, readopted, rewound);
        done := done + [remotes[i]];
        i := i + 1;
      }
      assert done == remotes;
    }

    method Report(ghost start: seq<Row>, before: seq<Row>, ghost done: seq<Remote>, c: Remote, now: int,
                  readopted: nat, rewound: nat)
      returns (readopted': nat, rewound': nat)
      requires Standing(rows, readopted, rewound) == After(start, before, done, now)
      modifies this
      ensures Standing(rows, readopted', rewound') == After(start, before, done + [c], now)
    {
      NextReport(start, before, done, c, now);
      var adopted, dropped := ReconcileOne(before, c, now);
      readopted' := readopted + (if adopted then 1 else 0);
      rewound' := rewound + (if dropped then 1 else 0);
    }

    // A local row later than the reported one is dropped first, so that the reported time wins.
    method ReconcileOne(before: seq<Row>, c: Remote, now: int) returns (adopted: bool, dropped: bool)
      modifies this
      ensures rows == ReconciledOne(old(rows), before, c, now)
      ensures adopted <==> c.key != [] && Keyed(before, c.key).None?
      ensures dropped <==> c.key != [] && Rewinds(before, c, now)
    {
      adopted, dropped := false, false;
      if c.key == [] { return; }
      var local := Keyed(before, c.key);
      var remote := RemoteTime(c, now);
      if local.Some? && local.value.acquiredAt > remote {
        var removed := RemoveOwnClaim(c.key);
        dropped := true;
      }
      AddOwnClaim(Row(c.key, remote, now, if c.ttl != 0 then c.ttl else 7200));
      adopted := local.None?;
    }
  }

  // Where the loop stands after these reports.
  datatype Standing = Standing(rows: seq<Row>, readopted: nat, rewound: nat)

  function After(start: seq<Row>, before: seq<Row>, done: seq<Remote>, now: int): Standing {
    Standing(ReconciledAll(start, before, done, now), Readopted(before, done), Rewound(before, done, now))
  }

  lemma NextReport(start: seq<Row>, before: seq<Row>, done: seq<Remote>, c: Remote, now: int)
    ensures var was := After(start, before, done, now);
      After(start, before, done + [c], now) ==
      Standing(ReconciledOne(was.rows, before, c, now),
               was.readopted + (if c.key != [] && Keyed(before, c.key).None? then 1 else 0),
               was.rewound + (if c.key != [] && Rewinds(before, c, now) then 1 else 0))
  {
    assert (done + [c])[..|done|] == done;
  }

  lemma {:induction false} PutAt(rows: seq<Row>, claim: Row, i: nat)
    requires i <= |rows| && forall k :: 0 <= k < i ==> rows[k].key != claim.key
    requires i < |rows| ==> rows[i].key == claim.key
    ensures Put(rows, claim) ==
      if i < |rows| then rows[i := claim.(acquiredAt := rows[i].acquiredAt)] else rows + [claim]
  {
    if i > 0 {
      PutAt(rows[1..], claim, i - 1);
      assert rows == [rows[0]] + rows[1..];
    }
  }

  lemma {:induction false} FindIsThere(rows: seq<Row>, key: Key)
    ensures Find(rows, key).Some? <==> exists i :: 0 <= i < |rows| && rows[i].key == key
    ensures Find(rows, key).Some? ==> Find(rows, key).value in rows && Find(rows, key).value.key == key
  {
    if rows != [] {
      FindIsThere(rows[1..], key);
      if rows[0].key != key && (exists i :: 0 <= i < |rows| && rows[i].key == key) {
        var i :| 0 <= i < |rows| && rows[i].key == key;
        assert rows[1..][i - 1].key == key;
      }
    }
  }

  lemma {:induction false} KeyedIsThere(rows: seq<Row>, key: Key)
    ensures Keyed(rows, key).Some? <==> exists i :: 0 <= i < |rows| && rows[i].key == key
    ensures Keyed(rows, key).Some? ==> Keyed(rows, key).value in rows && Keyed(rows, key).value.key == key
  {
    if rows != [] {
      var n := |rows| - 1;
      KeyedIsThere(rows[..n], key);
      if rows[n].key != key && (exists i :: 0 <= i < |rows| && rows[i].key == key) {
        var i :| 0 <= i < |rows| && rows[i].key == key;
        assert rows[..n][i].key == key;
      }
    }
  }

  // ------------------------------------------------------------ acquisition times ---

  predicate DistinctKeys(rows: seq<Row>) {
    forall i, j :: 0 <= i < j < |rows| ==> rows[i].key != rows[j].key
  }

  function AcquiredAt(rows: seq<Row>, key: Key): Option<int> {
    var r := Find(rows, key);
    if r.Some? then Some(r.value.acquiredAt) else None
  }

  lemma {:induction false} PutFinds(rows: seq<Row>, claim: Row, key: Key)
    ensures Find(Put(rows, claim), key) ==
      if key != claim.key then Find(rows, key)
      else if Find(rows, key).Some? then Some(claim.(acquiredAt := Find(rows, key).value.acquiredAt))
      else Some(claim)
    ensures DistinctKeys(rows) ==> DistinctKeys(Put(rows, claim))
  {
    if rows != [] && rows[0].key != claim.key {
      var put := Put(rows, claim);
      PutFinds(rows[1..], claim, key);
      PutFinds(rows[1..], claim, rows[0].key);
      assert put[1..] == Put(rows[1..], claim);
      FindIsThere(rows[1..], rows[0].key);
      FindIsThere(put[1..], rows[0].key);
      if DistinctKeys(rows) {
        assert forall i :: 0 <= i < |rows| - 1 ==> rows[1..][i] == rows[i + 1];
        assert forall i :: 1 <= i < |put| ==> put[i] == put[1..][i - 1];
      }
    } else if rows != [] {
      assert Put(rows, claim)[1..] == rows[1..];
    }
  }

  lemma {:induction false} WithoutFinds(rows: seq<Row>, key: Key, other: Key)
    ensures Find(Without(rows, key), other) == if other == key then None else Find(rows, other)
    ensures DistinctKeys(rows) ==> DistinctKeys(Without(rows, key))
  {
    if rows != [] {
      WithoutFinds(rows[1..], key, other);
      WithoutFinds(rows[1..], key, rows[0].key);
      var rest := Without(rows[1..], key);
      FindIsThere(rows[1..], rows[0].key);
      FindIsThere(rest, rows[0].key);
      if rows[0].key != key {
        assert Without(rows, key)[1..] == rest;
        if DistinctKeys(rows) {
          assert forall i :: 0 <= i < |rows| - 1 ==> rows[1..][i] == rows[i + 1];
          assert forall i :: 1 <= i < |rest| + 1 ==> Without(rows, key)[i] == rest[i - 1];
        }
      } else {
        assert Without(rows, key) == rest;
      }
    }
  }

  lemma {:induction false} OnlyRow(rows: seq<Row>, r: Row)
    requires DistinctKeys(rows) && r in rows
    ensures Find(rows, r.key) == Some(r)
  {
    var i :| 0 <= i < |rows| && rows[i] == r;
    if i > 0 {
      assert rows[1..][i - 1] == r;
      OnlyRow(rows[1..], r);
    }
  }

  // The rows still live are the rows whose time has not passed, and sorting does not hide any.
  lemma LiveFinds(rows: seq<Row>, now: int, key: Key)
    requires DistinctKeys(rows)
    ensures Keyed(Live(rows, now), key) ==
      if Find(rows, key).Some? && ExpiresAt(Find(rows, key).value) > now then Find(rows, key) else None
  {
    var kept, live := Filter(rows, LiveAt(now)), Live(rows, now);
    FindIsThere(rows, key);
    KeyedIsThere(live, key);
    if Keyed(live, key).Some? {
      var r := Keyed(live, key).value;
      SameElements(live, kept, r);
      FilterMembers(rows, LiveAt(now), r);
      OnlyRow(rows, r);
    }
    if Find(rows, key).Some? {
      var r := Find(rows, key).value;
      FilterMembers(rows, LiveAt(now), r);
      SameElements(live, kept, r);
      if r in live {
        var i :| 0 <= i < |live| && live[i] == r;
        assert live[i].key == key;
      }
    }
  }

  // ------------------------------------------------------- where a key ends, exactly ---

  // The last reported time below the limit, else the limit.
  function LastBelow(remotes: seq<Remote>, key: Key, limit: int, now: int): (r: int)
    ensures r <= limit
  {
    if remotes == [] then limit
    else
      var n := |remotes| - 1;
      if remotes[n].key == key && RemoteTime(remotes[n], now) < limit then RemoteTime(remotes[n], now)
      else LastBelow(remotes[..n], key, limit, now)
  }

  // The first reported time, if any.
  function FirstReported(remotes: seq<Remote>, key: Key, now: int): Option<int> {
    if remotes == [] then None
    else if remotes[0].key == key then Some(RemoteTime(remotes[0], now))
    else FirstReported(remotes[1..], key, now)
  }

  // No row takes the first reported time; a live row the last one below its own; an expired row keeps its own,
  // however early the reported ones are.
  function EndTime(rows: seq<Row>, remotes: seq<Remote>, now: int, key: Key): Option<int> {
    var row := Find(rows, key);
    if row.None? then FirstReported(remotes, key, now)
    else if ExpiresAt(row.value) > now then Some(LastBelow(remotes, key, row.value.acquiredAt, now))
    else Some(row.value.acquiredAt)
  }

  lemma {:induction false} FirstReportedOneMore(remotes: seq<Remote>, c: Remote, key: Key, now: int)
    ensures FirstReported(remotes + [c], key, now) ==
      if FirstReported(remotes, key, now).Some? then FirstReported(remotes, key, now)
      else if c.key == key then Some(RemoteTime(c, now)) else None
  {
    var all := remotes + [c];
    if remotes == [] {
      assert all[0] == c && all[1..] == [];
    } else {
      assert all[0] == remotes[0] && all[1..] == remotes[1..] + [c];
      FirstReportedOneMore(remotes[1..], c, key, now);
    }
  }

  // A report sets the time when the snapshot shows a later one, or when there is none by now.
  function Reacquires(row: Option<Row>, current: Option<int>, c: Remote, now: int): Option<int> {
    var rewound := row.Some? && ExpiresAt(row.value) > now && row.value.acquiredAt > RemoteTime(c, now);
    if rewound || current.None? then Some(RemoteTime(c, now)) else current
  }

  // One reported claim, on its own key and on another.
  lemma OneReport(rows: seq<Row>, mid: seq<Row>, c: Remote, now: int, key: Key)
    requires DistinctKeys(rows) && DistinctKeys(mid)
    ensures var end, row := ReconciledOne(mid, Live(rows, now), c, now), Find(rows, key);
      DistinctKeys(end) &&
      ((c.key != key || key == []) ==> Find(end, key) == Find(mid, key)) &&
      (c.key == key && key != [] ==> AcquiredAt(end, key) == Reacquires(row, AcquiredAt(mid, key), c, now))
  {
    LiveFinds(rows, now, c.key);
    WithoutFinds(mid, c.key, key);
    var kept := if Rewinds(Live(rows, now), c, now) then Without(mid, c.key) else mid;
    PutFinds(kept, RemoteRow(c, now), key);
  }

  lemma EndTimeOneMore(rows: seq<Row>, remotes: seq<Remote>, c: Remote, now: int, key: Key)
    ensures EndTime(rows, remotes + [c], now, key) ==
      if c.key == key then Reacquires(Find(rows, key), EndTime(rows, remotes, now, key), c, now)
      else EndTime(rows, remotes, now, key)
  {
    FirstReportedOneMore(remotes, c, key, now);
    assert (remotes + [c])[..|remotes|] == remotes;
  }

  lemma {:induction false} ReconciledAt(rows: seq<Row>, remotes: seq<Remote>, now: int, key: Key)
    requires DistinctKeys(rows) && key != []
    ensures var end := ReconciledAll(rows, Live(rows, now), remotes, now);
      DistinctKeys(end) && AcquiredAt(end, key) == EndTime(rows, remotes, now, key)
  {
    if remotes != [] {
      var n := |remotes| - 1;
      var c, earlier := remotes[n], remotes[..n];
      ReconciledAt(rows, earlier, now, key);
      OneReport(rows, ReconciledAll(rows, Live(rows, now), earlier, now), c, now, key);
      assert remotes == earlier + [c];
      EndTimeOneMore(rows, earlier, c, now, key);
    }
  }

  ghost predicate Touches(remotes: seq<Remote>, key: Key) {
    exists i :: 0 <= i < |remotes| && remotes[i].key == key
  }

  lemma {:induction false} UntouchedStays(rows: seq<Row>, remotes: seq<Remote>, now: int, key: Key)
    requires DistinctKeys(rows) && key != [] && !Touches(remotes, key)
    ensures Find(ReconciledAll(rows, Live(rows, now), remotes, now), key) == Find(rows, key)
  {
    if remotes != [] {
      var n := |remotes| - 1;
      var earlier := remotes[..n];
      assert remotes[n].key != key && forall i :: 0 <= i < n ==> earlier[i] == remotes[i];
      UntouchedStays(rows, earlier, now, key);
      ReconciledAt(rows, earlier, now, key);
      OneReport(rows, ReconciledAll(rows, Live(rows, now), earlier, now), remotes[n], now, key);
    }
  }

  // Reconciliation, key by key, whatever the transport reports.
  lemma ReconciliationIsExact(rows: seq<Row>, remotes: seq<Remote>, now: int, key: Key)
    requires DistinctKeys(rows) && key != []
    ensures DistinctKeys(Reconciled(rows, remotes, now))
    ensures AcquiredAt(Reconciled(rows, remotes, now), key) == EndTime(rows, remotes, now, key)
    ensures !Touches(remotes, key) ==> Find(Reconciled(rows, remotes, now), key) == Find(rows, key)
    ensures AcquiredAt(rows, key).Some? ==>
      AcquiredAt(Reconciled(rows, remotes, now), key).Some? &&
      AcquiredAt(Reconciled(rows, remotes, now), key).value <= AcquiredAt(rows, key).value
  {
    ReconciledAt(rows, remotes, now, key);
    if !Touches(remotes, key) { UntouchedStays(rows, remotes, now, key); }
  }

  predicate DistinctRemotes(remotes: seq<Remote>) {
    forall i, j :: 0 <= i < j < |remotes| ==> remotes[i].key != remotes[j].key
  }

  // Reported once: no row, take the reported time; a live row, the earlier of the two; an expired row, its own.
  function Reacquired(rows: seq<Row>, c: Remote, now: int): int {
    var row := Find(rows, c.key);
    var reported := if c.acquiredAt == 0 then now else c.acquiredAt;
    if row.None? then reported
    else if ExpiresAt(row.value) > now then Min(row.value.acquiredAt, reported)
    else row.value.acquiredAt
  }

  lemma ReportedOnce(rows: seq<Row>, remotes: seq<Remote>, now: int, k: nat)
    requires DistinctKeys(rows) && DistinctRemotes(remotes) && k < |remotes| && remotes[k].key != []
    ensures AcquiredAt(Reconciled(rows, remotes, now), remotes[k].key) == Some(Reacquired(rows, remotes[k], now))
  {
    var key := remotes[k].key;
    ReconciledAt(rows, remotes, now, key);
    OnlyReport(remotes, now, k);
    if Find(rows, key).Some? { OnlyBelow(remotes, Find(rows, key).value.acquiredAt, now, k); }
  }

  lemma {:induction false} OnlyReport(remotes: seq<Remote>, now: int, k: nat)
    requires DistinctRemotes(remotes) && k < |remotes|
    ensures FirstReported(remotes, remotes[k].key, now) == Some(RemoteTime(remotes[k], now))
  {
    if k > 0 {
      assert forall i :: 0 <= i < |remotes| - 1 ==> remotes[1..][i] == remotes[i + 1];
      OnlyReport(remotes[1..], now, k - 1);
    }
  }

  lemma {:induction false} OnlyBelow(remotes: seq<Remote>, limit: int, now: int, k: nat)
    requires k < |remotes| && forall i :: 0 <= i < |remotes| && i != k ==> remotes[i].key != remotes[k].key
    ensures LastBelow(remotes, remotes[k].key, limit, now) == Min(limit, RemoteTime(remotes[k], now))
  {
    var n := |remotes| - 1;
    assert forall i :: 0 <= i < n ==> remotes[..n][i] == remotes[i];
    if k < n { OnlyBelow(remotes[..n], limit, now, k); } else { NoneBelow(remotes[..n], remotes[k].key, limit, now); }
  }

  lemma {:induction false} NoneBelow(remotes: seq<Remote>, key: Key, limit: int, now: int)
    requires forall i :: 0 <= i < |remotes| && remotes[i].key == key ==> RemoteTime(remotes[i], now) >= limit
    ensures LastBelow(remotes, key, limit, now) == limit
  {
    if remotes != [] {
      var n := |remotes| - 1;
      assert forall i :: 0 <= i < n ==> remotes[..n][i] == remotes[i];
      NoneBelow(remotes[..n], key, limit, now);
    }
  }

  // Report k is the last one of the key below the limit.
  ghost predicate LastBelowAt(remotes: seq<Remote>, key: Key, limit: int, now: int, k: nat) {
    k < |remotes| && remotes[k].key == key && RemoteTime(remotes[k], now) < limit &&
    forall i :: k < i < |remotes| && remotes[i].key == key ==> RemoteTime(remotes[i], now) >= limit
  }

  lemma {:induction false} LastBelowIsThere(remotes: seq<Remote>, key: Key, limit: int, now: int, k: nat)
    requires LastBelowAt(remotes, key, limit, now, k)
    ensures LastBelow(remotes, key, limit, now) == RemoteTime(remotes[k], now)
  {
    var n := |remotes| - 1;
    if k < n {
      assert forall i :: 0 <= i < n ==> remotes[..n][i] == remotes[i];
      LastBelowIsThere(remotes[..n], key, limit, now, k);
    }
  }

  ghost predicate NoReportBelow(remotes: seq<Remote>, key: Key, now: int, n: nat, time: int) {
    forall i :: 0 <= i < Min(n, |remotes|) && remotes[i].key == key ==> time <= RemoteTime(remotes[i], now)
  }

  lemma LaterReportsAreNotBelow(remotes: seq<Remote>, key: Key, limit: int, now: int, k: nat)
    requires LastBelowAt(remotes, key, limit, now, k)
    ensures NoReportBelow(remotes, key, now, |remotes|, RemoteTime(remotes[k], now)) <==>
      NoReportBelow(remotes, key, now, k, RemoteTime(remotes[k], now))
  {
  }

  // Reported more than once, the key of a live row ends at the earliest of all these times exactly when the last
  // report below the row's own time is no later than any report before it.
  lemma EarliestExactlyWhen(rows: seq<Row>, remotes: seq<Remote>, now: int, key: Key, k: nat)
    requires DistinctKeys(rows) && key != [] && Find(rows, key).Some? && ExpiresAt(Find(rows, key).value) > now
    requires LastBelowAt(remotes, key, Find(rows, key).value.acquiredAt, now, k)
    ensures AcquiredAt(Reconciled(rows, remotes, now), key) == Some(RemoteTime(remotes[k], now))
    ensures NoReportBelow(remotes, key, now, |remotes|, AcquiredAt(Reconciled(rows, remotes, now), key).value) <==>
      NoReportBelow(remotes, key, now, k, RemoteTime(remotes[k], now))
  {
    var limit := Find(rows, key).value.acquiredAt;
    ReconciledAt(rows, remotes, now, key);
    LastBelowIsThere(remotes, key, limit, now, k);
    LaterReportsAreNotBelow(remotes, key, limit, now, k);
  }

  // With no report below the row's own time it ends there, which is the earliest.
  lemma KeptWhenNoneIsEarlier(rows: seq<Row>, remotes: seq<Remote>, now: int, key: Key)
    requires DistinctKeys(rows) && key != [] && Find(rows, key).Some?
    requires forall i :: 0 <= i < |remotes| && remotes[i].key == key ==>
      RemoteTime(remotes[i], now) >= Find(rows, key).value.acquiredAt
    ensures AcquiredAt(Reconciled(rows, remotes, now), key) == AcquiredAt(rows, key)
  {
    ReconciledAt(rows, remotes, now, key);
    NoneBelow(remotes, key, Find(rows, key).value.acquiredAt, now);
  }

  // So a second report, later than the first but still below the row's own time, moves the key from the first
  // time to the second: the snapshot still shows the row as it was.
  lemma DuplicateReportsCanRaise(rows: seq<Row>, c: Remote, d: Remote, now: int)
    requires DistinctKeys(rows) && c.key != [] && d.key == c.key
    requires Find(rows, c.key).Some? && ExpiresAt(Find(rows, c.key).value) > now
    requires RemoteTime(c, now) < RemoteTime(d, now) < Find(rows, c.key).value.acquiredAt
    ensures AcquiredAt(Reconciled(rows, [c], now), c.key) == Some(RemoteTime(c, now))
    ensures AcquiredAt(Reconciled(rows, [c, d], now), c.key) == Some(RemoteTime(d, now))
  {
    EarliestExactlyWhen(rows, [c], now, c.key, 0);
    EarliestExactlyWhen(rows, [c, d], now, c.key, 1);
  }

  // ------------------------------------------------------------------ whole runs ---

  datatype Event = Renew(claim: Row) | Release(key: Key) | Reconcile(remotes: seq<Remote>, now: int)

  function Step(rows: seq<Row>, e: Event): seq<Row> {
    match e
    case Renew(claim) => Put(rows, claim)
    case Release(key) => Without(rows, key)
    case Reconcile(remotes, now) => Reconciled(rows, remotes, now)
  }

  function Run(rows: seq<Row>, events: seq<Event>): seq<Row>
    decreases |events|
  {
    if events == [] then rows else Run(Step(rows, events[0]), events[1..])
  }

  // Until the key is released, renewals and reconciliations never move its acquisition time later; so a claim
  // that loses to no rival goes on losing to none.
  lemma {:induction false} AcquisitionIsNeverRaised(rows: seq<Row>, events: seq<Event>, key: Key)
    requires DistinctKeys(rows) && key != [] && AcquiredAt(rows, key).Some?
    requires forall i :: 0 <= i < |events| ==> events[i] != Release(key)
    ensures DistinctKeys(Run(rows, events)) && AcquiredAt(Run(rows, events), key).Some?
    ensures AcquiredAt(Run(rows, events), key).value <= AcquiredAt(rows, key).value
    ensures forall me, theirs: Tiebreak.Rival ::
      !Tiebreak.Loses(Tiebreak.Rival(AcquiredAt(rows, key).value, me), theirs) ==>
      !Tiebreak.Loses(Tiebreak.Rival(AcquiredAt(Run(rows, events), key).value, me), theirs)
    decreases |events|
  {
    if events != [] {
      var next := Step(rows, events[0]);
      assert events[0] != Release(key);
      match events[0] {
        case Renew(claim) => PutFinds(rows, claim, key);
        case Release(other) => WithoutFinds(rows, other, key);
        case Reconcile(remotes, now) => ReconciliationIsExact(rows, remotes, now, key);
      }
      AcquisitionIsNeverRaised(next, events[1..], key);
    }
    forall me, theirs: Tiebreak.Rival | !Tiebreak.Loses(Tiebreak.Rival(AcquiredAt(rows, key).value, me), theirs)
      ensures !Tiebreak.Loses(Tiebreak.Rival(AcquiredAt(Run(rows, events), key).value, me), theirs)
    {
      Tiebreak.EarlierStillWins(Tiebreak.Rival(AcquiredAt(rows, key).value, me),
                                Tiebreak.Rival(AcquiredAt(Run(rows, events), key).value, me), theirs);
    }
  }

  // ----------------------------------------------------------- conflict notices ---

  // A peer's claim in the cache; expiresAt 0 stands for a missing one, ttl 0 for the default.
  datatype PeerClaim = PeerClaim(key: Key, owner: Text, acquiredAt: int, renewedAt: int, ttl: int, expiresAt: int)

  datatype Notice = Notice(key: Key, owner: Text, lost: bool)

  function PeerExpiry(c: PeerClaim): int {
    if c.expiresAt != 0 then c.expiresAt
    else (if c.renewedAt != 0 then c.renewedAt else c.acquiredAt) + (if c.ttl != 0 then c.ttl else 7200) * 1000
  }

  predicate Conflicts(own: seq<Row>, me: Text, c: PeerClaim, now: int) {
    c.key != [] && Keyed(own, c.key).Some? && c.owner != [] && c.owner != me && PeerExpiry(c) > now
  }

  function Verdict(own: seq<Row>, me: Text, c: PeerClaim): Notice
    requires Keyed(own, c.key).Some?
  {
    Notice(c.key, c.owner, Tiebreak.Loses(Tiebreak.Rival(Keyed(own, c.key).value.acquiredAt, me),
                                          Tiebreak.Rival(c.acquiredAt, c.owner)))
  }

  function Notices(own: seq<Row>, me: Text, peers: seq<PeerClaim>, now: int): seq<Notice> {
    if peers == [] then []
    else Notices(own, me, peers[..|peers| - 1], now) +
         (var c := peers[|peers| - 1]; if Conflicts(own, me, c, now) then [Verdict(own, me, c)] else [])
  }

  method ConflictNotices(state: State, me: Text, peers: seq<PeerClaim>, now: int) returns (notices: seq<Notice>)
    ensures notices == if me == [] then [] else Notices(Live(state.rows, now), me, peers, now)
  {
    notices := [];
    if me == [] { return; }
    var own := state.GetOwnClaims(now);
    var i := 0;
    while i < |peers|
      invariant i <= |peers| && notices == Notices(own, me, peers[..i], now)
    {
      var c := peers[i];
      assert peers[..i + 1][..i] == peers[..i];
      var mine := Keyed(own, c.key);
      if c.key != [] && mine.Some? && c.owner != [] && c.owner != me && PeerExpiry(c) > now {
        var lost := Tiebreak.Loses(Tiebreak.Rival(mine.value.acquiredAt, me), Tiebreak.Rival(c.acquiredAt, c.owner));
        notices := notices + [Notice(c.key, c.owner, lost)];
      }
      i := i + 1;
    }
    assert peers[..i] == peers;
  }

  // What there is to tell of my row r and a peer's claim c: both are live, on one key, and the peer's won when it is
  // the earlier one or, at the same time, its owner's id comes first.
  predicate Told(r: Row, c: PeerClaim, me: Text, now: int, notice: Notice) {
    && c.key == r.key != [] && c.owner != [] && c.owner != me
    && now - (if r.renewedAt != 0 then r.renewedAt else r.acquiredAt) < 1000 * r.ttl
    && (if c.expiresAt != 0 then now < c.expiresAt
        else now - (if c.renewedAt != 0 then c.renewedAt else c.acquiredAt) < (if c.ttl != 0 then 1000 * c.ttl else 7_200_000))
    && notice.key == c.key && notice.owner == c.owner
    && (notice.lost <==>
          (c.acquiredAt < r.acquiredAt ||
           (c.acquiredAt == r.acquiredAt && Tiebreak.Before(Utf8.Encode(c.owner), Utf8.Encode(me)))))
  }

  // There is a notice exactly of each live claim of another member on a key I hold live, with the right verdict.
  lemma NoticeExactlyWhen(rows: seq<Row>, me: Text, peers: seq<PeerClaim>, now: int, notice: Notice)
    requires DistinctKeys(rows)
    ensures notice in Notices(Live(rows, now), me, peers, now) <==>
      exists r, c :: r in rows && c in peers && Told(r, c, me, now, notice)
  {
    var own := Live(rows, now);
    NoticeOfSome(own, me, peers, now, notice);
    if c :| c in peers && IsNoticeOf(own, me, c, now, notice) { ConflictIsTold(rows, me, c, now, notice); }
    if r, c :| r in rows && c in peers && Told(r, c, me, now, notice) { ToldIsConflict(rows, r, me, c, now, notice); }
  }

  predicate IsNoticeOf(own: seq<Row>, me: Text, c: PeerClaim, now: int, notice: Notice) {
    Conflicts(own, me, c, now) && notice == Verdict(own, me, c)
  }

  lemma {:induction false} NoticeOfSome(own: seq<Row>, me: Text, peers: seq<PeerClaim>, now: int, notice: Notice)
    ensures notice in Notices(own, me, peers, now) <==> exists c :: c in peers && IsNoticeOf(own, me, c, now, notice)
    decreases |peers|
  {
    if peers != [] {
      var init, last := peers[..|peers| - 1], peers[|peers| - 1];
      NoticeOfSome(own, me, init, now, notice);
      assert peers == init + [last] && forall c :: c in peers <==> c in init || c == last;
      assert last in peers;
      assert notice in Notices(own, me, peers, now) <==>
        (notice in Notices(own, me, init, now) || IsNoticeOf(own, me, last, now, notice));
    }
  }

  lemma ConflictIsTold(rows: seq<Row>, me: Text, c: PeerClaim, now: int, notice: Notice)
    requires DistinctKeys(rows) && IsNoticeOf(Live(rows, now), me, c, now, notice)
    ensures exists r :: r in rows && Told(r, c, me, now, notice)
  {
    LiveFinds(rows, now, c.key);
    FindIsThere(rows, c.key);
    var r := Find(rows, c.key).value;
    Tiebreak.LosesExactlyWhen(Tiebreak.Rival(r.acquiredAt, me), Tiebreak.Rival(c.acquiredAt, c.owner));
    assert r in rows && Told(r, c, me, now, notice);
  }

  lemma ToldIsConflict(rows: seq<Row>, r: Row, me: Text, c: PeerClaim, now: int, notice: Notice)
    requires DistinctKeys(rows) && r in rows && Told(r, c, me, now, notice)
    ensures IsNoticeOf(Live(rows, now), me, c, now, notice)
  {
    OnlyRow(rows, r);
    LiveFinds(rows, now, c.key);
    Tiebreak.LosesExactlyWhen(Tiebreak.Rival(r.acquiredAt, me), Tiebreak.Rival(c.acquiredAt, c.owner));
  }

  // Two members that see each other's claim on a key as it stands are told opposite things.
  lemma NoticesAgree(mine: seq<Row>, me: Text, theirs: seq<Row>, them: Text, c: PeerClaim, d: PeerClaim, now: int)
    requires Conflicts(mine, me, c, now) && Conflicts(theirs, them, d, now)
    requires c.key == d.key && c.owner == them && d.owner == me
    requires c.acquiredAt == Keyed(theirs, d.key).value.acquiredAt && d.acquiredAt == Keyed(mine, c.key).value.acquiredAt
    requires Utf8.WellFormed(me) && Utf8.WellFormed(them)
    ensures Verdict(mine, me, c).lost <==> !Verdict(theirs, them, d).lost
  {
    var a, b := Tiebreak.Rival(d.acquiredAt, me), Tiebreak.Rival(c.acquiredAt, them);
    Tiebreak.OneSideLoses(a, b);
    Tiebreak.DistinctMembersNeverTie(a, b);
  }
}
