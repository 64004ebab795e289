/**
 `runBeatUngated` of lib/state-branch.js, one git call at a time, between the steps of everybody else.
 The world carries the trace of all steps so far and keeps it a run of the protocol, so what is proved
 about runs holds of every execution of this code.
 */
module BeatRunner {
  import opened Basics
  import opened Git
  import opened StateBranch
  import opened StateBranchSafety
  import CommitScan
  import ScanUnits
  import Utf8

  const MAX_REBUILDS := 3
  const MAX_SHARD_BYTES := 256 * 1024

  datatype FetchAnswer = Fetched | FetchFailed | FetchNoTime

  datatype ProbeAnswer = Present | ProvedAbsent | Unknown

  datatype ScanVerdict = Clean | Finding | TimedOut

  datatype BuildAnswer =
    | Changed | Unchanged | TooLarge | Unreadable | SecretFound | ScanNoTime | GitStepFailed | TreeLost

  datatype MoveAnswer = Moved | Paused | RefMoved

  // NonFastForward and Contended are answered alike, as a push the remote did not take and asks to rebuild: the one
  // because the head sent was no fast-forward, the other for any other cause, such as a lock somebody else held.
  datatype PushAnswer = Pushed | NonFastForward | Contended | Rejected | Refused | Offline | PushNoTime

  datatype Outcome = Delivered | NothingNew | Deferred | OfflineOutcome | RejectedOutcome | RefusedOutcome | PausedOutcome

  // What a beat reports. `grew` says whether the outcome is one that grows the deferred count.
  datatype Report = Report(outcome: Outcome, attempts: nat, createdRoot: bool, head: Option<Commit>)

  predicate AsksToRebuild(answer: PushAnswer) { answer.NonFastForward? || answer.Contended? }

  // An answer lost on the way, or a failure before anything was sent.
  function Lost(failure: PushAnswer): PushAnswer { if failure.Pushed? || failure.NonFastForward? then Offline else failure }

  // What the answer to a push makes of an attempt; None asks for another attempt.
  ghost predicate Follows(answer: PushAnswer, last: bool, done: Option<Outcome>) {
    match answer
    case Pushed => done == Some(Delivered)
    case NonFastForward => done == if last then Some(Deferred) else None
    case Contended => done == if last then Some(Deferred) else None
    case Rejected => done == Some(RejectedOutcome)
    case Refused => done == Some(RefusedOutcome)
    case Offline => done == Some(OfflineOutcome)
    case PushNoTime => done == Some(Deferred)
  }

  predicate GrowsDeferred(outcome: Outcome) { outcome == Deferred || outcome == OfflineOutcome }

  method ScanEach(clean: Filter, units: seq<Text>) returns (verdict: ScanVerdict)
    ensures verdict.Clean? ==> forall m :: 0 <= m < |units| ==> clean(units[m])
    ensures verdict.Finding? ==> exists m :: 0 <= m < |units| && !clean(units[m])
    ensures verdict.TimedOut? ==> |units| > 1 && clean(units[0])
  {
    var n := 0;
    var found := false;
    while n < |units|
      invariant n <= |units|
      invariant !found ==> forall m :: 0 <= m < n ==> clean(units[m])
      invariant found ==> exists m :: 0 <= m < n && !clean(units[m])
    {
      var late: bool := *;
      if n > 0 && late { return if found then Finding else TimedOut; }
      if !clean(units[n]) { found := true; }
      n := n + 1;
    }
    return if found then Finding else Clean;
  }

  class World {
    const clean: Filter
    ghost const start: System
    ghost var trace: seq<Event>
    var sys: System

    ghost predicate Valid()
      reads this
    {
      Initial(start) && Execute(clean, start, trace) == Some(sys)
    }

    // Beat `b` is in flight in clone `k`.
    ghost predicate Active(b: nat, k: nat)
      reads this
    {
      Valid() && b in sys.beats && sys.beats[b].clone == k && k in sys.clones
    }

    // The tracking ref of clone `k` after the first `i` steps.
    ghost function TrackingAfter(i: nat, k: nat): Option<Commit>
      reads this
    {
      if i <= |trace| then TrackingOf(Execute(clean, start, trace[..i]), k) else None
    }

    constructor (clean: Filter, start: System)
      requires Initial(start)
      ensures Valid() && this.clean == clean && this.start == start && sys == start && trace == []
    {
      this.clean := clean;
      this.start := start;
      this.trace := [];
      this.sys := start;
    }

    // One step.
    method Do(e: Event)
      requires Valid() && Enabled(clean, sys, e)
      modifies this
      ensures Valid() && sys == Apply(clean, old(sys), e) && trace == old(trace) + [e]
    {
      assert (trace + [e])[..|trace|] == trace;
      sys := Apply(clean, sys, e);
      trace := trace + [e];
    }

    // Any number of steps of anybody but beat `b`: other clones, other beats of the same clone, the user.
    // Callers may rely on nothing but this contract, which any such steps meet (OthersKeep), so what they prove holds
    // for every interference.
    method Others(b: nat, k: nat)
      requires Active(b, k)
      modifies this
      ensures Active(b, k) && sys.beats[b] == old(sys.beats[b]) && old(trace) <= trace && Kept(old(sys), sys, k)
    {
    }

    // The same once beat `b` has read the ref it pushes: nobody else takes its push steps.
    method OthersWhilePushing(b: nat, k: nat)
      requires Active(b, k)
      modifies this
      ensures Active(b, k) && sys.beats[b] == old(sys.beats[b]) && old(trace) <= trace && Kept(old(sys), sys, k)
      ensures Sent(clean, start, trace, b) == old(Sent(clean, start, trace, b))
    {
    }

    method Begin(b: nat, k: nat)
      requires Valid() && b !in sys.beats && k in sys.clones
      modifies this
      ensures Active(b, k) && old(trace) <= trace && Kept(old(sys), sys, k)
      ensures sys.beats[b] == Beat(k, None, None, None, false, Idle, None, 0, 0, None)
    {
      Do(Join(b, k));
      Others(b, k);
    }

    method NewAttempt(b: nat, k: nat)
      requires Active(b, k)
      modifies this
      ensures Active(b, k) && old(trace) <= trace && Kept(old(sys), sys, k)
      ensures sys.beats[b] == old(sys.beats[b]).(fetched := None, localRef := None, remoteHead := None,
                                                 provedAbsent := false, phase := Idle, head := None)
    {
      Do(StartAttempt(b));
      Others(b, k);
    }

    // The second half of a fetch: the tracking ref takes what was read.
    method WriteTracking(b: nat, k: nat)
      requires Active(b, k) && sys.beats[b].fetched.Some?
      modifies this
      ensures Active(b, k) && old(trace) <= trace && Kept(old(sys), sys, k) && sys.beats[b] == old(sys.beats[b])
      ensures exists i :: |old(trace)| < i <= |trace| && TrackingAfter(i, k) == sys.beats[b].fetched
    {
      Do(FetchWrite(b));
      ghost var wrote := trace;
      Others(b, k);
      assert trace[..|wrote|] == wrote;
      assert TrackingAfter(|wrote|, k) == sys.beats[b].fetched;
    }

    // rule 1: the fetch reads the remote ref, and later forces the tracking ref to what it read. It may
    // fail, or be killed, before or after either step.
    method FetchState(b: nat, k: nat) returns (answer: FetchAnswer)
      requires Active(b, k)
      modifies this
      ensures Active(b, k) && old(trace) <= trace && Kept(old(sys), sys, k)
      ensures sys.beats[b] == old(sys.beats[b]).(fetched := sys.beats[b].fetched)
      ensures sys.beats[b].fetched == old(sys.beats[b].fetched) || sys.beats[b].fetched == old(sys.remote)
      ensures answer.Fetched? ==> old(sys.remote).Some? && sys.beats[b].fetched == old(sys.remote)
      ensures answer.Fetched? ==> exists i :: |old(trace)| < i <= |trace| && TrackingAfter(i, k) == old(sys.remote)
    {
      var noTime: bool := *;
      if noTime { return FetchNoTime; }
      var reached: bool := *;
      if !reached || sys.remote.None? { return FetchFailed; }
      Do(FetchRead(b));
      Others(b, k);
      var written: bool := *;
      if !written { return FetchFailed; }
      WriteTracking(b, k);
      var ok: bool := *;
      answer := if ok then Fetched else FetchFailed;
    }

    method RevParseLocal(b: nat, k: nat) returns (ref: Option<Commit>)
      requires Active(b, k)
      modifies this
      ensures Active(b, k) && old(trace) <= trace && Kept(old(sys), sys, k)
      ensures sys.beats[b] == old(sys.beats[b]).(localRef := ref) && ref == old(sys.clones[k].local)
    {
      ref := sys.clones[k].local;
      Do(ReadLocal(b));
      Others(b, k);
    }

    method RevParseTracking(b: nat, k: nat) returns (ref: Option<Commit>)
      requires Active(b, k)
      modifies this
      ensures Active(b, k) && old(trace) <= trace && Kept(old(sys), sys, k)
      ensures sys.beats[b] == old(sys.beats[b]).(remoteHead := ref) && ref == old(sys.clones[k].tracking)
    {
      ref := sys.clones[k].tracking;
      Do(ReadTracking(b));
      Others(b, k);
    }

    // rule 2's three-way answer: only exit code 2 proves the ref absent.
    method LsRemote(b: nat, k: nat) returns (answer: ProbeAnswer)
      requires Active(b, k)
      modifies this
      ensures Active(b, k) && old(trace) <= trace && Kept(old(sys), sys, k)
      ensures sys.beats[b] == old(sys.beats[b]).(provedAbsent := answer.ProvedAbsent? || old(sys.beats[b].provedAbsent))
      ensures answer.ProvedAbsent? ==> old(sys.remote).None?
    {
      var answered: bool := *;
      if !answered { return Unknown; }
      if sys.remote.Some? { return Present; }
      Do(ProbeAbsent(b));
      Others(b, k);
      return ProvedAbsent;
    }

    // rule 3's base; a merge-base that fails to answer counts as "not an ancestor". `contains` is its answer.
    method ChooseParent(b: nat, k: nat) returns (parent: Option<Commit>, ghost contains: bool)
      requires Active(b, k)
      requires sys.beats[b].localRef.None? && sys.beats[b].remoteHead.None? ==> sys.beats[b].provedAbsent
      modifies this
      ensures Active(b, k) && old(trace) <= trace && Kept(old(sys), sys, k)
      ensures sys.beats[b] == old(sys.beats[b]).(phase := Chosen(parent), head := parent)
      ensures var beat := old(sys.beats[b]);
              contains ==> beat.localRef.Some? && beat.remoteHead.Some? && Ancestor(beat.remoteHead.value, beat.localRef.value)
      ensures var beat := old(sys.beats[b]);
              if beat.localRef.None? then parent == beat.remoteHead
              else if beat.remoteHead.None? || beat.remoteHead == beat.localRef || contains then parent == beat.localRef
              else parent == beat.remoteHead
    {
      var beat := sys.beats[b];
      var answered: bool := *;
      var merge := answered && beat.localRef.Some? && beat.remoteHead.Some? &&
                   Ancestor(beat.remoteHead.value, beat.localRef.value);
      parent, contains := Base(beat.localRef, beat.remoteHead, merge), merge;
      Do(ChooseBase(b, merge));
      Others(b, k);
    }

    // scanCommitBytes: unit by unit, the first one always. Running out of time is not a finding.
    method ScanCommitBytes(text: Text) returns (verdict: ScanVerdict)
      ensures verdict.Clean? ==> Passes(clean, text)
      ensures verdict.Finding? ==> !Passes(clean, text)
      ensures verdict.TimedOut? ==> var units := ScanUnits.Units(text); |units| > 1 && clean(units[0])
    {
      var units := ScanUnits.ScanUnits(text);
      verdict := ScanEach(clean, units);
    }

    // Step 0: the size cap, and the one snapshot of the shard that is scanned and committed.
    method TakeSnapshot(b: nat, k: nat) returns (answer: BuildAnswer)
      requires Active(b, k) && sys.beats[b].phase.Chosen?
      modifies this
      ensures Active(b, k) && old(trace) <= trace && Kept(old(sys), sys, k)
      ensures sys.beats[b] == old(sys.beats[b]).(phase := sys.beats[b].phase)
      ensures answer.Changed? ==> sys.beats[b].phase.Snapped? && sys.beats[b].phase.base == old(sys.beats[b].phase.base)
      ensures answer.TooLarge? <==> var disk := old(sys.clones[k].disk); disk.Some? && |Utf8.Encode(disk.value)| > 262_144
    {
      var disk := sys.clones[k].disk;
      if disk.Some? { ScanUnits.ByteLengthCounts(disk.value); }
      if disk.Some? && ScanUnits.ByteLength(disk.value) > MAX_SHARD_BYTES { return TooLarge; }
      Others(b, k);
      var readable: bool := *;
      if sys.clones[k].disk.Some? && !readable { return Unreadable; }
      Do(Snapshot(b));
      Others(b, k);
      return Changed;
    }

    // Step 0b: the scan of what the snapshot adds to the parent's copy.
    method ScanSnapshot(b: nat, k: nat) returns (answer: BuildAnswer)
      requires Active(b, k) && sys.beats[b].phase.Snapped?
      modifies this
      ensures Active(b, k) && old(trace) <= trace && Kept(old(sys), sys, k)
      ensures sys.beats[b] == old(sys.beats[b]).(phase := sys.beats[b].phase)
      ensures answer.Changed? ==> sys.beats[b].phase.Scanned? && sys.beats[b].phase.base == old(sys.beats[b].phase.base)
    {
      var blobRead: bool := *;
      var phase := sys.beats[b].phase;
      if phase.snap.Some? {
        var addition := ToScan(phase.base, sys.clones[k].shard, phase.snap.value, blobRead);
        if addition != [] {
          var verdict := ScanCommitBytes(addition);
          if verdict.Finding? { return SecretFound; }
          if verdict.TimedOut? { return ScanNoTime; }
        }
      }
      Do(Scan(b, blobRead));
      Others(b, k);
      return Changed;
    }

    // Foreign paths of the index may change underneath a build that has a parent: another writer, a stale
    // file. The post-condition below catches it.
    method Disturb(b: nat, k: nat)
      requires Active(b, k) && (sys.beats[b].phase.Seeded? || sys.beats[b].phase.Staged?)
      modifies this
      ensures Active(b, k) && old(trace) <= trace && Kept(old(sys), sys, k)
      ensures sys.beats[b].phase.Seeded? == old(sys.beats[b].phase.Seeded?)
      ensures sys.beats[b].phase.Staged? == old(sys.beats[b].phase.Staged?)
      ensures var was := old(sys.beats[b]);
              sys.beats[b] == was.(phase := was.phase.(index := sys.beats[b].phase.index))
    {
      var index: Tree := *;
      var phase := sys.beats[b].phase;
      if phase.base.Some? && OnlyForeign(index, phase.index, sys.clones[k].shard) {
        Do(DisturbIndex(b, index));
      }
    }

    // Step 1: the index is seeded from the base and the scanned snapshot is staged into it.
    method StageSnapshot(b: nat, k: nat) returns (ok: bool)
      requires Active(b, k) && sys.beats[b].phase.Scanned?
      modifies this
      ensures Active(b, k) && old(trace) <= trace && Kept(old(sys), sys, k)
      ensures sys.beats[b] == old(sys.beats[b]).(phase := sys.beats[b].phase)
      ensures ok ==> sys.beats[b].phase.Staged? && sys.beats[b].phase.base == old(sys.beats[b].phase.base)
    {
      var failed: bool := *;
      if failed { return false; }
      Do(SeedIndex(b));
      Disturb(b, k);
      Others(b, k);
      failed := *;
      if failed { return false; }
      var blob: Text := *;             // the blob hash-object stores: the snapshot after eol conversion
      var snap := sys.beats[b].phase.snap;
      if snap.Some? && !CommitScan.SameLines(blob, snap.value) { blob := snap.value; }
      Do(StageShard(b, blob));
      Others(b, k);
      return true;
    }

    // Steps 2 to 4: write-tree, the diff-tree post-condition, and commit-tree when the tree changed.
    method CommitIndex(b: nat, k: nat) returns (answer: BuildAnswer)
      requires Active(b, k) && sys.beats[b].phase.Staged?
      modifies this
      ensures Active(b, k) && old(trace) <= trace && Kept(old(sys), sys, k)
      ensures sys.beats[b] == old(sys.beats[b]).(phase := sys.beats[b].phase)
      ensures answer.Changed? ==> sys.beats[b].phase.Built? && sys.beats[b].phase.commit.parent == old(sys.beats[b].phase.base)
    {
      var failed: bool := *;
      if failed { return GitStepFailed; }
      Disturb(b, k);
      Do(WriteTree(b));
      Others(b, k);
      var phase := sys.beats[b].phase;
      if phase.base.Some? && !SameOff(phase.base.value.tree, phase.tree, sys.clones[k].shard) { return TreeLost; }
      if phase.tree == TreeOf(phase.base) { return Unchanged; }
      failed := *;
      if failed { return GitStepFailed; }
      var stamp: nat := 0;
      var now: int := *;
      if now > 0 { stamp := now; }
      Do(CommitTree(b, stamp));
      Others(b, k);
      return Changed;
    }

    method BuildStateCommit(b: nat, k: nat) returns (answer: BuildAnswer)
      requires Active(b, k) && sys.beats[b].phase.Chosen?
      modifies this
      ensures Active(b, k) && old(trace) <= trace && Kept(old(sys), sys, k)
      ensures sys.beats[b] == old(sys.beats[b]).(phase := sys.beats[b].phase)
      ensures answer.Changed? ==> sys.beats[b].phase.Built? && sys.beats[b].phase.commit.parent == old(sys.beats[b].phase.base)
    {
      answer := TakeSnapshot(b, k);
      if !answer.Changed? { return; }
      answer := ScanSnapshot(b, k);
      if !answer.Changed? { return; }
      var staged := StageSnapshot(b, k);
      if !staged { return GitStepFailed; }
      answer := CommitIndex(b, k);
    }

    // moveRef: behind the checked-out guard, the ref is read and then swapped, in two steps.
    method MoveStateRef(b: nat, k: nat) returns (answer: MoveAnswer)
      requires Active(b, k) && sys.beats[b].phase.Built?
      modifies this
      ensures Active(b, k) && old(trace) <= trace
      ensures var beat := old(sys.beats[b]);
              sys.beats[b] == beat.(phase := sys.beats[b].phase, moves := beat.moves + if answer.Moved? then 1 else 0,
                                    head := if answer.Moved? then Some(beat.phase.commit) else beat.head)
      ensures !answer.Moved? ==> Kept(old(sys), sys, k)
      ensures answer.Moved? ==>
                && sys.clones[k].moves >= old(sys.clones[k].moves) + 1
                && (sys.clones[k].moves == old(sys.clones[k].moves) + 1 ==>
                      sys.clones[k].local == Some(old(sys.beats[b].phase.commit)))
    {
      var checkedOut: bool := *;
      if checkedOut { return Paused; }
      Do(ReadExpected(b));
      Others(b, k);
      var failed: bool := *;
      if failed || sys.clones[k].local != sys.beats[b].phase.expected { return RefMoved; }
      Do(MoveRef(b));
      Others(b, k);
      return Moved;
    }

    // The first half of a push: it reads the local ref as it is now.
    method ReadForPush(b: nat, k: nat)
      requires Active(b, k) && sys.clones[k].local.Some?
      modifies this
      ensures Active(b, k) && old(trace) <= trace && Kept(old(sys), sys, k)
      ensures sys.beats[b] == old(sys.beats[b]).(phase := Pushing(old(sys.clones[k].local).value))
      ensures |old(trace)| < |trace| && trace[|old(trace)|] == PushRead(b)
    {
      Do(PushRead(b));
      Others(b, k);
    }

    // The second: the remote takes what was read.
    method LandPush(b: nat, k: nat)
      requires Active(b, k) && sys.beats[b].phase.Pushing?
      requires FastForward(sys.remote, Some(sys.beats[b].phase.head))
      modifies this
      ensures Active(b, k) && old(trace) <= trace && Kept(old(sys), sys, k)
      ensures sys.beats[b] == old(sys.beats[b]).(phase := Idle, landed := Some(old(sys.beats[b].phase.head)))
      ensures sys.beats[b].landed == Sent(clean, start, trace, b)
    {
      PushingIsSent(clean, start, trace, b);
      SentOneMore(clean, start, trace, PushLand(b), b);
      Do(PushLand(b));
      OthersWhilePushing(b, k);
    }

    // A push without force: the remote takes it only as a fast-forward. An answer can be lost, so a failure may be
    // reported of a push that landed.
    method PushState(b: nat, k: nat) returns (answer: PushAnswer)
      requires Active(b, k)
      modifies this
      ensures Active(b, k) && old(trace) <= trace && Kept(old(sys), sys, k)
      ensures sys.beats[b] == old(sys.beats[b]).(phase := sys.beats[b].phase, landed := sys.beats[b].landed)
      ensures answer.Pushed? ==> sys.beats[b].landed.Some?
      ensures answer.Pushed? ==> sys.beats[b].landed == Sent(clean, start, trace, b)
      ensures answer.Pushed? ==> sys.beats[b].landed == old(sys.clones[k].local)
      ensures answer.NonFastForward? ==> RefusedSince(|old(trace)|, b)
    {
      ghost var from := trace;
      var failed: bool := *;
      var failure: PushAnswer := *;
      if failed || sys.clones[k].local.None? { return Lost(failure); }
      ReadForPush(b, k);
      failed := *;
      if failed { return Lost(failure); }
      if !FastForward(sys.remote, Some(sys.beats[b].phase.head)) {
        assert trace[..|trace|] == trace && trace[..|from|] == from;
        assert RefusedAt(|from|, |trace|, b);
        return NonFastForward;
      }
      LandPush(b, k);
      failed := *;
      if failed { return Lost(failure); }
      return Pushed;
    }

    // At step `j` a push of beat `b` read the local ref, and after `i` steps that was no fast-forward of the remote.
    ghost predicate RefusedAt(j: nat, i: nat, b: nat)
      reads this
    {
      && j < i <= |trace| && trace[j] == PushRead(b)
      && !FastForward(RemoteOf(Execute(clean, start, trace[..i])), LocalOf(Execute(clean, start, trace[..j]), b))
    }

    ghost predicate RefusedSince(from: nat, b: nat)
      reads this
    {
      exists j: nat, i: nat :: from <= j && RefusedAt(j, i, b)
    }

    method BumpDeferred(b: nat, k: nat)
      requires Active(b, k)
      modifies this
      ensures Active(b, k) && old(trace) <= trace && Kept(old(sys), sys, k)
      ensures sys.beats[b] == old(sys.beats[b]).(bumps := old(sys.beats[b].bumps) + 1)
    {
      Do(Defer(b));
      Others(b, k);
    }

    method RecordHead(b: nat, k: nat, head: Commit)
      requires Active(b, k) && sys.beats[b].landed.Some? && sys.beats[b].head == Some(head)
      modifies this
      ensures Active(b, k) && old(trace) <= trace && Kept(old(sys), sys, k)
      ensures sys.beats[b] == old(sys.beats[b])
      ensures Sent(clean, start, trace, b) == old(Sent(clean, start, trace, b))
    {
      SentOneMore(clean, start, trace, Record(b), b);
      Do(Record(b));
      OthersWhilePushing(b, k);
    }

    // What a build that did not go through makes of the beat.
    method ReportBuild(b: nat, k: nat, answer: BuildAnswer) returns (outcome: Outcome)
      requires Active(b, k) && !answer.Changed? && !answer.Unchanged?
      modifies this
      ensures Active(b, k) && old(trace) <= trace && Kept(old(sys), sys, k)
      ensures outcome == if answer.SecretFound? || answer.Unreadable? || answer.TooLarge? then RefusedOutcome else Deferred
      ensures var bump := if GrowsDeferred(outcome) then 1 else 0;
              sys.beats[b] == old(sys.beats[b]).(bumps := old(sys.beats[b].bumps) + bump)
    {
      if answer.SecretFound? || answer.Unreadable? || answer.TooLarge? { return RefusedOutcome; }
      BumpDeferred(b, k);
      return Deferred;
    }

    // What a push that was not accepted makes of it; a non-fast-forward only counts on the last attempt.
    method ReportPush(b: nat, k: nat, answer: PushAnswer) returns (outcome: Outcome)
      requires Active(b, k) && !answer.Pushed?
      modifies this
      ensures Active(b, k) && old(trace) <= trace && Kept(old(sys), sys, k)
      ensures Follows(answer, true, Some(outcome))
      ensures var bump := if GrowsDeferred(outcome) then 1 else 0;
              sys.beats[b] == old(sys.beats[b]).(bumps := old(sys.beats[b].bumps) + bump)
    {
      if answer.Rejected? { return RejectedOutcome; }
      if answer.Refused? { return RefusedOutcome; }
      BumpDeferred(b, k);
      return if answer.Offline? then OfflineOutcome else Deferred;
    }

    // Rules 1 and 2: fetch, read both refs, and settle whether there is anything to build on. `None` means
    // go on; otherwise the beat ends here. Nothing proved and nothing local to extend creates nothing.
    method ReadRefs(b: nat, k: nat) returns (stop: Option<Outcome>, createdRoot: bool)
      requires Active(b, k)
      modifies this
      ensures Active(b, k) && old(trace) <= trace && Kept(old(sys), sys, k)
      ensures var beat := sys.beats[b];
              var was := old(sys.beats[b]);
              beat == was.(fetched := beat.fetched, localRef := beat.localRef, remoteHead := beat.remoteHead,
                           provedAbsent := beat.provedAbsent, bumps := beat.bumps)
      ensures stop.None? ==> sys.beats[b].bumps == old(sys.beats[b].bumps)
      ensures stop.Some? ==> GrowsDeferred(stop.value) && sys.beats[b].bumps == old(sys.beats[b].bumps) + 1
      ensures stop.None? && sys.beats[b].localRef.None? && sys.beats[b].remoteHead.None? ==> sys.beats[b].provedAbsent
      ensures createdRoot && stop.None? ==> sys.beats[b].localRef.None? && sys.beats[b].provedAbsent
      ensures stop.None? && sys.clones[k].moves == old(sys.clones[k].moves) ==>
                sys.beats[b].localRef == old(sys.clones[k].local)
    {
      createdRoot := false;
      var answer := FetchState(b, k);
      if answer.FetchNoTime? { BumpDeferred(b, k); return Some(Deferred), false; }
      var localRef := RevParseLocal(b, k);
      if answer.Fetched? {
        var remoteHead := RevParseTracking(b, k);
        if remoteHead.Some? { return None, false; }
        var probe := LsRemote(b, k);
        if !probe.ProvedAbsent? { BumpDeferred(b, k); return Some(OfflineOutcome), false; }
        return None, localRef.None?;
      }
      var noTime: bool := *;
      if noTime { BumpDeferred(b, k); return Some(Deferred), false; }
      var probe := LsRemote(b, k);
      if !probe.ProvedAbsent? && localRef.None? { BumpDeferred(b, k); return Some(OfflineOutcome), false; }
      return None, probe.ProvedAbsent? && localRef.None?;
    }

    // The second half of an attempt: move the local ref if there is a commit, and push. `None` asks for
    // another attempt. `answer` is what the push said, if there was one.
    method Publish(b: nat, k: nat, built: bool, head: Commit, last: bool)
      returns (done: Option<Outcome>, ghost answer: Option<PushAnswer>)
      requires Active(b, k)
      requires if built then sys.beats[b].phase.Built? && sys.beats[b].phase.commit == head else sys.beats[b].head == Some(head)
      modifies this
      ensures Active(b, k) && old(trace) <= trace
      ensures sys.beats[b] == old(sys.beats[b]).(phase := sys.beats[b].phase, landed := sys.beats[b].landed,
                                                 bumps := sys.beats[b].bumps, moves := sys.beats[b].moves,
                                                 head := sys.beats[b].head)
      ensures answer.None? ==> built && (done == Some(PausedOutcome) || done == Some(Deferred))
      ensures answer.Some? ==> Follows(answer.value, last, done)
      ensures answer == Some(NonFastForward) ==> RefusedSince(|old(trace)|, b)
      ensures done == Some(Delivered) ==> sys.beats[b].landed.Some? && sys.beats[b].head == Some(head)
      ensures sys.beats[b].bumps == old(sys.beats[b].bumps) + BumpsFor(done)
      ensures MovedByOthers(old(sys), b, k) >= 0
      ensures done == Some(Delivered) && MovedByOthers(old(sys), b, k) == 0 ==>
                sys.beats[b].landed == if built then Some(head) else old(sys.clones[k].local)
      ensures done == Some(Delivered) ==> sys.beats[b].landed == Sent(clean, start, trace, b)
    {
      answer := None;
      if built {
        var moved := MoveStateRef(b, k);
        if moved.Paused? { return Some(PausedOutcome), None; }
        if moved.RefMoved? { BumpDeferred(b, k); return Some(Deferred), None; }
      }
      done, answer := PushAndReport(b, k, head, last);
    }

    method PushAndReport(b: nat, k: nat, head: Commit, last: bool)
      returns (done: Option<Outcome>, ghost answer: Option<PushAnswer>)
      requires Active(b, k) && sys.beats[b].head == Some(head)
      modifies this
      ensures Active(b, k) && old(trace) <= trace && Kept(old(sys), sys, k)
      ensures sys.beats[b] == old(sys.beats[b]).(phase := sys.beats[b].phase, landed := sys.beats[b].landed,
                                                 bumps := sys.beats[b].bumps)
      ensures answer.Some? && Follows(answer.value, last, done)
      ensures answer == Some(NonFastForward) ==> RefusedSince(|old(trace)|, b)
      ensures sys.beats[b].bumps == old(sys.beats[b].bumps) + BumpsFor(done)
      ensures done == Some(Delivered) ==> sys.beats[b].landed.Some? && sys.beats[b].landed == old(sys.clones[k].local)
      ensures done == Some(Delivered) ==> sys.beats[b].landed == Sent(clean, start, trace, b)
    {
      var pushed := PushState(b, k);
      answer := Some(pushed);
      if pushed.Pushed? { RecordHead(b, k, head); return Some(Delivered), answer; }
      if AsksToRebuild(pushed) && !last { return None, answer; }
      ghost var from := trace;
      var outcome := ReportPush(b, k, pushed);
      if pushed.NonFastForward? { RefusedStays(from, |old(trace)|, b); }
      return Some(outcome), answer;
    }

    // What was refused stays refused in a longer run.
    lemma RefusedStays(was: seq<Event>, from: nat, b: nat)
      requires was <= trace
      requires exists j: nat, i: nat :: from <= j && j < i <= |was| && was[j] == PushRead(b) &&
                 !FastForward(RemoteOf(Execute(clean, start, was[..i])), LocalOf(Execute(clean, start, was[..j]), b))
      ensures RefusedSince(from, b)
    {
      var j: nat, i: nat :| from <= j && j < i <= |was| && was[j] == PushRead(b) &&
        !FastForward(RemoteOf(Execute(clean, start, was[..i])), LocalOf(Execute(clean, start, was[..j]), b));
      assert was[..i] == trace[..i] && was[..j] == trace[..j];
      assert RefusedAt(j, i, b);
    }

    // How often, since `was`, somebody other than beat `b` moved the local ref of its clone.
    ghost function MovedByOthers(was: System, b: nat, k: nat): int
      reads this
      requires b in was.beats && k in was.clones && b in sys.beats && k in sys.clones
    {
      (sys.clones[k].moves - was.clones[k].moves) - (sys.beats[b].moves - was.beats[b].moves)
    }

    function BumpsFor(done: Option<Outcome>): nat {
      if done.Some? && GrowsDeferred(done.value) then 1 else 0
    }

    // The first half: read the refs and settle the base. `ahead` says the local chain is the base and holds
    // commits the tracking ref does not have.
    method Prepare(b: nat, k: nat) returns (stop: Option<Outcome>, createdRoot: bool, parent: Option<Commit>, ahead: bool)
      requires Active(b, k)
      modifies this
      ensures Active(b, k) && old(trace) <= trace && Kept(old(sys), sys, k)
      ensures sys.beats[b].bumps == old(sys.beats[b].bumps) + BumpsFor(stop)
      ensures sys.beats[b].moves == old(sys.beats[b].moves)
      ensures stop.Some? ==> GrowsDeferred(stop.value)
      ensures stop.None? ==> sys.beats[b].phase == Chosen(parent) && sys.beats[b].head == parent
      ensures createdRoot && stop.None? ==> sys.beats[b].provedAbsent && sys.beats[b].localRef.None?
      ensures ahead ==> parent.Some?
      ensures ahead && sys.clones[k].moves == old(sys.clones[k].moves) ==> parent == old(sys.clones[k].local)
    {
      parent, ahead := None, false;
      NewAttempt(b, k);
      stop, createdRoot := ReadRefs(b, k);
      if stop.Some? { return; }
      var localRef, remoteHead := sys.beats[b].localRef, sys.beats[b].remoteHead;
      ghost var contains;
      parent, contains := ChooseParent(b, k);
      ahead := localRef.Some? && parent == localRef && localRef != remoteHead;
    }

    // One attempt of the beat. `answer` is what its push said, if it came to one.
    method Attempt(b: nat, k: nat, last: bool)
      returns (done: Option<Outcome>, createdRoot: bool, head: Option<Commit>, ghost answer: Option<PushAnswer>)
      requires Active(b, k)
      modifies this
      ensures Active(b, k) && old(trace) <= trace
      ensures answer.None? ==> done.Some? && !done.value.Delivered?
      ensures answer.Some? ==> Follows(answer.value, last, done)
      ensures answer == Some(NonFastForward) ==> RefusedSince(|old(trace)|, b)
      ensures done == Some(Delivered) ==> sys.beats[b].landed.Some? && sys.beats[b].head == head
      ensures sys.beats[b].bumps == old(sys.beats[b].bumps) + BumpsFor(done)
      ensures MovedByOthers(old(sys), b, k) >= 0
      ensures done == Some(Delivered) && MovedByOthers(old(sys), b, k) == 0 ==> sys.beats[b].landed == head
      ensures done == Some(Delivered) ==> sys.beats[b].landed == Sent(clean, start, trace, b)
      ensures createdRoot ==> sys.beats[b].provedAbsent && sys.beats[b].localRef.None?
    {
      head, answer := None, None;
      var parent, ahead;
      done, createdRoot, parent, ahead := Prepare(b, k);
      if done.Some? { return done, false, None, None; }
      var noTime: bool := *;
      if noTime { BumpDeferred(b, k); return Some(Deferred), createdRoot, None, None; }
      var built := BuildStateCommit(b, k);
      if !built.Changed? && !built.Unchanged? {
        var outcome := ReportBuild(b, k, built);
        return Some(outcome), createdRoot, None, None;
      }
      if built.Unchanged? && !ahead { return Some(NothingNew), createdRoot, None, None; }
      head := if built.Changed? then Some(sys.beats[b].phase.commit) else parent;
      done, answer := Publish(b, k, built.Changed?, head.value, last);
    }

    // Every attempt but the last asked for a rebuild; and when the last did too, there were as many as there may be.
    ghost predicate Rebuilt(answers: seq<Option<PushAnswer>>, outcome: Outcome) {
      && answers != []
      && (forall i :: 0 <= i < |answers| - 1 ==> answers[i].Some? && AsksToRebuild(answers[i].value))
      && (var last := answers[|answers| - 1];
          if last.None? then !outcome.Delivered? else Follows(last.value, |answers| == MAX_REBUILDS, Some(outcome)))
    }

    // Where the attempts stand: what the last one made of the beat, and what their pushes said.
    ghost predicate Standing(began: System, from: nat, b: nat, k: nat, done: Option<Outcome>, createdRoot: bool,
                             head: Option<Commit>, answers: seq<Option<PushAnswer>>)
      reads this
    {
      && Active(b, k) && b in began.beats && k in began.clones
      && 1 <= |answers| <= MAX_REBUILDS
      && (forall i :: 0 <= i < |answers| - 1 ==> answers[i].Some? && AsksToRebuild(answers[i].value))
      && (var last := answers[|answers| - 1];
          && (last.None? ==> done.Some? && !done.value.Delivered?)
          && (last.Some? ==> Follows(last.value, |answers| == MAX_REBUILDS, done))
          && (last == Some(NonFastForward) ==> RefusedSince(from, b)))
      && (done == Some(Delivered) ==>
            && sys.beats[b].landed.Some? && sys.beats[b].head == head
            && sys.beats[b].landed == Sent(clean, start, trace, b)
            && (MovedByOthers(began, b, k) == 0 ==> sys.beats[b].landed == head))
      && sys.beats[b].bumps == began.beats[b].bumps + BumpsFor(done)
      && MovedByOthers(began, b, k) >= 0
      && (createdRoot ==> sys.beats[b].provedAbsent && sys.beats[b].localRef.None?)
    }

    method First(b: nat, k: nat)
      returns (done: Option<Outcome>, createdRoot: bool, head: Option<Commit>, ghost answers: seq<Option<PushAnswer>>)
      requires Active(b, k)
      modifies this
      ensures old(trace) <= trace && |answers| == 1
      ensures Standing(old(sys), |old(trace)|, b, k, done, createdRoot, head, answers)
    {
      ghost var answer;
      done, createdRoot, head, answer := Attempt(b, k, 1 == MAX_REBUILDS);
      answers := [answer];
    }

    method Again(ghost began: System, ghost from: nat, b: nat, k: nat, attempt: nat,
                 ghost answers: seq<Option<PushAnswer>>)
      returns (done: Option<Outcome>, createdRoot: bool, head: Option<Commit>, ghost answers': seq<Option<PushAnswer>>)
      requires |answers| + 1 == attempt && from <= |trace|
      requires exists root, top :: Standing(began, from, b, k, None, root, top, answers)
      modifies this
      ensures old(trace) <= trace && |answers'| == attempt
      ensures Standing(began, from, b, k, done, createdRoot, head, answers')
    {
      ghost var since, answer := |trace|, None;
      done, createdRoot, head, answer := Attempt(b, k, attempt == MAX_REBUILDS);
      if answer == Some(NonFastForward) { RefusedEarlier(from, since, b); }
      answers' := answers + [answer];
    }

    lemma RefusedEarlier(from: nat, since: nat, b: nat)
      requires from <= since && RefusedSince(since, b)
      ensures RefusedSince(from, b)
    {
    }

    // Attempt after attempt, until one settles the beat.
    method Attempts(b: nat, k: nat)
      returns (done: Option<Outcome>, attempt: nat, createdRoot: bool, head: Option<Commit>,
               ghost answers: seq<Option<PushAnswer>>)
      requires Active(b, k)
      modifies this
      ensures done.Some? && attempt == |answers| && old(trace) <= trace
      ensures Standing(old(sys), |old(trace)|, b, k, done, createdRoot, head, answers)
    {
      ghost var began, from := sys, trace;
      attempt := 1;
      done, createdRoot, head, answers := First(b, k);
      while done.None?
        invariant attempt == |answers| && from <= trace
        invariant Standing(began, |from|, b, k, done, createdRoot, head, answers)
        decreases MAX_REBUILDS - attempt
      {
        attempt := attempt + 1;
        done, createdRoot, head, answers := Again(began, |from|, b, k, attempt, answers);
      }
    }

    // The beat: at most three attempts, each from a fresh fetch. A push that asks to rebuild is rebuilt, and ends the
    // beat, deferred, only on the third attempt. `answers` are what the pushes said, attempt by attempt.
    // What landed is on the remote for good. It is the head the beat reports exactly when the local ref, at the
    // moment the push read it, was that head; so always when nobody else moved the ref during the beat.
    method RunBeat(b: nat, k: nat) returns (report: Report, ghost answers: seq<Option<PushAnswer>>)
      requires Valid() && b !in sys.beats && k in sys.clones
      modifies this
      ensures Active(b, k) && old(trace) <= trace && Inv(clean, sys)
      ensures 1 <= report.attempts == |answers| <= 3 && Rebuilt(answers, report.outcome)
      ensures answers[|answers| - 1] == Some(NonFastForward) ==>
                report.attempts == 3 && report.outcome.Deferred? && RefusedSince(|old(trace)|, b)
      ensures report.outcome.Delivered? ==> sys.beats[b].landed.Some? && InHistory(sys.beats[b].landed.value, sys.remote)
      ensures report.outcome.Delivered? && sys.clones[k].moves == old(sys.clones[k].moves) + sys.beats[b].moves ==>
                sys.beats[b].landed == report.head
      ensures report.outcome.Delivered? ==>
                sys.beats[b].head == report.head &&
                (sys.beats[b].landed == report.head <==> Sent(clean, start, trace, b) == report.head)
      ensures report.createdRoot ==> sys.beats[b].provedAbsent && sys.beats[b].localRef.None?
      ensures sys.beats[b].bumps == if GrowsDeferred(report.outcome) then 1 else 0
    {
      Begin(b, k);
      var done, attempts, createdRoot, head;
      done, attempts, createdRoot, head, answers := Attempts(b, k);
      ValidImpliesInv();
      assert GoodBeat(clean, sys, sys.beats[b]);
      report := Report(done.value, attempts, createdRoot, head);
    }

    lemma ValidImpliesInv()
      requires Valid()
      ensures Inv(clean, sys)
    {
      RunKeepsInv(clean, start, trace, |trace|);
      assert trace[..|trace|] == trace;
    }
  }
}
