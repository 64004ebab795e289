/**
 What every run of the beat protocol keeps, for any number of clones and any interleaving of their
 steps: the remote only fast-forwards, a push changes the pusher's shard and nothing else, and every
 published line passed the commit scan.
 */
module StateBranchSafety {
  import opened Basics
  import opened Git
  import opened StateBranch
  import CommitScan

  // Before anybody opted in: no ref anywhere and no beat in flight.
  ghost predicate Initial(s: System) {
    && s.remote.None? && s.beats == map[]
    && forall k :: k in s.clones ==> s.clones[k].local.None? && s.clones[k].tracking.None?
  }

  // The state after running `trace` from `start`, if every step was possible when taken.
  ghost function Execute(clean: Filter, start: System, trace: seq<Event>): (end: Option<System>) {
    if trace == [] then Some(start)
    else
      var before := Execute(clean, start, trace[..|trace| - 1]);
      var e := trace[|trace| - 1];
      if before.Some? && Enabled(clean, before.value, e) then Some(Apply(clean, before.value, e)) else None
  }

  ghost predicate Run(clean: Filter, start: System, trace: seq<Event>) {
    Initial(start) && Execute(clean, start, trace).Some?
  }

  // The state after the first `i` steps of a run.
  ghost function At(clean: Filter, start: System, trace: seq<Event>, i: nat): System
    requires Run(clean, start, trace) && i <= |trace|
  {
    PrefixRuns(clean, start, trace, i);
    Execute(clean, start, trace[..i]).value
  }

  lemma {:induction false} PrefixRuns(clean: Filter, start: System, trace: seq<Event>, i: nat)
    requires Execute(clean, start, trace).Some? && i <= |trace|
    ensures Execute(clean, start, trace[..i]).Some?
    decreases |trace|
  {
    if i < |trace| {
      var shorter := trace[..|trace| - 1];
      assert shorter[..i] == trace[..i];
      PrefixRuns(clean, start, shorter, i);
    } else {
      assert trace[..i] == trace;
    }
  }

  // One step of a run.
  lemma StepOfRun(clean: Filter, start: System, trace: seq<Event>, i: nat)
    requires Run(clean, start, trace) && i < |trace|
    ensures Enabled(clean, At(clean, start, trace, i), trace[i])
    ensures At(clean, start, trace, i + 1) == Apply(clean, At(clean, start, trace, i), trace[i])
  {
    PrefixRuns(clean, start, trace, i + 1);
    assert trace[..i + 1][..i] == trace[..i];
  }

  lemma {:induction false} RunKeepsInv(clean: Filter, start: System, trace: seq<Event>, i: nat)
    requires Run(clean, start, trace) && i <= |trace|
    ensures Inv(clean, At(clean, start, trace, i))
  {
    if i == 0 {
      assert trace[..0] == [];
    } else {
      RunKeepsInv(clean, start, trace, i - 1);
      StepOfRun(clean, start, trace, i - 1);
      StepKeepsInv(clean, At(clean, start, trace, i - 1), trace[i - 1]);
    }
  }

  // ---------------------------------------------------- the remote history ---

  // Once it exists, the remote state ref only ever moves to a descendant.
  lemma {:induction false} RemoteOnlyFastForwards(clean: Filter, start: System, trace: seq<Event>, i: nat, j: nat)
    requires Run(clean, start, trace) && i <= j <= |trace|
    ensures FastForward(At(clean, start, trace, i).remote, At(clean, start, trace, j).remote)
  {
    if i < j {
      RemoteOnlyFastForwards(clean, start, trace, i, j - 1);
      StepOfRun(clean, start, trace, j - 1);
      FastForwardTransitive(At(clean, start, trace, i).remote, At(clean, start, trace, j - 1).remote,
                            At(clean, start, trace, j).remote);
    }
  }

  // A foreign commit in a clone's local history is on the remote already.
  lemma {:induction false} ForeignCommitsAreOnTheRemote(c: Commit, tip: Commit, shard: Path, remote: Option<Commit>)
    requires OwnBeyondRemote(tip, shard, remote) && Ancestor(c, tip) && c.shard != shard
    ensures InHistory(c, remote)
    decreases tip
  {
    if InHistory(tip, remote) {
      AncestorTransitive(c, tip, remote.value);
    } else {
      ForeignCommitsAreOnTheRemote(c, tip.parent.value, shard, remote);
    }
  }

  // Between the remote tip and a descendant whose surplus is one clone's own, only its shard differs.
  lemma {:induction false} SurplusTouchesOnlyTheShard(clean: Filter, tip: Commit, shard: Path, remote: Option<Commit>)
    requires ToolBuilt(clean, tip) && OwnBeyondRemote(tip, shard, remote) && FastForward(remote, Some(tip))
    ensures SameOff(TreeOf(remote), tip.tree, shard)
    decreases tip
  {
    if remote.Some? && tip == remote.value {
    } else {
      if InHistory(tip, remote) { AncestorAntisymmetric(tip, remote.value); }
      if tip.parent.Some? { SurplusTouchesOnlyTheShard(clean, tip.parent.value, shard, remote); }
    }
  }

  // An accepted push leaves every path of the remote tree but the pusher's own as it was.
  lemma PushChangesOnlyThePushersShard(clean: Filter, s: System, b: nat)
    requires Inv(clean, s) && Enabled(clean, s, PushLand(b))
    ensures SameOff(TreeOf(s.remote), TreeOf(Apply(clean, s, PushLand(b)).remote), s.clones[s.beats[b].clone].shard)
  {
    assert GoodBeat(clean, s, s.beats[b]);
    SurplusTouchesOnlyTheShard(clean, s.beats[b].phase.head, s.clones[s.beats[b].clone].shard, s.remote);
  }

  function BlobAt(r: Option<Commit>, p: Path): Option<Text> {
    if p in TreeOf(r) then Some(TreeOf(r)[p]) else None
  }

  lemma SameOffKeepsBlob(a: Option<Commit>, b: Option<Commit>, shard: Path, p: Path)
    requires SameOff(TreeOf(a), TreeOf(b), shard) && p != shard
    ensures BlobAt(a, p) == BlobAt(b, p)
  {
    assert p in TreeOf(a) <==> p in TreeOf(a) - {shard};
    assert p in TreeOf(b) <==> p in TreeOf(b) - {shard};
    if p in TreeOf(a) { assert (TreeOf(a) - {shard})[p] == (TreeOf(b) - {shard})[p]; }
  }

  // The push at step `i` of the run was made by a clone that owns `p`.
  ghost predicate OwnerPushes(clean: Filter, start: System, trace: seq<Event>, i: nat, p: Path)
    requires Run(clean, start, trace) && i < |trace|
  {
    var s := At(clean, start, trace, i);
    trace[i].PushLand? && trace[i].b in s.beats && s.beats[trace[i].b].clone in s.clones &&
    s.clones[s.beats[trace[i].b].clone].shard == p
  }

  lemma StepKeepsBlob(clean: Filter, s: System, e: Event, p: Path)
    requires Inv(clean, s) && Enabled(clean, s, e)
    requires e.PushLand? ==> s.clones[s.beats[e.b].clone].shard != p
    ensures BlobAt(s.remote, p) == BlobAt(Apply(clean, s, e).remote, p)
  {
    if e.PushLand? {
      PushChangesOnlyThePushersShard(clean, s, e.b);
      SameOffKeepsBlob(s.remote, Apply(clean, s, e).remote, s.clones[s.beats[e.b].clone].shard, p);
    }
  }

  // No peer's shard is ever altered or lost: over any stretch of any run in which no clone owning `p`
  // has a push accepted, the remote copy of `p` stays exactly what it was.
  lemma {:induction false} PeerShardsSurvive(clean: Filter, start: System, trace: seq<Event>, i: nat, j: nat, p: Path)
    requires Run(clean, start, trace) && i <= j <= |trace|
    requires forall m :: i <= m < j ==> !OwnerPushes(clean, start, trace, m, p)
    ensures BlobAt(At(clean, start, trace, i).remote, p) == BlobAt(At(clean, start, trace, j).remote, p)
  {
    if i < j {
      PeerShardsSurvive(clean, start, trace, i, j - 1, p);
      StepOfRun(clean, start, trace, j - 1);
      RunKeepsInv(clean, start, trace, j - 1);
      assert !OwnerPushes(clean, start, trace, j - 1, p);
      StepKeepsBlob(clean, At(clean, start, trace, j - 1), trace[j - 1], p);
    }
  }

  // ------------------------------------------------------- adopt, never create ---

  lemma ProofComesFromAProbe(clean: Filter, s: System, e: Event, b: nat)
    requires Enabled(clean, s, e)
    requires b in Apply(clean, s, e).beats && Apply(clean, s, e).beats[b].provedAbsent
    ensures (e == ProbeAbsent(b) && s.remote.None?)
            || (e != StartAttempt(b) && b in s.beats && s.beats[b].provedAbsent)
  {
    if OwnVariablesOnly(e) && e.b == b {
      assert Apply(clean, s, e).beats[b] == Read(clean, s, s.beats[b], e);
    }
  }

  // `b` was shown the remote ref absent at step `m`, and has not started another attempt before `i`.
  ghost predicate ProbedAbsent(clean: Filter, start: System, trace: seq<Event>, m: nat, i: nat, b: nat)
    requires Run(clean, start, trace) && m < i <= |trace|
  {
    && trace[m] == ProbeAbsent(b) && At(clean, start, trace, m).remote.None?
    && forall n :: m <= n < i ==> trace[n] != StartAttempt(b)
  }

  lemma {:induction false} ProofWasSeen(clean: Filter, start: System, trace: seq<Event>, i: nat, b: nat)
    requires Run(clean, start, trace) && i <= |trace|
    requires b in At(clean, start, trace, i).beats && At(clean, start, trace, i).beats[b].provedAbsent
    ensures exists m: nat :: m < i && ProbedAbsent(clean, start, trace, m, i, b)
  {
    assert trace[..0] == [];
    if i != 0 {
      StepOfRun(clean, start, trace, i - 1);
      ProofComesFromAProbe(clean, At(clean, start, trace, i - 1), trace[i - 1], b);
      if trace[i - 1] == ProbeAbsent(b) && At(clean, start, trace, i - 1).remote.None? {
        assert ProbedAbsent(clean, start, trace, i - 1, i, b);
      } else {
        ProofWasSeen(clean, start, trace, i - 1, b);
        var m: nat :| m < i - 1 && ProbedAbsent(clean, start, trace, m, i - 1, b);
        assert ProbedAbsent(clean, start, trace, m, i, b);
      }
    }
  }

  // A root is never created on a guess: a beat that settles on no base was shown, earlier in this very
  // attempt, that the remote had no state ref.
  lemma RootsNeedProof(clean: Filter, start: System, trace: seq<Event>, i: nat)
    requires Run(clean, start, trace) && i < |trace| && trace[i].ChooseBase?
    requires var after := At(clean, start, trace, i + 1).beats;
             trace[i].b in after && after[trace[i].b].phase == Chosen(None)
    ensures exists m: nat :: m < i && ProbedAbsent(clean, start, trace, m, i, trace[i].b)
  {
    StepOfRun(clean, start, trace, i);
    ProofWasSeen(clean, start, trace, i, trace[i].b);
  }

  // ------------------------------------------------------ a fresh build lands ---

  // With the refs a beat just read, and nobody moving them meanwhile, the commit it builds is always
  // pushable, and pushing it replaces the clone's shard in the remote tree and nothing else.
  lemma FreshBuildIsPushable(clean: Filter, remote: Option<Commit>, local: Option<Commit>, shard: Path,
                             blob: Option<Text>, stamp: nat, cleared: Text)
    requires GoodRef(clean, local, shard, remote) && (remote.Some? ==> ToolBuilt(clean, remote.value))
    ensures var merge := local.Some? && remote.Some? && Ancestor(remote.value, local.value);
            var base := Base(local, remote, merge);
            var tree := if blob.Some? then TreeOf(base)[shard := blob.value] else TreeOf(base) - {shard};
            && FastForward(remote, base)
            && FastForward(remote, Some(Commit(base, tree, shard, stamp, cleared)))
            && tree == if blob.Some? then TreeOf(remote)[shard := blob.value] else TreeOf(remote) - {shard}
  {
    var merge := local.Some? && remote.Some? && Ancestor(remote.value, local.value);
    var base := Base(local, remote, merge);
    if base.Some? && base == local {
      SurplusTouchesOnlyTheShard(clean, local.value, shard, remote);
    }
    assert SameOff(TreeOf(base), TreeOf(remote), shard);
    if blob.Some? {
      assert TreeOf(base)[shard := blob.value] == (TreeOf(base) - {shard})[shard := blob.value];
      assert TreeOf(remote)[shard := blob.value] == (TreeOf(remote) - {shard})[shard := blob.value];
    }
  }

  // -------------------------------------------------------- every line scanned ---

  // A line of a text that passed the scan, when some commit of the chain was built for `p`, is this line or differs
  // from it in one trailing return.
  ghost predicate ClearedInChain(clean: Filter, tip: Commit, p: Path, line: Text) {
    exists c :: Ancestor(c, tip) && c.shard == p && Passes(clean, c.cleared)
                && CommitScan.HasLine(CommitScan.Lines(c.cleared), line)
  }

  lemma ClearedInLongerChain(clean: Filter, tip: Commit, p: Path, line: Text)
    requires tip.parent.Some? && ClearedInChain(clean, tip.parent.value, p, line)
    ensures ClearedInChain(clean, tip, p, line)
  {
    var c :| Ancestor(c, tip.parent.value) && c.shard == p && Passes(clean, c.cleared)
             && CommitScan.HasLine(CommitScan.Lines(c.cleared), line);
    assert Ancestor(c, tip);
  }

  lemma ClearedSameLine(clean: Filter, tip: Commit, p: Path, a: Text, b: Text)
    requires ClearedInChain(clean, tip, p, a) && CommitScan.SameLine(a, b)
    ensures ClearedInChain(clean, tip, p, b)
  {
    var c :| Ancestor(c, tip) && c.shard == p && Passes(clean, c.cleared)
             && CommitScan.HasLine(CommitScan.Lines(c.cleared), a);
    CommitScan.HasSameLine(CommitScan.Lines(c.cleared), a, b);
  }

  // Every line of every shard blob, blank ones aside, passed the scan at this commit or at an earlier commit of the
  // same chain.
  lemma {:induction false} EveryLineWasScanned(clean: Filter, tip: Commit, p: Path, i: nat)
    requires ToolBuilt(clean, tip) && p in tip.tree && i < |CommitScan.Lines(tip.tree[p])|
    requires !CommitScan.Blank(CommitScan.Lines(tip.tree[p])[i])
    ensures ClearedInChain(clean, tip, p, CommitScan.Lines(tip.tree[p])[i])
    decreases tip
  {
    if tip.shard != p {
      SameOffKeepsBlob(tip.parent, Some(tip), tip.shard, p);
      EveryLineWasScanned(clean, tip.parent.value, p, i);
      ClearedInLongerChain(clean, tip, p, CommitScan.Lines(tip.tree[p])[i]);
    } else {
      OwnLineWasScanned(clean, tip, i);
    }
  }

  // A line of the text a commit was built from is in what was cleared for it, or in the parent's copy.
  lemma ClearedOrInParent(clean: Filter, tip: Commit, text: Text, blobRead: bool, i: nat) returns (j: nat)
    requires tip.cleared == ToScan(tip.parent, tip.shard, text, blobRead)
    requires tip.cleared == [] || Passes(clean, tip.cleared)
    requires i < |CommitScan.Lines(text)| && CommitScan.Lines(text)[i] != []
    ensures var line := CommitScan.Lines(text)[i];
            || ClearedInChain(clean, tip, tip.shard, line)
            || (&& tip.parent.Some? && tip.shard in tip.parent.value.tree
                && var lines := CommitScan.Lines(tip.parent.value.tree[tip.shard]);
                   j < |lines| && CommitScan.SameLine(lines[j], line))
  {
    var p, line := tip.shard, CommitScan.Lines(text)[i];
    var published := if tip.parent.Some? && p in tip.parent.value.tree && blobRead
                     then tip.parent.value.tree[p] else [];
    j := 0;
    CommitScan.EveryLinePublishedOrAdded(published, text, i);
    if tip.cleared != [] && CommitScan.HasLine(CommitScan.Lines(tip.cleared), line) {
      assert Ancestor(tip, tip);
    } else {
      j :| 0 <= j < |CommitScan.Lines(published)| && CommitScan.SameLine(CommitScan.Lines(published)[j], line);
    }
  }

  lemma {:induction false} OwnLineWasScanned(clean: Filter, tip: Commit, i: nat)
    requires ToolBuilt(clean, tip) && tip.shard in tip.tree && i < |CommitScan.Lines(tip.tree[tip.shard])|
    requires !CommitScan.Blank(CommitScan.Lines(tip.tree[tip.shard])[i])
    ensures ClearedInChain(clean, tip, tip.shard, CommitScan.Lines(tip.tree[tip.shard])[i])
    decreases tip, 0
  {
    var p := tip.shard;
    var text, blobRead :|
      CommitScan.SameLines(tip.tree[p], text) && tip.cleared == ToScan(tip.parent, p, text, blobRead);
    var line, published := CommitScan.Lines(text)[i], CommitScan.Lines(tip.tree[p])[i];
    CommitScan.SameLineSymmetric(published, line);
    var j := ClearedOrInParent(clean, tip, text, blobRead, i);
    if !ClearedInChain(clean, tip, p, line) {
      var older := CommitScan.Lines(tip.parent.value.tree[p])[j];
      CommitScan.SameLineTransitive(older, line, published);
      EveryLineWasScanned(clean, tip.parent.value, p, j);
      ClearedInLongerChain(clean, tip, p, older);
      ClearedSameLine(clean, tip, p, older, line);
    }
    ClearedSameLine(clean, tip, p, line, published);
  }

  // So nothing on the remote branch, at any moment of any run, escaped the scan.
  lemma NothingUnscannedIsPublished(clean: Filter, start: System, trace: seq<Event>, i: nat, p: Path, n: nat)
    requires Run(clean, start, trace) && i <= |trace|
    requires var blob := BlobAt(At(clean, start, trace, i).remote, p);
             blob.Some? && n < |CommitScan.Lines(blob.value)| && !CommitScan.Blank(CommitScan.Lines(blob.value)[n])
    ensures var tip := At(clean, start, trace, i).remote.value;
            ClearedInChain(clean, tip, p, CommitScan.Lines(tip.tree[p])[n])
  {
    RunKeepsInv(clean, start, trace, i);
    EveryLineWasScanned(clean, At(clean, start, trace, i).remote.value, p, n);
  }

  // ------------------------------------------------------------- what a push sends ---

  // The local ref of beat b's clone when its last push read it.
  ghost function Sent(clean: Filter, start: System, trace: seq<Event>, b: nat): Option<Commit> {
    if trace == [] then None
    else
      var n := |trace| - 1;
      if trace[n] == PushRead(b) then LocalOf(Execute(clean, start, trace[..n]), b)
      else Sent(clean, start, trace[..n], b)
  }

  ghost function LocalOf(s: Option<System>, b: nat): Option<Commit> {
    if s.Some? && b in s.value.beats && s.value.beats[b].clone in s.value.clones
    then s.value.clones[s.value.beats[b].clone].local
    else None
  }

  ghost function RemoteOf(s: Option<System>): Option<Commit> { if s.Some? then s.value.remote else None }

  ghost function TrackingOf(s: Option<System>, k: nat): Option<Commit> {
    if s.Some? && k in s.value.clones then s.value.clones[k].tracking else None
  }

  lemma SentOneMore(clean: Filter, start: System, trace: seq<Event>, e: Event, b: nat)
    ensures Sent(clean, start, trace + [e], b) ==
      if e == PushRead(b) then LocalOf(Execute(clean, start, trace), b) else Sent(clean, start, trace, b)
  {
    assert (trace + [e])[..|trace|] == trace;
  }

  lemma PushingOnlyByRead(clean: Filter, s: System, e: Event, b: nat)
    requires Enabled(clean, s, e) && b in Apply(clean, s, e).beats && Apply(clean, s, e).beats[b].phase.Pushing?
    ensures var head := Apply(clean, s, e).beats[b].phase.head;
      if e == PushRead(b) then LocalOf(Some(s), b) == Some(head)
      else b in s.beats && s.beats[b].phase == Pushing(head)
  {
    if !e.Join? && !e.Edit? && e.b == b && e != PushRead(b) {
      if OwnVariablesOnly(e) {
        assert Apply(clean, s, e).beats[b] == Read(clean, s, s.beats[b], e);
      }
    }
  }

  // At any moment of any run, the head a push is about to land is the one it read.
  lemma {:induction false} PushingIsSent(clean: Filter, start: System, trace: seq<Event>, b: nat)
    requires Run(clean, start, trace)
    ensures var s := Execute(clean, start, trace).value;
      b in s.beats && s.beats[b].phase.Pushing? ==> Sent(clean, start, trace, b) == Some(s.beats[b].phase.head)
    decreases |trace|
  {
    var s := Execute(clean, start, trace).value;
    if trace != [] && b in s.beats && s.beats[b].phase.Pushing? {
      var n := |trace| - 1;
      PushingIsSent(clean, start, trace[..n], b);
      PushingOnlyByRead(clean, Execute(clean, start, trace[..n]).value, trace[n], b);
    }
  }

  // ------------------------------------------------------- what others leave alone ---

  // A step of beat b, as opposed to one of another beat or of a user.
  predicate OfBeat(e: Event, b: nat) { !e.Edit? && e.b == b }

  // Clone k's local ref moved only if its count says so.
  ghost predicate Kept(was: System, now: System, k: nat) {
    && k in was.clones && k in now.clones && now.clones[k].shard == was.clones[k].shard
    && now.clones[k].moves >= was.clones[k].moves
    && (now.clones[k].moves == was.clones[k].moves ==> now.clones[k].local == was.clones[k].local)
  }

  lemma OthersStepKeeps(clean: Filter, s: System, e: Event, b: nat, k: nat)
    requires Enabled(clean, s, e) && !OfBeat(e, b) && b in s.beats && k in s.clones
    ensures b in Apply(clean, s, e).beats && Apply(clean, s, e).beats[b] == s.beats[b]
    ensures Kept(s, Apply(clean, s, e), k)
  {
  }

  // However many steps the others take, in whatever order, the beat's own variables stay, its clone's ref is kept,
  // and the ref its last push read is what it was.
  lemma {:induction false} OthersKeep(clean: Filter, start: System, trace: seq<Event>, more: seq<Event>, b: nat, k: nat)
    requires Execute(clean, start, trace).Some? && Execute(clean, start, trace + more).Some?
    requires forall i :: 0 <= i < |more| ==> !OfBeat(more[i], b)
    requires var s := Execute(clean, start, trace).value; b in s.beats && k in s.clones
    ensures var s, t := Execute(clean, start, trace).value, Execute(clean, start, trace + more).value;
      b in t.beats && t.beats[b] == s.beats[b] && Kept(s, t, k)
    ensures Sent(clean, start, trace + more, b) == Sent(clean, start, trace, b)
    decreases |more|
  {
    if more == [] {
      assert trace + more == trace;
    } else {
      var n := |more| - 1;
      var earlier, e := more[..n], more[n];
      assert trace + more == (trace + earlier) + [e] && (trace + more)[..|trace| + n] == trace + earlier;
      PrefixRuns(clean, start, trace + more, |trace| + n);
      OthersKeep(clean, start, trace, earlier, b, k);
      assert !OfBeat(e, b);
      LastStep(clean, start, trace + earlier, e);
      OthersStepKeeps(clean, Execute(clean, start, trace + earlier).value, e, b, k);
      SentOneMore(clean, start, trace + earlier, e, b);
    }
  }

  lemma LastStep(clean: Filter, start: System, trace: seq<Event>, e: Event)
    requires Execute(clean, start, trace).Some? && Execute(clean, start, trace + [e]).Some?
    ensures var s := Execute(clean, start, trace).value;
      Enabled(clean, s, e) && Execute(clean, start, trace + [e]) == Some(Apply(clean, s, e))
  {
    assert (trace + [e])[..|trace|] == trace;
  }

  // ----------------------------------------------------------- queued batches stay ---

  // What a build in this phase stands on.
  ghost predicate BuildsOn(phase: Phase, base: Option<Commit>) {
    match phase
    case Idle => true
    case Pushing(_) => true
    case Built(commit) => commit.parent == base
    case Expecting(commit, _) => commit.parent == base
    case _ => phase.base == base
  }

  lemma StepKeepsBase(clean: Filter, s: System, e: Event, b: nat, base: Option<Commit>)
    requires Enabled(clean, s, e) && b in s.beats && BuildsOn(s.beats[b].phase, base)
    requires !(e.ChooseBase? && e.b == b)
    ensures b in Apply(clean, s, e).beats && BuildsOn(Apply(clean, s, e).beats[b].phase, base)
  {
    if OwnVariablesOnly(e) && e.b == b {
      assert Apply(clean, s, e).beats[b] == Read(clean, s, s.beats[b], e);
    }
  }

  // From step i to j beat b settled on no other base.
  ghost predicate SameBuild(trace: seq<Event>, i: nat, j: nat, b: nat) {
    i <= j <= |trace| && forall n :: i < n < j ==> !(trace[n].ChooseBase? && trace[n].b == b)
  }

  lemma {:induction false} BaseStays(clean: Filter, start: System, trace: seq<Event>, i: nat, j: nat, b: nat, base: Option<Commit>)
    requires Run(clean, start, trace) && i < j && SameBuild(trace, i, j, b)
    requires b in At(clean, start, trace, i + 1).beats && BuildsOn(At(clean, start, trace, i + 1).beats[b].phase, base)
    ensures b in At(clean, start, trace, j).beats && BuildsOn(At(clean, start, trace, j).beats[b].phase, base)
    decreases j
  {
    if i + 1 < j {
      BaseStays(clean, start, trace, i, j - 1, b, base);
      StepOfRun(clean, start, trace, j - 1);
      StepKeepsBase(clean, At(clean, start, trace, j - 1), trace[j - 1], b, base);
    }
  }

  // At step i beat b found a local ref that there was nothing on the remote to set against, or that was the remote head,
  // or that merge-base said contains it.
  ghost predicate FoundLocalAhead(clean: Filter, start: System, trace: seq<Event>, i: nat, b: nat, local: Commit)
    requires Run(clean, start, trace) && i < |trace|
  {
    var s := At(clean, start, trace, i);
    && trace[i].ChooseBase? && trace[i].b == b && b in s.beats && s.beats[b].localRef == Some(local)
    && (s.beats[b].remoteHead.None? || s.beats[b].remoteHead == Some(local) || trace[i].mergeBase)
  }

  // The offline chain is never dropped: the ref a beat moves still has in its history the local ref it found to contain
  // the remote head. When nobody moved the ref in between, the move is a fast-forward of it.
  lemma QueuedBatchesStay(clean: Filter, start: System, trace: seq<Event>, i: nat, j: nat, b: nat, local: Commit)
    requires Run(clean, start, trace) && i < j < |trace| && FoundLocalAhead(clean, start, trace, i, b, local)
    requires SameBuild(trace, i, j, b) && trace[j] == MoveRef(b)
    ensures var was, now := At(clean, start, trace, j), At(clean, start, trace, j + 1);
      && b in was.beats && was.beats[b].clone in was.clones && was.beats[b].clone in now.clones
      && InHistory(local, now.clones[was.beats[b].clone].local)
      && (was.clones[was.beats[b].clone].local == Some(local) ==>
            FastForward(was.clones[was.beats[b].clone].local, now.clones[was.beats[b].clone].local))
  {
    StepOfRun(clean, start, trace, i);
    BaseStays(clean, start, trace, i, j, b, Some(local));
    StepOfRun(clean, start, trace, j);
    var was := At(clean, start, trace, j);
    var c := was.beats[b].phase.commit;
    assert c.parent == Some(local) && Ancestor(local, local) && Ancestor(local, c);
  }

  // Otherwise the remote head is the base: this clone is behind it, or has diverged.
  lemma BehindBuildsOnTheRemote(clean: Filter, start: System, trace: seq<Event>, i: nat, j: nat, b: nat, head: Commit)
    requires Run(clean, start, trace) && i < j < |trace| && trace[i].ChooseBase? && trace[i].b == b
    requires var s := At(clean, start, trace, i);
      && b in s.beats && s.beats[b].remoteHead == Some(head) && s.beats[b].localRef != Some(head)
      && (s.beats[b].localRef.None? || !trace[i].mergeBase)
    requires SameBuild(trace, i, j, b) && trace[j] == MoveRef(b)
    ensures var was, now := At(clean, start, trace, j), At(clean, start, trace, j + 1);
      && b in was.beats && was.beats[b].clone in now.clones
      && InHistory(head, now.clones[was.beats[b].clone].local)
  {
    StepOfRun(clean, start, trace, i);
    BaseStays(clean, start, trace, i, j, b, Some(head));
    StepOfRun(clean, start, trace, j);
    var c := At(clean, start, trace, j).beats[b].phase.commit;
    assert c.parent == Some(head) && Ancestor(head, head) && Ancestor(head, c);
  }

  // ------------------------------------------------------------------- deferrals ---

  // The step that comes n-th is a beat of clone k.
  ghost predicate OfClone(clean: Filter, start: System, trace: seq<Event>, n: nat, k: nat)
    requires Run(clean, start, trace)
  {
    n < |trace| && !trace[n].Join? && !trace[n].Edit? &&
    trace[n].b in At(clean, start, trace, n).beats && At(clean, start, trace, n).beats[trace[n].b].clone == k
  }

  ghost predicate Defers(clean: Filter, start: System, trace: seq<Event>, n: nat, k: nat)
    requires Run(clean, start, trace)
  {
    OfClone(clean, start, trace, n, k) && trace[n].Defer?
  }

  // How many of the steps from i up to j defer for clone k.
  ghost function Deferrals(clean: Filter, start: System, trace: seq<Event>, i: nat, j: nat, k: nat): nat
    requires Run(clean, start, trace) && i <= j
  {
    if i == j then 0
    else Deferrals(clean, start, trace, i, j - 1, k) + if Defers(clean, start, trace, j - 1, k) then 1 else 0
  }

  // Between two recordings a clone's count grows by one with each deferral of a beat of its own, and by nothing else.
  lemma {:induction false} DeferralsAreCounted(clean: Filter, start: System, trace: seq<Event>, i: nat, j: nat, k: nat)
    requires Run(clean, start, trace) && i <= j <= |trace| && k in At(clean, start, trace, i).clones
    requires forall n: nat :: i <= n < j && OfClone(clean, start, trace, n, k) ==> !trace[n].Record?
    ensures k in At(clean, start, trace, j).clones
    ensures At(clean, start, trace, j).clones[k].deferred ==
      At(clean, start, trace, i).clones[k].deferred + Deferrals(clean, start, trace, i, j, k)
    decreases j
  {
    if i < j {
      DeferralsAreCounted(clean, start, trace, i, j - 1, k);
      StepDefers(clean, start, trace, j - 1, k);
    }
  }

  lemma StepDefers(clean: Filter, start: System, trace: seq<Event>, n: nat, k: nat)
    requires Run(clean, start, trace) && n < |trace| && k in At(clean, start, trace, n).clones
    requires OfClone(clean, start, trace, n, k) ==> !trace[n].Record?
    ensures k in At(clean, start, trace, n + 1).clones
    ensures At(clean, start, trace, n + 1).clones[k].deferred ==
      At(clean, start, trace, n).clones[k].deferred + if Defers(clean, start, trace, n, k) then 1 else 0
  {
    StepOfRun(clean, start, trace, n);
  }

  // And recording a head starts it again from nothing.
  lemma RecordingClears(clean: Filter, start: System, trace: seq<Event>, n: nat, k: nat)
    requires Run(clean, start, trace) && OfClone(clean, start, trace, n, k) && trace[n].Record?
    ensures var now := At(clean, start, trace, n + 1);
      k in now.clones && now.clones[k].deferred == 0 &&
      now.clones[k].recorded == At(clean, start, trace, n).beats[trace[n].b].head
  {
    StepOfRun(clean, start, trace, n);
  }
}
