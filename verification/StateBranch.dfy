/**
 The beat protocol of lib/state-branch.js. Many clones publish to one state ref with no arbiter; every
 git call is one step, so the beats of different clones, and of one clone, interleave freely. The batch
 lock is not assumed: what is proved rests on the private index, the tree post-condition, the ref
 compare-and-swap and the fast-forward-only push.
 */
module StateBranch {
  import opened Basics
  import opened Git
  import CommitScan
  import ScanUnits

  // ---------------------------------------------------------------- state ---

  // One working clone: the local state ref, the remote-tracking ref, the shard file on disk, and the
  // deferred count and head of the heads file. `shard` is the member's allowlisted path; `moves` counts the
  // times the local ref was moved.
  datatype Clone = Clone(
    shard: Path, local: Option<Commit>, tracking: Option<Commit>, disk: Option<Text>,
    deferred: nat, recorded: Option<Commit>, moves: nat)

  // How far one build has come. The index is private to the build.
  datatype Phase =
    | Idle
    | Chosen(base: Option<Commit>)
    | Snapped(base: Option<Commit>, snap: Option<Text>)
    | Scanned(base: Option<Commit>, snap: Option<Text>, cleared: Text)
    | Seeded(base: Option<Commit>, snap: Option<Text>, cleared: Text, index: Tree)
    | Staged(base: Option<Commit>, cleared: Text, index: Tree)
    | Written(base: Option<Commit>, cleared: Text, tree: Tree)
    | Built(commit: Commit)
    | Expecting(commit: Commit, expected: Option<Commit>)
    | Pushing(head: Commit)

  // One beat in flight: what it has read so far. `landed` is set when a push of this beat is accepted, `bumps`
  // and `moves` count the times it grew the deferred count and moved the local ref. `head` is what the beat takes
  // itself to push: its base, or the commit it built once it has moved the ref to it.
  datatype Beat = Beat(
    clone: nat, fetched: Option<Commit>, localRef: Option<Commit>, remoteHead: Option<Commit>,
    provedAbsent: bool, phase: Phase, landed: Option<Commit>, bumps: nat, moves: nat, head: Option<Commit>)

  datatype System = System(remote: Option<Commit>, clones: map<nat, Clone>, beats: map<nat, Beat>)

  // The filter's verdict on one scan unit.
  type Filter = Text -> bool

  ghost predicate Passes(clean: Filter, text: Text) {
    forall k :: 0 <= k < |ScanUnits.Units(text)| ==> clean(ScanUnits.Units(text)[k])
  }

  // The text the scan looks at: the part of the snapshot the published copy does not have. A parent
  // blob that cannot be read counts as nothing published.
  function ToScan(base: Option<Commit>, shard: Path, snap: Text, blobRead: bool): Text {
    var published := if base.Some? && shard in base.value.tree && blobRead then base.value.tree[shard] else [];
    CommitScan.Added(published, snap)
  }

  // --------------------------------------------------------------- events ---

  datatype Event =
    | Join(b: nat, k: nat)                         // a beat starts in clone k
    | StartAttempt(b: nat)                         // forget what an earlier attempt read
    | FetchRead(b: nat)                            // the fetch reads the remote ref
    | FetchWrite(b: nat)                           // and forces the tracking ref to what it read
    | ReadLocal(b: nat)                            // rev-parse of the local ref
    | ReadTracking(b: nat)                         // rev-parse of the tracking ref
    | ProbeAbsent(b: nat)                          // ls-remote exits 2
    | ChooseBase(b: nat, mergeBase: bool)          // the base, with merge-base's exit status
    | Snapshot(b: nat)                             // the shard file is read
    | Scan(b: nat, blobRead: bool)                 // its added text passes the filter
    | SeedIndex(b: nat)                            // read-tree
    | DisturbIndex(b: nat, index: Tree)            // foreign paths of the index change underneath
    | StageShard(b: nat, blob: Text)               // hash-object + update-index, or force-remove
    | WriteTree(b: nat)                            // write-tree
    | CommitTree(b: nat, stamp: nat)               // the diff-tree post-condition, then commit-tree
    | ReadExpected(b: nat)                         // moveRef reads the ref
    | MoveRef(b: nat)                              // and update-ref swaps it
    | PushRead(b: nat)                             // the push reads the local ref
    | PushLand(b: nat)                             // and the remote accepts it
    | Record(b: nat)                               // recordHead
    | Defer(b: nat)                                // bumpDeferred
    | Edit(k: nat, text: Option<Text>)             // the user's file changes

  // rule 3's base: the local head when it contains the remote head, else the remote head.
  function Base(localRef: Option<Commit>, remoteHead: Option<Commit>, mergeBase: bool): Option<Commit> {
    if localRef.Some? && (remoteHead.None? || localRef == remoteHead || mergeBase) then localRef else remoteHead
  }

  ghost predicate Enabled(clean: Filter, s: System, e: Event) {
    match e
    case Join(b, k) => b !in s.beats && k in s.clones
    case Edit(k, _) => k in s.clones
    case _ => e.b in s.beats && s.beats[e.b].clone in s.clones && BeatEnabled(clean, s, s.beats[e.b], e)
  }

  ghost predicate BeatEnabled(clean: Filter, s: System, beat: Beat, e: Event)
    requires beat.clone in s.clones && !e.Join? && !e.Edit?
  {
    var clone := s.clones[beat.clone];
    match e
    case StartAttempt(_) => true
    case FetchRead(_) => s.remote.Some?
    case FetchWrite(_) => beat.fetched.Some?
    case ReadLocal(_) => true
    case ReadTracking(_) => true
    case ProbeAbsent(_) => s.remote.None?
    case ChooseBase(_, mergeBase) =>
      && (mergeBase && beat.localRef.Some? && beat.remoteHead.Some? ==>
            Ancestor(beat.remoteHead.value, beat.localRef.value))
      && (beat.localRef.None? && beat.remoteHead.None? ==> beat.provedAbsent)
    case Snapshot(_) => beat.phase.Chosen?
    case Scan(_, blobRead) =>
      && beat.phase.Snapped?
      && (beat.phase.snap.Some? ==>
            var text := ToScan(beat.phase.base, clone.shard, beat.phase.snap.value, blobRead);
            text == [] || Passes(clean, text))
    case SeedIndex(_) => beat.phase.Scanned?
    case DisturbIndex(_, index) =>
      && ((beat.phase.Seeded? && beat.phase.base.Some?) || (beat.phase.Staged? && beat.phase.base.Some?))
      && OnlyForeign(index, beat.phase.index, clone.shard)
    case StageShard(_, blob) =>
      beat.phase.Seeded? && (beat.phase.snap.Some? ==> CommitScan.SameLines(blob, beat.phase.snap.value))
    case WriteTree(_) => beat.phase.Staged?
    case CommitTree(_, _) =>
      && beat.phase.Written?
      && (beat.phase.base.Some? ==> SameOff(beat.phase.base.value.tree, beat.phase.tree, clone.shard))
      && beat.phase.tree != TreeOf(beat.phase.base)
    case ReadExpected(_) => beat.phase.Built?
    case MoveRef(_) => beat.phase.Expecting? && clone.local == beat.phase.expected
    case PushRead(_) => clone.local.Some?
    case PushLand(_) => beat.phase.Pushing? && FastForward(s.remote, Some(beat.phase.head))
    case Record(_) => beat.landed.Some? && beat.head.Some?
    case Defer(_) => true
  }

  // `index` differs from `was` on paths other than `shard` only.
  predicate OnlyForeign(index: Tree, was: Tree, shard: Path) {
    (shard in index <==> shard in was) && (shard in index ==> index[shard] == was[shard])
  }

  // The steps that touch nothing but the beat's own variables.
  predicate OwnVariablesOnly(e: Event) {
    !e.Join? && !e.Edit? && !e.FetchWrite? && !e.MoveRef? && !e.PushLand? && !e.Record? && !e.Defer?
  }

  function Apply(ghost clean: Filter, s: System, e: Event): System
    requires Enabled(clean, s, e)
  {
    match e
    case Join(b, k) => s.(beats := s.beats[b := Beat(k, None, None, None, false, Idle, None, 0, 0, None)])
    case Edit(k, text) => s.(clones := s.clones[k := s.clones[k].(disk := text)])
    case FetchWrite(b) =>
      var k := s.beats[b].clone;
      s.(clones := s.clones[k := s.clones[k].(tracking := s.beats[b].fetched)])
    case MoveRef(b) =>
      var beat := s.beats[b];
      var clone := s.clones[beat.clone];
      s.(clones := s.clones[beat.clone := clone.(local := Some(beat.phase.commit), moves := clone.moves + 1)],
         beats := s.beats[b := AfterMove(beat)])
    case PushLand(b) =>
      var beat := s.beats[b];
      s.(remote := Some(beat.phase.head),
         beats := s.beats[b := beat.(phase := Idle, landed := Some(beat.phase.head))])
    case Record(b) =>
      var k := s.beats[b].clone;
      s.(clones := s.clones[k := s.clones[k].(deferred := 0, recorded := s.beats[b].head)])
    case Defer(b) =>
      var beat := s.beats[b];
      s.(clones := s.clones[beat.clone := s.clones[beat.clone].(deferred := s.clones[beat.clone].deferred + 1)],
         beats := s.beats[b := beat.(bumps := beat.bumps + 1)])
    case _ => s.(beats := s.beats[e.b := Read(clean, s, s.beats[e.b], e)])
  }

  // The beat once it has moved the ref to the commit it built.
  function AfterMove(beat: Beat): Beat {
    if beat.phase.Expecting? then beat.(phase := Idle, moves := beat.moves + 1, head := Some(beat.phase.commit)) else beat
  }

  function Read(ghost clean: Filter, s: System, beat: Beat, e: Event): Beat
    requires beat.clone in s.clones && OwnVariablesOnly(e) && BeatEnabled(clean, s, beat, e)
  {
    var clone := s.clones[beat.clone];
    match e
    case StartAttempt(_) =>
      beat.(fetched := None, localRef := None, remoteHead := None, provedAbsent := false, phase := Idle, head := None)
    case FetchRead(_) => beat.(fetched := s.remote)
    case ReadLocal(_) => beat.(localRef := clone.local)
    case ReadTracking(_) => beat.(remoteHead := clone.tracking)
    case ProbeAbsent(_) => beat.(provedAbsent := true)
    case ChooseBase(_, mergeBase) =>
      var base := Base(beat.localRef, beat.remoteHead, mergeBase);
      beat.(phase := Chosen(base), head := base)
    case Snapshot(_) => beat.(phase := Snapped(beat.phase.base, clone.disk))
    case Scan(_, blobRead) =>
      var cleared := if beat.phase.snap.None? then []
                     else ToScan(beat.phase.base, clone.shard, beat.phase.snap.value, blobRead);
      beat.(phase := Scanned(beat.phase.base, beat.phase.snap, cleared))
    case SeedIndex(_) =>
      beat.(phase := Seeded(beat.phase.base, beat.phase.snap, beat.phase.cleared, TreeOf(beat.phase.base)))
    case DisturbIndex(_, index) => beat.(phase := beat.phase.(index := index))
    case StageShard(_, blob) =>
      var index := if beat.phase.snap.Some? then beat.phase.index[clone.shard := blob]
                   else beat.phase.index - {clone.shard};
      beat.(phase := Staged(beat.phase.base, beat.phase.cleared, index))
    case WriteTree(_) => beat.(phase := Written(beat.phase.base, beat.phase.cleared, beat.phase.index))
    case CommitTree(_, stamp) =>
      beat.(phase := Built(Commit(beat.phase.base, beat.phase.tree, clone.shard, stamp, beat.phase.cleared)))
    case ReadExpected(_) => beat.(phase := Expecting(beat.phase.commit, clone.local))
    case PushRead(_) => beat.(phase := Pushing(clone.local.value))
  }

  // ------------------------------------------------------------ invariant ---

  // What the scan vouches for: the blob holds the lines of a text whose added part, against the
  // parent's copy or against nothing, is `cleared`; and `cleared` passed.
  ghost predicate Vouched(clean: Filter, base: Option<Commit>, shard: Path, blob: Text, cleared: Text) {
    && (cleared == [] || Passes(clean, cleared))
    && exists text, blobRead :: CommitScan.SameLines(blob, text) && cleared == ToScan(base, shard, text, blobRead)
  }

  // A commit the tool built, all the way down.
  ghost predicate ToolBuilt(clean: Filter, c: Commit)
    decreases c
  {
    && TouchesOnlyItsShard(c)
    && (c.shard in c.tree ==> Vouched(clean, c.parent, c.shard, c.tree[c.shard], c.cleared))
    && (c.parent.Some? ==> ToolBuilt(clean, c.parent.value))
  }

  // Every commit of the chain is on the remote already, or was built for this clone's own shard.
  ghost predicate OwnBeyondRemote(c: Commit, shard: Path, remote: Option<Commit>)
    decreases c
  {
    InHistory(c, remote) ||
    (c.shard == shard && (c.parent.Some? ==> OwnBeyondRemote(c.parent.value, shard, remote)))
  }

  ghost predicate GoodRef(clean: Filter, r: Option<Commit>, shard: Path, remote: Option<Commit>) {
    r.Some? ==> ToolBuilt(clean, r.value) && OwnBeyondRemote(r.value, shard, remote)
  }

  ghost predicate GoodTracking(clean: Filter, r: Option<Commit>, remote: Option<Commit>) {
    r.Some? ==> ToolBuilt(clean, r.value) && InHistory(r.value, remote)
  }

  ghost predicate GoodPhase(clean: Filter, phase: Phase, shard: Path, remote: Option<Commit>) {
    match phase
    case Idle => true
    case Chosen(base) => GoodRef(clean, base, shard, remote)
    case Snapped(base, _) => GoodRef(clean, base, shard, remote)
    case Scanned(base, snap, cleared) =>
      && GoodRef(clean, base, shard, remote)
      && (snap.Some? ==> Vouched(clean, base, shard, snap.value, cleared))
    case Seeded(base, snap, cleared, index) =>
      && GoodRef(clean, base, shard, remote)
      && (snap.Some? ==> Vouched(clean, base, shard, snap.value, cleared))
      && (base.None? ==> index == map[])
    case Staged(base, cleared, index) =>
      && GoodRef(clean, base, shard, remote)
      && (shard in index ==> Vouched(clean, base, shard, index[shard], cleared))
      && (base.None? ==> SameOff(map[], index, shard))
    case Written(base, cleared, tree) =>
      && GoodRef(clean, base, shard, remote)
      && (shard in tree ==> Vouched(clean, base, shard, tree[shard], cleared))
      && (base.None? ==> SameOff(map[], tree, shard))
    case Built(commit) => GoodRef(clean, Some(commit), shard, remote)
    case Expecting(commit, _) => GoodRef(clean, Some(commit), shard, remote)
    case Pushing(head) => GoodRef(clean, Some(head), shard, remote)
  }

  ghost predicate GoodBeat(clean: Filter, s: System, beat: Beat) {
    && beat.clone in s.clones
    && GoodTracking(clean, beat.fetched, s.remote)
    && GoodRef(clean, beat.localRef, s.clones[beat.clone].shard, s.remote)
    && GoodTracking(clean, beat.remoteHead, s.remote)
    && GoodPhase(clean, beat.phase, s.clones[beat.clone].shard, s.remote)
    && (beat.landed.Some? ==> InHistory(beat.landed.value, s.remote))
  }

  ghost predicate GoodClone(clean: Filter, s: System, clone: Clone) {
    GoodRef(clean, clone.local, clone.shard, s.remote) && GoodTracking(clean, clone.tracking, s.remote)
  }

  ghost predicate Inv(clean: Filter, s: System) {
    && (s.remote.Some? ==> ToolBuilt(clean, s.remote.value))
    && (forall k :: k in s.clones ==> GoodClone(clean, s, s.clones[k]))
    && (forall b :: b in s.beats ==> GoodBeat(clean, s, s.beats[b]))
  }

  // ----------------------------------------------------- stability lemmas ---

  // Being in the remote history, and so every claim built on it, survives a fast-forward.
  lemma InHistoryGrows(c: Commit, old_: Option<Commit>, new_: Option<Commit>)
    requires FastForward(old_, new_) && InHistory(c, old_)
    ensures InHistory(c, new_)
  {
    AncestorTransitive(c, old_.value, new_.value);
  }

  lemma {:induction false} OwnBeyondGrows(c: Commit, shard: Path, old_: Option<Commit>, new_: Option<Commit>)
    requires FastForward(old_, new_) && OwnBeyondRemote(c, shard, old_)
    ensures OwnBeyondRemote(c, shard, new_)
    decreases c
  {
    if InHistory(c, old_) {
      InHistoryGrows(c, old_, new_);
    } else if c.parent.Some? {
      OwnBeyondGrows(c.parent.value, shard, old_, new_);
    }
  }

  lemma GoodRefGrows(clean: Filter, r: Option<Commit>, shard: Path, old_: Option<Commit>, new_: Option<Commit>)
    requires FastForward(old_, new_) && GoodRef(clean, r, shard, old_)
    ensures GoodRef(clean, r, shard, new_)
  {
    if r.Some? { OwnBeyondGrows(r.value, shard, old_, new_); }
  }

  lemma GoodTrackingGrows(clean: Filter, r: Option<Commit>, old_: Option<Commit>, new_: Option<Commit>)
    requires FastForward(old_, new_) && GoodTracking(clean, r, old_)
    ensures GoodTracking(clean, r, new_)
  {
    if r.Some? { InHistoryGrows(r.value, old_, new_); }
  }

  lemma GoodPhaseGrows(clean: Filter, phase: Phase, shard: Path, old_: Option<Commit>, new_: Option<Commit>)
    requires FastForward(old_, new_) && GoodPhase(clean, phase, shard, old_)
    ensures GoodPhase(clean, phase, shard, new_)
  {
    match phase
    case Idle =>
    case Built(commit) => GoodRefGrows(clean, Some(commit), shard, old_, new_);
    case Expecting(commit, _) => GoodRefGrows(clean, Some(commit), shard, old_, new_);
    case Pushing(head) => GoodRefGrows(clean, Some(head), shard, old_, new_);
    case _ => GoodRefGrows(clean, phase.base, shard, old_, new_);
  }

  // --------------------------------------------------------- preservation ---

  // The commit a build produces is tool-built and its history is own beyond the remote.
  lemma BuiltIsGood(clean: Filter, base: Option<Commit>, tree: Tree, shard: Path, stamp: nat, cleared: Text,
                    remote: Option<Commit>)
    requires GoodPhase(clean, Written(base, cleared, tree), shard, remote)
    requires base.Some? ==> SameOff(base.value.tree, tree, shard)
    ensures GoodRef(clean, Some(Commit(base, tree, shard, stamp, cleared)), shard, remote)
  {
  }

  lemma ScanVouches(clean: Filter, base: Option<Commit>, shard: Path, snap: Text, blobRead: bool)
    requires var text := ToScan(base, shard, snap, blobRead); text == [] || Passes(clean, text)
    ensures Vouched(clean, base, shard, snap, ToScan(base, shard, snap, blobRead))
  {
    assert CommitScan.SameLines(snap, snap);
  }

  lemma StagedIsVouched(clean: Filter, base: Option<Commit>, shard: Path, snap: Text, blob: Text, cleared: Text)
    requires Vouched(clean, base, shard, snap, cleared) && CommitScan.SameLines(blob, snap)
    ensures Vouched(clean, base, shard, blob, cleared)
  {
    var text, blobRead :| CommitScan.SameLines(snap, text) && cleared == ToScan(base, shard, text, blobRead);
    CommitScan.SameLinesTransitive(blob, snap, text);
  }

  // A step on the beat's own variables keeps the beat good.
  lemma ScanKeepsBeat(clean: Filter, s: System, beat: Beat, e: Event)
    requires beat.clone in s.clones && e.Scan? && BeatEnabled(clean, s, beat, e)
    requires Inv(clean, s) && GoodBeat(clean, s, beat)
    ensures GoodBeat(clean, s, Read(clean, s, beat, e))
  {
    var clone := s.clones[beat.clone];
    assert GoodClone(clean, s, clone);
    if beat.phase.snap.Some? {
      ScanVouches(clean, beat.phase.base, clone.shard, beat.phase.snap.value, e.blobRead);
    }
  }

  lemma StageKeepsBeat(clean: Filter, s: System, beat: Beat, e: Event)
    requires beat.clone in s.clones && e.StageShard? && BeatEnabled(clean, s, beat, e)
    requires Inv(clean, s) && GoodBeat(clean, s, beat)
    ensures GoodBeat(clean, s, Read(clean, s, beat, e))
  {
    var clone := s.clones[beat.clone];
    assert GoodClone(clean, s, clone);
    if beat.phase.snap.Some? {
      StagedIsVouched(clean, beat.phase.base, clone.shard, beat.phase.snap.value, e.blob, beat.phase.cleared);
    }
  }

  lemma CommitKeepsBeat(clean: Filter, s: System, beat: Beat, e: Event)
    requires beat.clone in s.clones && e.CommitTree? && BeatEnabled(clean, s, beat, e)
    requires Inv(clean, s) && GoodBeat(clean, s, beat)
    ensures GoodBeat(clean, s, Read(clean, s, beat, e))
  {
    var clone := s.clones[beat.clone];
    assert GoodClone(clean, s, clone);
    BuiltIsGood(clean, beat.phase.base, beat.phase.tree, clone.shard, e.stamp, beat.phase.cleared, s.remote);
  }

  lemma ReadKeepsBeat(clean: Filter, s: System, beat: Beat, e: Event)
    requires beat.clone in s.clones && OwnVariablesOnly(e) && BeatEnabled(clean, s, beat, e)
    requires Inv(clean, s) && GoodBeat(clean, s, beat)
    ensures GoodBeat(clean, s, Read(clean, s, beat, e))
  {
    if e.Scan? {
      ScanKeepsBeat(clean, s, beat, e);
    } else if e.StageShard? {
      StageKeepsBeat(clean, s, beat, e);
    } else if e.CommitTree? {
      CommitKeepsBeat(clean, s, beat, e);
    } else {
      assert GoodClone(clean, s, s.clones[beat.clone]);
    }
  }

  lemma PushKeepsInv(clean: Filter, s: System, b: nat)
    requires Inv(clean, s) && Enabled(clean, s, PushLand(b))
    ensures Inv(clean, Apply(clean, s, PushLand(b)))
  {
    var s' := Apply(clean, s, PushLand(b));
    assert GoodBeat(clean, s, s.beats[b]);
    forall k | k in s'.clones ensures GoodClone(clean, s', s'.clones[k]) {
      assert GoodClone(clean, s, s.clones[k]);
      GoodRefGrows(clean, s.clones[k].local, s.clones[k].shard, s.remote, s'.remote);
      GoodTrackingGrows(clean, s.clones[k].tracking, s.remote, s'.remote);
    }
    forall c | c in s'.beats ensures GoodBeat(clean, s', s'.beats[c]) {
      var beat := s.beats[c];
      var shard := s.clones[beat.clone].shard;
      assert GoodBeat(clean, s, beat);
      GoodTrackingGrows(clean, beat.fetched, s.remote, s'.remote);
      GoodTrackingGrows(clean, beat.remoteHead, s.remote, s'.remote);
      GoodRefGrows(clean, beat.localRef, shard, s.remote, s'.remote);
      GoodPhaseGrows(clean, beat.phase, shard, s.remote, s'.remote);
      if beat.landed.Some? { InHistoryGrows(beat.landed.value, s.remote, s'.remote); }
    }
  }

  // A step that rewrites the beat's clone, with a good local and tracking ref and the same shard.
  lemma CloneStepKeepsInv(clean: Filter, s: System, b: nat, s': System)
    requires Inv(clean, s) && b in s.beats && s'.remote == s.remote
    requires s.beats[b].clone in s.clones
    requires var k := s.beats[b].clone;
             && s'.clones.Keys == s.clones.Keys
             && (forall j :: j in s.clones && j != k ==> s'.clones[j] == s.clones[j])
             && s'.clones[k].shard == s.clones[k].shard
             && (s'.clones[k].local == s.clones[k].local ||
                 (s.beats[b].phase.Expecting? && s'.clones[k].local == Some(s.beats[b].phase.commit)))
             && (s'.clones[k].tracking == s.clones[k].tracking || s'.clones[k].tracking == s.beats[b].fetched)
    requires s'.beats == s.beats
             || s'.beats == s.beats[b := AfterMove(s.beats[b])]
             || s'.beats == s.beats[b := s.beats[b].(bumps := s.beats[b].bumps + 1)]
    ensures Inv(clean, s')
  {
    assert GoodBeat(clean, s, s.beats[b]);
    assert GoodClone(clean, s, s.clones[s.beats[b].clone]);
    forall k | k in s'.clones ensures GoodClone(clean, s', s'.clones[k]) {
      assert GoodClone(clean, s, s.clones[k]);
    }
    forall c | c in s'.beats ensures GoodBeat(clean, s', s'.beats[c]) {
      assert GoodBeat(clean, s, s.beats[c]);
    }
  }

  lemma OwnStepKeepsInv(clean: Filter, s: System, e: Event)
    requires Inv(clean, s) && Enabled(clean, s, e) && OwnVariablesOnly(e)
    ensures Inv(clean, Apply(clean, s, e))
  {
    var s' := Apply(clean, s, e);
    var beat' := Read(clean, s, s.beats[e.b], e);
    assert s' == s.(beats := s.beats[e.b := beat']);
    ReadKeepsBeat(clean, s, s.beats[e.b], e);
    forall c | c in s'.beats ensures GoodBeat(clean, s', s'.beats[c]) {
      assert s'.beats[c] == if c == e.b then beat' else s.beats[c];
      assert GoodBeat(clean, s, s'.beats[c]);
    }
    forall k | k in s'.clones ensures GoodClone(clean, s', s'.clones[k]) {
      assert GoodClone(clean, s, s.clones[k]);
    }
  }

  lemma FetchWriteKeepsInv(clean: Filter, s: System, e: Event)
    requires Inv(clean, s) && Enabled(clean, s, e) && e.FetchWrite?
    ensures Inv(clean, Apply(clean, s, e))
  {
    CloneStepKeepsInv(clean, s, e.b, Apply(clean, s, e));
  }

  lemma MoveRefKeepsInv(clean: Filter, s: System, e: Event)
    requires Inv(clean, s) && Enabled(clean, s, e) && e.MoveRef?
    ensures Inv(clean, Apply(clean, s, e))
  {
    CloneStepKeepsInv(clean, s, e.b, Apply(clean, s, e));
  }

  lemma RecordOrDeferKeepsInv(clean: Filter, s: System, e: Event)
    requires Inv(clean, s) && Enabled(clean, s, e) && (e.Record? || e.Defer?)
    ensures Inv(clean, Apply(clean, s, e))
  {
    CloneStepKeepsInv(clean, s, e.b, Apply(clean, s, e));
  }

  lemma JoinOrEditKeepsInv(clean: Filter, s: System, e: Event)
    requires Inv(clean, s) && Enabled(clean, s, e) && (e.Join? || e.Edit?)
    ensures Inv(clean, Apply(clean, s, e))
  {
    var s' := Apply(clean, s, e);
    forall c | c in s'.beats ensures GoodBeat(clean, s', s'.beats[c]) {
      assert c in s.beats ==> GoodBeat(clean, s, s.beats[c]);
    }
    forall k | k in s'.clones ensures GoodClone(clean, s', s'.clones[k]) {
      assert GoodClone(clean, s, s.clones[k]);
    }
  }

  // Every step of every beat keeps the invariant.
  lemma StepKeepsInv(clean: Filter, s: System, e: Event)
    requires Inv(clean, s) && Enabled(clean, s, e)
    ensures Inv(clean, Apply(clean, s, e))
  {
    if e.Join? || e.Edit? {
      JoinOrEditKeepsInv(clean, s, e);
    } else if e.PushLand? {
      PushKeepsInv(clean, s, e.b);
    } else if OwnVariablesOnly(e) {
      OwnStepKeepsInv(clean, s, e);
    } else if e.FetchWrite? {
      FetchWriteKeepsInv(clean, s, e);
    } else if e.MoveRef? {
      MoveRefKeepsInv(clean, s, e);
    } else {
      RecordOrDeferKeepsInv(clean, s, e);
    }
  }
}
