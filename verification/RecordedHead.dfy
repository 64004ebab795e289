/**
 The head a beat records need not be the commit its push landed: a run in which another beat of the same clone
 moves the local ref between one beat's move and its push.
 */
module RecordedHead {
  import opened Basics
  import opened Git
  import opened StateBranch
  import opened StateBranchSafety
  import CommitScan

  ghost predicate Reaches(clean: Filter, start: System, s: System) {
    exists trace :: Execute(clean, start, trace) == Some(s)
  }

  lemma OneMore(clean: Filter, start: System, s: System, e: Event)
    requires Reaches(clean, start, s) && Enabled(clean, s, e)
    ensures Reaches(clean, start, Apply(clean, s, e))
  {
    var trace :| Execute(clean, start, trace) == Some(s);
    assert (trace + [e])[..|trace|] == trace;
    assert Execute(clean, start, trace + [e]) == Some(Apply(clean, s, e));
  }

  function With(s: System, b: nat, beat: Beat): System { s.(beats := s.beats[b := beat]) }

  // A step of beat b on its own variables.
  lemma OwnStep(clean: Filter, start: System, s: System, b: nat, beat: Beat, e: Event)
    requires beat.clone in s.clones && OwnVariablesOnly(e) && e.b == b && BeatEnabled(clean, s, beat, e)
    requires Reaches(clean, start, With(s, b, beat))
    ensures Reaches(clean, start, With(s, b, Read(clean, s, beat, e)))
  {
    var t := With(s, b, beat);
    OneMore(clean, start, t, e);
    assert Apply(clean, t, e) == With(t, b, Read(clean, t, beat, e));
    assert With(t, b, Read(clean, t, beat, e)) == With(s, b, Read(clean, s, beat, e));
  }

  function Fresh(k: nat): Beat { Beat(k, None, None, None, false, Idle, None, 0, 0, None) }

  // While the remote has no state ref, a beat of clone k can choose the local head as its base.
  lemma Starts(clean: Filter, start: System, s: System, b: nat, k: nat) returns (beat: Beat)
    requires Reaches(clean, start, s) && b !in s.beats && k in s.clones && s.remote.None?
    ensures beat == Fresh(k).(localRef := s.clones[k].local, provedAbsent := true, phase := Chosen(s.clones[k].local),
                              head := s.clones[k].local)
    ensures Reaches(clean, start, With(s, b, beat))
  {
    OneMore(clean, start, s, Join(b, k));
    assert Apply(clean, s, Join(b, k)) == With(s, b, Fresh(k));
    OwnStep(clean, start, s, b, Fresh(k), ProbeAbsent(b));
    beat := Fresh(k).(provedAbsent := true);
    OwnStep(clean, start, s, b, beat, ReadLocal(b));
    beat := beat.(localRef := s.clones[k].local);
    OwnStep(clean, start, s, b, beat, ChooseBase(b, false));
    beat := beat.(phase := Chosen(s.clones[k].local), head := s.clones[k].local);
  }

  // Then it can scan what is on disk, ...
  lemma Scans(clean: Filter, start: System, s: System, b: nat, beat: Beat, text: Text)
    requires beat.clone in s.clones && s.clones[beat.clone].disk == Some(text) && beat.phase.Chosen?
    requires CommitScan.Added([], text) == [] || Passes(clean, CommitScan.Added([], text))
    requires Reaches(clean, start, With(s, b, beat))
    ensures var cleared := CommitScan.Added([], text);
      Reaches(clean, start, With(s, b, beat.(phase := Scanned(beat.phase.base, Some(text), cleared))))
  {
    var base := beat.phase.base;
    OwnStep(clean, start, s, b, beat, Snapshot(b));
    OwnStep(clean, start, s, b, beat.(phase := Snapped(base, Some(text))), Scan(b, false));
  }

  // ... stage it, ...
  lemma Stages(clean: Filter, start: System, s: System, b: nat, beat: Beat)
    requires beat.clone in s.clones && beat.phase.Scanned? && beat.phase.snap.Some?
    requires Reaches(clean, start, With(s, b, beat))
    ensures var tree := TreeOf(beat.phase.base)[s.clones[beat.clone].shard := beat.phase.snap.value];
      Reaches(clean, start, With(s, b, beat.(phase := Written(beat.phase.base, beat.phase.cleared, tree))))
  {
    var base, cleared, text := beat.phase.base, beat.phase.cleared, beat.phase.snap.value;
    var tree := TreeOf(base)[s.clones[beat.clone].shard := text];
    OwnStep(clean, start, s, b, beat, SeedIndex(b));
    assert CommitScan.SameLines(text, text);
    OwnStep(clean, start, s, b, beat.(phase := Seeded(base, Some(text), cleared, TreeOf(base))), StageShard(b, text));
    OwnStep(clean, start, s, b, beat.(phase := Staged(base, cleared, tree)), WriteTree(b));
  }

  // ... commit it, and move the ref.
  lemma Moves(clean: Filter, start: System, s: System, b: nat, beat: Beat, stamp: nat)
    requires beat.clone in s.clones && beat.phase.Written?
    requires beat.phase.tree != TreeOf(beat.phase.base)
    requires beat.phase.base.Some? ==> SameOff(beat.phase.base.value.tree, beat.phase.tree, s.clones[beat.clone].shard)
    requires Reaches(clean, start, With(s, b, beat))
    ensures var clone := s.clones[beat.clone];
      var c := Commit(beat.phase.base, beat.phase.tree, clone.shard, stamp, beat.phase.cleared);
      Reaches(clean, start, With(Local(s, beat.clone, c), b, After(beat, c)))
  {
    var clone := s.clones[beat.clone];
    var c := Commit(beat.phase.base, beat.phase.tree, clone.shard, stamp, beat.phase.cleared);
    OwnStep(clean, start, s, b, beat, CommitTree(b, stamp));
    OwnStep(clean, start, s, b, beat.(phase := Built(c)), ReadExpected(b));
    Swaps(clean, start, s, b, beat.(phase := Expecting(c, clone.local)));
  }

  lemma Swaps(clean: Filter, start: System, s: System, b: nat, beat: Beat)
    requires beat.clone in s.clones && beat.phase.Expecting? && beat.phase.expected == s.clones[beat.clone].local
    requires Reaches(clean, start, With(s, b, beat))
    ensures Reaches(clean, start, With(Local(s, beat.clone, beat.phase.commit), b, After(beat, beat.phase.commit)))
  {
    var t := With(s, b, beat);
    OneMore(clean, start, t, MoveRef(b));
    assert Apply(clean, t, MoveRef(b)) ==
           With(Local(s, beat.clone, beat.phase.commit), b, After(beat, beat.phase.commit));
  }

  function Local(s: System, k: nat, c: Commit): System
    requires k in s.clones
  {
    s.(clones := s.clones[k := s.clones[k].(local := Some(c), moves := s.clones[k].moves + 1)])
  }

  // The beat once it has moved the ref to its commit.
  function After(beat: Beat, c: Commit): Beat { beat.(phase := Idle, moves := beat.moves + 1, head := Some(c)) }

  function Moved(s: System, k: nat, c: Commit): Beat
    requires k in s.clones
  {
    Fresh(k).(localRef := s.clones[k].local, provedAbsent := true, moves := 1, head := Some(c))
  }

  // Altogether: after the user wrote a text, a beat can turn the local ref to its commit.
  lemma BuildsAndMoves(clean: Filter, start: System, s: System, b: nat, k: nat, text: Text, stamp: nat)
    returns (t: System, c: Commit)
    requires Reaches(clean, start, s) && b !in s.beats && k in s.clones && s.remote.None?
    requires CommitScan.Added([], text) == [] || Passes(clean, CommitScan.Added([], text))
    requires TreeOf(s.clones[k].local)[s.clones[k].shard := text] != TreeOf(s.clones[k].local)
    ensures Reaches(clean, start, t) && t.remote.None? && k in t.clones && t.clones[k].shard == s.clones[k].shard
    ensures t.clones[k].local == Some(c) && t.clones[k].moves == s.clones[k].moves + 1
    ensures c.parent == s.clones[k].local && c.tree == TreeOf(s.clones[k].local)[s.clones[k].shard := text]
    ensures t.beats == s.beats[b := Moved(s, k, c)]
  {
    var edited := Apply(clean, s, Edit(k, Some(text)));
    OneMore(clean, start, s, Edit(k, Some(text)));
    var base, shard, cleared := s.clones[k].local, s.clones[k].shard, CommitScan.Added([], text);
    var tree := TreeOf(base)[shard := text];
    var beat := Starts(clean, start, edited, b, k);
    Scans(clean, start, edited, b, beat, text);
    Stages(clean, start, edited, b, beat.(phase := Scanned(base, Some(text), cleared)));
    assert base.Some? ==> SameOff(base.value.tree, tree, shard);
    Moves(clean, start, edited, b, beat.(phase := Written(base, cleared, tree)), stamp);
    c := Commit(base, tree, shard, stamp, cleared);
    t := With(Local(edited, k, c), b, Moved(s, k, c));
  }

  // Beat b moved the ref to `first` and takes that for its head; beat c moved it on to `second`, built on `first`; b
  // landed `second` and the heads file says `first`.
  ghost predicate RecordsItsOwn(s: System, k: nat, b: nat, c: nat, first: Commit, second: Commit) {
    && k in s.clones && b in s.beats && c in s.beats && b != c && s.beats[b].clone == k && s.beats[c].clone == k
    && s.beats[b].moves == 1 && s.beats[b].head == Some(first)
    && s.beats[c].moves == 1 && s.beats[c].head == Some(second)
    && s.beats[b].landed == Some(second) && s.remote == Some(second) && s.clones[k].local == Some(second)
    && s.clones[k].recorded == Some(first) && s.clones[k].moves >= 2
    && first != second && second.parent == Some(first)
  }

  // A beat pushes: the remote holds what the local ref was.
  lemma Pushes(clean: Filter, start: System, s: System, b: nat, k: nat) returns (t: System)
    requires Reaches(clean, start, s) && b in s.beats && s.beats[b].clone == k && k in s.clones && s.remote.None?
    requires s.clones[k].local.Some?
    ensures Reaches(clean, start, t) && t.remote == s.clones[k].local && t.clones == s.clones
    ensures t.beats == s.beats[b := s.beats[b].(phase := Idle, landed := s.clones[k].local)]
  {
    OneMore(clean, start, s, PushRead(b));
    var reading := Apply(clean, s, PushRead(b));
    assert reading == With(s, b, s.beats[b].(phase := Pushing(s.clones[k].local.value)));
    OneMore(clean, start, reading, PushLand(b));
    t := Apply(clean, reading, PushLand(b));
  }

  // And records: the heads file holds what the beat takes for its head.
  lemma Records(clean: Filter, start: System, s: System, b: nat, k: nat) returns (t: System)
    requires Reaches(clean, start, s) && b in s.beats && s.beats[b].clone == k && k in s.clones
    requires s.beats[b].landed.Some? && s.beats[b].head.Some?
    ensures Reaches(clean, start, t) && t.remote == s.remote && t.beats == s.beats
    ensures t.clones == s.clones[k := s.clones[k].(deferred := 0, recorded := s.beats[b].head)]
  {
    OneMore(clean, start, s, Record(b));
    t := Apply(clean, s, Record(b));
  }

  // Two beats of one clone: the second moves the ref after the first did and before the first pushes. The first
  // then lands the second's commit and records its own.
  lemma RecordedNeedNotBeLanded(clean: Filter, start: System, k: nat, one: Text, two: Text, stamp: nat)
    returns (trace: seq<Event>, end: System, first: Commit, second: Commit)
    requires Initial(start) && k in start.clones && one != two
    requires CommitScan.Added([], one) == [] || Passes(clean, CommitScan.Added([], one))
    requires CommitScan.Added([], two) == [] || Passes(clean, CommitScan.Added([], two))
    ensures Execute(clean, start, trace) == Some(end) && RecordsItsOwn(end, k, 0, 1, first, second)
    ensures var shard := start.clones[k].shard;
      first.parent.None? && first.tree == map[shard := one] && second.tree == map[shard := two]
  {
    var moved;
    first, second, moved := TwoMoves(clean, start, k, one, two, stamp);
    var pushed := Pushes(clean, start, moved, 0, k);
    end := Records(clean, start, pushed, 0, k);
    trace :| Execute(clean, start, trace) == Some(end);
  }

  lemma TwoMoves(clean: Filter, start: System, k: nat, one: Text, two: Text, stamp: nat)
    returns (first: Commit, second: Commit, s: System)
    requires Initial(start) && k in start.clones && one != two
    requires CommitScan.Added([], one) == [] || Passes(clean, CommitScan.Added([], one))
    requires CommitScan.Added([], two) == [] || Passes(clean, CommitScan.Added([], two))
    ensures Reaches(clean, start, s) && s.remote.None? && k in s.clones && s.clones[k].local == Some(second)
    ensures s.clones[k].moves == start.clones[k].moves + 2
    ensures 0 in s.beats && s.beats[0].clone == k && s.beats[0].moves == 1 && s.beats[0].head == Some(first)
    ensures 1 in s.beats && s.beats[1].clone == k && s.beats[1].moves == 1 && s.beats[1].head == Some(second)
    ensures second != first && second.parent == Some(first) && first.parent.None?
    ensures var shard := start.clones[k].shard; first.tree == map[shard := one] && second.tree == map[shard := two]
  {
    var shard := start.clones[k].shard;
    assert Execute(clean, start, []) == Some(start);
    assert shard in TreeOf(None)[shard := one];
    var after;
    after, first := BuildsAndMoves(clean, start, start, 0, k, one, stamp);
    assert first.tree[shard] == one;
    s, second := BuildsAndMoves(clean, start, after, 1, k, two, stamp);
    assert second.tree[shard] == two;
  }
}
