/**
 The part of git the state branch stands on: content-addressed commits. A commit is an inductive
 value, so equal values are equal object ids, and its whole history is part of it.
 */
module Git {
  import opened Basics

  type Path = string

  type Tree = map<Path, Text>

  // `shard` is the one allowlisted path the commit was built for. `cleared` is not stored by git: it
  // records, for the statements below, the text the commit scan passed when the commit was built.
  datatype Commit = Commit(parent: Option<Commit>, tree: Tree, shard: Path, stamp: nat, cleared: Text)

  function TreeOf(c: Option<Commit>): Tree { if c.None? then map[] else c.value.tree }

  // `git merge-base --is-ancestor a c`
  predicate Ancestor(a: Commit, c: Commit)
    decreases c
  {
    a == c || (c.parent.Some? && Ancestor(a, c.parent.value))
  }

  predicate InHistory(a: Commit, tip: Option<Commit>) { tip.Some? && Ancestor(a, tip.value) }

  // What a ref update without force allows: creation, or a descendant of the old value.
  predicate FastForward(from: Option<Commit>, to: Option<Commit>) {
    from.None? || (to.Some? && Ancestor(from.value, to.value))
  }

  // The two trees agree on every path but `p`.
  predicate SameOff(a: Tree, b: Tree, p: Path) { a - {p} == b - {p} }

  // The commit changed its own shard path and nothing else.
  predicate TouchesOnlyItsShard(c: Commit) { SameOff(TreeOf(c.parent), c.tree, c.shard) }

  function Depth(c: Commit): nat
    decreases c
  {
    if c.parent.None? then 0 else 1 + Depth(c.parent.value)
  }

  lemma {:induction false} AncestorTransitive(a: Commit, b: Commit, c: Commit)
    requires Ancestor(a, b) && Ancestor(b, c)
    ensures Ancestor(a, c)
    decreases c
  {
    if b != c { AncestorTransitive(a, b, c.parent.value); }
  }

  lemma {:induction false} AncestorIsShallower(a: Commit, c: Commit)
    requires Ancestor(a, c)
    ensures Depth(a) <= Depth(c)
    ensures Depth(a) == Depth(c) ==> a == c
    decreases c
  {
    if a != c { AncestorIsShallower(a, c.parent.value); }
  }

  lemma AncestorAntisymmetric(a: Commit, c: Commit)
    requires Ancestor(a, c) && Ancestor(c, a)
    ensures a == c
  {
    AncestorIsShallower(a, c);
    AncestorIsShallower(c, a);
  }

  lemma FastForwardTransitive(a: Option<Commit>, b: Option<Commit>, c: Option<Commit>)
    requires FastForward(a, b) && FastForward(b, c)
    ensures FastForward(a, c)
  {
    if a.Some? { AncestorTransitive(a.value, b.value, c.value); }
  }
}
