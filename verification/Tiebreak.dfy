/** Who keeps a doubly claimed subject: tiebreak and losesTiebreak of lib/subject.js. */
module Tiebreak {
  import opened Basics
  import opened Utf8

  // A claim as the tiebreak sees it.
  datatype Rival = Rival(acquiredAt: int, member: Text)

  // Buffer.compare: byte by byte, a proper prefix first.
  function CompareBytes(a: seq<Byte>, b: seq<Byte>): int {
    if a == [] && b == [] then 0
    else if a == [] then -1
    else if b == [] then 1
    else if a[0] != b[0] then (if a[0] < b[0] then -1 else 1)
    else CompareBytes(a[1..], b[1..])
  }

  // -1 when a wins, 1 when b wins.
  function Compare(a: Rival, b: Rival): int {
    if a.acquiredAt != b.acquiredAt then (if a.acquiredAt < b.acquiredAt then -1 else 1)
    else CompareBytes(Encode(a.member), Encode(b.member))
  }

  predicate Loses(mine: Rival, theirs: Rival) { Compare(mine, theirs) > 0 }

  lemma {:induction false} BytesAntisymmetric(a: seq<Byte>, b: seq<Byte>)
    ensures CompareBytes(a, b) == -CompareBytes(b, a)
    ensures CompareBytes(a, b) == 0 <==> a == b
  {
    if a != [] && b != [] && a[0] == b[0] {
      BytesAntisymmetric(a[1..], b[1..]);
      assert a == [a[0]] + a[1..] && b == [b[0]] + b[1..];
    }
  }

  lemma {:induction false} BytesTransitive(a: seq<Byte>, b: seq<Byte>, c: seq<Byte>)
    requires CompareBytes(a, b) < 0 && CompareBytes(b, c) < 0
    ensures CompareBytes(a, c) < 0
  {
    if a != [] && b != [] && c != [] && a[0] == b[0] == c[0] {
      BytesTransitive(a[1..], b[1..], c[1..]);
    }
  }

  // Bytewise before: a proper prefix, or smaller where they first differ.
  predicate Before(a: seq<Byte>, b: seq<Byte>) {
    exists k :: 0 <= k <= |a| && Leads(a, b, k)
  }

  predicate Leads(a: seq<Byte>, b: seq<Byte>, k: nat) {
    k <= |a| && k < |b| && a[..k] == b[..k] && (k < |a| ==> a[k] < b[k])
  }

  lemma {:induction false} BytesCompare(a: seq<Byte>, b: seq<Byte>)
    ensures CompareBytes(a, b) < 0 <==> Before(a, b)
  {
    if a == [] || b == [] || a[0] != b[0] {
      if CompareBytes(a, b) < 0 { assert Leads(a, b, 0); }
    } else {
      BytesCompare(a[1..], b[1..]);
      if Before(a[1..], b[1..]) {
        var k :| 0 <= k <= |a[1..]| && Leads(a[1..], b[1..], k);
        assert a[..k + 1] == [a[0]] + a[1..][..k] && b[..k + 1] == [b[0]] + b[1..][..k];
        assert Leads(a, b, k + 1);
      }
      if Before(a, b) {
        var k :| 0 <= k <= |a| && Leads(a, b, k);
        assert a[1..][..k - 1] == a[..k][1..] && b[1..][..k - 1] == b[..k][1..];
        assert Leads(a[1..], b[1..], k - 1);
      }
    }
  }

  // The earlier claim wins, and at the same time the id whose bytes come first.
  lemma LosesExactlyWhen(mine: Rival, theirs: Rival)
    ensures Loses(mine, theirs) <==>
      (theirs.acquiredAt < mine.acquiredAt ||
       (theirs.acquiredAt == mine.acquiredAt && Before(Encode(theirs.member), Encode(mine.member))))
  {
    BytesAntisymmetric(Encode(mine.member), Encode(theirs.member));
    BytesCompare(Encode(theirs.member), Encode(mine.member));
  }

  // Both sides reach the same verdict: exactly one loses, unless their times and their ids' bytes are equal.
  lemma OneSideLoses(a: Rival, b: Rival)
    ensures Compare(a, b) == -Compare(b, a)
    ensures Compare(a, b) == 0 <==> a.acquiredAt == b.acquiredAt && Encode(a.member) == Encode(b.member)
    ensures Compare(a, b) != 0 ==> (Loses(a, b) <==> !Loses(b, a))
  {
    BytesAntisymmetric(Encode(a.member), Encode(b.member));
  }

  lemma LosingIsTransitive(a: Rival, b: Rival, c: Rival)
    requires Loses(a, b) && Loses(b, c)
    ensures Loses(a, c)
  {
    OneSideLoses(a, b);
    OneSideLoses(b, c);
    OneSideLoses(a, c);
    if a.acquiredAt == c.acquiredAt {
      BytesTransitive(Encode(c.member), Encode(b.member), Encode(a.member));
    }
  }

  // Different well-formed ids never tie.
  lemma DistinctMembersNeverTie(a: Rival, b: Rival)
    requires a.member != b.member && WellFormed(a.member) && WellFormed(b.member)
    ensures Compare(a, b) != 0
  {
    OneSideLoses(a, b);
    if Encode(a.member) == Encode(b.member) { EncodeIsInjective(a.member, b.member); }
  }

  ghost predicate DistinctMembers(rivals: set<Rival>) {
    (forall r :: r in rivals ==> WellFormed(r.member)) &&
    (forall r, s :: r in rivals && s in rivals && r != s ==> r.member != s.member)
  }

  ghost predicate Wins(w: Rival, rivals: set<Rival>) {
    w in rivals && forall r :: r in rivals ==> !Loses(w, r)
  }

  // Any rival claims by different members have a winner.
  lemma {:induction false} SomebodyWins(rivals: set<Rival>) returns (w: Rival)
    requires rivals != {} && DistinctMembers(rivals)
    ensures Wins(w, rivals)
    decreases |rivals|
  {
    var r :| r in rivals;
    var rest := rivals - {r};
    OneSideLoses(r, r);
    if rest == {} {
      w := r;
      assert rivals == {r};
    } else {
      var v := SomebodyWins(rest);
      if Loses(v, r) {
        w := r;
        forall s | s in rivals ensures !Loses(r, s) {
          assert s == r || s in rest;
          if Loses(r, s) { LosingIsTransitive(v, r, s); }
        }
      } else {
        w := v;
      }
    }
  }

  // And only one.
  lemma WinnerIsUnique(rivals: set<Rival>, v: Rival, w: Rival)
    requires DistinctMembers(rivals) && Wins(v, rivals) && Wins(w, rivals)
    ensures v == w
  {
    OneSideLoses(v, w);
    if v != w { DistinctMembersNeverTie(v, w); }
  }

  // Whoever keeps or lowers its time keeps every win it had.
  lemma EarlierStillWins(mine: Rival, earlier: Rival, theirs: Rival)
    requires earlier.member == mine.member && earlier.acquiredAt <= mine.acquiredAt && !Loses(mine, theirs)
    ensures !Loses(earlier, theirs)
  {
  }
}
