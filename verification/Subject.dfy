/** Claim subjects: normalizeSubject of lib/subject.js. */
module Subject {
  import opened Basics
  import opened Sorting
  import Decimal

  const MAX_SUBJECT_CHARS: nat := 200
  const SPACE: Unit := 0x20

  const STOPWORDS: set<string> := {
    "a", "an", "and", "are", "as", "at", "be", "but", "by", "for", "from", "in", "into", "is", "it", "its", "my", "of",
    "on", "or", "our", "that", "the", "their", "this", "to", "with"}

  // A lower-case letter or a digit.
  predicate Alnum(u: Unit) { 0x61 <= u <= 0x7a || Decimal.IsDigit(u) }

  predicate IsWord(t: Text) { t != [] && forall i :: 0 <= i < |t| ==> Alnum(t[i]) }

  predicate IsStopword(t: Text) { exists w :: w in STOPWORDS && Spells(w, t) }

  function WordEnd(t: Text): (n: nat)
    ensures n <= |t| && (forall i :: 0 <= i < n ==> Alnum(t[i])) && (n < |t| ==> !Alnum(t[n]))
  {
    if t != [] && Alnum(t[0]) then 1 + WordEnd(t[1..]) else 0
  }

  // Runs of anything else become one space, the ends are trimmed, and the rest is split at the spaces: the
  // maximal runs of [a-z0-9], in order.
  function Tokens(t: Text): (r: seq<Text>)
    ensures forall i :: 0 <= i < |r| ==> IsWord(r[i])
    decreases |t|
  {
    if t == [] then []
    else if !Alnum(t[0]) then Tokens(t[1..])
    else [t[..WordEnd(t)]] + Tokens(t[WordEnd(t)..])
  }

  const GAP: Text := [SPACE]

  function NonStop(tokens: seq<Text>): (r: seq<Text>)
    ensures forall i :: 0 <= i < |r| ==> r[i] in tokens
  {
    if tokens == [] then []
    else (if IsStopword(tokens[0]) then [] else [tokens[0]]) + NonStop(tokens[1..])
  }

  function Chosen(tokens: seq<Text>): seq<Text> {
    if NonStop(tokens) != [] then NonStop(tokens) else tokens
  }

  datatype SubjectError = TooLong

  // fold is toLowerCase, then NFKD, then the deletion of combining marks.
  function Normalize(fold: Text -> Text, subject: Text): Result<Text, SubjectError> {
    if |subject| > MAX_SUBJECT_CHARS then Err(TooLong) else Ok(Join(Chosen(Tokens(fold(subject))), GAP))
  }

  // Folding leaves lower-case letters, digits and spaces alone.
  ghost predicate KeepsPlain(fold: Text -> Text) {
    forall t :: (forall i :: 0 <= i < |t| ==> Alnum(t[i]) || t[i] == 0x20) ==> fold(t) == t
  }

  lemma WordThenSpace(w: Text, rest: Text)
    requires IsWord(w)
    ensures Tokens(w + ([SPACE] + rest)) == [w] + Tokens(rest)
  {
    var t := w + ([SPACE] + rest);
    assert t[|w|] == SPACE;
    assert WordEnd(t) == |w|;
    assert t[..|w|] == w && t[|w|..] == [SPACE] + rest;
    assert t[0] == w[0];
    assert ([SPACE] + rest)[1..] == rest;
  }

  lemma {:induction false} TokensOfJoin(tokens: seq<Text>)
    requires forall i :: 0 <= i < |tokens| ==> IsWord(tokens[i])
    ensures Tokens(Join(tokens, GAP)) == tokens
    ensures var t := Join(tokens, GAP); forall i :: 0 <= i < |t| ==> Alnum(t[i]) || t[i] == 0x20
  {
    if |tokens| == 1 {
      var w := tokens[0];
      assert WordEnd(w) == |w|;
      assert w[..|w|] == w && w[|w|..] == [];
    } else if tokens != [] {
      TokensOfJoin(tokens[1..]);
      WordThenSpace(tokens[0], Join(tokens[1..], GAP));
    }
  }

  lemma {:induction false} NonStopIsFixed(tokens: seq<Text>)
    ensures NonStop(NonStop(tokens)) == NonStop(tokens)
  {
    if tokens != [] {
      NonStopIsFixed(tokens[1..]);
      if !IsStopword(tokens[0]) {
        assert NonStop(tokens)[1..] == NonStop(tokens[1..]);
      } else {
        assert NonStop(tokens) == NonStop(tokens[1..]);
      }
    }
  }

  lemma ChosenIsFixed(tokens: seq<Text>)
    ensures Chosen(Chosen(tokens)) == Chosen(tokens)
  {
    NonStopIsFixed(tokens);
  }

  // A subject key normalizes to itself exactly when it is within the limit. It can be longer than the subject
  // it came from, because folding may expand it, and is then refused.
  lemma NormalizeIsAFixedPoint(fold: Text -> Text, subject: Text)
    requires KeepsPlain(fold) && Normalize(fold, subject).Ok?
    ensures var key := Normalize(fold, subject).value;
      (Normalize(fold, key) == Ok(key) <==> |key| <= 200) &&
      (|key| > 200 ==> Normalize(fold, key) == Err(TooLong))
  {
    var tokens := Tokens(fold(subject));
    TokensOfJoin(Chosen(tokens));
    ChosenIsFixed(tokens);
  }

  // Without such expansion it always does.
  lemma KeysAreNoLonger(fold: Text -> Text, subject: Text)
    requires Normalize(fold, subject).Ok? && |fold(subject)| <= |subject|
    ensures |Normalize(fold, subject).value| <= 200
  {
    TokensFit(fold(subject));
    NonStopFits(Tokens(fold(subject)));
  }

  lemma {:induction false} TokensFit(t: Text)
    ensures |Join(Tokens(t), GAP)| <= |t|
    decreases |t|
  {
    if t != [] {
      if !Alnum(t[0]) {
        TokensFit(t[1..]);
      } else {
        var n := WordEnd(t);
        TokensFit(t[n..]);
        if n < |t| {
          assert Tokens(t[n..]) == Tokens(t[n..][1..]);
          TokensFit(t[n..][1..]);
        }
        assert Tokens(t)[1..] == Tokens(t[n..]);
      }
    }
  }

  lemma {:induction false} NonStopFits(tokens: seq<Text>)
    ensures |Join(NonStop(tokens), GAP)| <= |Join(tokens, GAP)|
  {
    if tokens != [] {
      NonStopFits(tokens[1..]);
      if !IsStopword(tokens[0]) {
        assert NonStop(tokens)[1..] == NonStop(tokens[1..]);
      } else {
        assert NonStop(tokens) == NonStop(tokens[1..]);
      }
      if |tokens| == 1 { assert NonStop(tokens[1..]) == []; }
    }
  }

  // ---------------------------------------------------------- a subject that expands ---

  const LIGATURE: Unit := 0xfb03

  const LETTERS: Text := [0x66, 0x66, 0x69]

  // What NFKD makes of U+FB03, the ligature of three letters, wherever it stands.
  function Unligatured(t: Text): Text {
    if t == [] then [] else (if t[0] == LIGATURE then LETTERS else [t[0]]) + Unligatured(t[1..])
  }

  function Ligatures(n: nat): (t: Text)
    ensures |t| == n && forall i :: 0 <= i < n ==> t[i] == 0xfb03
  {
    if n == 0 then [] else [LIGATURE] + Ligatures(n - 1)
  }

  lemma {:induction false} UnligaturedKeepsPlain(t: Text)
    requires forall i :: 0 <= i < |t| ==> Alnum(t[i]) || t[i] == 0x20
    ensures Unligatured(t) == t
  {
    if t != [] {
      UnligaturedKeepsPlain(t[1..]);
      assert t == [t[0]] + t[1..];
    }
  }

  lemma UnligaturedIsPlain()
    ensures KeepsPlain(Unligatured)
  {
    forall t | forall i :: 0 <= i < |t| ==> Alnum(t[i]) || t[i] == 0x20 ensures Unligatured(t) == t {
      UnligaturedKeepsPlain(t);
    }
  }

  lemma {:induction false} UnligaturedIsAWord(n: nat)
    ensures |Unligatured(Ligatures(n))| == 3 * n
    ensures forall i :: 0 <= i < 3 * n ==> Alnum(Unligatured(Ligatures(n))[i])
  {
    if n > 0 {
      var t, rest := Ligatures(n), Unligatured(Ligatures(n - 1));
      UnligaturedIsAWord(n - 1);
      assert t[0] == LIGATURE && t[1..] == Ligatures(n - 1);
      assert Unligatured(t) == LETTERS + rest;
      forall i | 0 <= i < 3 * n ensures Alnum((LETTERS + rest)[i]) {
        if i >= 3 { assert (LETTERS + rest)[i] == rest[i - 3]; }
      }
    }
  }

  // A single word is its own key.
  lemma WordsAreKeys(w: Text, tokens: seq<Text>)
    requires IsWord(w) && tokens == [w]
    ensures Tokens(w) == tokens && Chosen(tokens) == tokens && Join(tokens, GAP) == w
  {
    TokensOfJoin(tokens);
    assert tokens[1..] == [];
    assert NonStop(tokens) == (if IsStopword(w) then [] else [w]) + NonStop(tokens[1..]);
  }

  // A subject of n such ligatures, within the limit, gets a key three times as long, and the key is then refused
  // when n is past 66.
  lemma FoldingCanExpand(n: nat)
    requires 0 < n <= 200
    ensures KeepsPlain(Unligatured) && Normalize(Unligatured, Ligatures(n)).Ok?
    ensures var key := Normalize(Unligatured, Ligatures(n)).value;
      |key| == 3 * n && (Normalize(Unligatured, key) == Err(TooLong) <==> n > 66)
  {
    UnligaturedIsPlain();
    UnligaturedIsAWord(n);
    var w := Unligatured(Ligatures(n));
    WordsAreKeys(w, [w]);
  }

  // ------------------------------------------------------- what a key is made of ---

  // A letter from a to z or a digit stands at i.
  predicate InWord(t: Text, i: int) { 0 <= i < |t| && (0x61 <= t[i] <= 0x7a || 0x30 <= t[i] <= 0x39) }

  // The word stands at o and cannot be extended to either side.
  predicate RunAt(t: Text, o: nat, word: Text) {
    word != [] && o + |word| <= |t| && t[o..o + |word|] == word &&
    (forall i :: o <= i < o + |word| ==> InWord(t, i)) && !InWord(t, o - 1) && !InWord(t, o + |word|)
  }

  predicate Covers(words: seq<Text>, starts: seq<nat>, i: int)
    requires |words| == |starts|
  {
    exists k :: 0 <= k < |starts| && starts[k] <= i < starts[k] + |words[k]|
  }

  ghost predicate AreTheRuns(words: seq<Text>, t: Text, starts: seq<nat>) {
    && |words| == |starts|
    && (forall k :: 0 <= k < |starts| ==> RunAt(t, starts[k], words[k]))
    && (forall k, l :: 0 <= k < l < |starts| ==> starts[k] < starts[l])
    && (forall i :: InWord(t, i) ==> Covers(words, starts, i))
  }

  // Splitting finds every run of letters and digits, whole, once and in order.
  lemma {:induction false} TokensAreTheRuns(t: Text) returns (starts: seq<nat>)
    ensures AreTheRuns(Tokens(t), t, starts)
    decreases |t|
  {
    starts := [];
    if t != [] {
      var n := if Alnum(t[0]) then WordEnd(t) else 1;
      var rest := TokensAreTheRuns(t[n..]);
      assert !InWord(t, n) || !InWord(t, n - 1);
      starts := ShiftedRuns(t, n, Tokens(t[n..]), rest);
      if Alnum(t[0]) { starts := OneMoreRun(t, n, Tokens(t[n..]), starts); }
    }
  }

  lemma ShiftedRuns(t: Text, n: nat, words: seq<Text>, rest: seq<nat>) returns (starts: seq<nat>)
    requires 0 < n <= |t| && AreTheRuns(words, t[n..], rest) && (!InWord(t, n) || !InWord(t, n - 1))
    ensures |starts| == |words| && forall k :: 0 <= k < |starts| ==> RunAt(t, starts[k], words[k]) && starts[k] >= n
    ensures forall k, l :: 0 <= k < l < |starts| ==> starts[k] < starts[l]
    ensures forall i :: i >= n && InWord(t, i) ==> Covers(words, starts, i)
  {
    starts := seq(|rest|, k requires 0 <= k < |rest| => n + rest[k]);
    forall k | 0 <= k < |starts| ensures RunAt(t, starts[k], words[k]) { RunShifts(t, n, rest[k], words[k]); }
    forall i | i >= n && InWord(t, i) ensures Covers(words, starts, i) {
      assert InWord(t[n..], i - n);
      var k :| 0 <= k < |rest| && rest[k] <= i - n < rest[k] + |words[k]|;
      assert starts[k] <= i < starts[k] + |words[k]|;
    }
  }

  lemma RunShifts(t: Text, n: nat, o: nat, word: Text)
    requires 0 < n <= |t| && RunAt(t[n..], o, word) && (!InWord(t, n) || !InWord(t, n - 1))
    ensures RunAt(t, n + o, word)
  {
    var s := t[n..];
    assert forall i :: 0 <= i < |s| ==> s[i] == t[n + i];
    assert t[n + o..n + o + |word|] == s[o..o + |word|];
    forall i | n + o <= i < n + o + |word| ensures InWord(t, i) { assert InWord(s, i - n); }
    assert InWord(s, o + |word|) <==> InWord(t, n + o + |word|);
    assert InWord(s, o);
    assert o > 0 ==> (InWord(s, o - 1) <==> InWord(t, n + o - 1));
  }

  lemma OneMoreRun(t: Text, n: nat, words: seq<Text>, starts: seq<nat>) returns (all: seq<nat>)
    requires t != [] && Alnum(t[0]) && n == WordEnd(t) && |starts| == |words|
    requires forall k :: 0 <= k < |starts| ==> RunAt(t, starts[k], words[k]) && starts[k] >= n
    requires forall k, l :: 0 <= k < l < |starts| ==> starts[k] < starts[l]
    requires forall i :: i >= n && InWord(t, i) ==> Covers(words, starts, i)
    ensures AreTheRuns([t[..n]] + words, t, all)
  {
    all := [0] + starts;
    FirstRun(t, n);
    forall i | InWord(t, i) ensures Covers([t[..n]] + words, all, i) {
      CoversMore(t[..n], words, starts, i);
    }
  }

  lemma FirstRun(t: Text, n: nat)
    requires t != [] && Alnum(t[0]) && n == WordEnd(t)
    ensures n > 0 && RunAt(t, 0, t[..n])
  {
  }

  lemma CoversMore(word: Text, words: seq<Text>, starts: seq<nat>, i: int)
    requires |words| == |starts| && (0 <= i < |word| || Covers(words, starts, i))
    ensures Covers([word] + words, [0] + starts, i)
  {
    var more, all := [word] + words, [0] + starts;
    if 0 <= i < |word| {
      assert all[0] <= i < all[0] + |more[0]|;
    } else {
      var k :| 0 <= k < |starts| && starts[k] <= i < starts[k] + |words[k]|;
      assert all[k + 1] <= i < all[k + 1] + |more[k + 1]|;
    }
  }

  predicate InStopList(t: Text) {
    exists w :: w in STOPWORDS && |w| == |t| && forall i :: 0 <= i < |t| ==> w[i] as int == t[i]
  }

  lemma {:induction false} NonStopIsFilter(tokens: seq<Text>, p: Text -> bool)
    requires forall w :: p(w) <==> !InStopList(w)
    ensures NonStop(tokens) == Filter(tokens, p)
  {
    if tokens != [] {
      NonStopIsFilter(tokens[1..], p);
      assert IsStopword(tokens[0]) <==> InStopList(tokens[0]);
    }
  }

  // The key of a subject within 200 units: the words of the folded subject that are on no stop list, in order and one
  // space apart, or all its words when they all are.
  lemma KeyWords(fold: Text -> Text, subject: Text) returns (at: seq<nat>)
    ensures Normalize(fold, subject).Ok? <==> |subject| <= 200
    ensures Normalize(fold, subject).Ok? ==>
      var words, key := Tokens(fold(subject)), Normalize(fold, subject).value;
      && key == Join(Tokens(key), [0x20])
      && Picks(Tokens(key), words, at)
      && forall i: nat :: i in at <==>
           i < |words| && (!InStopList(words[i]) || forall j :: 0 <= j < |words| ==> InStopList(words[j]))
  {
    at := [];
    if |subject| <= 200 {
      var words := Tokens(fold(subject));
      TokensOfJoin(Chosen(words));
      var p := (w: Text) => !InStopList(w);
      NonStopIsFilter(words, p);
      if NonStop(words) != [] {
        at := FilterPositions(words, p);
        FilterMembers(words, p, NonStop(words)[0]);
        assert exists j :: 0 <= j < |words| && words[j] == NonStop(words)[0];
      } else {
        forall j | 0 <= j < |words| ensures InStopList(words[j]) { FilterMembers(words, p, words[j]); }
        at := FilterPositions(words, w => true);
        AllPass(words, w => true);
      }
    }
  }
}
