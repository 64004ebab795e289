/**
 The two text helpers behind the commit scan of lib/state-branch.js: `addedText`, which keeps what a
 commit adds to the published shard, and `scanUnits`, which cuts that text into bounded pieces.
 */
module CommitScan {
  import opened Basics

  // ---------------------------------------------------------------- lines ---

  // `text.split('\n')`: always at least one line.
  function Lines(text: Text): (lines: seq<Text>)
    ensures |lines| >= 1
  {
    if text == [] then [[]]
    else
      var rest := Lines(text[1..]);
      if text[0] == NEWLINE then [[]] + rest
      else [[text[0]] + rest[0]] + rest[1..]
  }

  const BREAK: Text := [NEWLINE]

  predicate IsLine(line: Text) { 0x0a !in line }

  predicate EndsInReturn(line: Text) { line != [] && line[|line| - 1] == RETURN }

  // The same line to whatever end-of-line conversion it went through: equal, or one is the other, which ends in no
  // return, with one return behind it.
  predicate SameLine(a: Text, b: Text) {
    a == b || (a == b + [RETURN] && !EndsInReturn(b)) || (b == a + [RETURN] && !EndsInReturn(a))
  }

  predicate HasLine(lines: seq<Text>, line: Text) { exists i :: 0 <= i < |lines| && SameLine(lines[i], line) }

  // Nothing, or a return by itself: there is nothing in it to scan.
  predicate Blank(line: Text) { line == [] || line == [RETURN] }

  // The comparison form of a line: one trailing carriage return dropped.
  function Strip(line: Text): Text {
    if EndsInReturn(line) then line[..|line| - 1] else line
  }

  lemma StripTells(a: Text, b: Text)
    ensures Strip(a) == Strip(b) <==> SameLine(a, b)
  {
    StripLeaves(a);
    StripLeaves(b);
  }

  lemma StripLeaves(a: Text)
    ensures a == if EndsInReturn(a) then Strip(a) + [RETURN] else Strip(a)
  {
  }

  lemma SameLineSymmetric(a: Text, b: Text)
    requires SameLine(a, b)
    ensures SameLine(b, a)
  {
  }

  lemma SameLineTransitive(a: Text, b: Text, c: Text)
    requires SameLine(a, b) && SameLine(b, c)
    ensures SameLine(a, c)
  {
    StripTells(a, b);
    StripTells(b, c);
    StripTells(a, c);
  }

  lemma HasSameLine(lines: seq<Text>, a: Text, b: Text)
    requires HasLine(lines, a) && SameLine(a, b)
    ensures HasLine(lines, b)
  {
    var i :| 0 <= i < |lines| && SameLine(lines[i], a);
    SameLineTransitive(lines[i], a, b);
  }

  // ------------------------------------------------------------ addedText ---

  // How many lines two texts share at the front, counting on from `p`.
  function SharedFront(a: seq<Text>, b: seq<Text>, p: nat): (n: nat)
    requires p <= |a| && p <= |b|
    ensures p <= n <= |a| && n <= |b|
    ensures forall i :: p <= i < n ==> SameLine(a[i], b[i])
    ensures n < |a| && n < |b| ==> !SameLine(a[n], b[n])
    decreases |a| - p
  {
    if p < |a| && p < |b| && SameLine(a[p], b[p]) then SharedFront(a, b, p + 1) else p
  }

  // The lines at distance `s` from the two ends agree.
  predicate BackAgrees(a: seq<Text>, b: seq<Text>, s: nat)
    requires s < |a| && s < |b|
  {
    SameLine(a[|a| - 1 - s], b[|b| - 1 - s])
  }

  // How many lines they share at the back without reaching the first `p`, counting on from `s`.
  function SharedBack(a: seq<Text>, b: seq<Text>, p: nat, s: nat): (n: nat)
    requires p + s <= |a| && p + s <= |b|
    ensures s <= n && p + n <= |a| && p + n <= |b|
    ensures forall k :: s <= k < n ==> BackAgrees(a, b, k)
    ensures p + n < |a| && p + n < |b| ==> !BackAgrees(a, b, n)
    decreases |a| - s
  {
    if s < |a| - p && s < |b| - p && BackAgrees(a, b, s) then SharedBack(a, b, p, s + 1) else s
  }

  // The middle of `after` between what it shares with `before` at the front and at the back.
  function Middle(before: seq<Text>, after: seq<Text>): (lines: seq<Text>) {
    var p := SharedFront(before, after, 0);
    var s := SharedBack(before, after, p, 0);
    after[p..|after| - s]
  }

  function Added(parentText: Text, newText: Text): Text {
    if parentText == [] then newText
    else Join(Middle(Lines(parentText), Lines(newText)), BREAK)
  }

  // addedText: both ends are counted off, and what is left of the new text is returned.
  method AddedText(parentText: Text, newText: Text) returns (added: Text)
    ensures added == Added(parentText, newText)
  {
    var b := Lines(newText);
    var a := Lines(parentText);
    if parentText == [] { return newText; }
    var p := CountFront(a, b);
    var s := CountBack(a, b, p);
    if p >= |b| - s { return []; }
    added := Join(b[p..|b| - s], BREAK);
  }

  method CountFront(a: seq<Text>, b: seq<Text>) returns (p: nat)
    ensures p == SharedFront(a, b, 0)
  {
    p := 0;
    while p < |a| && p < |b| && Strip(a[p]) == Strip(b[p])
      invariant p <= |a| && p <= |b|
      invariant SharedFront(a, b, 0) == SharedFront(a, b, p)
    {
      StripTells(a[p], b[p]);
      p := p + 1;
    }
    if p < |a| && p < |b| { StripTells(a[p], b[p]); }
  }

  method CountBack(a: seq<Text>, b: seq<Text>, p: nat) returns (s: nat)
    requires p <= |a| && p <= |b|
    ensures s == SharedBack(a, b, p, 0)
  {
    s := 0;
    while s < |a| - p && s < |b| - p && Strip(a[|a| - 1 - s]) == Strip(b[|b| - 1 - s])
      invariant p + s <= |a| && p + s <= |b|
      invariant SharedBack(a, b, p, 0) == SharedBack(a, b, p, s)
    {
      StripTells(a[|a| - 1 - s], b[|b| - 1 - s]);
      s := s + 1;
    }
    if s < |a| - p && s < |b| - p { StripTells(a[|a| - 1 - s], b[|b| - 1 - s]); }
  }

  // ------------------------------------------- what the decomposition means ---

  lemma {:induction false} LinesHaveNoNewline(text: Text)
    ensures forall i :: 0 <= i < |Lines(text)| ==> IsLine(Lines(text)[i])
  {
    if text != [] { LinesHaveNoNewline(text[1..]); }
  }

  // Joining the lines of a text gives it back.
  lemma {:induction false} JoinLines(text: Text)
    ensures Join(Lines(text), BREAK) == text
  {
    if text != [] {
      JoinLines(text[1..]);
      var rest := Lines(text[1..]);
      if text[0] == NEWLINE {
        assert ([[]] + rest)[1..] == rest;
      } else {
        var l := [[text[0]] + rest[0]] + rest[1..];
        assert l[1..] == rest[1..];
        assert text == [text[0]] + text[1..];
      }
    }
  }

  lemma {:induction false} LinesJoin(lines: seq<Text>)
    requires lines != [] && forall i :: 0 <= i < |lines| ==> IsLine(lines[i])
    ensures Lines(Join(lines, BREAK)) == lines
  {
    if |lines| == 1 {
      LinesOfLine(lines[0], []);
      assert lines[0] == lines[0] + [];
      assert Lines([]) == [[]];
    } else {
      var tail := BREAK + Join(lines[1..], BREAK);
      LinesJoin(lines[1..]);
      assert tail[1..] == Join(lines[1..], BREAK) && tail[0] == NEWLINE;
      assert Lines(tail) == [[]] + lines[1..];
      LinesOfLine(lines[0], tail);
      assert lines[0] + [] == lines[0];
      assert [lines[0]] + lines[1..] == lines;
    }
  }

  lemma {:induction false} LinesOfLine(line: Text, rest: Text)
    requires IsLine(line)
    ensures Lines(line + rest) == [line + Lines(rest)[0]] + Lines(rest)[1..]
  {
    if line == [] {
      assert line + rest == rest && line + Lines(rest)[0] == Lines(rest)[0];
    } else {
      assert (line + rest)[1..] == line[1..] + rest;
      LinesOfLine(line[1..], rest);
      assert [line[0]] + (line[1..] + Lines(rest)[0]) == line + Lines(rest)[0];
    }
  }

  // Position i of `after` is shared with `before`, or lies in the middle.
  lemma MiddleOrShared(before: seq<Text>, after: seq<Text>, i: nat)
    requires i < |after|
    ensures HasLine(before, after[i]) || after[i] in Middle(before, after)
  {
    var p := SharedFront(before, after, 0);
    PieceHasLine(before, after, p, SharedBack(before, after, p, 0), i);
  }

  lemma PieceHasLine(before: seq<Text>, after: seq<Text>, p: nat, s: nat, i: nat)
    requires p + s <= |before| && p + s <= |after| && i < |after|
    requires forall k :: 0 <= k < p ==> SameLine(before[k], after[k])
    requires forall k :: 0 <= k < s ==> BackAgrees(before, after, k)
    ensures HasLine(before, after[i]) || after[i] in after[p..|after| - s]
  {
    if i < p {
      assert SameLine(before[i], after[i]);
    } else if i >= |after| - s {
      var k := |after| - 1 - i;
      assert BackAgrees(before, after, k);
      assert SameLine(before[|before| - 1 - k], after[i]);
    } else {
      assert after[p..|after| - s][i - p] == after[i];
    }
  }

  ghost predicate Agree(x: seq<Text>, y: seq<Text>) { |x| == |y| && forall i :: 0 <= i < |x| ==> SameLine(x[i], y[i]) }

  lemma SharedFrontOf(front: seq<Text>, x: seq<Text>, front': seq<Text>, y: seq<Text>)
    requires Agree(front, front') && (x == [] || y == [] || !SameLine(x[0], y[0]))
    ensures SharedFront(front + x, front' + y, 0) == |front|
  {
    var a, b, p := front + x, front' + y, |front|;
    forall i | 0 <= i < p ensures SameLine(a[i], b[i]) { assert a[i] == front[i] && b[i] == front'[i]; }
    assert p < |a| && p < |b| ==> a[p] == x[0] && b[p] == y[0];
  }

  lemma SharedBackOf(x: seq<Text>, back: seq<Text>, y: seq<Text>, back': seq<Text>, p: nat)
    requires Agree(back, back') && p <= |x| && p <= |y|
    requires p == |x| || p == |y| || !SameLine(x[|x| - 1], y[|y| - 1])
    ensures SharedBack(x + back, y + back', p, 0) == |back|
  {
    var a, b, s := x + back, y + back', |back|;
    forall k | 0 <= k < s ensures BackAgrees(a, b, k) {
      assert a[|a| - 1 - k] == back[s - 1 - k] && b[|b| - 1 - k] == back'[s - 1 - k];
    }
    if p < |x| && p < |y| {
      assert a[|a| - 1 - s] == x[|x| - 1] && b[|b| - 1 - s] == y[|y| - 1];
      assert !BackAgrees(a, b, s);
    }
  }

  // With the shared front as long as it can be, and then the shared back, what stands between them is the middle.
  lemma MiddleIsTheChange(front: seq<Text>, was: seq<Text>, back: seq<Text>,
                          front': seq<Text>, now: seq<Text>, back': seq<Text>)
    requires Agree(front, front') && Agree(back, back')
    requires var x, y := was + back, now + back'; x == [] || y == [] || !SameLine(x[0], y[0])
    requires was == [] || now == [] || !SameLine(was[|was| - 1], now[|now| - 1])
    ensures Middle(front + (was + back), front' + (now + back')) == now
  {
    var a, b, p := front + (was + back), front' + (now + back'), |front|;
    SharedFrontOf(front, was + back, front', now + back');
    assert a == (front + was) + back && b == (front' + now) + back';
    SharedBackOf(front + was, back, front' + now, back', p);
    assert b[p..|b| - |back|] == now;
  }

  // So the added text is exactly the changed lines: no line of the shared front or back is handed to the scan.
  lemma AddedIsTheChange(parentText: Text, newText: Text, front: seq<Text>, was: seq<Text>, back: seq<Text>,
                         front': seq<Text>, now: seq<Text>, back': seq<Text>)
    requires parentText != [] && Agree(front, front') && Agree(back, back')
    requires Lines(parentText) == front + (was + back) && Lines(newText) == front' + (now + back')
    requires var x, y := was + back, now + back'; x == [] || y == [] || !SameLine(x[0], y[0])
    requires was == [] || now == [] || !SameLine(was[|was| - 1], now[|now| - 1])
    ensures Added(parentText, newText) == Join(now, BREAK)
  {
    MiddleIsTheChange(front, was, back, front', now, back');
  }

  // Joined lines, cut between two of them: what stands before the second part and after the first.
  lemma JoinApart(a: seq<Text>, b: seq<Text>) returns (front: Text, back: Text)
    ensures b != [] ==> Join(a + b, BREAK) == front + Join(b, BREAK)
    ensures a != [] ==> Join(a + b, BREAK) == Join(a, BREAK) + back
  {
    if a == [] {
      assert a + b == b;
      front, back := [], Join(b, BREAK);
      assert Join(b, BREAK) == [] + Join(b, BREAK);
    } else if b == [] {
      assert a + b == a;
      front, back := Join(a, BREAK), [];
      assert Join(a, BREAK) == Join(a, BREAK) + [];
    } else {
      JoinConcat(a, b, BREAK);
      front, back := Join(a, BREAK) + BREAK, BREAK + Join(b, BREAK);
      assert Join(a, BREAK) + (BREAK + Join(b, BREAK)) == (Join(a, BREAK) + BREAK) + Join(b, BREAK);
    }
  }

  lemma RunIsPart(lines: seq<Text>, p: nat, end: nat) returns (before: Text, after: Text)
    requires p <= end <= |lines|
    ensures Join(lines, BREAK) == before + (Join(lines[p..end], BREAK) + after)
  {
    if p < end {
      assert lines == lines[..p] + lines[p..] && lines[p..] == lines[p..end] + lines[end..];
      before, after := RunOfThree(lines[..p], lines[p..end], lines[end..]);
    } else {
      before, after := Join(lines, BREAK), [];
      assert lines[p..end] == [] && before == before + ([] + []);
    }
  }

  lemma RunOfThree(front: seq<Text>, run: seq<Text>, back: seq<Text>) returns (before: Text, after: Text)
    requires run != []
    ensures Join(front + (run + back), BREAK) == before + (Join(run, BREAK) + after)
  {
    var rest;
    before, rest := JoinApart(front, run + back);
    rest, after := JoinApart(run, back);
  }

  // The added text stands in the new text as it is: nothing else is handed to the scan.
  lemma AddedIsPartOfTheText(parentText: Text, newText: Text) returns (before: Text, after: Text)
    ensures newText == before + (Added(parentText, newText) + after)
  {
    before, after := [], [];
    if parentText == [] {
      assert newText == [] + (newText + []);
    } else {
      var a, b := Lines(parentText), Lines(newText);
      var p := SharedFront(a, b, 0);
      JoinLines(newText);
      before, after := RunIsPart(b, p, |b| - SharedBack(a, b, p, 0));
    }
  }

  // The new text is published + added: each of its lines is a line of the published text, or one of the lines
  // handed to the scan, up to the end of the line; or it is empty.
  lemma EveryLinePublishedOrAdded(parentText: Text, newText: Text, i: nat)
    requires i < |Lines(newText)|
    ensures var line, added := Lines(newText)[i], Added(parentText, newText);
            || line == []
            || (parentText != [] && HasLine(Lines(parentText), line))
            || (added != [] && HasLine(Lines(added), line))
  {
    var a, b := Lines(parentText), Lines(newText);
    if parentText == [] {
      assert SameLine(b[i], b[i]);
    } else if b[i] != [] && !HasLine(a, b[i]) {
      var mid := Middle(a, b);
      MiddleOrShared(a, b, i);
      LinesHaveNoNewline(newText);
      LinesJoin(mid);
      assert Lines([]) == [[]];
      IsALine(mid, b[i]);
    }
  }

  lemma IsALine(lines: seq<Text>, line: Text)
    requires line in lines
    ensures HasLine(lines, line)
  {
    var i :| 0 <= i < |lines| && lines[i] == line;
    assert SameLine(lines[i], line);
  }

  // A text that a checkout or an attribute filter rewrote: the same lines up to their ends.
  predicate SameLines(a: Text, b: Text) {
    |Lines(a)| == |Lines(b)| && forall i :: 0 <= i < |Lines(a)| ==> SameLine(Lines(a)[i], Lines(b)[i])
  }

  lemma SameLinesTransitive(a: Text, b: Text, c: Text)
    requires SameLines(a, b) && SameLines(b, c)
    ensures SameLines(a, c)
  {
    forall i | 0 <= i < |Lines(a)| ensures SameLine(Lines(a)[i], Lines(c)[i]) {
      SameLineTransitive(Lines(a)[i], Lines(b)[i], Lines(c)[i]);
    }
  }
}
