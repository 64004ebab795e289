/**
 Division of a message by a polynomial over the integers modulo 2, one bit at a time, on an abstract register:
 what follows from the laws of exclusive or and of one division step alone.
 */
module BitDivision {

  // A register type T, a byte type B, and the operations a CRC computation uses on them.
  datatype Machine<!T(!new), !B(!new)> = Machine(
    xor: (T, T) -> T,
    step: T -> T,       // one division step
    unstep: T -> T,     // its inverse
    low: T -> T,        // the lowest bit alone
    down: T -> T,       // one place down
    lift: B -> T,       // a byte in the lowest places
    lowByte: T -> T,    // the lowest byte alone
    highBytes: T -> T,  // all but the lowest byte
    byteDown: T -> T,   // one byte down
    zero: T)
  {
    ghost predicate Associative() { forall a, b, c :: xor(xor(a, b), c) == xor(a, xor(b, c)) }

    ghost predicate HasZero() { forall a :: xor(a, zero) == a && xor(zero, a) == a && xor(a, a) == zero }

    ghost predicate XorLaws() { Associative() && HasZero() }

    ghost predicate Linear() { forall a, b :: step(xor(a, b)) == xor(step(a), step(b)) }

    ghost predicate Reversible() { forall a :: unstep(step(a)) == a }

    // Adding the rest of the bits after the step is adding all of them before it.
    ghost predicate TakesBits() { forall c, x :: xor(step(xor(c, low(x))), down(x)) == step(xor(c, x)) }

    ghost predicate StepLaws() { Linear() && Reversible() && TakesBits() }

    // w steps take in a byte, and move the other bytes down by one.
    ghost predicate TakesBytes(w: nat) { forall b :: Down(this, lift(b), w) == zero }

    ghost predicate Splits() { forall x :: xor(lowByte(x), highBytes(x)) == x }

    ghost predicate MovesBytes(w: nat) { forall x :: Shifts(this, highBytes(x), w) == byteDown(x) }

    ghost predicate ByteLaws(w: nat) { TakesBytes(w) && Splits() && MovesBytes(w) }

    ghost predicate Lawful(w: nat) { XorLaws() && StepLaws() && ByteLaws(w) }
  }

  function Shifts<T(!new), B(!new)>(m: Machine<T, B>, c: T, n: nat): T
    decreases n
  {
    if n == 0 then c else Shifts(m, m.step(c), n - 1)
  }

  function Down<T(!new), B(!new)>(m: Machine<T, B>, x: T, n: nat): T
    decreases n
  {
    if n == 0 then x else Down(m, m.down(x), n - 1)
  }

  // n message bits, lowest first, each added to the register before a step.
  function FeedBits<T(!new), B(!new)>(m: Machine<T, B>, c: T, bits: T, n: nat): T
    decreases n
  {
    if n == 0 then c else FeedBits(m, m.step(m.xor(c, m.low(bits))), m.down(bits), n - 1)
  }

  function Feed<T(!new), B(!new)>(m: Machine<T, B>, c: T, data: seq<B>, w: nat): T
    decreases |data|
  {
    if data == [] then c else Feed(m, FeedBits(m, c, m.lift(data[0]), w), data[1..], w)
  }

  // ------------------------------------------------------------------- linearity ---

  lemma {:induction false} ShiftsAreLinear<T(!new), B(!new)>(m: Machine<T, B>, a: T, b: T, n: nat)
    requires m.Linear()
    ensures Shifts(m, m.xor(a, b), n) == m.xor(Shifts(m, a, n), Shifts(m, b, n))
    decreases n
  {
    if n > 0 { ShiftsAreLinear(m, m.step(a), m.step(b), n - 1); }
  }

  lemma {:induction false} ShiftsAreInjective<T(!new), B(!new)>(m: Machine<T, B>, a: T, b: T, n: nat)
    requires m.StepLaws() && Shifts(m, a, n) == Shifts(m, b, n)
    ensures a == b
    decreases n
  {
    if n > 0 {
      ShiftsAreInjective(m, m.step(a), m.step(b), n - 1);
      assert m.unstep(m.step(a)) == a && m.unstep(m.step(b)) == b;
    }
  }

  lemma Cancel<T(!new), B(!new)>(m: Machine<T, B>, a: T, b: T, c: T)
    requires m.XorLaws() && (m.xor(a, c) == m.xor(b, c) || m.xor(c, a) == m.xor(c, b))
    ensures a == b
  {
    assert m.xor(m.xor(c, c), a) == m.xor(c, m.xor(c, a)) && m.xor(m.xor(c, c), b) == m.xor(c, m.xor(c, b));
    assert m.xor(m.xor(a, c), c) == m.xor(a, m.xor(c, c)) == a;
    assert m.xor(m.xor(b, c), c) == m.xor(b, m.xor(c, c)) == b;
  }

  // ---------------------------------------------------------------- a byte at a time ---

  lemma {:induction false} FeedBitsIsShifts<T(!new), B(!new)>(m: Machine<T, B>, c: T, bits: T, n: nat)
    requires m.StepLaws()
    ensures m.xor(FeedBits(m, c, bits, n), Down(m, bits, n)) == Shifts(m, m.xor(c, bits), n)
    decreases n
  {
    if n > 0 { FeedBitsIsShifts(m, m.step(m.xor(c, m.low(bits))), m.down(bits), n - 1); }
  }

  lemma FeedByte<T(!new), B(!new)>(m: Machine<T, B>, c: T, b: B, w: nat)
    requires m.Lawful(w)
    ensures FeedBits(m, c, m.lift(b), w) == Shifts(m, m.xor(c, m.lift(b)), w)
  {
    FeedBitsIsShifts(m, c, m.lift(b), w);
  }

  // The table's way: the entry of the lowest byte, and the other bytes one byte down.
  lemma TableStep<T(!new), B(!new)>(m: Machine<T, B>, c: T, b: B, w: nat)
    requires m.Lawful(w)
    ensures var x := m.xor(c, m.lift(b));
      FeedBits(m, c, m.lift(b), w) == m.xor(Shifts(m, m.lowByte(x), w), m.byteDown(x))
  {
    var x := m.xor(c, m.lift(b));
    FeedByte(m, c, b, w);
    ShiftsAreLinear(m, m.lowByte(x), m.highBytes(x), w);
  }

  // -------------------------------------------------------------------- detection ---

  lemma {:induction false} FeedConcat<T(!new), B(!new)>(m: Machine<T, B>, c: T, a: seq<B>, b: seq<B>, w: nat)
    ensures Feed(m, c, a + b, w) == Feed(m, Feed(m, c, a, w), b, w)
    decreases |a|
  {
    if a == [] {
      assert a + b == b;
    } else {
      assert (a + b)[0] == a[0] && (a + b)[1..] == a[1..] + b;
      FeedConcat(m, FeedBits(m, c, m.lift(a[0]), w), a[1..], b, w);
    }
  }

  lemma {:induction false} FeedIsInjective<T(!new), B(!new)>(m: Machine<T, B>, c: T, d: T, data: seq<B>, w: nat)
    requires m.Lawful(w) && Feed(m, c, data, w) == Feed(m, d, data, w)
    ensures c == d
    decreases |data|
  {
    if data != [] {
      var b := m.lift(data[0]);
      FeedIsInjective(m, FeedBits(m, c, b, w), FeedBits(m, d, b, w), data[1..], w);
      FeedByte(m, c, data[0], w);
      FeedByte(m, d, data[0], w);
      ShiftsAreInjective(m, m.xor(c, b), m.xor(d, b), w);
      Cancel(m, c, d, b);
    }
  }

  // up moves a register one byte up: w steps bring it back when nothing was lost.
  ghost predicate Returns<T(!new), B(!new)>(m: Machine<T, B>, up: T -> T, x: T, w: nat) {
    Shifts(m, up(x), w) == x
  }

  // Some bytes as one register, the first in the lowest places.
  function Word<T(!new), B(!new)>(m: Machine<T, B>, up: T -> T, bytes: seq<B>): T {
    if bytes == [] then m.zero else m.xor(m.lift(bytes[0]), up(Word(m, up, bytes[1..])))
  }

  // n times w steps.
  function ByteShifts<T(!new), B(!new)>(m: Machine<T, B>, c: T, n: nat, w: nat): T
    decreases n
  {
    if n == 0 then c else ByteShifts(m, Shifts(m, c, w), n - 1, w)
  }

  lemma {:induction false} ByteShiftsAreInjective<T(!new), B(!new)>(m: Machine<T, B>, a: T, b: T, n: nat, w: nat)
    requires m.StepLaws() && ByteShifts(m, a, n, w) == ByteShifts(m, b, n, w)
    ensures a == b
    decreases n
  {
    if n > 0 {
      ByteShiftsAreInjective(m, Shifts(m, a, w), Shifts(m, b, w), n - 1, w);
      ShiftsAreInjective(m, a, b, w);
    }
  }

  // As long as no byte is pushed out at the top, feeding bytes is stepping over their word.
  lemma {:induction false} FeedWord<T(!new), B(!new)>(m: Machine<T, B>, up: T -> T, c: T, bytes: seq<B>, w: nat)
    requires m.Lawful(w)
    requires forall i :: 0 < i <= |bytes| ==> Returns(m, up, Word(m, up, bytes[i..]), w)
    ensures Feed(m, c, bytes, w) == ByteShifts(m, m.xor(c, Word(m, up, bytes)), |bytes|, w)
    decreases |bytes|
  {
    if bytes != [] {
      var rest := bytes[1..];
      forall i | 0 < i <= |rest| ensures Returns(m, up, Word(m, up, rest[i..]), w) {
        assert rest[i..] == bytes[i + 1..];
      }
      assert Returns(m, up, Word(m, up, bytes[1..]), w);
      FeedByte(m, c, bytes[0], w);
      FeedWord(m, up, Shifts(m, m.xor(c, m.lift(bytes[0])), w), rest, w);
      NextByte(m, c, m.lift(bytes[0]), up(Word(m, up, rest)), w);
    }
  }

  lemma NextByte<T(!new), B(!new)>(m: Machine<T, B>, c: T, b: T, high: T, w: nat)
    requires m.Associative() && m.Linear()
    ensures m.xor(Shifts(m, m.xor(c, b), w), Shifts(m, high, w)) == Shifts(m, m.xor(c, m.xor(b, high)), w)
  {
    ShiftsAreLinear(m, m.xor(c, b), high, w);
  }

  lemma {:induction false} FeedSandwich<T(!new), B(!new)>(m: Machine<T, B>, start: T, before: seq<B>, u: seq<B>, after: seq<B>, w: nat)
    ensures Feed(m, start, before + u + after, w) == Feed(m, Feed(m, Feed(m, start, before, w), u, w), after, w)
  {
    FeedConcat(m, start, before + u, after, w);
    FeedConcat(m, start, before, u, w);
  }

  lemma SameFeedSameWord<T(!new), B(!new)>(m: Machine<T, B>, up: T -> T, c: T, u: seq<B>, v: seq<B>, w: nat)
    requires m.Lawful(w) && |u| == |v| && Feed(m, c, u, w) == Feed(m, c, v, w)
    requires forall i :: 0 < i <= |u| ==> Returns(m, up, Word(m, up, u[i..]), w)
    requires forall i :: 0 < i <= |v| ==> Returns(m, up, Word(m, up, v[i..]), w)
    ensures Word(m, up, u) == Word(m, up, v)
  {
    var x, y := Word(m, up, u), Word(m, up, v);
    FeedWord(m, up, c, u, w);
    FeedWord(m, up, c, v, w);
    ByteShiftsAreInjective(m, m.xor(c, x), m.xor(c, y), |u|, w);
    Cancel(m, x, y, c);
  }

  // The bytes between the same prefix and suffix are told apart by the register, as far as their words are.
  lemma SameRegisterSameWord<T(!new), B(!new)>(m: Machine<T, B>, up: T -> T, start: T, before: seq<B>, u: seq<B>,
                                               v: seq<B>, after: seq<B>, w: nat)
    requires m.Lawful(w) && |u| == |v|
    requires forall i :: 0 < i <= |u| ==> Returns(m, up, Word(m, up, u[i..]), w)
    requires forall i :: 0 < i <= |v| ==> Returns(m, up, Word(m, up, v[i..]), w)
    requires Feed(m, start, before + u + after, w) == Feed(m, start, before + v + after, w)
    ensures Word(m, up, u) == Word(m, up, v)
  {
    var c := Feed(m, start, before, w);
    FeedSandwich(m, start, before, u, after, w);
    FeedSandwich(m, start, before, v, after, w);
    FeedIsInjective(m, Feed(m, c, u, w), Feed(m, c, v, w), after, w);
    SameFeedSameWord(m, up, c, u, v, w);
  }

  // A byte and a word above it can be told from what they make together.
  ghost predicate Separates<T(!new), B(!new)>(m: Machine<T, B>, up: T -> T, small: T -> bool) {
    forall a, x, b, y :: small(x) && small(y) && m.xor(m.lift(a), up(x)) == m.xor(m.lift(b), up(y)) ==> a == b && x == y
  }

  lemma {:induction false} WordIsInjective<T(!new), B(!new)>(m: Machine<T, B>, up: T -> T, small: T -> bool, u: seq<B>, v: seq<B>)
    requires Separates(m, up, small) && |u| == |v| && Word(m, up, u) == Word(m, up, v)
    requires forall i :: 0 < i <= |u| ==> small(Word(m, up, u[i..]))
    requires forall i :: 0 < i <= |v| ==> small(Word(m, up, v[i..]))
    ensures u == v
  {
    if u != [] {
      var p, q := u[1..], v[1..];
      forall i | 0 < i <= |p| ensures small(Word(m, up, p[i..])) { assert p[i..] == u[i + 1..]; }
      forall i | 0 < i <= |q| ensures small(Word(m, up, q[i..])) { assert q[i..] == v[i + 1..]; }
      assert small(Word(m, up, u[1..])) && small(Word(m, up, v[1..]));
      WordIsInjective(m, up, small, p, q);
      assert u == [u[0]] + p && v == [v[0]] + q;
    }
  }
}
