/** Shared vocabulary: optional values, results, and JavaScript text. */
module Basics {

  datatype Option<+T> = None | Some(value: T)

  datatype Result<+T, +E> = Ok(value: T) | Err(error: E)

  function Min(a: int, b: int): int { if a <= b then a else b }

  function Max(a: int, b: int): int { if a >= b then a else b }

  // A JavaScript string is a sequence of UTF-16 code units, lone surrogates included.
  type Unit = u: int | 0 <= u < 0x1_0000

  type Text = seq<Unit>

  const NEWLINE: Unit := 0x0a
  const RETURN: Unit := 0x0d

  predicate HighSurrogate(u: Unit) { 0xd800 <= u <= 0xdbff }

  predicate LowSurrogate(u: Unit) { 0xdc00 <= u <= 0xdfff }

  predicate NoDuplicates<T(==)>(s: seq<T>) {
    forall i, j :: 0 <= i < j < |s| ==> s[i] != s[j]
  }

  // Array#join
  // An ASCII string, unit by unit.
  predicate Spells(w: string, t: Text) {
    |w| == |t| && forall i :: 0 <= i < |t| ==> w[i] as int == t[i]
  }

  function Join<T>(parts: seq<seq<T>>, sep: seq<T>): seq<T> {
    if parts == [] then []
    else if |parts| == 1 then parts[0]
    else parts[0] + (sep + Join(parts[1..], sep))
  }

  lemma {:induction false} JoinConcat<T>(a: seq<seq<T>>, b: seq<seq<T>>, sep: seq<T>)
    requires a != [] && b != []
    ensures Join(a + b, sep) == Join(a, sep) + (sep + Join(b, sep))
  {
    if |a| == 1 {
      assert (a + b)[1..] == b;
    } else {
      var rest := Join(a[1..], sep);
      assert (a + b)[1..] == a[1..] + b;
      JoinConcat(a[1..], b, sep);
      assert a[0] + (sep + (rest + (sep + Join(b, sep)))) == (a[0] + (sep + rest)) + (sep + Join(b, sep));
    }
  }
}
