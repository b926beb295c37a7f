/** Shared vocabulary: optional values, native window handles, the C# `int`
    type with its unchecked wrap-around, and duplicate-free sequences. */
module Common {

  datatype Option<+T> = None | Some(value: T)

  /** An opaque native window handle (`IntPtr`). Equality is identity. */
  type Handle = nat

  /** `IntPtr.Zero`: the value `FindWindow` returns when nothing matches. */
  const NullHandle: Handle := 0

  const Int32Min: int := -0x8000_0000
  const Int32Max: int := 0x7fff_ffff
  const Int32Modulus: int := 0x1_0000_0000

  /** The C# `int` type: 32-bit two's complement. */
  newtype int32 = x: int | -0x8000_0000 <= x < 0x8000_0000

  /** `x++` on a C# `int` in the default unchecked context: the maximum
      wraps to the minimum. */
  function Increment(x: int32): (r: int32)
    ensures (r as int - x as int - 1) % Int32Modulus == 0
    ensures r != x
  {
    if x as int == Int32Max then Int32Min as int32 else x + 1
  }

  /** Two values in the 32-bit range that agree modulo 2^32 are equal. */
  lemma CongruentInRangeAreEqual(a: int, b: int)
    requires Int32Min <= a <= Int32Max && Int32Min <= b <= Int32Max
    requires (a - b) % Int32Modulus == 0
    ensures a == b
  {
  }

  /** Differences that are multiples of 2^32 add up to a multiple of 2^32. */
  lemma CongruenceAdd(x: int, y: int)
    requires x % Int32Modulus == 0 && y % Int32Modulus == 0
    ensures (x + y) % Int32Modulus == 0
  {
    var a, b := x / Int32Modulus, y / Int32Modulus;
    assert x + y == (a + b) * Int32Modulus;
  }

  /** A sequence in which every element occurs at most once has no
      duplicates. */
  lemma {:induction false} NoDupFromCounts<T>(s: seq<T>)
    requires forall i :: 0 <= i < |s| ==> multiset(s)[s[i]] <= 1
    ensures NoDup(s)
  {
    forall i, j | 0 <= i < j < |s|
      ensures s[i] != s[j]
    {
      assert s == s[..j] + s[j..];
      assert s[i] in s[..j] && s[j] in s[j..];
    }
  }

  /** A sequence in which no element occurs twice. */
  predicate NoDup<T(==)>(s: seq<T>)
  {
    forall i, j :: 0 <= i < j < |s| ==> s[i] != s[j]
  }

  lemma NoDupAppend<T>(s: seq<T>, x: T)
    requires NoDup(s)
    requires x !in s
    ensures NoDup(s + [x])
  {
  }

  /** The elements of a sequence as a set. */
  function Elements<T>(s: seq<T>): set<T>
  {
    set x | x in s
  }

  /** A duplicate-free sequence has as many elements as its set. */
  lemma {:induction false} NoDupCardinality<T>(s: seq<T>)
    requires NoDup(s)
    ensures |Elements(s)| == |s|
  {
    if |s| > 0 {
      var init := s[..|s| - 1];
      assert NoDup(init);
      NoDupCardinality(init);
      assert s == init + [s[|s| - 1]];
      assert Elements(s) == Elements(init) + {s[|s| - 1]};
      assert s[|s| - 1] !in Elements(init);
    }
  }
}
