/** Values the Go code handles: byte strings, optional values and the two library
    helpers whose results the controllers store (hexadecimal printing, splitting). */
module GoValues {

  type Byte = x: int | 0 <= x < 256

  /** A Go string is a sequence of bytes, whatever its encoding. */
  type GoString = seq<Byte>

  datatype Option<+T> = None | Some(value: T)

  datatype Result<+T> = Ok(value: T) | Error

  const SPACE: Byte := 32
  const DASHES: GoString := [45, 45]

  function HexDigit(v: int): (b: Byte)
    requires 0 <= v < 16
    ensures b != SPACE
  {
    if v < 10 then 48 + v else 87 + v
  }

  /** What `%x` and `hex.EncodeToString` print. */
  function Hex(s: seq<Byte>): (r: GoString)
    ensures |r| == 2 * |s|
  {
    if s == [] then [] else [HexDigit(s[0] / 16), HexDigit(s[0] % 16)] + Hex(s[1..])
  }

  /** What `strings.Split(s, sep)` returns for a one-byte separator: always at least one part. */
  function Split(s: GoString, sep: Byte): (parts: seq<GoString>)
    ensures |parts| >= 1
  {
    if s == [] then [[]]
    else
      var rest := Split(s[1..], sep);
      if s[0] == sep then [[]] + rest else [[s[0]] + rest[0]] + rest[1..]
  }

  lemma {:induction false} SplitWithoutSeparator(s: GoString, sep: Byte)
    requires sep !in s
    ensures Split(s, sep) == [s]
  {
    if s != [] {
      SplitWithoutSeparator(s[1..], sep);
      assert s == [s[0]] + s[1..];
    }
  }

  /** Joining two separator-free halves and splitting again gives the two halves back. */
  lemma {:induction false} SplitJoined(a: GoString, b: GoString, sep: Byte)
    requires sep !in a && sep !in b
    ensures Split(a + [sep] + b, sep) == [a, b]
  {
    var s := a + [sep] + b;
    if a == [] {
      assert s[1..] == b;
      SplitWithoutSeparator(b, sep);
    } else {
      assert s[1..] == a[1..] + [sep] + b;
      SplitJoined(a[1..], b, sep);
      assert a == [a[0]] + a[1..];
    }
  }

  /** The elements of a Go slice used as a set. */
  function Elements<T>(s: seq<T>): set<T> {
    set x | x in s
  }

  lemma ElementsOfSum<T>(a: seq<T>, b: seq<T>)
    ensures Elements(a + b) == Elements(a) + Elements(b)
  {
    assert forall x :: x in a + b <==> x in a || x in b;
  }

  predicate NoDuplicates<T(==)>(s: seq<T>) {
    forall i, j :: 0 <= i < j < |s| ==> s[i] != s[j]
  }

  /** The bytes of an ASCII text. */
  function Ascii(text: string): (s: GoString)
    requires forall i :: 0 <= i < |text| ==> text[i] < 128 as char
    ensures |s| == |text| && forall i :: 0 <= i < |s| ==> s[i] == text[i] as int
  {
    seq(|text|, i requires 0 <= i < |text| => text[i] as int)
  }

  const HEX_DIGITS := "0123456789abcdef"

  /** Byte by byte, two lower-case digits, the high one first. */
  lemma {:induction false} HexAt(s: seq<Byte>, i: nat)
    requires i < |s|
    ensures Hex(s)[2 * i] == HEX_DIGITS[s[i] / 16] as int && Hex(s)[2 * i + 1] == HEX_DIGITS[s[i] % 16] as int
  {
    if i > 0 {
      HexAt(s[1..], i - 1);
      assert Hex(s)[2..] == Hex(s[1..]);
      assert Hex(s)[2 * i] == Hex(s[1..])[2 * (i - 1)] && Hex(s)[2 * i + 1] == Hex(s[1..])[2 * (i - 1) + 1];
    }
  }

  lemma HexDigitsDiffer(a: int, b: int)
    requires 0 <= a < 16 && 0 <= b < 16 && HEX_DIGITS[a] == HEX_DIGITS[b]
    ensures a == b
  {
    assert HexDigit(a) == HexDigit(b);
  }

  /** Different bytes print differently, so no randomness is lost. */
  lemma HexInjective(s: seq<Byte>, t: seq<Byte>)
    ensures Hex(s) == Hex(t) ==> s == t
  {
    if Hex(s) == Hex(t) {
      forall i | 0 <= i < |s|
        ensures s[i] == t[i]
      {
        HexAt(s, i);
        HexAt(t, i);
        HexDigitsDiffer(s[i] / 16, t[i] / 16);
        HexDigitsDiffer(s[i] % 16, t[i] % 16);
      }
    }
  }

  /** A string splits into one part more than it has separators. */
  lemma {:induction false} SplitCount(s: GoString, sep: Byte)
    ensures |Split(s, sep)| == 1 + multiset(s)[sep]
  {
    if s != [] {
      SplitCount(s[1..], sep);
      assert s == [s[0]] + s[1..];
    }
  }
}
