/** Padded base64 with the standard alphabet (section 4 of RFC 4648), as Go's
    `base64.StdEncoding` reads and writes it: the decoder skips carriage returns and
    line feeds, and does not look at the unused low bits before padding. */
module Base64 {
  import opened GoValues

  const PAD: Byte := 61

  function Digit(v: int): (b: Byte)
    requires 0 <= v < 64
    ensures b != SPACE && b != PAD && b != 10 && b != 13
  {
    if v < 26 then 65 + v
    else if v < 52 then 71 + v
    else if v < 62 then v - 4
    else if v == 62 then 43
    else 47
  }

  function Value(b: Byte): (v: Option<int>)
    ensures v.Some? ==> 0 <= v.value < 64 && Digit(v.value) == b
  {
    if 65 <= b <= 90 then Some(b - 65)
    else if 97 <= b <= 122 then Some(b - 71)
    else if 48 <= b <= 57 then Some(b + 4)
    else if b == 43 then Some(62)
    else if b == 47 then Some(63)
    else None
  }

  /** The four digits of three bytes. */
  function Quad(x: Byte, y: Byte, z: Byte): (q: GoString)
    ensures |q| == 4
  {
    [Digit(x / 4), Digit(x % 4 * 16 + y / 16), Digit(y % 16 * 4 + z / 64), Digit(z % 64)]
  }

  function Encode(s: seq<Byte>): (r: GoString)
    ensures SPACE !in r && 10 !in r && 13 !in r
    ensures |r| == (|s| + 2) / 3 * 4
  {
    if s == [] then []
    else if |s| == 1 then Quad(s[0], 0, 0)[..2] + [PAD, PAD]
    else if |s| == 2 then Quad(s[0], s[1], 0)[..3] + [PAD]
    else Quad(s[0], s[1], s[2]) + Encode(s[3..])
  }

  /** The three bytes of four digit values. */
  function Triple(a: int, b: int, c: int, d: int): (t: seq<Byte>)
    requires 0 <= a < 64 && 0 <= b < 64 && 0 <= c < 64 && 0 <= d < 64
    ensures |t| == 3
  {
    [a * 4 + b / 16, b % 16 * 16 + c / 4, c % 4 * 64 + d]
  }

  function DecodeQuads(s: GoString): (r: Option<seq<Byte>>) {
    if s == [] then Some([])
    else if |s| < 4 then None
    else
      var (a, b, c, d) := (Value(s[0]), Value(s[1]), Value(s[2]), Value(s[3]));
      if a.None? || b.None? then None
      else if s[3] == PAD && |s| == 4 then
        if s[2] == PAD then Some(Triple(a.value, b.value, 0, 0)[..1])
        else if c.Some? then Some(Triple(a.value, b.value, c.value, 0)[..2])
        else None
      else if c.None? || d.None? then None
      else
        var rest := DecodeQuads(s[4..]);
        if rest.None? then None else Some(Triple(a.value, b.value, c.value, d.value) + rest.value)
  }

  /** Decoding takes whole quads and gives at most three bytes for each. */
  lemma {:induction false} DecodedSize(s: GoString)
    requires DecodeQuads(s).Some?
    ensures |s| % 4 == 0 && |DecodeQuads(s).value| <= |s| / 4 * 3
  {
    hide Triple, Value, Digit;
    if |s| > 4 {
      var rest := s[4..];
      assert |rest| == |s| - 4 && |DecodeQuads(s).value| == 3 + |DecodeQuads(rest).value|;
      hide DecodeQuads;
      DecodedSize(rest);
      assert |s| / 4 == |rest| / 4 + 1;
    }
  }

  function StripNewlines(s: GoString): (r: GoString)
    ensures |r| <= |s|
    ensures 10 !in s && 13 !in s ==> r == s
  {
    if s == [] then []
    else if s[0] == 10 || s[0] == 13 then StripNewlines(s[1..])
    else [s[0]] + StripNewlines(s[1..])
  }

  lemma {:induction false} StripOfSum(a: GoString, b: GoString)
    ensures StripNewlines(a + b) == StripNewlines(a) + StripNewlines(b)
  {
    if a == [] {
      assert a + b == b;
    } else {
      var s := a + b;
      assert s[0] == a[0] && s[1..] == a[1..] + b;
      StripOfSum(a[1..], b);
      var first: GoString := if a[0] == 10 || a[0] == 13 then [] else [a[0]];
      assert StripNewlines(s) == first + StripNewlines(s[1..]) && StripNewlines(a) == first + StripNewlines(a[1..]);
      hide StripNewlines;
    }
  }

  /** `base64.StdEncoding.DecodeString`. */
  function Decode(s: GoString): (r: Option<seq<Byte>>)
    ensures r.Some? ==> |r.value| <= DecodedLen(|s|)
  {
    hide DecodeQuads;
    var stripped := StripNewlines(s);
    var r := DecodeQuads(stripped);
    assert r.Some? ==> |r.value| <= DecodedLen(|s|) by {
      if r.Some? {
        DecodedSize(stripped);
      }
    }
    r
  }

  /** Line ends anywhere make no difference to what is read. */
  lemma NewlinesDoNotCount(a: GoString, b: GoString, end: Byte)
    requires end == 10 || end == 13
    ensures Decode(a + [end] + b) == Decode(a + b)
  {
    assert [end][1..] == [];
    assert StripNewlines([end]) == [];
    hide StripNewlines, DecodeQuads;
    StripOfSum(a + [end], b);
    StripOfSum(a, [end]);
    StripOfSum(a, b);
    assert StripNewlines(a + [end] + b) == StripNewlines(a + b);
  }

  /** The buffer size `DecodeString` allocates; the decoded bytes may fill less of it. */
  function DecodedLen(n: nat): nat {
    n / 4 * 3
  }

  lemma DigitInverts(v: int)
    requires 0 <= v < 64
    ensures Value(Digit(v)) == Some(v)
  {
  }

  lemma TripleInverts(x: Byte, y: Byte, z: Byte)
    ensures Triple(x / 4, x % 4 * 16 + y / 16, y % 16 * 4 + z / 64, z % 64) == [x, y, z]
  {
    assert (x % 4 * 16 + y / 16) / 16 == x % 4;
    assert (x % 4 * 16 + y / 16) % 16 == y / 16;
    assert (y % 16 * 4 + z / 64) / 4 == y % 16;
    assert (y % 16 * 4 + z / 64) % 4 == z / 64;
  }

  /** Reading four digits of three bytes gives back the values they were made of. */
  lemma QuadInverts(x: Byte, y: Byte, z: Byte)
    ensures var q := Quad(x, y, z);
            && Value(q[0]) == Some(x / 4)
            && Value(q[1]) == Some(x % 4 * 16 + y / 16)
            && Value(q[2]) == Some(y % 16 * 4 + z / 64)
            && Value(q[3]) == Some(z % 64)
  {
    DigitInverts(x / 4);
    DigitInverts(x % 4 * 16 + y / 16);
    DigitInverts(y % 16 * 4 + z / 64);
    DigitInverts(z % 64);
  }

  lemma OneByteRoundTrip(x: Byte)
    ensures DecodeQuads(Quad(x, 0, 0)[..2] + [PAD, PAD]) == Some([x])
  {
    QuadInverts(x, 0, 0);
    var e := Quad(x, 0, 0)[..2] + [PAD, PAD];
    assert DecodeQuads(e) == Some(Triple(x / 4, x % 4 * 16, 0, 0)[..1]);
    assert Triple(x / 4, x % 4 * 16, 0, 0)[..1] == [x];
  }

  lemma TwoBytesRoundTrip(x: Byte, y: Byte)
    ensures DecodeQuads(Quad(x, y, 0)[..3] + [PAD]) == Some([x, y])
  {
    QuadInverts(x, y, 0);
    TripleInverts(x, y, 0);
    var e := Quad(x, y, 0)[..3] + [PAD];
    assert DecodeQuads(e) == Some(Triple(x / 4, x % 4 * 16 + y / 16, y % 16 * 4, 0)[..2]);
    assert [x, y, 0][..2] == [x, y];
  }

  /** Four digits in front are read as three bytes, whatever follows them. */
  lemma FourDigits(s: GoString)
    requires |s| >= 4
    requires forall k :: 0 <= k < 4 ==> Value(s[k]).Some?
    ensures var rest := DecodeQuads(s[4..]);
            DecodeQuads(s) ==
            if rest.None? then None
            else Some(Triple(Value(s[0]).value, Value(s[1]).value, Value(s[2]).value, Value(s[3]).value)
                      + rest.value)
  {
    hide Triple, Digit;
    assert Value(PAD).None?;
  }

  lemma QuadThenRest(x: Byte, y: Byte, z: Byte, e: GoString)
    ensures var rest := DecodeQuads(e);
            DecodeQuads(Quad(x, y, z) + e) == if rest.None? then None else Some([x, y, z] + rest.value)
  {
    hide Quad, Triple, Value, Digit, DecodeQuads;
    var q := Quad(x, y, z);
    var s := q + e;
    QuadInverts(x, y, z);
    TripleInverts(x, y, z);
    assert s[0] == q[0] && s[1] == q[1] && s[2] == q[2] && s[3] == q[3];
    assert s[4..] == e;
    FourDigits(s);
  }

  lemma {:induction false} QuadsRoundTrip(s: seq<Byte>)
    ensures DecodeQuads(Encode(s)) == Some(s)
  {
    hide Quad, Triple, Value, Digit;
    if s == [] {
    } else if |s| == 1 {
      OneByteRoundTrip(s[0]);
      assert s == [s[0]];
    } else if |s| == 2 {
      TwoBytesRoundTrip(s[0], s[1]);
      assert s == [s[0], s[1]];
    } else {
      QuadsRoundTrip(s[3..]);
      QuadThenRest(s[0], s[1], s[2], Encode(s[3..]));
      assert s == [s[0], s[1], s[2]] + s[3..];
    }
  }

  /** Decoding what was encoded gives the bytes back, for every byte string. */
  lemma RoundTrip(s: seq<Byte>)
    ensures Decode(Encode(s)) == Some(s)
  {
    QuadsRoundTrip(s);
  }

  // ---------------------------------------------------------------- against the standard

  const UPPER := "ABCDEFGHIJKLMNOPQRSTUVWXYZ"
  const LOWER := "abcdefghijklmnopqrstuvwxyz"
  const DECIMAL := "0123456789"

  /** Table 1 of RFC 4648. */
  lemma AlphabetOfTheStandard(v: int)
    requires 0 <= v < 64
    ensures Digit(v) == (if v < 26 then UPPER[v]
                         else if v < 52 then LOWER[v - 26]
                         else if v < 62 then DECIMAL[v - 52]
                         else if v == 62 then '+' else '/') as int
  {
    assert v < 26 ==> UPPER[v] == ('A' as int + v) as char;
    assert 26 <= v < 52 ==> LOWER[v - 26] == ('a' as int + v - 26) as char;
    assert 52 <= v < 62 ==> DECIMAL[v - 52] == ('0' as int + v - 52) as char;
  }

  /** Every string that is read has a length divisible by four, and digits of the alphabet up to
      at most two padding characters at its end; and every such string is read. */
  predicate WellFormed(s: GoString) {
    exists padding: nat :: padding <= 2 && PaddedDigits(s, padding)
  }

  predicate PaddedDigits(s: GoString, padding: nat) {
    && |s| % 4 == 0 && padding <= |s|
    && (forall i :: 0 <= i < |s| - padding ==> Value(s[i]).Some?)
    && (forall i :: |s| - padding <= i < |s| ==> s[i] == PAD)
  }

  lemma {:induction false} ReadIffWellFormed(s: GoString)
    ensures DecodeQuads(s).Some? <==> WellFormed(s)
  {
    hide Value, Triple;
    assert Value(PAD).None?;
    if s == [] {
      assert PaddedDigits(s, 0);
    } else if |s| == 4 {
      assert PaddedDigits(s, 0) || PaddedDigits(s, 1) || PaddedDigits(s, 2) <==> WellFormed(s);
    } else if |s| > 4 {
      ReadIffWellFormed(s[4..]);
      WellFormedRest(s);
    }
  }

  lemma WellFormedRest(s: GoString)
    requires |s| > 4
    ensures WellFormed(s) <==> WellFormed(s[4..]) && forall i :: 0 <= i < 4 ==> Value(s[i]).Some?
  {
    hide Value;
    assert Value(PAD).None?;
    var rest := s[4..];
    forall padding: nat | padding <= 2
      ensures PaddedDigits(s, padding) <==>
                PaddedDigits(rest, padding) && forall i :: 0 <= i < 4 ==> Value(s[i]).Some?
    {
      assert forall i :: 4 <= i < |s| ==> s[i] == rest[i - 4];
      assert forall i :: 0 <= i < |rest| ==> rest[i] == s[i + 4];
    }
  }

  /** Test vectors of section 10 of RFC 4648: "f", "fo" and "foobar"; and an encoding of "f"
      whose unused bits are not zero. */
  lemma TestVectors()
    ensures Encode([102]) == Ascii("Zg==")
    ensures Encode([102, 111]) == Ascii("Zm8=")
    ensures Encode([102, 111, 111, 98, 97, 114]) == Ascii("Zm9vYmFy")
    ensures Decode(Ascii("Zh==")) == Some([102])
  {
    hide Encode, Decode, Ascii;
    ShortVectors();
    LongVector();
    UnusedBits();
  }

  lemma ShortVectors()
    ensures Encode([102]) == Ascii("Zg==") && Encode([102, 111]) == Ascii("Zm8=")
  {
    assert Quad(102, 0, 0) == [90, 103, 65, 65] && Quad(102, 111, 0) == [90, 109, 56, 65];
    assert Ascii("Zg==") == [90, 103, 61, 61] && Ascii("Zm8=") == [90, 109, 56, 61];
  }

  lemma LongVector()
    ensures Encode([102, 111, 111, 98, 97, 114]) == Ascii("Zm9vYmFy")
  {
    var s: seq<Byte> := [102, 111, 111, 98, 97, 114];
    assert Quad(102, 111, 111) == [90, 109, 57, 118] && Quad(98, 97, 114) == [89, 109, 70, 121];
    assert Ascii("Zm9vYmFy") == [90, 109, 57, 118, 89, 109, 70, 121];
    hide Quad, Digit, Ascii;
    assert s[3..] == [98, 97, 114] && s[3..][3..] == [];
    assert Encode(s[3..]) == Quad(98, 97, 114) + Encode(s[3..][3..]);
    assert Encode(s) == Quad(102, 111, 111) + Encode(s[3..]);
  }

  lemma UnusedBits()
    ensures Decode(Ascii("Zh==")) == Some([102])
  {
    var s: GoString := [90, 104, 61, 61];
    assert Ascii("Zh==") == s;
    assert Value(90) == Some(25) && Value(104) == Some(33);
    assert Triple(25, 33, 0, 0)[..1] == [102];
    hide Value, Triple;
    assert DecodeQuads(s) == Some(Triple(25, 33, 0, 0)[..1]);
  }
}
