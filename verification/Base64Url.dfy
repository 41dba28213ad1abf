/** The unpadded base64url form of section 5 of RFC 4648, as Node's `base64url` writes and reads it. */
module Base64Url {
  import opened Wire

  newtype Sextet = n: int | 0 <= n < 64

  function Digit(n: Sextet): char {
    var k := n as int;
    if k < 26 then ('A' as int + k) as char
    else if k < 52 then ('a' as int + (k - 26)) as char
    else if k < 62 then ('0' as int + (k - 52)) as char
    else if k == 62 then '-'
    else '_'
  }

  predicate InAlphabet(c: char) {
    'A' <= c <= 'Z' || 'a' <= c <= 'z' || '0' <= c <= '9' || c == '-' || c == '_'
  }

  function Value(c: char): Sextet
    requires InAlphabet(c)
  {
    var k := c as int;
    (if 'A' <= c <= 'Z' then k - 'A' as int
     else if 'a' <= c <= 'z' then k - 'a' as int + 26
     else if '0' <= c <= '9' then k - '0' as int + 52
     else if c == '-' then 62
     else 63) as Sextet
  }

  predicate IsBase64Url(s: string) {
    forall i :: 0 <= i < |s| ==> InAlphabet(s[i])
  }

  function Encode(b: seq<Byte>): string {
    if b == [] then ""
    else
      var b0 := b[0] as int;
      if |b| == 1 then
        [Digit((b0 / 4) as Sextet), Digit((b0 % 4 * 16) as Sextet)]
      else
        var b1 := b[1] as int;
        if |b| == 2 then
          [Digit((b0 / 4) as Sextet), Digit((b0 % 4 * 16 + b1 / 16) as Sextet), Digit((b1 % 16 * 4) as Sextet)]
        else
          var b2 := b[2] as int;
          [Digit((b0 / 4) as Sextet), Digit((b0 % 4 * 16 + b1 / 16) as Sextet),
           Digit((b1 % 16 * 4 + b2 / 64) as Sextet), Digit((b2 % 64) as Sextet)] + Encode(b[3..])
  }

  /** Trailing bits that do not fill a byte are dropped, as is a single left-over digit. */
  function Decode(s: string): seq<Byte>
    requires IsBase64Url(s)
  {
    if |s| < 2 then []
    else
      var d0, d1 := Value(s[0]) as int, Value(s[1]) as int;
      var b0 := (d0 * 4 + d1 / 16) as Byte;
      if |s| == 2 then [b0]
      else
        var d2 := Value(s[2]) as int;
        var b1 := (d1 % 16 * 16 + d2 / 4) as Byte;
        if |s| == 3 then [b0, b1]
        else
          var d3 := Value(s[3]) as int;
          [b0, b1, (d2 % 4 * 64 + d3) as Byte] + Decode(s[4..])
  }

  lemma DigitRoundTrip(n: Sextet)
    ensures InAlphabet(Digit(n)) && Value(Digit(n)) == n
  {
  }

  lemma {:induction false} EncodeForm(b: seq<Byte>)
    ensures IsBase64Url(Encode(b))
    ensures |Encode(b)| == (4 * |b| + 2) / 3
  {
    if |b| > 3 {
      EncodeForm(b[3..]);
    }
  }

  /** Four sextets hold three bytes. */
  lemma Regroup(b0: int, b1: int, b2: int)
    requires 0 <= b0 < 256 && 0 <= b1 < 256 && 0 <= b2 < 256
    ensures var d1, d2 := b0 % 4 * 16 + b1 / 16, b1 % 16 * 4 + b2 / 64;
            && 0 <= d1 < 64 && 0 <= d2 < 64
            && b0 / 4 * 4 + d1 / 16 == b0
            && d1 % 16 * 16 + d2 / 4 == b1
            && d2 % 4 * 64 + b2 % 64 == b2
  {
  }

  lemma {:induction false} LastGroup(b: seq<Byte>)
    requires 0 < |b| < 3
    ensures IsBase64Url(Encode(b)) && Decode(Encode(b)) == b
  {
    EncodeForm(b);
    var b0, b1 := b[0] as int, if |b| == 2 then b[1] as int else 0;
    Regroup(b0, b1, 0);
    DigitRoundTrip((b0 / 4) as Sextet);
    DigitRoundTrip((b0 % 4 * 16 + b1 / 16) as Sextet);
    DigitRoundTrip((b1 % 16 * 4) as Sextet);
  }

  lemma {:induction false} FullGroup(b: seq<Byte>)
    requires |b| >= 3
    ensures IsBase64Url(Encode(b)) && IsBase64Url(Encode(b[3..]))
    ensures Decode(Encode(b)) == b[..3] + Decode(Encode(b[3..]))
  {
    EncodeForm(b);
    EncodeForm(b[3..]);
    var b0, b1, b2 := b[0] as int, b[1] as int, b[2] as int;
    Regroup(b0, b1, b2);
    DigitRoundTrip((b0 / 4) as Sextet);
    DigitRoundTrip((b0 % 4 * 16 + b1 / 16) as Sextet);
    DigitRoundTrip((b1 % 16 * 4 + b2 / 64) as Sextet);
    DigitRoundTrip((b2 % 64) as Sextet);
    var e := Encode(b);
    assert e[4..] == Encode(b[3..]);
    assert Value(e[0]) as int == b0 / 4;
    assert Value(e[1]) as int == b0 % 4 * 16 + b1 / 16;
    assert Value(e[2]) as int == b1 % 16 * 4 + b2 / 64;
    assert Value(e[3]) as int == b2 % 64;
    assert b[..3] == [b[0], b[1], b[2]];
  }

  lemma {:induction false} RoundTrip(b: seq<Byte>)
    ensures IsBase64Url(Encode(b)) && Decode(Encode(b)) == b
  {
    if |b| >= 3 {
      FullGroup(b);
      RoundTrip(b[3..]);
    } else if b != [] {
      LastGroup(b);
    }
  }

  /** Vectors of section 10 of RFC 4648, and one that has both characters of the URL alphabet. */
  lemma KnownTexts()
    ensures Encode([102]) == "Zg" && Encode([102, 111]) == "Zm8" && Encode([102, 111, 111]) == "Zm9v"
    ensures Encode([102, 111, 111, 98, 97, 114]) == "Zm9vYmFy"
    ensures Encode([251, 255]) == "-_8"
  {
    assert [102, 111, 111, 98, 97, 114][3..] == [98, 97, 114];
    assert Encode([98, 97, 114]) == "YmFy";
  }
}
