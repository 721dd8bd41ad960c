/** Hexadecimal (section 8 of RFC 4648, lower case) and base64 (section 4 of RFC 4648)
    as Go's encoding/hex and base64.StdEncoding write and read them. */
module Encoding {
  import opened Text

  type byte = b: int | 0 <= b < 256

  function Chars(bs: seq<byte>): string
  {
    seq(|bs|, i requires 0 <= i < |bs| => bs[i] as char)
  }

  // ---------------------------------------------------------------- hex

  function HexChar(d: int): char
    requires 0 <= d < 16
  {
    if d < 10 then '0' + (d as char) else 'a' + ((d - 10) as char)
  }

  predicate IsHex(c: char) { '0' <= c <= '9' || 'a' <= c <= 'f' }

  function HexEncode(bs: seq<byte>): (s: string)
    ensures |s| == 2 * |bs|
    ensures forall c | c in s :: IsHex(c)
  {
    if bs == [] then "" else [HexChar(bs[0] / 16), HexChar(bs[0] % 16)] + HexEncode(bs[1..])
  }

  lemma {:induction false} HexInjective(a: seq<byte>, b: seq<byte>)
    requires HexEncode(a) == HexEncode(b)
    ensures a == b
  {
    if a != [] && b != [] {
      var s, t := HexEncode(a), HexEncode(b);
      assert s[0] == HexChar(a[0] / 16) && s[1] == HexChar(a[0] % 16);
      assert t[0] == HexChar(b[0] / 16) && t[1] == HexChar(b[0] % 16);
      assert a[0] == b[0];
      assert s[2..] == HexEncode(a[1..]) && t[2..] == HexEncode(b[1..]);
      HexInjective(a[1..], b[1..]);
    }
  }

  lemma HexIsLower(bs: seq<byte>)
    ensures Lower(HexEncode(bs)) == HexEncode(bs)
  {
    var s := HexEncode(bs);
    forall i | 0 <= i < |s| ensures LowerChar(s[i]) == s[i] {
      assert s[i] in s;
    }
  }

  // ---------------------------------------------------------------- base64

  predicate Is64(d: int) { 0 <= d < 64 }

  function B64Char(d: int): char
    requires Is64(d)
  {
    if d < 26 then 'A' + (d as char)
    else if d < 52 then 'a' + ((d - 26) as char)
    else if d < 62 then '0' + ((d - 52) as char)
    else if d == 62 then '+' else '/'
  }

  /** The value of a base64 digit, or -1. */
  function B64Value(c: char): (d: int)
    ensures -1 <= d < 64
    ensures d >= 0 ==> B64Char(d) == c
  {
    if 'A' <= c <= 'Z' then (c - 'A') as int
    else if 'a' <= c <= 'z' then (c - 'a') as int + 26
    else if '0' <= c <= '9' then (c - '0') as int + 52
    else if c == '+' then 62 else if c == '/' then 63 else -1
  }

  lemma B64ValueOfChar(d: int)
    requires Is64(d)
    ensures B64Value(B64Char(d)) == d
  {
  }

  predicate IsB64(c: char) { B64Value(c) >= 0 || c == '=' }

  function Quad(a: byte, b: byte, c: byte): (q: seq<int>)
    ensures |q| == 4 && forall d | d in q :: Is64(d)
  {
    [a / 4, a % 4 * 16 + b / 16, b % 16 * 4 + c / 64, c % 64]
  }

  function Triple(d0: int, d1: int, d2: int, d3: int): (t: seq<byte>)
    requires Is64(d0) && Is64(d1) && Is64(d2) && Is64(d3)
    ensures |t| == 3
  {
    [d0 * 4 + d1 / 16, d1 % 16 * 16 + d2 / 4, d2 % 4 * 64 + d3]
  }

  lemma TripleOfQuad(a: byte, b: byte, c: byte)
    ensures var q := Quad(a, b, c); Triple(q[0], q[1], q[2], q[3]) == [a, b, c]
  {
  }

  function EncodeB64(bs: seq<byte>): (s: string)
    ensures bs != [] ==> s != ""
  {
    if bs == [] then ""
    else if |bs| == 1 then
      var q := Quad(bs[0], 0, 0);
      [B64Char(q[0]), B64Char(q[1]), '=', '=']
    else if |bs| == 2 then
      var q := Quad(bs[0], bs[1], 0);
      [B64Char(q[0]), B64Char(q[1]), B64Char(q[2]), '=']
    else
      var q := Quad(bs[0], bs[1], bs[2]);
      [B64Char(q[0]), B64Char(q[1]), B64Char(q[2]), B64Char(q[3])] + EncodeB64(bs[3..])
  }

  function DropNewlines(s: string): string
  {
    if s == "" then ""
    else (if s[0] in {'\r', '\n'} then "" else [s[0]]) + DropNewlines(s[1..])
  }

  /** Whole quanta of four; padding only in the last one. */
  function DecodeQuanta(s: string): Option<seq<byte>>
  {
    if s == "" then Some([])
    else if |s| < 4 then None
    else
      var d0, d1, d2, d3 := B64Value(s[0]), B64Value(s[1]), B64Value(s[2]), B64Value(s[3]);
      if d0 < 0 || d1 < 0 then None
      else if d2 >= 0 && d3 >= 0 then
        (match DecodeQuanta(s[4..])
         case None => None
         case Some(rest) => Some(Triple(d0, d1, d2, d3) + rest))
      else if |s| > 4 || s[3] != '=' then None
      else if d2 >= 0 then Some(Triple(d0, d1, d2, 0)[..2])
      else if s[2] == '=' then Some(Triple(d0, d1, 0, 0)[..1])
      else None
  }

  /** base64.StdEncoding.DecodeString: line breaks are skipped wherever they occur. */
  function DecodeB64(s: string): Option<seq<byte>> { DecodeQuanta(DropNewlines(s)) }

  lemma {:induction false} B64Alphabet(bs: seq<byte>)
    ensures forall c | c in EncodeB64(bs) :: IsB64(c)
  {
    if |bs| >= 3 {
      B64Alphabet(bs[3..]);
      forall d: int | Is64(d) ensures IsB64(B64Char(d)) { B64ValueOfChar(d); }
    } else if bs != [] {
      forall d: int | Is64(d) ensures IsB64(B64Char(d)) { B64ValueOfChar(d); }
    }
  }

  lemma {:induction false} NoNewlines(s: string)
    requires forall c | c in s :: IsB64(c)
    ensures DropNewlines(s) == s
  {
    if s != "" {
      assert s[0] in s && s[0] != '\r' && s[0] != '\n';
      assert forall c | c in s[1..] :: c in s;
      NoNewlines(s[1..]);
    }
  }

  lemma DecodeFullQuantum(q: seq<int>, rest: string)
    requires |q| == 4 && forall d | d in q :: Is64(d)
    requires DecodeQuanta(rest).Some?
    ensures var s := [B64Char(q[0]), B64Char(q[1]), B64Char(q[2]), B64Char(q[3])] + rest;
            DecodeQuanta(s) == Some(Triple(q[0], q[1], q[2], q[3]) + DecodeQuanta(rest).value)
  {
    var s := [B64Char(q[0]), B64Char(q[1]), B64Char(q[2]), B64Char(q[3])] + rest;
    forall i | 0 <= i < 4 ensures B64Value(s[i]) == q[i] { B64ValueOfChar(q[i]); }
    assert s[4..] == rest;
  }

  lemma DecodePaddedTwice(d0: int, d1: int)
    requires Is64(d0) && Is64(d1)
    ensures DecodeQuanta([B64Char(d0), B64Char(d1), '=', '=']) == Some(Triple(d0, d1, 0, 0)[..1])
  {
    B64ValueOfChar(d0);
    B64ValueOfChar(d1);
    assert B64Value('=') == -1;
  }

  lemma DecodePaddedOnce(d0: int, d1: int, d2: int)
    requires Is64(d0) && Is64(d1) && Is64(d2)
    ensures DecodeQuanta([B64Char(d0), B64Char(d1), B64Char(d2), '=']) == Some(Triple(d0, d1, d2, 0)[..2])
  {
    B64ValueOfChar(d0);
    B64ValueOfChar(d1);
    B64ValueOfChar(d2);
    assert B64Value('=') == -1;
  }

  lemma QuadPadding(a: byte, b: byte)
    ensures var q := Quad(a, b, 0);
            q[3] == 0 && (b == 0 ==> q[2] == 0) && Triple(q[0], q[1], q[2], 0) == [a, b, 0]
  {
    TripleOfQuad(a, b, 0);
  }

  lemma DropPadding(bs: seq<byte>)
    ensures |bs| == 1 ==> [bs[0], 0, 0][..1] == bs
    ensures |bs| == 2 ==> [bs[0], bs[1], 0][..2] == bs
  {
  }

  lemma DecodeShort(bs: seq<byte>)
    requires 1 <= |bs| <= 2
    ensures DecodeQuanta(EncodeB64(bs)) == Some(bs)
  {
    if |bs| == 1 {
      var q := Quad(bs[0], 0, 0);
      assert EncodeB64(bs) == [B64Char(q[0]), B64Char(q[1]), '=', '='];
      DecodePaddedTwice(q[0], q[1]);
      QuadPadding(bs[0], 0);
      DropPadding(bs);
    } else {
      var q := Quad(bs[0], bs[1], 0);
      assert EncodeB64(bs) == [B64Char(q[0]), B64Char(q[1]), B64Char(q[2]), '='];
      DecodePaddedOnce(q[0], q[1], q[2]);
      QuadPadding(bs[0], bs[1]);
      DropPadding(bs);
    }
  }

  lemma {:induction false} DecodeEncodeQuanta(bs: seq<byte>)
    ensures DecodeQuanta(EncodeB64(bs)) == Some(bs)
  {
    if |bs| >= 3 {
      DecodeEncodeQuanta(bs[3..]);
      DecodeFullQuantum(Quad(bs[0], bs[1], bs[2]), EncodeB64(bs[3..]));
      TripleOfQuad(bs[0], bs[1], bs[2]);
      assert [bs[0], bs[1], bs[2]] + bs[3..] == bs;
    } else if bs != [] {
      DecodeShort(bs);
    }
  }

  /** Decoding what the encoder wrote gives the bytes back. */
  lemma DecodeEncode(bs: seq<byte>)
    ensures DecodeB64(EncodeB64(bs)) == Some(bs)
  {
    B64Alphabet(bs);
    NoNewlines(EncodeB64(bs));
    DecodeEncodeQuanta(bs);
  }

  lemma B64Injective(a: seq<byte>, b: seq<byte>)
    requires EncodeB64(a) == EncodeB64(b)
    ensures a == b
  {
    DecodeEncode(a);
    DecodeEncode(b);
  }

  // ---------------------------------------------------------------- what the texts are

  /** The lower-case digit d of section 8 of RFC 4648. */
  predicate HexDigit(d: int, c: char)
  {
    if d < 10 then c as int == 48 + d else c as int == 87 + d
  }

  /** Two digits a byte, the high half first. */
  lemma {:induction false} HexAt(bs: seq<byte>, i: nat)
    requires i < |bs|
    ensures HexDigit(bs[i] / 16, HexEncode(bs)[2 * i]) && HexDigit(bs[i] % 16, HexEncode(bs)[2 * i + 1])
  {
    if i > 0 {
      HexAt(bs[1..], i - 1);
    }
  }

  /** Digit d of table 1 in section 4 of RFC 4648. */
  predicate Sextet(d: int, c: char)
  {
    if d < 26 then c as int == 65 + d
    else if d < 52 then c as int == 71 + d
    else if d < 62 then c as int == d - 4
    else if d == 62 then c as int == 43 else c as int == 47
  }

  lemma B64CharIs(d: int)
    requires Is64(d)
    ensures Sextet(d, B64Char(d))
  {
  }

  lemma QuadSum(a: byte, b: byte, c: byte)
    ensures var q := Quad(a, b, c);
            q[0] * 262144 + q[1] * 4096 + q[2] * 64 + q[3] == (a as int) * 65536 + (b as int) * 256 + c
  {
  }

  lemma QuadSextets(a: byte, b: byte, c: byte)
    ensures var q := Quad(a, b, c);
            && Sextet(q[0], B64Char(q[0])) && Sextet(q[1], B64Char(q[1]))
            && Sextet(q[2], B64Char(q[2])) && Sextet(q[3], B64Char(q[3]))
  {
    var q := Quad(a, b, c);
    forall d | d in q ensures Sextet(d, B64Char(d)) { B64CharIs(d); }
  }

  /** Three bytes are four digits of the same 24-bit number, most significant first. */
  lemma {:induction false} B64At(bs: seq<byte>, k: nat) returns (q: seq<int>)
    requires 3 * k + 2 < |bs|
    ensures |q| == 4 && (forall d | d in q :: 0 <= d < 64) && |EncodeB64(bs)| >= 4 * k + 4
    ensures q[0] * 262144 + q[1] * 4096 + q[2] * 64 + q[3]
            == (bs[3 * k] as int) * 65536 + (bs[3 * k + 1] as int) * 256 + bs[3 * k + 2]
    ensures var s := EncodeB64(bs);
            && Sextet(q[0], s[4 * k]) && Sextet(q[1], s[4 * k + 1])
            && Sextet(q[2], s[4 * k + 2]) && Sextet(q[3], s[4 * k + 3])
  {
    if k > 0 {
      q := B64At(bs[3..], k - 1);
    } else {
      q := Quad(bs[0], bs[1], bs[2]);
      QuadSum(bs[0], bs[1], bs[2]);
      QuadSextets(bs[0], bs[1], bs[2]);
    }
  }

  lemma {:induction false} B64Length(bs: seq<byte>)
    ensures |EncodeB64(bs)| == (|bs| + 2) / 3 * 4
  {
    if |bs| >= 3 {
      B64Length(bs[3..]);
      assert |EncodeB64(bs)| == 4 + |EncodeB64(bs[3..])|;
      assert (|bs| + 2) / 3 == (|bs[3..]| + 2) / 3 + 1;
    }
  }

  /** One byte left over is two digits of it, shifted, and two padding characters. */
  lemma {:induction false} B64TailOne(bs: seq<byte>) returns (q: seq<int>)
    requires |bs| % 3 == 1
    ensures |q| == 2 && (forall d | d in q :: 0 <= d < 64)
    ensures q[0] * 64 + q[1] == (bs[|bs| - 1] as int) * 16
    ensures var s := EncodeB64(bs);
            && |s| >= 4 && Sextet(q[0], s[|s| - 4]) && Sextet(q[1], s[|s| - 3])
            && s[|s| - 2] == '=' && s[|s| - 1] == '='
  {
    if |bs| > 3 {
      q := B64TailOne(bs[3..]);
    } else {
      var a := bs[0];
      q := Quad(a, 0, 0)[..2];
      QuadSum(a, 0, 0);
      QuadSextets(a, 0, 0);
    }
  }

  /** Two bytes left over are three digits of them, shifted, and one padding character. */
  lemma {:induction false} B64TailTwo(bs: seq<byte>) returns (q: seq<int>)
    requires |bs| % 3 == 2
    ensures |q| == 3 && (forall d | d in q :: 0 <= d < 64)
    ensures q[0] * 4096 + q[1] * 64 + q[2] == ((bs[|bs| - 2] as int) * 256 + bs[|bs| - 1]) * 4
    ensures var s := EncodeB64(bs);
            && |s| >= 4 && Sextet(q[0], s[|s| - 4]) && Sextet(q[1], s[|s| - 3]) && Sextet(q[2], s[|s| - 2])
            && s[|s| - 1] == '='
  {
    if |bs| > 3 {
      q := B64TailTwo(bs[3..]);
    } else {
      var a, b := bs[0], bs[1];
      q := Quad(a, b, 0)[..3];
      QuadSum(a, b, 0);
      QuadSextets(a, b, 0);
    }
  }

  predicate Base64Char(c: char)
  {
    var n := c as int;
    65 <= n <= 90 || 97 <= n <= 122 || 48 <= n <= 57 || n == 43 || n == 47
  }

  /** Whole quanta of base64 characters, at most two padding characters ending the last. */
  predicate WellPadded(s: string, pads: nat)
  {
    && |s| % 4 == 0 && pads <= 2 && (pads > 0 ==> |s| >= 4)
    && forall i | 0 <= i < |s| :: if i < |s| - pads then Base64Char(s[i]) else s[i] == '='
  }

  lemma ValueIff(c: char)
    ensures B64Value(c) >= 0 <==> Base64Char(c)
  {
  }

  lemma {:induction false} WellPaddedDecodes(s: string, pads: nat)
    requires WellPadded(s, pads)
    ensures DecodeQuanta(s).Some?
    decreases |s|
  {
    if s != "" {
      forall i | 0 <= i < 4 ensures B64Value(s[i]) >= 0 <==> Base64Char(s[i]) { ValueIff(s[i]); }
      if |s| > 4 {
        assert WellPadded(s[4..], pads);
        WellPaddedDecodes(s[4..], pads);
      }
    }
  }

  lemma QuantumBefore(s: string, pads: nat)
    requires |s| >= 4 && (forall i | 0 <= i < 4 :: Base64Char(s[i])) && WellPadded(s[4..], pads)
    ensures WellPadded(s, pads)
  {
    assert forall i | 4 <= i < |s| :: s[i] == s[4..][i - 4];
  }

  lemma {:induction false} DecodesWellPadded(s: string) returns (pads: nat)
    requires DecodeQuanta(s).Some?
    ensures WellPadded(s, pads)
    decreases |s|
  {
    pads := 0;
    if s != "" {
      forall i | 0 <= i < 4 ensures B64Value(s[i]) >= 0 <==> Base64Char(s[i]) { ValueIff(s[i]); }
      if B64Value(s[2]) >= 0 && B64Value(s[3]) >= 0 {
        pads := DecodesWellPadded(s[4..]);
        QuantumBefore(s, pads);
      } else {
        pads := if B64Value(s[2]) >= 0 then 1 else 2;
      }
    }
  }

  ghost predicate IsBase64(s: string) { exists pads: nat :: WellPadded(s, pads) }

  lemma QuantaIff(s: string)
    ensures DecodeQuanta(s).Some? <==> IsBase64(s)
  {
    if DecodeQuanta(s).Some? {
      var pads := DecodesWellPadded(s);
    } else if pads: nat :| WellPadded(s, pads) {
      WellPaddedDecodes(s, pads);
    }
  }

  /** Exactly the well-padded texts decode, once line breaks are dropped. */
  lemma DecodableIff(s: string)
    ensures DecodeB64(s).Some? <==> IsBase64(DropNewlines(s))
  {
    QuantaIff(DropNewlines(s));
  }

  lemma TripleTaken(d0: int, d1: int, d2: int)
    requires Is64(d0) && Is64(d1) && Is64(d2)
    ensures Triple(d0, d1, d2, 0)[..1] == [4 * d0 + d1 / 16]
    ensures Triple(d0, d1, d2, 0)[..2] == [4 * d0 + d1 / 16, 16 * (d1 % 16) + d2 / 4]
  {
  }

  /** In a padded quantum the bits beyond the last whole byte are ignored. */
  lemma PaddedByte(d0: int, d1: int)
    requires Is64(d0) && Is64(d1)
    ensures DecodeQuanta([B64Char(d0), B64Char(d1), '=', '=']) == Some([4 * d0 + d1 / 16])
  {
    DecodePaddedTwice(d0, d1);
    TripleTaken(d0, d1, 0);
  }

  lemma PaddedBytes(d0: int, d1: int, d2: int)
    requires Is64(d0) && Is64(d1) && Is64(d2)
    ensures DecodeQuanta([B64Char(d0), B64Char(d1), B64Char(d2), '='])
            == Some([4 * d0 + d1 / 16, 16 * (d1 % 16) + d2 / 4])
  {
    DecodePaddedOnce(d0, d1, d2);
    TripleTaken(d0, d1, d2);
  }

  /** What is dropped are the line breaks. */
  lemma {:induction false} NewlinesDropped(s: string, t: string)
    ensures DropNewlines(s + t) == DropNewlines(s) + DropNewlines(t)
  {
    if s == "" {
      assert s + t == t && DropNewlines(s) == "";
    } else {
      assert (s + t)[1..] == s[1..] + t && (s + t)[0] == s[0];
      NewlinesDropped(s[1..], t);
      var head := if s[0] in {'\r', '\n'} then "" else [s[0]];
      assert DropNewlines(s + t) == head + (DropNewlines(s[1..]) + DropNewlines(t));
    }
  }

  lemma {:induction false} NothingDropped(s: string)
    requires forall c | c in s :: c as int != 10 && c as int != 13
    ensures DropNewlines(s) == s
  {
    if s != "" {
      assert s[0] in s && forall c | c in s[1..] :: c in s;
      NothingDropped(s[1..]);
    }
  }

  lemma NewlineDropped()
    ensures DropNewlines("\n") == "" && DropNewlines("\r") == ""
  {
    assert "\n"[1..] == "" && "\r"[1..] == "";
  }
}
