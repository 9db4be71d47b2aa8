/** The base64 encoding of section 4 of RFC 4648, as `Buffer.toString('base64')`
    produces it: the standard alphabet, with '=' padding. The decoder is the
    canonical one of section 3.5 (padding only at the end, zero pad bits), so
    that it inverts the encoder in both directions. */
module Base64 {
  import opened Wrappers
  import opened Bytes

  /** A 6-bit group: the value one base64 character carries. */
  type Sextet = v: int | 0 <= v < 64

  /** The character for a sextet in the standard alphabet. */
  function SextetChar(v: Sextet): (c: char)
    ensures c != '='
  {
    if v < 26 then ('A' as int + v) as char
    else if v < 52 then ('a' as int + (v - 26)) as char
    else if v < 62 then ('0' as int + (v - 52)) as char
    else if v == 62 then '+'
    else '/'
  }

  /** The sextet a character of the standard alphabet carries; None for any
      other character (including the pad character '='). */
  function CharSextet(c: char): (v: Option<Sextet>)
    ensures v.Some? ==> SextetChar(v.value) == c
  {
    if 'A' <= c <= 'Z' then Some(c as int - 'A' as int)
    else if 'a' <= c <= 'z' then Some(c as int - 'a' as int + 26)
    else if '0' <= c <= '9' then Some(c as int - '0' as int + 52)
    else if c == '+' then Some(62)
    else if c == '/' then Some(63)
    else None
  }

  lemma CharOfSextet(v: Sextet)
    ensures CharSextet(SextetChar(v)) == Some(v)
  {
  }

  /** Three bytes as four characters. */
  function EncodeGroup(b0: Byte, b1: Byte, b2: Byte): string
  {
    [SextetChar(b0 / 4), SextetChar(b0 % 4 * 16 + b1 / 16),
     SextetChar(b1 % 16 * 4 + b2 / 64), SextetChar(b2 % 64)]
  }

  /** `Buffer.from(bytes).toString('base64')`: four characters for each
      started group of three bytes. */
  function Encode(bytes: seq<Byte>): (r: string)
    ensures |r| == 4 * ((|bytes| + 2) / 3)
    decreases |bytes|
  {
    if |bytes| == 0 then ""
    else if |bytes| == 1 then
      [SextetChar(bytes[0] / 4), SextetChar(bytes[0] % 4 * 16), '=', '=']
    else if |bytes| == 2 then
      [SextetChar(bytes[0] / 4), SextetChar(bytes[0] % 4 * 16 + bytes[1] / 16),
       SextetChar(bytes[1] % 16 * 4), '=']
    else
      EncodeGroup(bytes[0], bytes[1], bytes[2]) + Encode(bytes[3..])
  }

  /** Every character of an encoding is in the alphabet or is the pad '='. */
  lemma {:induction false} EncodeAlphabet(bytes: seq<Byte>)
    ensures forall i | 0 <= i < |Encode(bytes)| :: Encode(bytes)[i] == '=' || CharSextet(Encode(bytes)[i]).Some?
    decreases |bytes|
  {
    var r := Encode(bytes);
    if |bytes| >= 3 {
      var g := EncodeGroup(bytes[0], bytes[1], bytes[2]);
      EncodeAlphabet(bytes[3..]);
      forall i | 0 <= i < |r| ensures r[i] == '=' || CharSextet(r[i]).Some? {
        if i < 4 {
          assert r[i] == g[i];
        } else {
          assert r[i] == Encode(bytes[3..])[i - 4];
        }
      }
    }
  }

  /** One four-character quantum; '=' padding is accepted only in the last one,
      and only with the unused bits of the last character zero. */
  function DecodeQuantum(q: string, last: bool): Option<seq<Byte>>
    requires |q| == 4
  {
    match (CharSextet(q[0]), CharSextet(q[1]))
    case (Some(a), Some(b)) =>
      if last && q[2] == '=' && q[3] == '=' then
        if b % 16 == 0 then Some([a * 4 + b / 16]) else None
      else (
        match CharSextet(q[2])
        case None => None
        case Some(c) =>
          if last && q[3] == '=' then
            if c % 4 == 0 then Some([a * 4 + b / 16, b % 16 * 16 + c / 4]) else None
          else (
            match CharSextet(q[3])
            case None => None
            case Some(d) => Some([a * 4 + b / 16, b % 16 * 16 + c / 4, c % 4 * 64 + d])
          )
      )
    case _ => None
  }

  /** Canonical base64 decoding: None unless the text is exactly what `Encode`
      produces for some byte sequence. */
  function Decode(s: string): Option<seq<Byte>>
    decreases |s|
  {
    if |s| == 0 then Some([])
    else if |s| < 4 then None
    else
      match DecodeQuantum(s[..4], |s| == 4)
      case None => None
      case Some(head) =>
        match Decode(s[4..])
        case None => None
        case Some(tail) => Some(head + tail)
  }

  /** The sextets of three bytes give those bytes back. */
  lemma BytesOfGroup(b0: Byte, b1: Byte, b2: Byte)
    ensures var v0, v1, v2, v3 := b0 / 4, b0 % 4 * 16 + b1 / 16, b1 % 16 * 4 + b2 / 64, b2 % 64;
      && v0 * 4 + v1 / 16 == b0 && v1 % 16 * 16 + v2 / 4 == b1 && v2 % 4 * 64 + v3 == b2
      && v1 / 16 == b0 % 4 && v2 / 4 == b1 % 16
  {
  }

  lemma DecodeEncodeGroup(b0: Byte, b1: Byte, b2: Byte, last: bool)
    ensures DecodeQuantum(EncodeGroup(b0, b1, b2), last) == Some([b0, b1, b2])
  {
    var v0: Sextet, v1: Sextet := b0 / 4, b0 % 4 * 16 + b1 / 16;
    var v2: Sextet, v3: Sextet := b1 % 16 * 4 + b2 / 64, b2 % 64;
    CharOfSextet(v0);
    CharOfSextet(v1);
    CharOfSextet(v2);
    CharOfSextet(v3);
    BytesOfGroup(b0, b1, b2);
    var q := EncodeGroup(b0, b1, b2);
    assert q == [SextetChar(v0), SextetChar(v1), SextetChar(v2), SextetChar(v3)];
  }

  lemma DecodeEncodeOne(b0: Byte)
    ensures DecodeQuantum(Encode([b0]), true) == Some([b0])
  {
    CharOfSextet(b0 / 4);
    CharOfSextet(b0 % 4 * 16);
  }

  lemma DecodeEncodeTwo(b0: Byte, b1: Byte)
    ensures DecodeQuantum(Encode([b0, b1]), true) == Some([b0, b1])
  {
    CharOfSextet(b0 / 4);
    CharOfSextet(b0 % 4 * 16 + b1 / 16);
    CharOfSextet(b1 % 16 * 4);
  }

  /** A quantum followed by more text decodes quantum by quantum. */
  lemma DecodeAppend(q: string, rest: string, head: seq<Byte>, tail: seq<Byte>)
    requires |q| == 4 && DecodeQuantum(q, rest == []) == Some(head) && Decode(rest) == Some(tail)
    ensures Decode(q + rest) == Some(head + tail)
  {
    var s := q + rest;
    assert s[..4] == q && s[4..] == rest;
  }

  /** Decoding undoes encoding. */
  lemma {:induction false} DecodeEncode(bytes: seq<Byte>)
    ensures Decode(Encode(bytes)) == Some(bytes)
    decreases |bytes|
  {
    if 0 < |bytes| < 3 {
      DecodeEncodeShort(bytes);
    } else if |bytes| >= 3 {
      var b0, b1, b2, tail := bytes[0], bytes[1], bytes[2], bytes[3..];
      assert bytes == [b0, b1, b2] + tail;
      var rest := Encode(tail);
      DecodeEncodeGroup(b0, b1, b2, rest == []);
      DecodeEncode(tail);
      DecodeAppend(EncodeGroup(b0, b1, b2), rest, [b0, b1, b2], tail);
    }
  }

  lemma DecodeEncodeShort(bytes: seq<Byte>)
    requires 0 < |bytes| < 3
    ensures Decode(Encode(bytes)) == Some(bytes)
  {
    var s := Encode(bytes);
    if |bytes| == 1 {
      DecodeEncodeOne(bytes[0]);
      assert bytes == [bytes[0]];
    } else {
      DecodeEncodeTwo(bytes[0], bytes[1]);
      assert bytes == [bytes[0], bytes[1]];
    }
    DecodeAppend(s, [], bytes, []);
    assert s + [] == s && bytes + [] == bytes;
  }

  /** Re-encoding the bytes of a full quantum gives back its sextets. */
  lemma SextetsOfGroup(a: Sextet, b: Sextet, c: Sextet, d: Sextet)
    ensures var x0, x1, x2 := a * 4 + b / 16, b % 16 * 16 + c / 4, c % 4 * 64 + d;
      && x0 / 4 == a && x0 % 4 * 16 + x1 / 16 == b
      && x1 % 16 * 4 + x2 / 64 == c && x2 % 64 == d
  {
  }

  lemma EncodeDecodeOne(q: string, bytes: seq<Byte>)
    requires |q| == 4 && DecodeQuantum(q, true) == Some(bytes) && q[2] == '=' && q[3] == '='
    ensures |bytes| == 1 && Encode(bytes) == q
  {
    var a: Sextet, b: Sextet := CharSextet(q[0]).value, CharSextet(q[1]).value;
    var x0: Byte := a * 4 + b / 16;
    assert bytes == [x0];
    assert x0 / 4 == a && x0 % 4 * 16 == b;
    assert Encode(bytes) == [SextetChar(a), SextetChar(b), '=', '='];
  }

  lemma EncodeDecodeTwo(q: string, bytes: seq<Byte>)
    requires |q| == 4 && DecodeQuantum(q, true) == Some(bytes) && q[2] != '=' && q[3] == '='
    ensures |bytes| == 2 && Encode(bytes) == q
  {
    var a: Sextet, b: Sextet, c: Sextet := CharSextet(q[0]).value, CharSextet(q[1]).value, CharSextet(q[2]).value;
    var x0: Byte, x1: Byte := a * 4 + b / 16, b % 16 * 16 + c / 4;
    assert bytes == [x0, x1];
    SextetsOfGroup(a, b, c, 0);
    assert Encode(bytes) == [SextetChar(a), SextetChar(b), SextetChar(c), '='];
  }

  lemma EncodeDecodeThree(q: string, last: bool, bytes: seq<Byte>)
    requires |q| == 4 && DecodeQuantum(q, last) == Some(bytes)
    requires !last || (q[2] != '=' && q[3] != '=')
    ensures |bytes| == 3 && EncodeGroup(bytes[0], bytes[1], bytes[2]) == q
  {
    var a: Sextet, b: Sextet := CharSextet(q[0]).value, CharSextet(q[1]).value;
    var c: Sextet, d: Sextet := CharSextet(q[2]).value, CharSextet(q[3]).value;
    var x0: Byte, x1: Byte, x2: Byte := a * 4 + b / 16, b % 16 * 16 + c / 4, c % 4 * 64 + d;
    assert bytes == [x0, x1, x2];
    SextetsOfGroup(a, b, c, d);
    assert EncodeGroup(x0, x1, x2) == [SextetChar(a), SextetChar(b), SextetChar(c), SextetChar(d)];
  }

  lemma EncodeDecodeQuantum(q: string, last: bool, bytes: seq<Byte>)
    requires |q| == 4 && DecodeQuantum(q, last) == Some(bytes)
    ensures |bytes| == 3 ==> EncodeGroup(bytes[0], bytes[1], bytes[2]) == q
    ensures |bytes| < 3 ==> last && Encode(bytes) == q
  {
    if last && q[2] == '=' && q[3] == '=' {
      EncodeDecodeOne(q, bytes);
    } else if last && q[3] == '=' {
      EncodeDecodeTwo(q, bytes);
    } else {
      EncodeDecodeThree(q, last, bytes);
    }
  }

  /** Encoding undoes canonical decoding: a decodable text is the encoding of
      what it decodes to. */
  lemma {:induction false} EncodeDecode(s: string, bytes: seq<Byte>)
    requires Decode(s) == Some(bytes)
    ensures Encode(bytes) == s
    decreases |s|
  {
    if |s| > 0 {
      var head := DecodeQuantum(s[..4], |s| == 4).value;
      var tail := Decode(s[4..]).value;
      EncodeDecodeQuantum(s[..4], |s| == 4, head);
      EncodeDecode(s[4..], tail);
      if |head| == 3 {
        assert bytes[3..] == tail;
        assert s == s[..4] + s[4..];
      } else {
        assert s[4..] == [] && tail == [];
        assert bytes == head;
      }
    }
  }

  /** The test vectors of section 10 of RFC 4648. */
  lemma Vectors()
    ensures Encode([]) == ""
    ensures Encode([102]) == "Zg=="
    ensures Encode([102, 111]) == "Zm8="
    ensures Encode([102, 111, 111]) == "Zm9v"
    ensures Encode([102, 111, 111, 98]) == "Zm9vYg=="
    ensures Encode([102, 111, 111, 98, 97]) == "Zm9vYmE="
    ensures Encode([102, 111, 111, 98, 97, 114]) == "Zm9vYmFy"
  {
    ShortVectors();
    FooVector([102, 111, 111, 98], "Yg==");
    FooVector([102, 111, 111, 98, 97], "YmE=");
    FooVector([102, 111, 111, 98, 97, 114], "YmFy");
  }

  lemma ShortVectors()
    ensures Encode([]) == ""
    ensures Encode([102]) == "Zg=="
    ensures Encode([102, 111]) == "Zm8="
    ensures Encode([98]) == "Yg=="
    ensures Encode([98, 97]) == "YmE="
  {
  }

  lemma Groups()
    ensures EncodeGroup(102, 111, 111) == "Zm9v"
    ensures EncodeGroup(98, 97, 114) == "YmFy"
  {
  }

  /** An input that starts with "foo" encodes as "Zm9v" and then the rest. */
  lemma FooVector(bytes: seq<Byte>, rest: string)
    requires |bytes| > 3 && bytes[..3] == [102, 111, 111]
    requires Encode(bytes[3..]) == rest
    ensures Encode(bytes) == "Zm9v" + rest
  {
    Groups();
  }
}
