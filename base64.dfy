/**
 * Base64 as the cipher uses it through Node's `Buffer`: the encoder of
 * RFC 4648 section 4 (standard alphabet, `=` padding) and Node's lenient
 * decoder, which accepts both the standard and the URL-safe alphabet, skips
 * every other character, stops at the first `=`, and drops a final group of
 * a single sextet.
 */
module Base64 {
  import opened Wrappers
  import opened Bytes

  type Sextet = v: int | 0 <= v < 64

  /** The character of the standard alphabet (RFC 4648 section 4, Table 1) for value `v`. */
  function SextetChar(v: Sextet): (c: char)
    ensures c != '=' && c as int < 0x80
  {
    if v < 26 then ('A' as int + v) as char
    else if v < 52 then ('a' as int + (v - 26)) as char
    else if v < 62 then ('0' as int + (v - 52)) as char
    else if v == 62 then '+'
    else '/'
  }

  /** The value Node's decoder gives a character, or None for a character it skips. */
  function CharSextet(c: char): (r: Option<Sextet>)
    ensures c == '=' ==> r.None?
  {
    if 'A' <= c <= 'Z' then Some(c as int - 'A' as int)
    else if 'a' <= c <= 'z' then Some(c as int - 'a' as int + 26)
    else if '0' <= c <= '9' then Some(c as int - '0' as int + 52)
    else if c == '+' || c == '-' then Some(62)
    else if c == '/' || c == '_' then Some(63)
    else None
  }

  /** Decoding a character of the standard alphabet gives back its value. */
  lemma CharSextetOfSextetChar(v: Sextet)
    ensures CharSextet(SextetChar(v)) == Some(v)
  {
  }

  function SextetString(vs: seq<Sextet>): (r: string)
    ensures |r| == |vs|
    ensures forall k :: 0 <= k < |vs| ==> r[k] == SextetChar(vs[k])
  {
    seq(|vs|, k requires 0 <= k < |vs| => SextetChar(vs[k]))
  }

  /** The sextets of one group of three bytes. */
  function GroupSextets(b0: Byte, b1: Byte, b2: Byte): seq<Sextet> {
    [b0 / 4, (b0 % 4) * 16 + b1 / 16, (b1 % 16) * 4 + b2 / 64, b2 % 64]
  }

  /** The sextets the encoder writes for `b`, padding excluded. */
  function Sextets(b: seq<Byte>): seq<Sextet>
  {
    if |b| == 0 then []
    else if |b| == 1 then [b[0] / 4, (b[0] % 4) * 16]
    else if |b| == 2 then [b[0] / 4, (b[0] % 4) * 16 + b[1] / 16, (b[1] % 16) * 4]
    else GroupSextets(b[0], b[1], b[2]) + Sextets(b[3..])
  }

  /** Base64 encoding with `=` padding (RFC 4648 section 4), as `toString('base64')` and `btoa` write it. */
  function Encode(b: seq<Byte>): (r: string)
    ensures forall j :: 0 <= j < |r| ==> r[j] as int < 0x80
  {
    if |b| == 0 then ""
    else if |b| == 1 then SextetString(Sextets(b)) + "=="
    else if |b| == 2 then SextetString(Sextets(b)) + "="
    else SextetString(GroupSextets(b[0], b[1], b[2])) + Encode(b[3..])
  }

  /** The sextets Node's decoder reads from `s`: legal characters before the first `=`. */
  function ReadSextets(s: string): seq<Sextet>
  {
    if s == [] || s[0] == '=' then []
    else match CharSextet(s[0])
      case Some(v) => [v] + ReadSextets(s[1..])
      case None => ReadSextets(s[1..])
  }

  /** Bytes of a sextet stream: full groups give three bytes, a final group of three gives two, of two gives one, of one nothing. */
  function DecodeSextets(vs: seq<Sextet>): seq<Byte>
  {
    if |vs| < 2 then []
    else
      var v0: int, v1: int := vs[0], vs[1];
      if |vs| == 2 then [v0 * 4 + v1 / 16]
      else
        var v2: int := vs[2];
        if |vs| == 3 then [v0 * 4 + v1 / 16, (v1 % 16) * 16 + v2 / 4]
        else
          var v3: int := vs[3];
          [v0 * 4 + v1 / 16, (v1 % 16) * 16 + v2 / 4, (v2 % 4) * 64 + v3] + DecodeSextets(vs[4..])
  }

  /** `Buffer.from(s, 'base64')`. */
  function Decode(s: string): seq<Byte> {
    DecodeSextets(ReadSextets(s))
  }

  /** Encoded length: four characters for every started group of three bytes. */
  lemma {:induction false} EncodeLength(b: seq<Byte>)
    ensures |Encode(b)| == 4 * ((|b| + 2) / 3)
    ensures |b| > 0 ==> |Encode(b)| > 0
  {
    if |b| >= 3 {
      EncodeLength(b[3..]);
    }
  }

  lemma {:induction false} ReadSextetString(vs: seq<Sextet>, rest: string)
    ensures ReadSextets(SextetString(vs) + rest) == vs + ReadSextets(rest)
  {
    if vs != [] {
      var s := SextetString(vs) + rest;
      CharSextetOfSextetChar(vs[0]);
      assert s[0] == SextetChar(vs[0]);
      assert s[1..] == SextetString(vs[1..]) + rest;
      ReadSextetString(vs[1..], rest);
    } else {
      assert SextetString(vs) + rest == rest;
    }
  }

  /** Node's decoder reads back exactly the sextets the encoder wrote. */
  lemma {:induction false} ReadEncoded(b: seq<Byte>)
    ensures ReadSextets(Encode(b)) == Sextets(b)
  {
    if |b| == 0 {
    } else if |b| == 1 {
      ReadSextetString(Sextets(b), "==");
    } else if |b| == 2 {
      ReadSextetString(Sextets(b), "=");
    } else {
      ReadSextetString(GroupSextets(b[0], b[1], b[2]), Encode(b[3..]));
      ReadEncoded(b[3..]);
    }
  }

  lemma Split16(x: int, y: int)
    requires 0 <= y < 16
    ensures (x * 16 + y) / 16 == x && (x * 16 + y) % 16 == y
  {
  }

  lemma Split4(x: int, y: int)
    requires 0 <= y < 4
    ensures (x * 4 + y) / 4 == x && (x * 4 + y) % 4 == y
  {
  }

  /** Decoding the sextets of a byte string yields the byte string. */
  lemma {:induction false} DecodeSextetsOfBytes(b: seq<Byte>)
    ensures DecodeSextets(Sextets(b)) == b
  {
    if |b| == 0 {
    } else if |b| == 1 {
      Split16(b[0] % 4, 0);
      assert DecodeSextets(Sextets(b)) == [(b[0] / 4) * 4 + b[0] % 4];
    } else if |b| == 2 {
      Split16(b[0] % 4, b[1] / 16);
      Split4(b[1] % 16, 0);
    } else {
      var g := GroupSextets(b[0], b[1], b[2]);
      Split16(b[0] % 4, b[1] / 16);
      Split4(b[1] % 16, b[2] / 64);
      assert (g + Sextets(b[3..]))[4..] == Sextets(b[3..]);
      DecodeSextetsOfBytes(b[3..]);
      assert b == b[..3] + b[3..];
    }
  }

  /** Round trip of RFC 4648 section 4 through Node's decoder. */
  lemma DecodeEncode(b: seq<Byte>)
    ensures Decode(Encode(b)) == b
  {
    ReadEncoded(b);
    DecodeSextetsOfBytes(b);
  }
}
