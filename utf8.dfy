/**
 * UTF-8 as the cipher uses it through Node's `Buffer`: the encoder of
 * RFC 3629 section 3 (`Buffer.from(text, 'utf8')`) and the decoder of the
 * WHATWG Encoding Standard (`buf.toString('utf8')`), which replaces every
 * maximal ill-formed subsequence by U+FFFD and never fails.
 */
module Utf8 {
  import opened Wrappers
  import opened Bytes


  const Replacement: char := '\U{FFFD}'

  /** The bytes RFC 3629 writes for one scalar value. */
  function EncodeChar(c: char): (r: seq<Byte>)
    ensures 1 <= |r| <= 4
    ensures (c as int < 0x80) <==> |r| == 1
  {
    var v := c as int;
    if v < 0x80 then [v]
    else if v < 0x800 then [0xC0 + v / 64, 0x80 + v % 64]
    else if v < 0x10000 then [0xE0 + v / 4096, 0x80 + (v / 64) % 64, 0x80 + v % 64]
    else [0xF0 + v / 262144, 0x80 + (v / 4096) % 64, 0x80 + (v / 64) % 64, 0x80 + v % 64]
  }

  /** The bytes of a whole string. */
  function Encode(s: string): (r: seq<Byte>)
    ensures |s| <= |r| <= 4 * |s|
  {
    if s == [] then [] else EncodeChar(s[0]) + Encode(s[1..])
  }

  /** What a lead byte announces: the number of continuation bytes and the bounds of the first one. */
  datatype Lead = Lead(tails: nat, lo: Byte, hi: Byte)

  /** The lead bytes of the WHATWG decoder with the bounds it puts on the byte after them; None for a byte that cannot start a sequence. */
  function LeadOf(b: Byte): (r: Option<Lead>)
    requires b >= 0x80
    ensures r.Some? ==> 1 <= r.value.tails <= 3 && 0x80 <= r.value.lo <= r.value.hi <= 0xBF
    ensures r.None? <==> b < 0xC2 || b > 0xF4
  {
    if 0xC2 <= b <= 0xDF then Some(Lead(1, 0x80, 0xBF))
    else if b == 0xE0 then Some(Lead(2, 0xA0, 0xBF))
    else if 0xE1 <= b <= 0xEC || b == 0xEE || b == 0xEF then Some(Lead(2, 0x80, 0xBF))
    else if b == 0xED then Some(Lead(2, 0x80, 0x9F))
    else if b == 0xF0 then Some(Lead(3, 0x90, 0xBF))
    else if 0xF1 <= b <= 0xF3 then Some(Lead(3, 0x80, 0xBF))
    else if b == 0xF4 then Some(Lead(3, 0x80, 0x8F))
    else None
  }

  /**
   * How many of the (at most `n`) bytes at the head of `t` the decoder accepts
   * as continuation bytes: the first must lie in `lo..hi`, the others in
   * `0x80..0xBF`; counting stops at the first byte that does not.
   */
  function TailCount(t: seq<Byte>, n: nat, lo: Byte, hi: Byte): (k: nat)
    ensures k <= n && k <= |t|
    ensures k > 0 ==> lo <= t[0] <= hi
    ensures forall j :: 1 <= j < k ==> 0x80 <= t[j] <= 0xBF
    ensures k < n && k < |t| ==> (if k == 0 then !(lo <= t[0] <= hi) else !(0x80 <= t[k] <= 0xBF))
  {
    if n == 0 || t == [] || !(lo <= t[0] <= hi) then 0
    else 1 + TailCount(t[1..], n - 1, 0x80, 0xBF)
  }


  /** The scalar value a lead byte and its accepted continuation bytes spell. */
  function Combine(lead: Byte, t: seq<Byte>, l: Lead): (c: char)
    requires lead >= 0x80 && LeadOf(lead) == Some(l)
    requires |t| >= l.tails && TailCount(t, l.tails, l.lo, l.hi) == l.tails
  {
    var x: int, t0: int := lead, t[0];
    if l.tails == 1 then
      ((x - 0xC0) * 64 + (t0 - 0x80)) as char
    else if l.tails == 2 then
      var t1: int := t[1];
      var v := (x - 0xE0) * 4096 + (t0 - 0x80) * 64 + (t1 - 0x80);
      assert 0x800 <= v <= 0xFFFF && !(0xD800 <= v < 0xE000);
      v as char
    else
      var t1: int, t2: int := t[1], t[2];
      var v := (x - 0xF0) * 262144 + (t0 - 0x80) * 4096 + (t1 - 0x80) * 64 + (t2 - 0x80);
      assert 0x10000 <= v <= 0x10FFFF;
      v as char
  }

  /**
   * `buf.toString('utf8')`: a well-formed sequence gives its scalar value; a
   * byte that cannot start one, or a sequence cut short by a byte that does
   * not continue it or by the end of the input, gives one U+FFFD, and the
   * byte that cut it short is read again.
   */
  function Decode(b: seq<Byte>): (r: string)
    ensures |r| <= |b|
    decreases |b|
  {
    if b == [] then []
    else if b[0] < 0x80 then [b[0] as char] + Decode(b[1..])
    else match LeadOf(b[0])
      case None => [Replacement] + Decode(b[1..])
      case Some(l) =>
        var k := TailCount(b[1..], l.tails, l.lo, l.hi);
        if k == l.tails then [Combine(b[0], b[1..], l)] + Decode(b[1 + k..])
        else [Replacement] + Decode(b[1 + k..])
  }

  lemma Div64(v: int)
    requires v >= 0
    ensures v == (v / 64) * 64 + v % 64 && 0 <= v % 64 < 64
  {
  }

  lemma Div4096(v: int)
    requires v >= 0
    ensures v / 4096 == (v / 64) / 64
    ensures v == (v / 4096) * 4096 + ((v / 64) % 64) * 64 + v % 64
  {
    Div64(v);
    Div64(v / 64);
  }

  lemma Div262144(v: int)
    requires v >= 0
    ensures v / 262144 == (v / 4096) / 64
    ensures v == (v / 262144) * 262144 + ((v / 4096) % 64) * 4096 + ((v / 64) % 64) * 64 + v % 64
  {
    Div4096(v);
    Div64(v / 4096);
  }

  lemma DecodeEncodeTwo(c: char, rest: seq<Byte>)
    requires 0x80 <= c as int < 0x800
    ensures Decode(EncodeChar(c) + rest) == [c] + Decode(rest)
  {
    var b := EncodeChar(c) + rest;
    Div64(c as int);
    var l := Lead(1, 0x80, 0xBF);
    assert LeadOf(b[0]) == Some(l);
    assert TailCount(b[1..], 1, 0x80, 0xBF) == 1;
    assert b[2..] == rest;
    assert Combine(b[0], b[1..], l) == c;
  }

  lemma DecodeEncodeThree(c: char, rest: seq<Byte>)
    requires 0x800 <= c as int < 0x10000
    ensures Decode(EncodeChar(c) + rest) == [c] + Decode(rest)
  {
    var b := EncodeChar(c) + rest;
    var v := c as int;
    Div4096(v);
    Div64(v / 64);
    var l := LeadOf(b[0]).value;
    assert l.tails == 2;
    assert b[1..][0] == b[1] && b[1..][1] == b[2];
    assert TailCount(b[1..], 2, l.lo, l.hi) == 2;
    assert b[3..] == rest;
    assert Combine(b[0], b[1..], l) == c;
  }

  lemma DecodeEncodeFour(c: char, rest: seq<Byte>)
    requires 0x10000 <= c as int
    ensures Decode(EncodeChar(c) + rest) == [c] + Decode(rest)
  {
    var b := EncodeChar(c) + rest;
    var v := c as int;
    Div262144(v);
    Div64(v / 4096);
    Div64(v / 64);
    var l := LeadOf(b[0]).value;
    assert l.tails == 3;
    assert b[1..][0] == b[1] && b[1..][1] == b[2] && b[1..][2] == b[3];
    assert TailCount(b[1..], 3, l.lo, l.hi) == 3;
    assert b[4..] == rest;
    assert Combine(b[0], b[1..], l) == c;
  }

  /** The decoder reads the bytes of one character back as that character and then goes on with the rest. */
  lemma DecodeEncodeChar(c: char, rest: seq<Byte>)
    ensures Decode(EncodeChar(c) + rest) == [c] + Decode(rest)
  {
    var v := c as int;
    if v < 0x80 {
      var b := EncodeChar(c) + rest;
      assert b[1..] == rest;
    } else if v < 0x800 {
      DecodeEncodeTwo(c, rest);
    } else if v < 0x10000 {
      DecodeEncodeThree(c, rest);
    } else {
      DecodeEncodeFour(c, rest);
    }
  }

  /** Round trip: decoding the RFC 3629 encoding of a string gives the string back. */
  lemma {:induction false} DecodeEncode(s: string)
    ensures Decode(Encode(s)) == s
  {
    if s != [] {
      DecodeEncodeChar(s[0], Encode(s[1..]));
      DecodeEncode(s[1..]);
    }
  }

  /** ASCII bytes decode one to one. */
  lemma {:induction false} DecodeAscii(b: seq<Byte>)
    requires forall j :: 0 <= j < |b| ==> b[j] < 0x80
    ensures |Decode(b)| == |b|
    ensures forall j :: 0 <= j < |b| ==> Decode(b)[j] as int == b[j]
  {
    if b != [] {
      DecodeAscii(b[1..]);
    }
  }
}
