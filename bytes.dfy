/**
 * Bytes and Node's `'binary'` (Latin-1) encoding, the bridge the cipher uses
 * between byte buffers and strings.
 */
module Bytes {
  import opened JsString

  type Byte = b: int | 0 <= b < 256

  /** `buf.toString('binary')`: one character per byte, with the byte as its code. */
  function BinaryString(b: seq<Byte>): (r: string)
    ensures |r| == |b|
    ensures forall j :: 0 <= j < |b| ==> r[j] as int == b[j]
  {
    seq(|b|, j requires 0 <= j < |b| => b[j] as char)
  }

  /** `Buffer.from(s, 'binary')`: the low byte of every UTF-16 code unit. */
  function BinaryBytes(s: string): (r: seq<Byte>)
    ensures |r| == |CodeUnits(s)|
  {
    var u := CodeUnits(s);
    seq(|u|, j requires 0 <= j < |u| => u[j] % 256)
  }

  /** Writing bytes out as a binary string and reading it back gives the bytes. */
  lemma BinaryRoundTrip(b: seq<Byte>)
    ensures BinaryBytes(BinaryString(b)) == b
    ensures CodeUnits(BinaryString(b)) == b
  {
    var s := BinaryString(b);
    CodeUnitsNarrow(s);
  }
}
