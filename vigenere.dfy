/**
 * The application's Vigenère cipher. A plaintext is written as UTF-8, the
 * bytes as Base64; every code unit of that text is shifted by the matching
 * code unit of the key, modulo 256; the shifted units are taken as bytes and
 * written as Base64 once more. Decryption undoes the steps in reverse order.
 */
module Vigenere {
  import opened Wrappers
  import opened JsString
  import opened Bytes
  import Base64
  import Utf8

  /** A cipher key: never empty, since an empty setting falls back to the default key. */
  type Key = k: string | k != [] witness "SWARTZKRIP2025"

  const DefaultKey: Key := "SWARTZKRIP2025"

  /** The key the constructor picks: the configured value when it is set and non-empty, else the default. */
  function ChooseKey(env: Option<string>): (k: Key)
    ensures env.Some? && env.value != "" ==> k == env.value
    ensures env.None? || env.value == "" ==> k == DefaultKey
  {
    if env.Some? && env.value != "" then env.value else DefaultKey
  }

  /** JavaScript's `%`, whose remainder takes the sign of the dividend. */
  function JsRem(a: int, n: int): (r: int)
    requires n > 0
    ensures -n < r < n
    ensures a >= 0 ==> r == a % n
    ensures a < 0 ==> r == -((-a) % n)
  {
    if a >= 0 then a % n else -((-a) % n)
  }

  /** One code unit shifted forward by a key unit. */
  function ShiftUp(c: int, k: int): (r: Byte)
    requires c >= 0 && k >= 0
  {
    (c + k) % 256
  }

  /** One code unit shifted back by a key unit, brought into `0..255` when `%` left it negative. */
  function ShiftDown(c: int, k: int): (r: Byte)
    requires k >= 0
  {
    var d := JsRem(c - k, 256);
    if d < 0 then d + 256 else d
  }

  lemma ShiftDownUp(c: int, k: int)
    requires 0 <= c < 256 && k >= 0
    ensures ShiftDown(ShiftUp(c, k), k) == c
  {
    var q := (c + k) / 256;
    var y := ShiftUp(c, k);
    assert y == c + k - 256 * q;
    assert y - k == c - 256 * q;
    if q == 0 {
      assert y - k == c;
    } else if c == 0 {
      assert JsRem(y - k, 256) == -((256 * q) % 256);
      assert (256 * q) % 256 == 0;
    } else {
      assert -(y - k) == 256 * (q - 1) + (256 - c);
      assert (-(y - k)) % 256 == 256 - c;
    }
  }

  /** The units of `t` shifted forward by the key, position `i` by key unit `i mod |k|`. */
  function EncryptUnits(t: seq<int>, k: seq<int>): (r: seq<Byte>)
    requires |k| > 0
    requires forall j :: 0 <= j < |t| ==> t[j] >= 0
    requires forall j :: 0 <= j < |k| ==> k[j] >= 0
    ensures |r| == |t|
    ensures forall j :: 0 <= j < |t| ==> r[j] == ShiftUp(t[j], k[j % |k|])
  {
    seq(|t|, j requires 0 <= j < |t| => ShiftUp(t[j], k[j % |k|]))
  }

  /** The units of `t` shifted back by the key. */
  function DecryptUnits(t: seq<int>, k: seq<int>): (r: seq<Byte>)
    requires |k| > 0
    requires forall j :: 0 <= j < |k| ==> k[j] >= 0
    ensures |r| == |t|
    ensures forall j :: 0 <= j < |t| ==> r[j] == ShiftDown(t[j], k[j % |k|])
  {
    seq(|t|, j requires 0 <= j < |t| => ShiftDown(t[j], k[j % |k|]))
  }

  /** Shifting back by the same key undoes shifting forward, on units below 256. */
  lemma DecryptEncryptUnits(t: seq<int>, k: seq<int>)
    requires |k| > 0
    requires forall j :: 0 <= j < |t| ==> 0 <= t[j] < 256
    requires forall j :: 0 <= j < |k| ==> k[j] >= 0
    ensures DecryptUnits(EncryptUnits(t, k), k) == t
  {
    var e := EncryptUnits(t, k);
    var d := DecryptUnits(e, k);
    forall j | 0 <= j < |t|
      ensures d[j] == t[j]
    {
      ShiftDownUp(t[j], k[j % |k|]);
    }
  }

  /** The text the cipher shifts: the Base64 of the UTF-8 bytes of the plaintext. */
  function Armored(plain: string): (r: string)
    ensures forall j :: 0 <= j < |r| ==> r[j] as int < 0x80
  {
    Base64.Encode(Utf8.Encode(plain))
  }

  /** What `encrypt` returns for `plain` under `key`. */
  function EncryptSpec(key: Key, plain: string): string {
    if plain == "" then ""
    else Base64.Encode(BinaryBytes(BinaryString(EncryptUnits(CodeUnits(Armored(plain)), CodeUnits(key)))))
  }

  /** What `decrypt` returns for `cipher` under `key`. */
  function DecryptSpec(key: Key, cipher: string): string {
    if cipher == "" then ""
    else
      var shifted := BinaryString(Base64.Decode(cipher));
      var armored := BinaryString(DecryptUnits(CodeUnits(shifted), CodeUnits(key)));
      Utf8.Decode(Base64.Decode(armored))
  }

  /** Decryption under the same key gives back every plaintext. */
  lemma DecryptEncrypt(key: Key, plain: string)
    ensures DecryptSpec(key, EncryptSpec(key, plain)) == plain
  {
    if plain != "" {
      var a := Armored(plain);
      CodeUnitsNarrow(a);
      var u := CodeUnits(a);
      var k := CodeUnits(key);
      var e := EncryptUnits(u, k);
      BinaryRoundTrip(e);
      var c := Base64.Encode(e);
      assert EncryptSpec(key, plain) == c;
      Base64.EncodeLength(Utf8.Encode(plain));
      Base64.EncodeLength(e);
      assert c != "";
      Base64.DecodeEncode(e);
      DecryptEncryptUnits(u, k);
      assert BinaryString(u) == a;
      Base64.DecodeEncode(Utf8.Encode(plain));
      Utf8.DecodeEncode(plain);
    }
  }

  /** The ciphertext is as long as Base64 makes the shifted text, which is as long as Base64 makes the UTF-8 bytes. */
  lemma EncryptLength(key: Key, plain: string)
    requires plain != ""
    ensures |EncryptSpec(key, plain)| == 4 * ((|Armored(plain)| + 2) / 3)
    ensures |Armored(plain)| == 4 * ((|Utf8.Encode(plain)| + 2) / 3)
  {
    var a := Armored(plain);
    CodeUnitsNarrow(a);
    var e := EncryptUnits(CodeUnits(a), CodeUnits(key));
    BinaryRoundTrip(e);
    assert EncryptSpec(key, plain) == Base64.Encode(e);
    assert |e| == |a|;
    Base64.EncodeLength(e);
    Base64.EncodeLength(Utf8.Encode(plain));
  }

  /** The cipher object; its key is fixed when it is built. */
  class VigenereCipher {
    const key: Key

    /** Takes the configured key, or the default when none is configured. */
    constructor(env: Option<string>)
      ensures key == ChooseKey(env)
    {
      key := ChooseKey(env);
    }

    method Encrypt(plain: string) returns (r: string)
      ensures r == EncryptSpec(key, plain)
    {
      if plain == "" {
        return "";
      }
      var text := CodeUnits(Armored(plain));
      var k := CodeUnits(key);
      var encrypted: string := "";
      for i := 0 to |text|
        invariant |encrypted| == i
        invariant forall j :: 0 <= j < i ==> encrypted[j] as int == ShiftUp(text[j], k[j % |k|])
      {
        encrypted := encrypted + [ShiftUp(text[i], k[i % |k|]) as char];
      }
      assert encrypted == BinaryString(EncryptUnits(text, k));
      r := Base64.Encode(BinaryBytes(encrypted));
    }

    method Decrypt(cipher: string) returns (r: string)
      ensures r == DecryptSpec(key, cipher)
    {
      if cipher == "" {
        return "";
      }
      var shifted := CodeUnits(BinaryString(Base64.Decode(cipher)));
      var k := CodeUnits(key);
      var decrypted: string := "";
      for i := 0 to |shifted|
        invariant |decrypted| == i
        invariant forall j :: 0 <= j < i ==> decrypted[j] as int == ShiftDown(shifted[j], k[j % |k|])
      {
        decrypted := decrypted + [ShiftDown(shifted[i], k[i % |k|]) as char];
      }
      assert decrypted == BinaryString(DecryptUnits(shifted, k));
      r := Utf8.Decode(Base64.Decode(decrypted));
    }

    /** `encryptJSON`: encrypts the serialization `stringify` gives. */
    method EncryptJson<D>(data: D, stringify: D -> string) returns (r: string)
      ensures r == EncryptSpec(key, stringify(data))
    {
      r := Encrypt(stringify(data));
    }

    /** `decryptJSON`: parses the decryption; `parse` answers None where `JSON.parse` throws, and so does this. */
    method DecryptJson<D>(cipher: string, parse: string -> Option<D>) returns (r: Option<D>)
      ensures r == parse(DecryptSpec(key, cipher))
    {
      var text := Decrypt(cipher);
      r := parse(text);
    }
  }

  /** Any value whose serialization parses back to it survives encryptJSON then decryptJSON. */
  lemma DecryptJsonEncryptJson<D>(key: Key, data: D, stringify: D -> string, parse: string -> Option<D>)
    requires parse(stringify(data)) == Some(data)
    ensures parse(DecryptSpec(key, EncryptSpec(key, stringify(data)))) == Some(data)
  {
    DecryptEncrypt(key, stringify(data));
  }

  /** The empty ciphertext decrypts to the empty string, which `JSON.parse` rejects: decryptJSON then yields null. */
  lemma DecryptJsonEmpty<D>(key: Key, parse: string -> Option<D>)
    requires parse("") == None
    ensures parse(DecryptSpec(key, "")) == None
  {
  }
}
