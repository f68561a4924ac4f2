/**
 * The pieces of JavaScript's string library that the modelled code relies on:
 * the `\s` character class (which is also the set `String.prototype.trim`
 * strips), `trim`, `toLowerCase`, `includes`, `startsWith`, `endsWith`,
 * `join`, `parseInt`, decimal rendering of a natural number, and the UTF-16 code units that
 * `length` counts and `charCodeAt` reads.
 */
module JsString {
  import opened Wrappers

  /** The characters matched by `\s` in a JavaScript regular expression. */
  predicate IsJsSpace(c: char) {
    || c == '\t' || c == '\n' || c == '\U{000B}' || c == '\U{000C}' || c == '\r' || c == ' '
    || c == '\U{00A0}' || c == '\U{1680}' || ('\U{2000}' <= c <= '\U{200A}')
    || c == '\U{2028}' || c == '\U{2029}' || c == '\U{202F}' || c == '\U{205F}'
    || c == '\U{3000}' || c == '\U{FEFF}'
  }

  predicate AllSpace(s: string) {
    forall k :: 0 <= k < |s| ==> IsJsSpace(s[k])
  }

  predicate IsAsciiDigit(c: char) {
    '0' <= c <= '9'
  }

  predicate AllDigits(s: string) {
    forall k :: 0 <= k < |s| ==> IsAsciiDigit(s[k])
  }

  function DigitValue(c: char): (v: nat)
    requires IsAsciiDigit(c)
    ensures v < 10
  {
    c as int - '0' as int
  }

  /** Number of leading `\s` characters. */
  function LeadingSpaces(s: string): (n: nat)
    ensures n <= |s|
    ensures forall k :: 0 <= k < n ==> IsJsSpace(s[k])
    ensures n < |s| ==> !IsJsSpace(s[n])
  {
    if s == [] || !IsJsSpace(s[0]) then 0 else 1 + LeadingSpaces(s[1..])
  }

  /** `trimStart`: `s` without its leading `\s` characters. */
  function TrimStart(s: string): (r: string)
    ensures |r| <= |s|
    ensures forall k :: 0 <= k < |s| - |r| ==> IsJsSpace(s[k])
    ensures r != [] ==> !IsJsSpace(r[0])
  {
    if s == [] || !IsJsSpace(s[0]) then s else TrimStart(s[1..])
  }

  /** `trimEnd`: `s` without its trailing `\s` characters. */
  function TrimEnd(s: string): (r: string)
    ensures |r| <= |s|
    ensures forall k :: |r| <= k < |s| ==> IsJsSpace(s[k])
    ensures r != [] ==> !IsJsSpace(r[|r| - 1])
  {
    if s == [] || !IsJsSpace(s[|s| - 1]) then s else TrimEnd(s[..|s| - 1])
  }

  /**
   * `String.prototype.trim`: the infix of `s` left once the leading and the
   * trailing `\s` characters are gone.
   */
  function Trim(s: string): (r: string)
    ensures |r| <= |s|
    ensures r != [] ==> !IsJsSpace(r[0]) && !IsJsSpace(r[|r| - 1])
  {
    TrimEndIsPrefix(TrimStart(s));
    TrimEnd(TrimStart(s))
  }

  /** `TrimStart(s)` is a suffix of `s`. */
  lemma {:induction false} TrimStartIsSuffix(s: string)
    ensures TrimStart(s) == s[|s| - |TrimStart(s)|..]
  {
    if s != [] && IsJsSpace(s[0]) {
      TrimStartIsSuffix(s[1..]);
    }
  }

  /** `TrimEnd(s)` is a prefix of `s`. */
  lemma {:induction false} TrimEndIsPrefix(s: string)
    ensures TrimEnd(s) == s[..|TrimEnd(s)|]
  {
    if s != [] && IsJsSpace(s[|s| - 1]) {
      TrimEndIsPrefix(s[..|s| - 1]);
    }
  }

  /** `Trim(s)` is the infix of `s` that starts right after its leading `\s` characters. */
  lemma TrimInfix(s: string)
    ensures var i := |s| - |TrimStart(s)|; var r := Trim(s);
            i + |r| <= |s| && r == s[i..i + |r|]
  {
    TrimStartIsSuffix(s);
    TrimEndIsPrefix(TrimStart(s));
  }

  /** Everything before `Trim(s)` in `s` is `\s`. */
  lemma TrimPrefixSpaces(s: string)
    ensures forall k :: 0 <= k < |s| - |TrimStart(s)| ==> IsJsSpace(s[k])
  {
  }

  /** Everything after `Trim(s)` in `s` is `\s`. */
  lemma TrimSuffixSpaces(s: string)
    ensures var i := |s| - |TrimStart(s)|;
            forall k :: i + |Trim(s)| <= k < |s| ==> IsJsSpace(s[k])
  {
    var t := TrimStart(s);
    var r := TrimEnd(t);
    var i := |s| - |t|;
    TrimStartIsSuffix(s);
    forall k | i + |r| <= k < |s|
      ensures IsJsSpace(s[k])
    {
      assert s[k] == t[k - i];
    }
  }

  /** Trimming leaves nothing exactly when the string is all `\s`. */
  lemma TrimEmpty(s: string)
    ensures Trim(s) == [] <==> AllSpace(s)
  {
    var t := TrimStart(s);
    var i := |s| - |t|;
    TrimStartIsSuffix(s);
    TrimEndIsPrefix(t);
    SuffixIndex(s, i);
    if Trim(s) != [] {
      assert Trim(s)[0] == t[0] == s[i];
    }
  }

  lemma SuffixIndex(s: string, i: nat)
    requires i <= |s|
    ensures forall k :: i <= k < |s| ==> s[k] == s[i..][k - i]
  {
  }

  /** Trimming a trimmed string changes nothing. */
  lemma TrimIdempotent(s: string)
    ensures Trim(Trim(s)) == Trim(s)
  {
    var r := Trim(s);
    if r != [] {
      assert TrimStart(r) == r;
    }
  }

  /** `parts.join(sep)`. */
  function Join(parts: seq<string>, sep: string): (r: string)
    ensures parts == [] ==> r == ""
    ensures |parts| == 1 ==> r == parts[0]
  {
    if parts == [] then ""
    else if |parts| == 1 then parts[0]
    else parts[0] + sep + Join(parts[1..], sep)
  }

  /** Lower-case mapping of `toLowerCase` for ASCII and Latin-1 letters. */
  function ToLowerChar(c: char): (r: char)
    ensures 'A' <= c <= 'Z' ==> r as int == c as int + 32
    ensures !('A' <= c <= 'Z') && !('\U{00C0}' <= c <= '\U{00DE}') ==> r == c
  {
    if 'A' <= c <= 'Z' then (c as int + 32) as char
    else if '\U{00C0}' <= c <= '\U{00DE}' && c != '\U{00D7}' then (c as int + 32) as char
    else c
  }

  /** `String.prototype.toLowerCase`, character by character. */
  function ToLower(s: string): (r: string)
    ensures |r| == |s|
    ensures forall k :: 0 <= k < |s| ==> r[k] == ToLowerChar(s[k])
  {
    seq(|s|, k requires 0 <= k < |s| => ToLowerChar(s[k]))
  }

  predicate StartsWith(s: string, prefix: string) {
    prefix <= s
  }

  predicate EndsWith(s: string, suffix: string) {
    |suffix| <= |s| && s[|s| - |suffix|..] == suffix
  }

  /** `s.includes(sub)`, computed by scanning every start position. */
  predicate Includes(s: string, sub: string)
    decreases |s|
  {
    sub <= s || (s != [] && Includes(s[1..], sub))
  }

  /** `sub` occurs in `s` starting at index `i`. */
  predicate OccursAt(s: string, sub: string, i: int) {
    0 <= i <= |s| - |sub| && s[i..i + |sub|] == sub
  }

  /** `Includes` holds exactly when `sub` occurs at some index of `s`. */
  lemma {:induction false} IncludesIff(s: string, sub: string)
    ensures Includes(s, sub) <==> exists i :: OccursAt(s, sub, i)
  {
    if sub <= s {
      assert OccursAt(s, sub, 0);
    } else if s == [] {
    } else {
      IncludesIff(s[1..], sub);
      if Includes(s[1..], sub) {
        var i :| OccursAt(s[1..], sub, i);
        assert s[1..][i..i + |sub|] == s[i + 1..i + 1 + |sub|];
        assert OccursAt(s, sub, i + 1);
      }
      if exists i :: OccursAt(s, sub, i) {
        var i :| OccursAt(s, sub, i);
        // i == 0 would mean `sub <= s`, which this branch excludes
        if i != 0 {
          assert s[1..][i - 1..i - 1 + |sub|] == s[i..i + |sub|];
          assert OccursAt(s[1..], sub, i - 1);
        }
      }
    }
  }

  /** The first index from `i` on where `sub` occurs in `s`. */
  function IndexOfFrom(s: string, sub: string, i: nat): (r: Option<nat>)
    ensures r.Some? ==> i <= r.value && OccursAt(s, sub, r.value)
    ensures r.Some? ==> forall j :: i <= j < r.value ==> !OccursAt(s, sub, j)
    ensures r.None? ==> forall j :: i <= j ==> !OccursAt(s, sub, j)
    decreases |s| - i
  {
    if i + |sub| > |s| then None
    else if s[i..i + |sub|] == sub then Some(i)
    else IndexOfFrom(s, sub, i + 1)
  }

  /** `s.indexOf(sub)`: the first index where `sub` occurs, None for -1. */
  function IndexOfSub(s: string, sub: string): (r: Option<nat>)
    ensures r.Some? ==> OccursAt(s, sub, r.value)
    ensures r.Some? ==> forall j :: 0 <= j < r.value ==> !OccursAt(s, sub, j)
    ensures r.None? ==> forall j :: !OccursAt(s, sub, j)
  {
    IndexOfFrom(s, sub, 0)
  }

  /** `s.replace(sub, rep)` with a string pattern: only the first occurrence is replaced. */
  function ReplaceFirst(s: string, sub: string, rep: string): (r: string)
    ensures IndexOfSub(s, sub).None? ==> r == s
  {
    match IndexOfSub(s, sub)
    case Some(i) => s[..i] + rep + s[i + |sub|..]
    case None => s
  }

  /** Removing the first occurrence of `sub` from `base + sub`, when `base + sub` has no earlier occurrence, gives `base`. */
  lemma ReplaceFirstSuffix(base: string, sub: string)
    requires forall j :: 0 <= j < |base| ==> !OccursAt(base + sub, sub, j)
    ensures ReplaceFirst(base + sub, sub, "") == base
  {
    var s := base + sub;
    assert s[|base|..|base| + |sub|] == sub;
    assert OccursAt(s, sub, |base|);
    var i := IndexOfSub(s, sub).value;
    assert i == |base|;
    assert s[..i] == base;
  }

  lemma IncludesEmpty(s: string)
    ensures Includes(s, "")
  {
  }

  /** The decimal digits of `n`, as `String(n)` writes them. */
  function NatToString(n: nat): (r: string)
    ensures |r| >= 1 && AllDigits(r)
  {
    var d := ['0' + (n % 10) as char];
    if n < 10 then d else NatToString(n / 10) + d
  }

  /** The value of a string of decimal digits. */
  function DigitsValue(s: string): nat
    requires AllDigits(s)
  {
    if s == [] then 0 else DigitsValue(s[..|s| - 1]) * 10 + DigitValue(s[|s| - 1])
  }

  lemma {:induction false} NatToStringValue(n: nat)
    ensures DigitsValue(NatToString(n)) == n
  {
    var r := NatToString(n);
    if n >= 10 {
      NatToStringValue(n / 10);
      assert r[..|r| - 1] == NatToString(n / 10);
    }
  }

  /** Length of the longest prefix of `s` made of decimal digits. */
  function DigitRun(s: string): (n: nat)
    ensures n <= |s| && AllDigits(s[..n])
    ensures n < |s| ==> !IsAsciiDigit(s[n])
  {
    if s == [] || !IsAsciiDigit(s[0]) then 0
    else
      var n := 1 + DigitRun(s[1..]);
      assert s[..n] == [s[0]] + s[1..][..n - 1];
      n
  }

  /** The number the digits at the start of `u` spell; None when `u` does not start with a digit. */
  function ParseDigits(u: string): (r: Option<int>)
    ensures r.None? <==> u == [] || !IsAsciiDigit(u[0])
    ensures r.Some? ==> r.value >= 0
  {
    var n := DigitRun(u);
    if n == 0 then None else Some(DigitsValue(u[..n]))
  }

  /** One optional sign, then the digits; a minus sign negates them. */
  function ParseSigned(t: string): (r: Option<int>)
    ensures r.None? <==> (var u := if t != [] && (t[0] == '+' || t[0] == '-') then t[1..] else t;
                          u == [] || !IsAsciiDigit(u[0]))
  {
    if t != [] && t[0] == '-' then
      match ParseDigits(t[1..])
      case None => None
      case Some(v) => Some(-v)
    else if t != [] && t[0] == '+' then ParseDigits(t[1..])
    else ParseDigits(t)
  }

  /**
   * `parseInt(s)` on decimal text: leading `\s` is skipped, one optional
   * sign is read, then the longest run of decimal digits; None stands for
   * NaN (no digit at all).
   */
  function ParseInt(s: string): (r: Option<int>)
    ensures r.None? <==> (var t := s[LeadingSpaces(s)..];
                          var u := if t != [] && (t[0] == '+' || t[0] == '-') then t[1..] else t;
                          u == [] || !IsAsciiDigit(u[0]))
  {
    ParseSigned(s[LeadingSpaces(s)..])
  }

  /** The digit run of a string of digits followed by a non-digit (or nothing) is the whole string of digits. */
  lemma {:induction false} DigitRunOfDigits(d: string, rest: string)
    requires AllDigits(d)
    requires rest == [] || !IsAsciiDigit(rest[0])
    ensures DigitRun(d + rest) == |d|
    decreases |d|
  {
    if d != [] {
      assert (d + rest)[1..] == d[1..] + rest;
      DigitRunOfDigits(d[1..], rest);
    }
  }

  /** A decimal numeral followed by a non-digit (or nothing) spells its number. */
  lemma ParseDigitsDecimal(n: nat, rest: string)
    requires rest == [] || !IsAsciiDigit(rest[0])
    ensures ParseDigits(NatToString(n) + rest) == Some(n)
  {
    var d := NatToString(n);
    DigitRunOfDigits(d, rest);
    NatToStringValue(n);
    assert (d + rest)[..|d|] == d;
  }

  /** The white space `parseInt` skips at the front of `ws + s` is `ws` and then what it skips in `s`. */
  lemma {:induction false} LeadingSpacesAppend(ws: string, s: string)
    requires forall k :: 0 <= k < |ws| ==> IsJsSpace(ws[k])
    ensures (ws + s)[LeadingSpaces(ws + s)..] == s[LeadingSpaces(s)..]
    decreases |ws|
  {
    if ws != [] {
      var t := ws + s;
      assert t[1..] == ws[1..] + s;
      LeadingSpacesAppend(ws[1..], s);
      assert LeadingSpaces(t) == 1 + LeadingSpaces(t[1..]);
      assert t[LeadingSpaces(t)..] == t[1..][LeadingSpaces(t[1..])..];
    } else {
      assert ws + s == s;
    }
  }

  /** Leading white space is skipped: it never changes what `parseInt` reads. */
  lemma ParseIntSkipsSpaces(ws: string, s: string)
    requires forall k :: 0 <= k < |ws| ==> IsJsSpace(ws[k])
    ensures ParseInt(ws + s) == ParseInt(s)
  {
    LeadingSpacesAppend(ws, s);
  }

  /** A numeral after at most one sign is read back, negated after a minus. */
  lemma ParseSignedDecimal(n: nat, rest: string)
    requires rest == [] || !IsAsciiDigit(rest[0])
    ensures ParseSigned(NatToString(n) + rest) == Some(n)
    ensures ParseSigned("+" + (NatToString(n) + rest)) == Some(n)
    ensures ParseSigned("-" + (NatToString(n) + rest)) == Some(-(n as int))
  {
    var s := NatToString(n) + rest;
    ParseDigitsDecimal(n, rest);
    assert IsAsciiDigit(s[0]);
    assert ("+" + s)[1..] == s;
    assert ("-" + s)[1..] == s;
  }

  /** A string that starts with a character other than white space is read from its first character. */
  lemma NoLeadingSpaces(s: string)
    requires s != [] && !IsJsSpace(s[0])
    ensures ParseInt(s) == ParseSigned(s)
  {
    assert s[0..] == s;
  }

  /**
   * `parseInt` reads a decimal number back, unsigned or after one sign, up
   * to the first character that is not a digit.
   */
  lemma ParseIntDecimal(n: nat, rest: string)
    requires rest == [] || !IsAsciiDigit(rest[0])
    ensures ParseInt(NatToString(n) + rest) == Some(n)
    ensures ParseInt("+" + (NatToString(n) + rest)) == Some(n)
    ensures ParseInt("-" + (NatToString(n) + rest)) == Some(-(n as int))
  {
    var s := NatToString(n) + rest;
    ParseSignedDecimal(n, rest);
    assert IsAsciiDigit(s[0]);
    NoLeadingSpaces(s);
    NoLeadingSpaces("+" + s);
    NoLeadingSpaces("-" + s);
  }

  /** The UTF-16 code units of one character. */
  function CharUnits(c: char): (r: seq<int>)
    ensures |r| == 1 <==> c as int < 0x10000
    ensures 1 <= |r| <= 2
    ensures forall j :: 0 <= j < |r| ==> 0 <= r[j] < 0x10000
  {
    var v := c as int;
    if v < 0x10000 then [v]
    else [0xD800 + (v - 0x10000) / 1024, 0xDC00 + (v - 0x10000) % 1024]
  }

  /** The UTF-16 code units of a string: `s.length` is their number, `s.charCodeAt(i)` the `i`-th. */
  function CodeUnits(s: string): (r: seq<int>)
    ensures |s| <= |r| <= 2 * |s|
    ensures forall j :: 0 <= j < |r| ==> 0 <= r[j] < 0x10000
  {
    if s == [] then [] else CharUnits(s[0]) + CodeUnits(s[1..])
  }

  /** A string of characters below U+10000 has one code unit per character, equal to its code. */
  lemma {:induction false} CodeUnitsNarrow(s: string)
    requires forall j :: 0 <= j < |s| ==> s[j] as int < 0x10000
    ensures |CodeUnits(s)| == |s|
    ensures forall j :: 0 <= j < |s| ==> CodeUnits(s)[j] == s[j] as int
  {
    if s != [] {
      CodeUnitsNarrow(s[1..]);
    }
  }
}
