/**
 * The browser's `btoa` and `atob`: the base64 encoding of section 4 of RFC 4648
 * (alphabet A-Z a-z 0-9 + /, '=' padding), and the "forgiving-base64 decode" that
 * `atob` runs (ASCII whitespace is ignored, padding is optional, leftover bits
 * are dropped, anything else outside the alphabet throws InvalidCharacterError).
 */
module Base64 {
  import opened Wrappers

  /** One element of a Uint8Array. */
  newtype Byte = x: int | 0 <= x < 256

  /** A 6-bit value: one base64 digit. */
  type Sextet = x: int | 0 <= x < 64

  predicate IsAlphabetChar(c: char) {
    ('A' <= c <= 'Z') || ('a' <= c <= 'z') || ('0' <= c <= '9') || c == '+' || c == '/'
  }

  predicate IsAsciiWhitespace(c: char) {
    c == ' ' || c as int == 9 || c as int == 10 || c as int == 12 || c as int == 13
  }

  predicate AllAlphabet(s: string) {
    forall i :: 0 <= i < |s| ==> IsAlphabetChar(s[i])
  }

  /** The digit of value `v` in the RFC 4648 table. */
  function CharOf(v: Sextet): (c: char)
    ensures IsAlphabetChar(c)
  {
    if v < 26 then (65 + v) as char
    else if v < 52 then (97 + v - 26) as char
    else if v < 62 then (48 + v - 52) as char
    else if v == 62 then '+'
    else '/'
  }

  /** The value of a base64 digit; the inverse of CharOf. */
  function ValueOf(c: char): (v: Sextet)
    requires IsAlphabetChar(c)
    ensures CharOf(v) == c
  {
    if 'A' <= c <= 'Z' then c as int - 65
    else if 'a' <= c <= 'z' then c as int - 97 + 26
    else if '0' <= c <= '9' then c as int - 48 + 52
    else if c == '+' then 62
    else 63
  }

  lemma ValueOfCharOf(v: Sextet)
    ensures ValueOf(CharOf(v)) == v
  {
  }

  /** Values to digits, one for one. */
  function Digits(v: seq<Sextet>): (r: string)
    ensures |r| == |v| && AllAlphabet(r)
    ensures forall i :: 0 <= i < |v| ==> r[i] == CharOf(v[i])
  {
    seq(|v|, i requires 0 <= i < |v| => CharOf(v[i]))
  }

  /** Digits to values, one for one. */
  function Values(s: string): (v: seq<Sextet>)
    requires AllAlphabet(s)
    ensures |v| == |s|
    ensures forall i :: 0 <= i < |s| ==> v[i] == ValueOf(s[i])
  {
    seq(|s|, i requires 0 <= i < |s| => ValueOf(s[i]))
  }

  lemma ValuesOfDigits(v: seq<Sextet>)
    ensures Values(Digits(v)) == v
  {
    forall i | 0 <= i < |v|
      ensures Values(Digits(v))[i] == v[i]
    {
      ValueOfCharOf(v[i]);
    }
  }

  // ---------------------------------------------------------------------------
  // Encoding (btoa)
  // ---------------------------------------------------------------------------

  /** How many digits `n` bytes take before padding: four per full group, then two or three. */
  function DigitCount(n: nat): nat {
    if n >= 3 then 4 + DigitCount(n - 3) else if n == 0 then 0 else n + 1
  }

  lemma {:induction false} DigitCountExact(n: nat)
    ensures DigitCount(n) == 4 * (n / 3) + (if n % 3 == 0 then 0 else n % 3 + 1)
  {
    if n >= 3 {
      DigitCountExact(n - 3);
    }
  }

  lemma DigitCountMod(n: nat)
    ensures DigitCount(n) % 4 == (if n % 3 == 0 then 0 else n % 3 + 1)
    ensures n % 3 != 0 ==> DigitCount(n) >= 2
  {
    DigitCountExact(n);
    var q, r := n / 3, if n % 3 == 0 then 0 else n % 3 + 1;
    assert 0 <= r < 4 && DigitCount(n) == 4 * q + r;
  }

  /** Three byte values read as four six-bit values. */
  function SplitGroup(x0: int, x1: int, x2: int): (r: seq<Sextet>)
    requires 0 <= x0 < 256 && 0 <= x1 < 256 && 0 <= x2 < 256
    ensures |r| == 4
  {
    [x0 / 4, (x0 % 4) * 16 + x1 / 16, (x1 % 16) * 4 + x2 / 64, x2 % 64]
  }

  /**
   * The bytes read six bits at a time: three bytes give four values, and a final
   * one or two bytes give two or three values, the missing bits being zero.
   */
  function ToSextets(b: seq<Byte>): (r: seq<Sextet>)
    ensures |r| == DigitCount(|b|)
    decreases |b|
  {
    if |b| >= 3 then SplitGroup(b[0] as int, b[1] as int, b[2] as int) + ToSextets(b[3..])
    else if |b| == 2 then SplitGroup(b[0] as int, b[1] as int, 0)[..3]
    else if |b| == 1 then SplitGroup(b[0] as int, 0, 0)[..2]
    else []
  }

  /** The digits of the whole input, without the '=' padding. */
  function EncodeDigits(b: seq<Byte>): string {
    Digits(ToSextets(b))
  }

  /**
   * RFC 4648 section 4 encoding: the digits, padded with '=' to a multiple of
   * four; a digit never follows an '='.
   */
  function Encode(b: seq<Byte>): (r: string)
    ensures |r| % 4 == 0
    ensures forall i :: 0 <= i < |r| ==> (IsAlphabetChar(r[i]) <==> i < DigitCount(|b|))
    ensures forall i :: DigitCount(|b|) <= i < |r| ==> r[i] == '='
  {
    DigitCountMod(|b|);
    EncodeDigits(b) + (if |b| % 3 == 1 then "==" else if |b| % 3 == 2 then "=" else "")
  }

  /** A JavaScript "binary string": every code unit is a byte value. */
  predicate IsBinaryString(s: string) {
    forall i :: 0 <= i < |s| ==> s[i] as int < 256
  }

  function BytesToBinary(b: seq<Byte>): (s: string)
    ensures |s| == |b| && IsBinaryString(s)
    ensures forall i :: 0 <= i < |b| ==> s[i] as int == b[i] as int
  {
    seq(|b|, i requires 0 <= i < |b| => (b[i] as int) as char)
  }

  function BinaryToBytes(s: string): (b: seq<Byte>)
    requires IsBinaryString(s)
    ensures |b| == |s|
    ensures forall i :: 0 <= i < |s| ==> b[i] as int == s[i] as int
  {
    seq(|s|, i requires 0 <= i < |s| => s[i] as int as Byte)
  }

  /** `btoa`: throws (None) on a code unit above 0xFF, else encodes the bytes. */
  function Btoa(s: string): (r: Option<string>)
    ensures r.Some? <==> IsBinaryString(s)
  {
    if IsBinaryString(s) then Some(Encode(BinaryToBytes(s))) else None
  }

  lemma BtoaOfBytes(b: seq<Byte>)
    ensures Btoa(BytesToBinary(b)) == Some(Encode(b))
  {
    assert BinaryToBytes(BytesToBinary(b)) == b;
  }

  // ---------------------------------------------------------------------------
  // Decoding (atob)
  // ---------------------------------------------------------------------------

  /** Four six-bit values read as three byte values. */
  function JoinGroup(v0: Sextet, v1: Sextet, v2: Sextet, v3: Sextet): (r: seq<Byte>)
    ensures |r| == 3
  {
    var y0, y1, y2, y3 := v0 as int, v1 as int, v2 as int, v3 as int;
    [(y0 * 4 + y1 / 16) as Byte, ((y1 % 16) * 16 + y2 / 4) as Byte, ((y2 % 4) * 64 + y3) as Byte]
  }

  /**
   * Values to bytes, four values giving three bytes; a final group of two or three
   * values gives one or two bytes and its leftover bits are discarded.
   */
  function FromSextets(v: seq<Sextet>): (r: seq<Byte>)
    requires |v| % 4 != 1
    ensures |r| == 3 * |v| / 4
    decreases |v|
  {
    if |v| >= 4 then JoinGroup(v[0], v[1], v[2], v[3]) + FromSextets(v[4..])
    else if |v| == 3 then JoinGroup(v[0], v[1], v[2], 0)[..2]
    else if |v| == 2 then JoinGroup(v[0], v[1], 0, 0)[..1]
    else []
  }

  function DecodeDigits(s: string): seq<Byte>
    requires AllAlphabet(s) && |s| % 4 != 1
  {
    FromSextets(Values(s))
  }

  /**
   * Removes every ASCII whitespace character: what is left has no whitespace.
   * That every other character is kept, as often and in the same order, is
   * StripWhitespaceCounts and StripWhitespaceAppend.
   */
  function StripWhitespace(s: string): (r: string)
    ensures forall i :: 0 <= i < |r| ==> !IsAsciiWhitespace(r[i])
    ensures |r| <= |s|
    decreases |s|
  {
    if s == [] then []
    else if IsAsciiWhitespace(s[0]) then StripWhitespace(s[1..])
    else [s[0]] + StripWhitespace(s[1..])
  }

  /** Stripping keeps every character other than whitespace exactly as often as the input has it. */
  lemma {:induction false} StripWhitespaceCounts(s: string)
    ensures forall c :: !IsAsciiWhitespace(c) ==> multiset(StripWhitespace(s))[c] == multiset(s)[c]
    decreases |s|
  {
    if s != [] {
      StripWhitespaceCounts(s[1..]);
      assert s == [s[0]] + s[1..];
    }
  }

  /**
   * When the length is a multiple of four, one or two trailing '=' are removed:
   * the result is a prefix, and only '=' is cut off, and only from such a length.
   */
  function DropPadding(t: string): (r: string)
    ensures |t| - 2 <= |r| <= |t| && r == t[..|r|]
    ensures forall i :: |r| <= i < |t| ==> t[i] == '='
    ensures |r| < |t| ==> |t| % 4 == 0
    ensures |t| % 4 == 0 && |t| >= 1 && t[|t| - 1] == '=' ==> |r| < |t|
  {
    if |t| % 4 == 0 && |t| >= 2 && t[|t| - 2] == '=' && t[|t| - 1] == '=' then t[..|t| - 2]
    else if |t| % 4 == 0 && |t| >= 1 && t[|t| - 1] == '=' then t[..|t| - 1]
    else t
  }

  /** The forgiving-base64 decode: None where `atob` throws InvalidCharacterError. */
  function ForgivingDecode(s: string): (r: Option<seq<Byte>>)
    ensures r.Some? ==> |r.value| == 3 * |DropPadding(StripWhitespace(s))| / 4
  {
    var u := DropPadding(StripWhitespace(s));
    if |u| % 4 == 1 || !AllAlphabet(u) then None
    else Some(DecodeDigits(u))
  }

  /** `atob`: the decoded bytes as a binary string. */
  function Atob(s: string): (r: Option<string>)
    ensures r.Some? ==> IsBinaryString(r.value)
  {
    match ForgivingDecode(s)
    case None => None
    case Some(b) => Some(BytesToBinary(b))
  }

  // ---------------------------------------------------------------------------
  // Round trip
  // ---------------------------------------------------------------------------

  lemma TripleArith(x0: int, x1: int, x2: int)
    requires 0 <= x0 < 256 && 0 <= x1 < 256 && 0 <= x2 < 256
    ensures (x0 / 4) * 4 + ((x0 % 4) * 16 + x1 / 16) / 16 == x0
    ensures (((x0 % 4) * 16 + x1 / 16) % 16) * 16 + ((x1 % 16) * 4 + x2 / 64) / 4 == x1
    ensures (((x1 % 16) * 4 + x2 / 64) % 4) * 64 + x2 % 64 == x2
  {
  }

  lemma JoinSplit(x0: int, x1: int, x2: int)
    requires 0 <= x0 < 256 && 0 <= x1 < 256 && 0 <= x2 < 256
    ensures var g := SplitGroup(x0, x1, x2);
      JoinGroup(g[0], g[1], g[2], g[3]) == [x0 as Byte, x1 as Byte, x2 as Byte]
  {
    TripleArith(x0, x1, x2);
  }

  /** Regrouping the six-bit values into bytes gives back the bytes. */
  lemma {:induction false} FromToSextets(b: seq<Byte>)
    ensures |ToSextets(b)| % 4 != 1
    ensures FromSextets(ToSextets(b)) == b
    decreases |b|
  {
    DigitCountMod(|b|);
    var v := ToSextets(b);
    if |b| >= 3 {
      var g := SplitGroup(b[0] as int, b[1] as int, b[2] as int);
      JoinSplit(b[0] as int, b[1] as int, b[2] as int);
      FromToSextets(b[3..]);
      assert v[..4] == g && v[4..] == ToSextets(b[3..]);
      assert b == [b[0], b[1], b[2]] + b[3..];
    } else if |b| == 2 {
      var g := SplitGroup(b[0] as int, b[1] as int, 0);
      JoinSplit(b[0] as int, b[1] as int, 0);
      assert g[3] == 0;
    } else if |b| == 1 {
      var g := SplitGroup(b[0] as int, 0, 0);
      JoinSplit(b[0] as int, 0, 0);
      assert g[2] == 0 && g[3] == 0;
    }
  }

  /** Decoding the digits of an encoding gives back the bytes. */
  lemma DecodeEncodeDigits(b: seq<Byte>)
    ensures AllAlphabet(EncodeDigits(b)) && |EncodeDigits(b)| % 4 != 1
    ensures DecodeDigits(EncodeDigits(b)) == b
  {
    ValuesOfDigits(ToSextets(b));
    FromToSextets(b);
  }

  lemma {:induction false} StripWhitespaceNoop(s: string)
    requires forall i :: 0 <= i < |s| ==> !IsAsciiWhitespace(s[i])
    ensures StripWhitespace(s) == s
    decreases |s|
  {
    if s != [] {
      StripWhitespaceNoop(s[1..]);
    }
  }

  lemma DropPaddingAfter(d: string, pad: string)
    requires AllAlphabet(d)
    requires pad == "" || pad == "=" || pad == "=="
    requires (|d| + |pad|) % 4 == 0
    requires pad != "" ==> |d| >= 2
    ensures DropPadding(d + pad) == d
  {
    var e := d + pad;
    if pad == "" {
      assert e == d;
      if |d| >= 1 {
        assert IsAlphabetChar(d[|d| - 1]);
      }
    } else if pad == "=" {
      assert e[|e| - 2] == d[|d| - 1];
      assert IsAlphabetChar(d[|d| - 1]);
      assert e[..|e| - 1] == d;
    } else {
      assert e[..|e| - 2] == d;
    }
  }

  /** The '=' padding of an encoding is exactly what DropPadding removes. */
  lemma DropPaddingOfEncode(b: seq<Byte>)
    ensures DropPadding(Encode(b)) == EncodeDigits(b)
  {
    var d, n := EncodeDigits(b), |b|;
    assert |d| == DigitCount(n);
    DigitCountMod(n);
    if n % 3 == 1 {
      assert Encode(b) == d + "==";
      DropPaddingAfter(d, "==");
    } else if n % 3 == 2 {
      assert Encode(b) == d + "=";
      DropPaddingAfter(d, "=");
    } else {
      assert Encode(b) == d + "";
      DropPaddingAfter(d, "");
    }
  }

  /** `atob(btoa(x))` gives back `x` for every binary string: decode inverts encode. */
  lemma DecodeEncode(b: seq<Byte>)
    ensures ForgivingDecode(Encode(b)) == Some(b)
  {
    var e := Encode(b);
    var d := EncodeDigits(b);
    forall i | 0 <= i < |e|
      ensures !IsAsciiWhitespace(e[i])
    {
      if i < |d| {
        assert e[i] == d[i];
      }
    }
    StripWhitespaceNoop(e);
    DropPaddingOfEncode(b);
    DecodeEncodeDigits(b);
  }

  lemma AtobBtoa(b: seq<Byte>)
    ensures Btoa(BytesToBinary(b)).Some?
    ensures Atob(Btoa(BytesToBinary(b)).value) == Some(BytesToBinary(b))
  {
    BtoaOfBytes(b);
    DecodeEncode(b);
  }

  // ---------------------------------------------------------------------------
  // What `atob` rejects and ignores
  // ---------------------------------------------------------------------------

  lemma {:induction false} StripWhitespaceKeeps(s: string, i: nat)
    requires i < |s| && !IsAsciiWhitespace(s[i])
    ensures s[i] in StripWhitespace(s)
    decreases i
  {
    if i > 0 {
      StripWhitespaceKeeps(s[1..], i - 1);
      assert s[1..][i - 1] == s[i];
    }
  }

  lemma DropPaddingKeeps(t: string, c: char)
    requires c in t && c != '='
    ensures c in DropPadding(t)
  {
    var j :| 0 <= j < |t| && t[j] == c;
    var u := DropPadding(t);
    assert j < |u| && u[j] == c;
  }

  /**
   * A character that is neither a base64 digit, ASCII whitespace nor '=' makes
   * `atob` throw, wherever it stands.
   */
  lemma DecodeRejectsForeign(s: string, i: nat)
    requires i < |s| && !IsAlphabetChar(s[i]) && !IsAsciiWhitespace(s[i]) && s[i] != '='
    ensures ForgivingDecode(s).None?
  {
    StripWhitespaceKeeps(s, i);
    DropPaddingKeeps(StripWhitespace(s), s[i]);
  }

  /**
   * Stripping works piece by piece: the stripped concatenation is the
   * concatenation of the stripped pieces, so the kept characters stay in order.
   */
  lemma {:induction false} StripWhitespaceAppend(a: string, b: string)
    ensures StripWhitespace(a + b) == StripWhitespace(a) + StripWhitespace(b)
    decreases |a|
  {
    if a == [] {
      assert a + b == b;
    } else {
      assert (a + b)[0] == a[0] && (a + b)[1..] == a[1..] + b;
      StripWhitespaceAppend(a[1..], b);
    }
  }

  /** ASCII whitespace anywhere in the input is ignored. */
  lemma DecodeIgnoresWhitespace(a: string, c: char, b: string)
    requires IsAsciiWhitespace(c)
    ensures ForgivingDecode(a + [c] + b) == ForgivingDecode(a + b)
  {
    var sa, sb := StripWhitespace(a), StripWhitespace(b);
    assert StripWhitespace([c]) == [] by {
      assert [c][1..] == [];
    }
    calc {
      StripWhitespace(a + [c] + b);
      { StripWhitespaceAppend(a + [c], b); }
      StripWhitespace(a + [c]) + sb;
      { StripWhitespaceAppend(a, [c]); assert sa + [] == sa; }
      sa + sb;
      { StripWhitespaceAppend(a, b); }
      StripWhitespace(a + b);
    }
  }

  /** A single leftover digit once whitespace and padding are gone makes `atob` throw. */
  lemma DecodeRejectsLeftoverDigit(s: string)
    requires |DropPadding(StripWhitespace(s))| % 4 == 1
    ensures ForgivingDecode(s).None?
  {
  }

  /**
   * An `=` makes `atob` throw unless it is padding: the last character of a
   * whitespace-free input whose length is a multiple of four, or the one before
   * it when the last is `=` too.
   */
  lemma DecodeRejectsShape(s: string, i: nat)
    requires var t := StripWhitespace(s);
      i < |t| && t[i] == '='
      && !(|t| % 4 == 0 && (i == |t| - 1 || (i == |t| - 2 && t[|t| - 1] == '=')))
    ensures ForgivingDecode(s).None?
  {
    var t := StripWhitespace(s);
    var u := DropPadding(t);
    assert i < |u| && u[i] == '=';
    assert !IsAlphabetChar(u[i]);
  }

  /** Every encoding is a whole number of four-character groups. */
  lemma EncodeLength(b: seq<Byte>)
    ensures |Encode(b)| == 4 * ((|b| + 2) / 3)
  {
    DigitCountExact(|b|);
  }
}
