/** The Base64 codec of base64.hpp.

    Section 4 of RFC 4648 regroups the bits of the input from groups of eight into groups of six. The specification
    reads both sides as one big-endian number: bytes are digits in base 256, characters are digits in base 64. */
module Base64 {

  type Byte = b: int | 0 <= b < 256

  const PAD: Byte := 61  // '='
  const NOT_FOUND: Byte := 255  // std::string::npos cast to unsigned char

  /** The character at position v of the alphabet string (A-Z, a-z, 0-9, '+', '/'), as an ASCII code. */
  function AlphabetAt(v: Byte): Byte
    requires v < 64
  {
    if v < 26 then v + 65 else if v < 52 then v + 71 else if v < 62 then v - 4 else if v == 62 then 43 else 47
  }

  predicate IsBase64(c: Byte) {
    65 <= c <= 90 || 97 <= c <= 122 || 48 <= c <= 57 || c == 43 || c == 47
  }

  /** chars.find(c), cast to unsigned char. */
  function Find(c: Byte): Byte {
    if 65 <= c <= 90 then c - 65
    else if 97 <= c <= 122 then c - 71
    else if 48 <= c <= 57 then c + 4
    else if c == 43 then 62
    else if c == 47 then 63
    else NOT_FOUND
  }

  /** n characters from c on. */
  function Run(c: char, n: nat): (s: string)
    requires c as int + n <= 128
    ensures |s| == n && forall i | 0 <= i < n :: s[i] as int == c as int + i
  {
    seq(n, i requires 0 <= i < n => (c as int + i) as char)
  }

  lemma UpperCase()
    ensures Run('A', 26) == "ABCDEFGHIJKLMNOPQRSTUVWXYZ"
  {
  }

  lemma LowerCase()
    ensures Run('a', 26) == "abcdefghijklmnopqrstuvwxyz"
  {
  }

  lemma Digits()
    ensures Run('0', 10) == "0123456789"
  {
  }

  /** Value v is printed as the character at v of the alphabet string, and a character is read as its place there; the
      characters of the string are all that are read. */
  lemma AlphabetIs(v: Byte, c: Byte)
    requires v < 64
    ensures
      var alphabet := "ABCDEFGHIJKLMNOPQRSTUVWXYZ" + "abcdefghijklmnopqrstuvwxyz" + "0123456789" + "+/";
      |alphabet| == 64 && alphabet[v] as int == AlphabetAt(v)
    ensures Find(c) == v <==> AlphabetAt(v) == c
    ensures IsBase64(c) <==> Find(c) < 64
  {
    UpperCase();
    LowerCase();
    Digits();
    PlaceInAlphabet(v);
  }

  lemma PlaceInAlphabet(v: Byte)
    requires v < 64
    ensures
      var s := Run('A', 26) + Run('a', 26) + Run('0', 10) + "+/";
      |s| == 64 && s[v] as int == AlphabetAt(v)
  {
  }

  // ---------- The numbers that byte strings and texts stand for ----------

  /** The number of the first n bytes of s. */
  function ByteNumber(s: seq<Byte>, n: nat): nat
    requires n <= |s|
  {
    if n == 0 then 0 else 256 * ByteNumber(s, n - 1) + s[n - 1]
  }

  /** The number of the first n characters of s. */
  function CharNumber(s: seq<Byte>, n: nat): nat
    requires n <= |s|
  {
    if n == 0 then 0 else 64 * CharNumber(s, n - 1) + Find(s[n - 1])
  }

  lemma {:induction false} SameBytes(s: seq<Byte>, t: seq<Byte>, n: nat)
    requires n <= |s| && n <= |t| && forall i | 0 <= i < n :: s[i] == t[i]
    ensures ByteNumber(s, n) == ByteNumber(t, n)
  {
    if n > 0 {
      SameBytes(s, t, n - 1);
    }
  }

  lemma {:induction false} SameChars(s: seq<Byte>, t: seq<Byte>, n: nat)
    requires n <= |s| && n <= |t| && forall i | 0 <= i < n :: s[i] == t[i]
    ensures CharNumber(s, n) == CharNumber(t, n)
  {
    if n > 0 {
      SameChars(s, t, n - 1);
    }
  }

  /** A byte string is determined by its length and its number. */
  lemma {:induction false} ByteNumberInjective(s: seq<Byte>, t: seq<Byte>, n: nat)
    requires n <= |s| && n <= |t| && ByteNumber(s, n) == ByteNumber(t, n)
    ensures forall i | 0 <= i < n :: s[i] == t[i]
  {
    if n > 0 {
      assert s[n - 1] == ByteNumber(s, n) % 256 && t[n - 1] == ByteNumber(t, n) % 256;
      ByteNumberInjective(s, t, n - 1);
    }
  }

  /** What one to three more bytes do to the number. */
  lemma MoreBytes(s: seq<Byte>, n: nat, a: int, b: int, c: int)
    requires n + 1 <= |s| && a == s[n] && (n + 2 <= |s| ==> b == s[n + 1]) && (n + 3 <= |s| ==> c == s[n + 2])
    ensures ByteNumber(s, n + 1) == 256 * ByteNumber(s, n) + a
    ensures n + 2 <= |s| ==> ByteNumber(s, n + 2) == 65536 * ByteNumber(s, n) + (256 * a + b)
    ensures n + 3 <= |s| ==> ByteNumber(s, n + 3) == 16777216 * ByteNumber(s, n) + (65536 * a + 256 * b + c)
  {
  }

  /** What one to four more characters, with the values v to y, do to the number. */
  lemma MoreChars(s: seq<Byte>, n: nat, v: int, w: int, x: int, y: int)
    requires n + 1 <= |s| && v == Find(s[n]) && (n + 2 <= |s| ==> w == Find(s[n + 1]))
    requires (n + 3 <= |s| ==> x == Find(s[n + 2])) && (n + 4 <= |s| ==> y == Find(s[n + 3]))
    ensures CharNumber(s, n + 1) == 64 * CharNumber(s, n) + v
    ensures n + 2 <= |s| ==> CharNumber(s, n + 2) == 4096 * CharNumber(s, n) + (64 * v + w)
    ensures n + 3 <= |s| ==> CharNumber(s, n + 3) == 262144 * CharNumber(s, n) + (4096 * v + 64 * w + x)
    ensures n + 4 <= |s| ==> CharNumber(s, n + 4) == 16777216 * CharNumber(s, n) + (262144 * v + 4096 * w + 64 * x + y)
  {
  }

  // ---------- What the codec promises ----------

  /** s is the text of b: whole groups of four characters, enough for groups of three bytes, one '=' for each byte
      missing from the last group, and before them the digits in base 64 of the number of b, shifted left by two bits for
      each '='. */
  ghost predicate IsEncoding(b: seq<Byte>, s: seq<Byte>) {
    var pads := 3 * (|s| / 4) - |b|;
    && |s| % 4 == 0 && 0 <= pads <= 2
    && (forall i | |s| - pads <= i < |s| :: s[i] == PAD)
    && (forall i | 0 <= i < |s| - pads :: IsBase64(s[i]))
    && var number := ByteNumber(b, |b|);
       CharNumber(s, |s| - pads) == (if pads == 0 then number else if pads == 1 then 4 * number else 16 * number)
  }

  /** The number of alphabet characters before the first other character. */
  function PrefixLength(s: seq<Byte>): (k: nat)
    ensures k <= |s|
    ensures forall i | 0 <= i < k :: IsBase64(s[i])
    ensures k < |s| ==> !IsBase64(s[k])
  {
    if s == [] || !IsBase64(s[0]) then 0 else 1 + PrefixLength(s[1..])
  }

  /** r holds the first floor(6k/8) bytes of the 6k bits of the k leading alphabet characters of s: the number of r is
      the number of these characters without its last 0, 2, 4 or 6 bits. */
  ghost predicate IsDecoding(s: seq<Byte>, r: seq<Byte>) {
    var k := PrefixLength(s);
    var dropped := 6 * k - 8 * |r|;
    && 0 <= dropped < 8
    && WithoutBits(CharNumber(s, k), dropped, ByteNumber(r, |r|))
  }

  /** q is n without its last d bits, d even. */
  ghost predicate WithoutBits(n: nat, d: nat, q: nat) {
    if d == 0 then n == q
    else if d == 2 then 4 * q <= n < 4 * q + 4
    else if d == 4 then 16 * q <= n < 16 * q + 16
    else 64 * q <= n < 64 * q + 64
  }

  lemma {:induction false} PrefixIs(s: seq<Byte>, k: nat)
    requires k <= |s| && (forall i | 0 <= i < k :: IsBase64(s[i])) && (k < |s| ==> !IsBase64(s[k]))
    ensures PrefixLength(s) == k
  {
    if k > 0 {
      PrefixIs(s[1..], k - 1);
    }
  }

  /** Decoding an encoded byte string gives it back. */
  lemma RoundTrip(b: seq<Byte>, s: seq<Byte>, r: seq<Byte>)
    requires IsEncoding(b, s) && IsDecoding(s, r)
    ensures r == b
  {
    PrefixIs(s, |s| - (3 * (|s| / 4) - |b|));
    ByteNumberInjective(r, b, |b|);
  }

  /** Whatever follows the leading alphabet characters does not matter, and the decoded bytes are unique. */
  lemma DecodingDependsOnPrefix(s: seq<Byte>, t: seq<Byte>, r: seq<Byte>, q: seq<Byte>)
    requires s[..PrefixLength(s)] == t[..PrefixLength(t)]
    requires IsDecoding(s, r) && IsDecoding(t, q)
    ensures r == q
  {
    var k := PrefixLength(s);
    assert k == |s[..k]| == |t[..PrefixLength(t)]|;
    assert forall i | 0 <= i < k :: s[i] == s[..k][i] && t[i] == t[..k][i];
    SameChars(s, t, k);
    ByteNumberInjective(r, q, |r|);
  }

  // ---------- One group ----------

  /** The four 6-bit values that the encoder computes from three bytes. */
  function Group6(a: Byte, b: Byte, c: Byte): (Byte, Byte, Byte, Byte) {
    (a / 4, a % 4 * 16 + b / 16, b % 16 * 4 + c / 64, c % 64)
  }

  /** The three bytes that the decoder computes from four values, truncated to unsigned char. */
  function Group8(v: Byte, w: Byte, x: Byte, y: Byte): (Byte, Byte, Byte) {
    ((v * 4 + w / 16 % 4) % 256, (w % 16 * 16 + x / 4 % 16) % 256, (x % 4 * 64 + y) % 256)
  }

  /** The masks and shifts of the source, as the quotients and remainders above. */
  lemma MasksAndShifts(a: bv8, b: bv8)
    ensures (a & 0xfc) >> 2 == a / 4
    ensures ((a & 0x03) << 4) + ((b & 0xf0) >> 4) == a % 4 * 16 + b / 16
    ensures ((a & 0x0f) << 2) + ((b & 0xc0) >> 6) == a % 16 * 4 + b / 64
    ensures a & 0x3f == a % 64
    ensures (a << 2) + ((b & 0x30) >> 4) == a * 4 + b / 16 % 4
    ensures ((a & 0x0f) << 4) + ((b & 0x3c) >> 2) == a % 16 * 16 + b / 4 % 16
    ensures ((a & 0x03) << 6) + b == a % 4 * 64 + b
  {
  }

  lemma Group6Digits(a: Byte, b: Byte, c: Byte)
    ensures
      var (v, w, x, y) := Group6(a, b, c);
      && v < 64 && w < 64 && x < 64 && y < 64
      && 262144 * v as int + 4096 * w as int + 64 * x as int + y == 65536 * a as int + 256 * b as int + c
      && (c == 0 ==> 4096 * v as int + 64 * w as int + x == 1024 * a as int + 4 * b as int)
      && (b == 0 ==> 64 * v as int + w == 16 * a as int)
  {
  }

  lemma FirstByteDigits(v: Byte, w: Byte)
    requires v < 64 && w < 64
    ensures 16 * ((v * 4 + w / 16 % 4) % 256) as int + w % 16 == 64 * v as int + w
  {
  }

  lemma SecondByteDigits(w: Byte, x: Byte)
    requires w < 64 && x < 64
    ensures 4 * ((w % 16 * 16 + x / 4 % 16) % 256) as int + x % 4 == 64 * (w % 16) as int + x
  {
  }

  lemma Group8Digits(v: Byte, w: Byte, x: Byte, y: Byte)
    requires v < 64 && w < 64
    ensures
      var (a, b, c) := Group8(v, w, x, y);
      && 16 * a as int + w % 16 == 64 * v as int + w
      && (x < 64 ==> 4 * b as int + x % 4 == 64 * (w % 16) as int + x)
      && (x < 64 && y < 64 ==> c == 64 * (x % 4) as int + y)
  {
    FirstByteDigits(v, w);
    if x < 64 {
      SecondByteDigits(w, x);
    }
  }

  // ---------- The encoding loop ----------

  /** The state of the encoder after m groups of three bytes. */
  ghost predicate Encoded(bytes: seq<Byte>, m: nat, ret: seq<Byte>) {
    && 3 * m <= |bytes| && |ret| == 4 * m
    && (forall j | 0 <= j < |ret| :: IsBase64(ret[j]))
    && CharNumber(ret, 4 * m) == ByteNumber(bytes, 3 * m)
  }

  /** Appends the first `count` of the four characters printed for three bytes. */
  method PrintGroup(ret: seq<Byte>, a: Byte, b: Byte, c: Byte, count: nat) returns (out: seq<Byte>)
    requires 2 <= count <= 4
    ensures |out| == |ret| + count && forall j | 0 <= j < |ret| :: out[j] == ret[j]
    ensures forall j | |ret| <= j < |out| :: IsBase64(out[j])
    ensures
      var old64, new64 := CharNumber(ret, |ret|), CharNumber(out, |out|);
      && (count == 4 ==> new64 == 16777216 * old64 + (65536 * a as int + 256 * b as int + c))
      && (count == 3 && c == 0 ==> new64 == 262144 * old64 + (1024 * a as int + 4 * b as int))
      && (count == 2 && b == 0 ==> new64 == 4096 * old64 + 16 * a as int)
  {
    var (v, w, x, y) := Group6(a, b, c);
    Group6Digits(a, b, c);
    var chars := [AlphabetAt(v), AlphabetAt(w), AlphabetAt(x), AlphabetAt(y)];
    out := ret + chars[..count];
    SameChars(ret, out, |ret|);
    MoreChars(out, |ret|, v, w, x, y);
  }

  method Encode(bytes: seq<Byte>) returns (ret: seq<Byte>)
    ensures IsEncoding(bytes, ret)
  {
    ret := [];
    var charArray3 := new Byte[3];
    var i, at := 0, 0;
    ghost var m := 0;
    while at < |bytes|
      invariant 0 <= i < 3 && at == 3 * m + i <= |bytes|
      invariant forall j | 0 <= j < i :: charArray3[j] == bytes[3 * m + j]
      invariant Encoded(bytes, m, ret)
    {
      charArray3[i] := bytes[at];
      i, at := i + 1, at + 1;
      if i == 3 {
        MoreBytes(bytes, 3 * m, charArray3[0], charArray3[1], charArray3[2]);
        ret := PrintGroup(ret, charArray3[0], charArray3[1], charArray3[2], 4);
        i, m := 0, m + 1;
      }
    }
    if i != 0 {
      ret := EncodeTail(bytes, m, charArray3, i, ret);
    }
  }

  /** The number of all bytes, shifted by the bits that the padding stands for. */
  lemma ShiftedEnd(bytes: seq<Byte>, m: nat, a: int, b: int, old64: nat)
    requires 3 * m < |bytes| <= 3 * m + 2 && old64 == ByteNumber(bytes, 3 * m)
    requires a == bytes[3 * m] && (|bytes| == 3 * m + 2 ==> b == bytes[3 * m + 1])
    ensures
      var number := ByteNumber(bytes, |bytes|);
      if |bytes| == 3 * m + 2 then 4 * number == 262144 * old64 + (1024 * a + 4 * b) else 16 * number == 4096 * old64 + 16 * a
  {
    MoreBytes(bytes, 3 * m, a, b, 0);
  }

  /** The last one or two bytes a and b, printed as data, and the padding. */
  lemma EncodedEnd(bytes: seq<Byte>, m: nat, a: int, b: int, ret: seq<Byte>, data: seq<Byte>, out: seq<Byte>)
    requires Encoded(bytes, m, ret) && 3 * m < |bytes| <= 3 * m + 2
    requires a == bytes[3 * m] && (|bytes| == 3 * m + 2 ==> b == bytes[3 * m + 1])
    requires |data| == 4 * m + (|bytes| - 3 * m) + 1 && forall j | 0 <= j < |data| :: IsBase64(data[j])
    requires
      var old64, new64 := CharNumber(ret, |ret|), CharNumber(data, |data|);
      if |bytes| == 3 * m + 2 then new64 == 262144 * old64 + (1024 * a + 4 * b) else new64 == 4096 * old64 + 16 * a
    requires |out| == 4 * m + 4 && (forall k | 0 <= k < |data| :: out[k] == data[k])
    requires forall k | |data| <= k < |out| :: out[k] == PAD
    ensures IsEncoding(bytes, out)
  {
    SameChars(data, out, |data|);
    ShiftedEnd(bytes, m, a, b, CharNumber(ret, |ret|));
    var pads := 3 * (|out| / 4) - |bytes|;
    assert |out| - pads == |data|;
  }

  /** Prints the last one or two bytes: fills the buffer with zeros, prints one character more than there are bytes and
      then the padding. */
  method EncodeTail(ghost bytes: seq<Byte>, ghost m: nat, charArray3: array<Byte>, left: nat, ret: seq<Byte>)
    returns (out: seq<Byte>)
    requires 1 <= left <= 2 && |bytes| == 3 * m + left && Encoded(bytes, m, ret)
    requires charArray3.Length == 3 && forall j | 0 <= j < left :: charArray3[j] == bytes[3 * m + j]
    modifies charArray3
    ensures IsEncoding(bytes, out)
  {
    var j := left;
    while j < 3
      invariant left <= j <= 3
      invariant forall k | 0 <= k < left :: charArray3[k] == bytes[3 * m + k]
      invariant forall k | left <= k < j :: charArray3[k] == 0
    {
      charArray3[j] := 0;
      j := j + 1;
    }
    out := PrintGroup(ret, charArray3[0], charArray3[1], charArray3[2], left + 1);
    ghost var data := out;
    var i := left;
    while i < 3
      invariant left <= i <= 3
      invariant |out| == |data| + i - left && forall k | 0 <= k < |data| :: out[k] == data[k]
      invariant forall k | |data| <= k < |out| :: out[k] == PAD
    {
      out := out + [PAD];
      i := i + 1;
    }
    EncodedEnd(bytes, m, charArray3[0], charArray3[1], ret, data, out);
  }

  // ---------- The decoding loop ----------

  /** The state of the decoder after m groups of four characters. */
  ghost predicate Decoded(s: seq<Byte>, m: nat, ret: seq<Byte>) {
    4 * m <= |s| && |ret| == 3 * m && ByteNumber(ret, 3 * m) == CharNumber(s, 4 * m)
  }

  /** Appends the first `count` of the three bytes computed from four values. The values after the first count + 1 may
      be anything: no bit of them is printed. */
  method PrintBytes(ret: seq<Byte>, v: Byte, w: Byte, x: Byte, y: Byte, count: nat) returns (out: seq<Byte>)
    requires count <= 3 && v < 64
    requires (count > 0 ==> w < 64) && (count > 1 ==> x < 64) && (count > 2 ==> y < 64)
    ensures |out| == |ret| + count
    ensures
      var old256, new256 := ByteNumber(ret, |ret|), ByteNumber(out, |out|);
      && (count < 3 ==> WithoutBits(TailNumber(old256, count + 1, v, w, x), 6 - 2 * count, new256))
      && (count == 3 ==> new256 == 16777216 * old256 + (262144 * v as int + 4096 * w as int + 64 * x as int + y))
  {
    var (a, b, c) := Group8(v, w, x, y);
    out := ret + [a, b, c][..count];
    SameBytes(ret, out, |ret|);
    if count > 0 {
      MoreBytes(out, |ret|, a, b, c);
      Group8Digits(v, w, x, y);
    }
  }

  /** Decodes a whole group. */
  method DecodeGroup(ghost encoded: seq<Byte>, ghost m: nat, charArray4: array<Byte>, ret: seq<Byte>) returns (out: seq<Byte>)
    requires 4 * m + 4 <= |encoded| && Decoded(encoded, m, ret)
    requires charArray4.Length == 4 && forall j | 0 <= j < 4 :: charArray4[j] == encoded[4 * m + j]
    requires forall j | 4 * m <= j < 4 * m + 4 :: IsBase64(encoded[j])
    modifies charArray4
    ensures Decoded(encoded, m + 1, out)
  {
    LookUp(charArray4);
    MoreChars(encoded, 4 * m, charArray4[0], charArray4[1], charArray4[2], charArray4[3]);
    out := PrintBytes(ret, charArray4[0], charArray4[1], charArray4[2], charArray4[3], 3);
  }

  method Decode(encoded: seq<Byte>) returns (ret: seq<Byte>)
    ensures IsDecoding(encoded, ret)
  {
    ret := [];
    var charArray4 := new Byte[4];
    var i, at := 0, 0;
    ghost var m := 0;
    while at < |encoded| && encoded[at] != PAD && IsBase64(encoded[at])
      invariant 0 <= i < 4 && at == 4 * m + i <= |encoded|
      invariant forall j | 0 <= j < at :: IsBase64(encoded[j])
      invariant forall j | 0 <= j < i :: charArray4[j] == encoded[4 * m + j]
      invariant Decoded(encoded, m, ret)
    {
      charArray4[i] := encoded[at];
      i, at := i + 1, at + 1;
      if i == 4 {
        ret := DecodeGroup(encoded, m, charArray4, ret);
        i, m := 0, m + 1;
      }
    }
    PrefixIs(encoded, at);
    if i != 0 {
      ret := DecodeTail(encoded, m, charArray4, i, ret);
    }
  }

  /** The number of a text with an incomplete last group of i characters with the values v, w and x. */
  function TailNumber(whole: nat, i: nat, v: nat, w: nat, x: nat): nat
    requires 1 <= i <= 3
  {
    if i == 1 then 64 * whole + v
    else if i == 2 then 4096 * whole + (64 * v + w)
    else 262144 * whole + (4096 * v + 64 * w + x)
  }

  lemma TailNumberIs(s: seq<Byte>, n: nat, i: nat, v: nat, w: nat, x: nat)
    requires 1 <= i <= 3 && n + i <= |s|
    requires v == Find(s[n]) && (i > 1 ==> w == Find(s[n + 1])) && (i > 2 ==> x == Find(s[n + 2]))
    ensures CharNumber(s, n + i) == TailNumber(CharNumber(s, n), i, v, w, x)
  {
    MoreChars(s, n, v, if n + 1 < |s| then Find(s[n + 1]) else 0, if n + 2 < |s| then Find(s[n + 2]) else 0,
              if n + 3 < |s| then Find(s[n + 3]) else 0);
  }

  /** The bytes of an incomplete last group of i characters. */
  lemma DecodedEnd(s: seq<Byte>, m: nat, i: nat, v: nat, w: nat, x: nat, ret: seq<Byte>, out: seq<Byte>)
    requires 1 <= i <= 3 && PrefixLength(s) == 4 * m + i && Decoded(s, m, ret)
    requires v == Find(s[4 * m]) && (i > 1 ==> w == Find(s[4 * m + 1])) && (i > 2 ==> x == Find(s[4 * m + 2]))
    requires |out| == |ret| + i - 1
    requires WithoutBits(TailNumber(ByteNumber(ret, |ret|), i, v, w, x), 8 - 2 * i, ByteNumber(out, |out|))
    ensures IsDecoding(s, out)
  {
    TailNumberIs(s, 4 * m, i, v, w, x);
    assert 6 * (4 * m + i) - 8 * |out| == 8 - 2 * i;
  }

  /** NUL for the missing characters of a group. */
  method ClearFrom(charArray4: array<Byte>, i: nat)
    requires i <= charArray4.Length == 4
    modifies charArray4
    ensures forall k | 0 <= k < i :: charArray4[k] == old(charArray4[k])
    ensures forall k | i <= k < 4 :: charArray4[k] == 0
  {
    var j := i;
    while j < 4
      invariant i <= j <= 4
      invariant forall k | 0 <= k < i :: charArray4[k] == old(charArray4[k])
      invariant forall k | i <= k < j :: charArray4[k] == 0
    {
      charArray4[j] := 0;
      j := j + 1;
    }
  }

  /** Decodes an incomplete last group: the missing characters become NUL, which is not in the alphabet. */
  method DecodeTail(ghost encoded: seq<Byte>, ghost m: nat, charArray4: array<Byte>, i: nat, ret: seq<Byte>)
    returns (out: seq<Byte>)
    requires 1 <= i <= 3 && PrefixLength(encoded) == 4 * m + i && Decoded(encoded, m, ret)
    requires charArray4.Length == 4 && forall j | 0 <= j < i :: charArray4[j] == encoded[4 * m + j]
    modifies charArray4
    ensures IsDecoding(encoded, out)
  {
    assert forall k | 4 * m <= k < 4 * m + i :: IsBase64(encoded[k]);
    ClearFrom(charArray4, i);
    LookUp(charArray4);
    out := PrintBytes(ret, charArray4[0], charArray4[1], charArray4[2], charArray4[3], i - 1);
    DecodedEnd(encoded, m, i, charArray4[0], charArray4[1], charArray4[2], ret, out);
  }

  /** Replaces the four characters of a group by their values. */
  method LookUp(charArray4: array<Byte>)
    requires charArray4.Length == 4
    modifies charArray4
    ensures forall j | 0 <= j < 4 :: charArray4[j] == Find(old(charArray4[j]))
  {
    var j := 0;
    while j < 4
      invariant 0 <= j <= 4
      invariant forall k | 0 <= k < j :: charArray4[k] == Find(old(charArray4[k]))
      invariant forall k | j <= k < 4 :: charArray4[k] == old(charArray4[k])
    {
      charArray4[j] := Find(charArray4[j]);
      j := j + 1;
    }
  }
}
