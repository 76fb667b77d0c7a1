/**
 The converters between UTF-16 units and UTF-8 bytes, against the encodings of RFC 3629 section 3
 and RFC 2781 sections 2.1 and 2.2.

 Bits are written as arithmetic: `u >> 6` is `u / 64`, `u & 0x3f` is `u % 64`, and `|` of parts
 that share no bit is `+`.
 */
module Utf {
  import opened Basics

  type Unit = u: int | 0 <= u < 0x1_0000

  predicate High(u: int) { 0xD800 <= u <= 0xDBFF }
  predicate Low(u: int) { 0xDC00 <= u <= 0xDFFF }
  predicate Surrogate(u: int) { 0xD800 <= u <= 0xDFFF }

  // ---------------------------------------------------------------- the standards

  // A character: a code point that is not a surrogate.
  predicate Scalar(c: int) { 0 <= c <= 0x10FFFF && !Surrogate(c) }

  type Character = c: int | 0 <= c <= 0x10FFFF && !(0xD800 <= c <= 0xDFFF)

  // The octets of a character, RFC 3629 section 3.
  function Octets(c: Character): seq<Octet> {
    if c < 0x80 then
      var one: Octet := c;
      [one]
    else if c < 0x800 then [0xC0 + c / 0x40, 0x80 + c % 0x40]
    else if c < 0x1_0000 then [0xE0 + c / 0x1000, 0x80 + c / 0x40 % 0x40, 0x80 + c % 0x40]
    else
      var lead: Octet, second: Octet := 0xF0 + c / 0x4_0000, 0x80 + c / 0x1000 % 0x40;
      var third: Octet, fourth: Octet := 0x80 + c / 0x40 % 0x40, 0x80 + c % 0x40;
      [lead, second, third, fourth]
  }

  function Utf8(cs: seq<Character>): seq<Octet> {
    if cs == [] then [] else Octets(cs[0]) + Utf8(cs[1..])
  }

  // The units of a character, RFC 2781 section 2.1.
  function Units(c: Character): seq<Unit> {
    if c < 0x1_0000 then
      var one: Unit := c;
      [one]
    else
      var high: Unit, low: Unit := 0xD800 + (c - 0x1_0000) / 0x400, 0xDC00 + (c - 0x1_0000) % 0x400;
      [high, low]
  }

  function Utf16(cs: seq<Character>): seq<Unit> {
    if cs == [] then [] else Units(cs[0]) + Utf16(cs[1..])
  }

  // Every high surrogate is followed by a low one, and every low one follows a high one.
  predicate WellFormed(s: seq<Unit>) {
    s == [] ||
    (if High(s[0]) then |s| >= 2 && Low(s[1]) && WellFormed(s[2..])
     else !Low(s[0]) && WellFormed(s[1..]))
  }

  // The characters of a well-formed sequence, RFC 2781 section 2.2.
  function Characters(s: seq<Unit>): seq<Character>
    requires WellFormed(s)
  {
    if s == [] then []
    else if High(s[0]) then [0x1_0000 + (s[0] - 0xD800) * 0x400 + (s[1] - 0xDC00)] + Characters(s[2..])
    else [s[0] as int] + Characters(s[1..])
  }

  /** The two sections undo each other. */
  lemma {:induction false} CharactersOfUtf16(cs: seq<Character>)
    ensures WellFormed(Utf16(cs)) && Characters(Utf16(cs)) == cs
  {
    if cs != [] {
      var s, u := Utf16(cs), Units(cs[0]);
      CharactersOfUtf16(cs[1..]);
      assert s[|u|..] == Utf16(cs[1..]);
      assert s[0] == u[0] && (|u| == 2 ==> s[1] == u[1]);
      assert cs == [cs[0]] + cs[1..];
    }
  }

  lemma {:induction false} Utf16OfCharacters(s: seq<Unit>)
    requires WellFormed(s)
    ensures Utf16(Characters(s)) == s
  {
    if s != [] {
      var n := if High(s[0]) then 2 else 1;
      Utf16OfCharacters(s[n..]);
      var cs := Characters(s);
      assert cs[1..] == Characters(s[n..]);
      assert Units(cs[0]) == s[..n];
      assert s == s[..n] + s[n..];
    }
  }

  // ---------------------------------------------------------------- UTF16ToUTF8

  function Two(u: Unit): seq<Octet>
    requires u < 0x800
  {
    [0xC0 + u / 0x40, 0x80 + u % 0x40]
  }

  function Three(u: Unit): seq<Octet> {
    [0xE0 + u / 0x1000, 0x80 + u / 0x40 % 0x40, 0x80 + u % 0x40]
  }

  // The code point put together from a high surrogate and whatever unit follows it.
  function Joined(u: Unit, v: Unit): (c: nat)
    requires High(u)
    ensures 0x2400 <= c < 0x11_2000
  {
    u * 0x400 + v + 0x1_0000 - 0xD800 * 0x400 - 0xDC00
  }

  function Four(c: nat): seq<Octet>
    requires c < 0x20_0000
  {
    [0xF0 + c / 0x4_0000, 0x80 + c / 0x1000 % 0x40, 0x80 + c / 0x40 % 0x40, 0x80 + c % 0x40]
  }

  // The bytes the next unit of the loop adds; a high surrogate takes the unit behind it along.
  function Bytes(u: Unit, next: Unit): seq<Octet> {
    if u < 0x80 then [u]
    else if u < 0x800 then Two(u)
    else if !High(u) then Three(u)
    else Four(Joined(u, next))
  }

  // The unit behind the first, `after` the end.
  function Next(s: seq<Unit>, after: Unit): Unit { if |s| > 1 then s[1] else after }

  function Rest(s: seq<Unit>): seq<Unit>
    requires s != []
  {
    if High(s[0]) then (if |s| > 1 then s[2..] else []) else s[1..]
  }

  function Encode(s: seq<Unit>, after: Unit): seq<Octet>
    decreases |s|
  {
    if s == [] then [] else Bytes(s[0], Next(s, after)) + Encode(Rest(s), after)
  }

  /** On well-formed input, the output is the standard's. */
  lemma {:induction false} EncodeConforms(s: seq<Unit>, after: Unit)
    requires WellFormed(s)
    ensures Encode(s, after) == Utf8(Characters(s))
    decreases |s|
  {
    if s != [] {
      EncodeConforms(Rest(s), after);
      var cs := Characters(s);
      assert cs[1..] == Characters(Rest(s));
      assert Bytes(s[0], Next(s, after)) == Octets(cs[0]);
    }
  }

  // The input ends inside a pair.
  predicate Dangles(s: seq<Unit>)
    decreases |s|
  {
    s != [] && if High(s[0]) && |s| == 1 then true else Dangles(Rest(s))
  }

  /** At most three bytes a unit, and one more only if the input ends inside a pair. */
  lemma {:induction false} EncodeFits(s: seq<Unit>, after: Unit)
    ensures |Encode(s, after)| <= 3 * |s| + if Dangles(s) then 1 else 0
    decreases |s|
  {
    if s != [] {
      EncodeFits(Rest(s), after);
    }
  }

  // ---------------------------------------------------------------- UTF8ToUTF16

  // How many bytes the decoder takes for a lead byte.
  function Width(a: Octet): nat {
    if 0xC0 <= a < 0xE0 then 2 else if 0xE0 <= a < 0xF0 then 3 else 1
  }

  // A lone byte is a signed char: from 0x80 on it is negative, and the unit wraps around.
  function Alone(a: Octet): Unit { if a < 0x80 then a else 0xFF00 + a }

  function TwoBytes(a: int, b: int): Unit { a % 32 / 4 * 0x100 + (a % 4 * 0x40 + b % 64) }

  function ThreeBytes(a: int, b: int, c: int): Unit {
    (a % 16 * 16 + b % 64 / 4) * 0x100 + (b % 4 * 0x40 + c % 64)
  }

  function UnitOf(b: seq<Octet>): Unit
    requires b != [] && Width(b[0]) <= |b|
  {
    if Width(b[0]) == 2 then TwoBytes(b[0], b[1])
    else if Width(b[0]) == 3 then ThreeBytes(b[0], b[1], b[2])
    else Alone(b[0])
  }

  // The decoder meets a zero byte where a character starts, and reads nothing behind it.
  predicate Readable(b: seq<Octet>) {
    b != [] && (b[0] == 0 || (Width(b[0]) <= |b| && Readable(b[Width(b[0])..])))
  }

  function Decode(b: seq<Octet>): seq<Unit>
    requires Readable(b)
  {
    if b[0] == 0 then [] else [UnitOf(b)] + Decode(b[Width(b[0])..])
  }

  lemma DecodeStep(b: seq<Octet>)
    requires Readable(b) && b[0] != 0
    ensures Width(b[0]) <= |b| && Readable(b[Width(b[0])..])
    ensures Decode(b) == [UnitOf(b)] + Decode(b[Width(b[0])..])
  {
  }

  // The first `n` bytes make the unit `u`: a lead byte from 0xC0 takes one more byte with it and one from
  // 0xE0 two, each giving its low six bits whatever it is; any other byte stands for itself,
  // sign-extended.
  ghost predicate MakeUnit(b: seq<Octet>, n: nat, u: int) {
    b != [] && n <= |b| &&
    var a: int := b[0];
    if 0xC0 <= a < 0xE0 then n == 2 && (var x: int := b[1]; u == a % 32 * 64 + x % 64)
    else if 0xE0 <= a < 0xF0 then
      n == 3 && (var x: int, y: int := b[1], b[2]; u == a % 16 * 4096 + x % 64 * 64 + y % 64)
    else n == 1 && u == if a < 0x80 then a else 0xFF00 + a
  }

  lemma TwoMake(a: int, x: int)
    ensures TwoBytes(a, x) == a % 32 * 64 + x % 64
  {
    LowBits(a, 8);
  }

  lemma LowBits(a: int, n: nat)
    requires n > 0
    ensures a % (4 * n) == a % (4 * n) / 4 * 4 + a % 4
  {
    var q, r := a / (4 * n), a % (4 * n);
    assert a == q * (4 * n) + r && q * (4 * n) == 4 * (q * n);
    assert a == 4 * (q * n + r / 4) + r % 4;
  }

  lemma ThreeMake(a: int, x: int, y: int)
    ensures ThreeBytes(a, x, y) == a % 16 * 4096 + x % 64 * 64 + y % 64
  {
    LowBits(x, 16);
  }

  /** What becomes of any bytes at all, well-formed or not, up to the zero. */
  lemma DecodeExactly(b: seq<Octet>)
    requires Readable(b)
    ensures Decode(b) == [] <==> b[0] == 0
    ensures b[0] != 0 ==> exists n: nat, u: Unit ::
      MakeUnit(b, n, u) && Readable(b[n..]) && Decode(b) == [u] + Decode(b[n..])
  {
    if b[0] != 0 {
      DecodeStep(b);
      var n, u := Width(b[0]), UnitOf(b);
      if n == 2 {
        TwoMake(b[0], b[1]);
      } else if n == 3 {
        ThreeMake(b[0], b[1], b[2]);
      }
      assert MakeUnit(b, n, u);
    }
  }

  // The decoder's tests of the top bits.
  lemma LeadBits(a: Octet)
    ensures a / 32 * 32 == 0xC0 <==> Width(a) == 2
    ensures a / 16 * 16 == 0xE0 <==> Width(a) == 3
  {
  }

  // ---------------------------------------------------------------- round trips

  // Neither the terminator nor the first half of a pair.
  predicate Plain(u: Unit) { u != 0 && !High(u) }

  predicate AllPlain(s: seq<Unit>) { forall i :: 0 <= i < |s| ==> Plain(s[i]) }

  lemma PlainUnit(u: Unit, next: Unit, t: seq<Octet>)
    requires Plain(u)
    ensures var b := Bytes(u, next) + t;
      b[0] != 0 && Width(b[0]) == |Bytes(u, next)| && UnitOf(b) == u && b[Width(b[0])..] == t
  {
    PlainWidth(u, next);
    var b, h := Bytes(u, next) + t, Bytes(u, next);
    assert b[|h|..] == t && forall i :: 0 <= i < |h| ==> b[i] == h[i];
    if u >= 0x800 {
      ThreeBack(u);
    } else if u >= 0x80 {
      TwoBack(u);
    }
  }

  lemma PlainWidth(u: Unit, next: Unit)
    requires Plain(u)
    ensures Bytes(u, next)[0] != 0 && Width(Bytes(u, next)[0]) == |Bytes(u, next)|
  {
  }

  lemma TwoBack(u: Unit)
    requires 0x80 <= u < 0x800
    ensures TwoBytes(Two(u)[0], Two(u)[1]) == u
  {
    var a, b := u / 0x40, u % 0x40;
    assert (0xC0 + a) % 32 == a && (0x80 + b) % 64 == b && (0xC0 + a) % 4 == a % 4;
  }

  lemma ThreeBack(u: Unit)
    requires u >= 0x800
    ensures ThreeBytes(Three(u)[0], Three(u)[1], Three(u)[2]) == u
  {
    Digits(u / 0x1000, u / 0x40 % 0x40, u % 0x40);
    SumOfDigits(u);
  }

  lemma SumOfDigits(u: nat)
    ensures u == u / 0x1000 * 0x1000 + u / 0x40 % 0x40 * 0x40 + u % 0x40
  {
    assert u == u / 0x40 * 0x40 + u % 0x40 && u / 0x40 == u / 0x1000 * 0x40 + u / 0x40 % 0x40;
  }

  lemma Digits(a: nat, b: nat, c: nat)
    requires a < 0x10 && b < 0x40 && c < 0x40
    ensures ThreeBytes(0xE0 + a, 0x80 + b, 0x80 + c) == a * 0x1000 + b * 0x40 + c
  {
    assert (0xE0 + a) % 16 == a && (0x80 + b) % 64 == b && (0x80 + c) % 64 == c && (0x80 + b) % 4 == b % 4;
    assert b == b / 4 * 4 + b % 4;
  }

  lemma AloneBack(a: Octet, t: seq<Octet>)
    requires a != 0 && Width(a) == 1 && Readable(t)
    ensures Readable([a] + t) && Decode([a] + t) == [Alone(a)] + Decode(t)
  {
    assert ([a] + t)[1..] == t;
  }

  // Four bytes come back as four units, the first of them beyond all surrogates.
  lemma FourAlone(c: nat, t: seq<Octet>)
    requires c < 0x20_0000 && Readable(t)
    ensures Readable(Four(c) + t)
    ensures Decode(Four(c) + t) != [] && Decode(Four(c) + t)[0] >= 0xFFF0
  {
    var f := Four(c);
    AllAlone(f[0], f[1], f[2], f[3], t);
    assert f == [f[0], f[1], f[2], f[3]];
  }

  lemma AllAlone(b0: Octet, b1: Octet, b2: Octet, b3: Octet, t: seq<Octet>)
    requires b0 >= 0xF0 && 0x80 <= b1 < 0xC0 && 0x80 <= b2 < 0xC0 && 0x80 <= b3 < 0xC0 && Readable(t)
    ensures Readable([b0, b1, b2, b3] + t)
    ensures Decode([b0, b1, b2, b3] + t) != [] && Decode([b0, b1, b2, b3] + t)[0] >= 0xFFF0
  {
    AloneBack(b3, t);
    AloneBack(b2, [b3] + t);
    AloneBack(b1, [b2] + ([b3] + t));
    AloneBack(b0, [b1] + ([b2] + ([b3] + t)));
    assert [b0, b1, b2, b3] + t == [b0] + ([b1] + ([b2] + ([b3] + t)));
  }

  /** Encoding and decoding again gives the units back if and only if none of them is zero or a high surrogate. */
  lemma {:induction false} RoundTrip(s: seq<Unit>, after: Unit, t: seq<Octet>)
    requires t != [] && t[0] == 0
    ensures Readable(Encode(s, after) + t)
    ensures Decode(Encode(s, after) + t) == s <==> AllPlain(s)
    decreases |s|
  {
    if s == [] {
      assert Encode(s, after) + t == t;
    } else {
      var head, rest := Bytes(s[0], Next(s, after)), Encode(Rest(s), after);
      assert Encode(s, after) + t == head + (rest + t);
      RoundTrip(Rest(s), after, t);
      if Plain(s[0]) {
        PlainUnit(s[0], Next(s, after), rest + t);
        assert s == [s[0]] + s[1..];
        PlainTail(s);
      } else if s[0] == 0 {
        assert !AllPlain(s);
      } else {
        FourAlone(Joined(s[0], Next(s, after)), rest + t);
        assert !AllPlain(s);
      }
    }
  }

  lemma PlainTail(s: seq<Unit>)
    requires s != [] && Plain(s[0])
    ensures AllPlain(s) <==> AllPlain(s[1..])
  {
    if AllPlain(s[1..]) {
      forall i | 0 <= i < |s|
        ensures Plain(s[i])
      {
        assert i > 0 ==> s[i] == s[1..][i - 1];
      }
    }
  }

  // A character one unit can hold, other than the terminator.
  predicate Basic(c: Character) { 0 < c < 0x1_0000 }

  predicate AllBasic(cs: seq<Character>) { forall i :: 0 <= i < |cs| ==> Basic(cs[i]) }

  /** The decoder turns standard UTF-8 into standard UTF-16 if and only if every character is of the basic
      plane and none is zero. */
  lemma {:induction false} DecodeConforms(cs: seq<Character>, t: seq<Octet>)
    requires t != [] && t[0] == 0
    ensures Readable(Utf8(cs) + t)
    ensures Decode(Utf8(cs) + t) == Utf16(cs) <==> AllBasic(cs)
  {
    if cs == [] {
      assert Utf8(cs) + t == t;
    } else {
      var c, rest := cs[0], Utf8(cs[1..]);
      assert Utf8(cs) + t == Octets(c) + (rest + t);
      DecodeConforms(cs[1..], t);
      assert Utf16(cs) == Units(c) + Utf16(cs[1..]);
      if Basic(c) {
        OneBack(c, rest + t);
        Cancel(Units(c), Decode(rest + t), Utf16(cs[1..]));
        BasicTail(cs);
      } else {
        NotBack(c, rest + t);
        assert Utf16(cs)[0] == Units(c)[0] && !Basic(cs[0]);
      }
    }
  }

  lemma Cancel(a: seq<Unit>, b: seq<Unit>, c: seq<Unit>)
    ensures a + b == a + c <==> b == c
  {
    assert (a + b)[|a|..] == b && (a + c)[|a|..] == c;
  }

  lemma OneBack(c: Character, t: seq<Octet>)
    requires Basic(c) && Readable(t)
    ensures Readable(Octets(c) + t) && Decode(Octets(c) + t) == Units(c) + Decode(t)
  {
    var u: Unit := c;
    assert Octets(c) == Bytes(u, 0);
    PlainUnit(u, 0, t);
  }

  lemma NotBack(c: Character, t: seq<Octet>)
    requires !Basic(c) && Readable(t)
    ensures Readable(Octets(c) + t)
    ensures Decode(Octets(c) + t) == [] || Decode(Octets(c) + t)[0] != Units(c)[0]
  {
    if c != 0 {
      assert Octets(c) == Four(c);
      FourAlone(c, t);
    }
  }

  lemma BasicTail(cs: seq<Character>)
    requires cs != [] && Basic(cs[0])
    ensures AllBasic(cs) <==> AllBasic(cs[1..])
  {
    if AllBasic(cs[1..]) {
      forall i | 0 <= i < |cs|
        ensures Basic(cs[i])
      {
        assert i > 0 ==> cs[i] == cs[1..][i - 1];
      }
    }
  }

  /** A character beyond the basic plane, and the same as a pair of surrogates, do not come back; a
      lone continuation byte becomes a unit from the end of the basic plane. */
  lemma DecodeCanFail()
    ensures Readable(Utf8([0x1F600]) + [0]) && Decode(Utf8([0x1F600]) + [0]) != Utf16([0x1F600])
    ensures Readable(Encode([0xD83D, 0xDE00], 0) + [0])
    ensures Decode(Encode([0xD83D, 0xDE00], 0) + [0]) != [0xD83D, 0xDE00]
    ensures Readable([0x80, 0]) && Decode([0x80, 0]) == [0xFF80]
  {
    DecodeConforms([0x1F600], [0]);
    assert !Basic([0x1F600][0]);
    RoundTrip([0xD83D, 0xDE00], 0, [0]);
    assert !Plain([0xD83D, 0xDE00][0]);
    AloneBack(0x80, [0]);
    assert [0x80] + [0] == [0x80, 0];
  }

  // ---------------------------------------------------------------- to_utf8

  function ToUtf8(c: nat): seq<Octet> {
    if c < 0x80 then [c]
    else if c < 0x800 then [0xC0 + c / 0x40, 0x80 + c % 0x40]
    else if c < 0x1_0000 then
      if 0xD800 <= c < 0xE000 || c == 0xFFFF then []
      else [0xE0 + c / 0x1000, 0x80 + c / 0x40 % 0x40, 0x80 + c % 0x40]
    else if c < 0x20_0000 then Four(c)
    else []
  }

  /** It emits the standard's bytes for every character but one, and beyond the last character it emits
      bytes the standard does not have. */
  lemma ToUtf8Conforms(c: nat)
    ensures ToUtf8(c) == [] <==> Surrogate(c) || c == 0xFFFF || c >= 0x20_0000
    ensures Scalar(c) && c != 0xFFFF ==> ToUtf8(c) == Octets(c)
    ensures !Scalar(c) && ToUtf8(c) != [] ==> 0x10FFFF < c < 0x20_0000
  {
  }

  /** So what it emits is the standard's form of some character if and only if it is given one other
      than 0xFFFF. */
  lemma ToUtf8Exactly(c: nat)
    ensures (exists d: Character :: ToUtf8(c) == Octets(d)) <==> Scalar(c) && c != 0xFFFF
  {
    if Scalar(c) && c != 0xFFFF {
      ToUtf8Conforms(c);
    } else if d: Character :| ToUtf8(c) == Octets(d) {
      ToUtf8Conforms(c);
      SumOfFourDigits(c);
      SumOfFourDigits(d);
    }
  }

  // A number is made up of its digits to the base 64.
  lemma SumOfFourDigits(c: nat)
    ensures c == c / 0x4_0000 * 0x4_0000 + c / 0x1000 % 0x40 * 0x1000 + c / 0x40 % 0x40 * 0x40 + c % 0x40
  {
    SumOfDigits(c);
    assert c / 0x1000 == c / 0x1000 / 0x40 * 0x40 + c / 0x1000 % 0x40 && c / 0x1000 / 0x40 == c / 0x4_0000;
  }

  /** The first code point beyond the last character gets four bytes that no character has, and the
      character 0xFFFF gets none. */
  lemma ToUtf8CanFail()
    ensures ToUtf8(0x11_0000) == [0xF4, 0x90, 0x80, 0x80] && forall d: Character :: Octets(d) != ToUtf8(0x11_0000)
    ensures Scalar(0xFFFF) && ToUtf8(0xFFFF) == [] && Octets(0xFFFF) == [0xEF, 0xBF, 0xBF]
  {
    ToUtf8Exactly(0x11_0000);
  }

  /** The two encoders agree on a unit, whatever follows it, if and only if to_utf8 emits something for it. */
  lemma EncodersAgree(u: Unit, next: Unit)
    ensures ToUtf8(u) == Bytes(u, next) <==> ToUtf8(u) != []
  {
  }

  function ToUtf8All(cs: seq<Character>): seq<Octet> {
    if cs == [] then [] else ToUtf8(cs[0]) + ToUtf8All(cs[1..])
  }

  /** Over whole texts, well-formed ones, they agree if and only if the unit 0xFFFF does not occur. */
  lemma {:induction false} TextsAgree(s: seq<Unit>, after: Unit)
    requires WellFormed(s)
    ensures Encode(s, after) == ToUtf8All(Characters(s)) <==> 0xFFFF !in s
    ensures |ToUtf8All(Characters(s))| <= |Encode(s, after)|
    ensures 0xFFFF in s ==> |ToUtf8All(Characters(s))| < |Encode(s, after)|
    decreases |s|
  {
    if s != [] {
      TextsAgree(Rest(s), after);
      var cs := Characters(s);
      assert cs[1..] == Characters(Rest(s));
      FirstAgrees(s, after);
      AgreeThen(ToUtf8(cs[0]), ToUtf8All(cs[1..]), Octets(cs[0]), Encode(Rest(s), after));
    }
  }

  lemma FirstAgrees(s: seq<Unit>, after: Unit)
    requires WellFormed(s) && s != []
    ensures Bytes(s[0], Next(s, after)) == Octets(Characters(s)[0])
    ensures ToUtf8(Characters(s)[0]) == (if s[0] == 0xFFFF then [] else Octets(Characters(s)[0]))
    ensures 0xFFFF in s <==> s[0] == 0xFFFF || 0xFFFF in Rest(s)
  {
    ToUtf8Conforms(Characters(s)[0]);
    assert s == s[..|s| - |Rest(s)|] + Rest(s);
  }

  lemma AgreeThen(a: seq<Octet>, b: seq<Octet>, c: seq<Octet>, d: seq<Octet>)
    requires (a == [] || a == c) && |b| <= |d| && c != []
    ensures |a + b| <= |c + d|
    ensures |a + b| < |c + d| <==> a == [] || |b| < |d|
    ensures a == c ==> (a + b == c + d <==> b == d)
  {
    if a == c && a + b == c + d {
      assert b == (a + b)[|a|..] == (c + d)[|c|..] == d;
    }
  }

  // ---------------------------------------------------------------- the converters in place

  const BUFFER_SIZE: nat := 1024

  class OVImfService {
    const internal: array<Octet>
    const uInternal: array<Unit>

    predicate Valid() {
      internal.Length == BUFFER_SIZE && uInternal.Length == BUFFER_SIZE
    }

    constructor ()
      ensures Valid() && fresh(internal) && fresh(uInternal)
    {
      internal := new Octet[BUFFER_SIZE](_ => 0);
      uInternal := new Unit[BUFFER_SIZE](_ => 0);
    }

    // *b++ for each byte.
    method Put(at: nat, bytes: seq<Octet>) returns (next: nat)
      requires Valid() && at + |bytes| <= BUFFER_SIZE
      modifies internal
      ensures next == at + |bytes| && internal[..next] == old(internal[..at]) + bytes
    {
      forall k | 0 <= k < |bytes| {
        internal[at + k] := bytes[k];
      }
      next := at + |bytes|;
    }

    // The caller's units are `s`; only the first `l` of them are the text.
    method UTF16ToUTF8(s: seq<Unit>, l: nat) returns (n: nat)
      requires Valid() && l <= |s| && (Dangles(s[..l]) ==> l < |s|)
      requires |Encode(s[..l], UnitAfter(s, l))| < BUFFER_SIZE
      modifies internal
      ensures n < BUFFER_SIZE && internal[..n] == Encode(s[..l], UnitAfter(s, l)) && internal[n] == 0
    {
      n := 0;
      ghost var after, all := UnitAfter(s, l), Encode(s[..l], UnitAfter(s, l));
      var i := 0;
      while i < l
        invariant 0 <= i <= l + 1 && (i == l + 1 ==> l < |s|)
        invariant i <= l ==> (Dangles(s[i..l]) ==> l < |s|)
        invariant n <= |all| && all == internal[..n] + if i < l then Encode(s[i..l], after) else []
        decreases l + 1 - i
      {
        ghost var tail := s[i..l];
        EncodeStep(internal[..n], tail, after);
        RestIs(s, i, l);
        i, n := PutUnit(s, i, l, n);
      }
      internal[n] := 0;
    }

    // One round of the loop: the bytes of the unit at `i`, and how far the index moves.
    method PutUnit(s: seq<Unit>, i: nat, ghost l: nat, n: nat) returns (next: nat, next': nat)
      requires Valid() && i < l <= |s| && (High(s[i]) ==> i + 1 < |s|)
      requires n + |Bytes(s[i], Next(s[i..l], UnitAfter(s, l)))| <= BUFFER_SIZE
      modifies internal
      ensures next == i + (if High(s[i]) then 2 else 1)
      ensures next' == n + |Bytes(s[i], Next(s[i..l], UnitAfter(s, l)))|
      ensures internal[..next'] == old(internal[..n]) + Bytes(s[i], Next(s[i..l], UnitAfter(s, l)))
    {
      var u := s[i];
      next := i;
      if u < 0x80 {
        next' := Put(n, [u]);
      } else if u < 0x800 {
        next' := Put(n, Two(u));
      } else if u < 0xD800 || u > 0xDBFF {
        next' := Put(n, Three(u));
      } else {
        assert s[i + 1] == Next(s[i..l], UnitAfter(s, l));
        var c := Joined(u, s[i + 1]);
        next := next + 1;
        next' := Put(n, Four(c));
      }
      next := next + 1;
    }

    // One round of the loop: the unit at `i` and how far the pointer moves.
    method TakeUnit(src: seq<Octet>, i: nat, len: nat) returns (next: nat)
      requires Valid() && i < |src| && i + Width(src[i]) <= |src| && len < BUFFER_SIZE
      modifies uInternal
      ensures next == i + Width(src[i])
      ensures uInternal[..len + 1] == old(uInternal[..len]) + [UnitOf(src[i..])]
    {
      var a := src[i];
      LeadBits(a);
      if a / 32 * 32 == 0xC0 {
        uInternal[len] := TwoBytes(a, src[i + 1]);
        next := i + 2;
      } else if a / 16 * 16 == 0xE0 {
        uInternal[len] := ThreeBytes(a, src[i + 1], src[i + 2]);
        next := i + 3;
      } else {
        uInternal[len] := Alone(a);
        next := i + 1;
      }
    }

    method UTF8ToUTF16(src: seq<Octet>) returns (len: nat)
      requires Valid() && Readable(src) && |Decode(src)| <= BUFFER_SIZE
      modifies uInternal
      ensures len <= BUFFER_SIZE && uInternal[..len] == Decode(src)
    {
      len := 0;
      var i := 0;
      assert src[0..] == src;
      while src[i] != 0
        invariant i < |src| && Readable(src[i..]) && len <= BUFFER_SIZE
        invariant Decode(src) == uInternal[..len] + Decode(src[i..])
        decreases |src| - i
      {
        ghost var rest := src[i..];
        DecodeStep(rest);
        ghost var w := Width(src[i]);
        assert rest[w..] == src[i + w..];
        ghost var done := uInternal[..len];
        AndThen(done, UnitOf(rest), Decode(rest[w..]));
        i := TakeUnit(src, i, len);
        len := len + 1;
      }
    }
  }

  lemma EncodeStep(done: seq<Octet>, tail: seq<Unit>, after: Unit)
    requires tail != []
    ensures done + Encode(tail, after) == (done + Bytes(tail[0], Next(tail, after))) + Encode(Rest(tail), after)
  {
  }

  // What is left after the unit at `i`.
  lemma RestIs(s: seq<Unit>, i: nat, l: nat)
    requires i < l <= |s|
    ensures var n := if High(s[i]) then 2 else 1;
      && (i + n < l ==> s[i + n..l] == Rest(s[i..l])) && (i + n >= l ==> Rest(s[i..l]) == [])
      && (Dangles(s[i..l]) <==> (High(s[i]) && i + 1 == l) || (i + n < l && Dangles(s[i + n..l])))
  {
  }

  method ToUtf8InPlace(c: nat, buf: array<Octet>) returns (index: nat)
    requires buf.Length >= 4
    modifies buf
    ensures index <= 4 && buf[..index] == ToUtf8(c)
    ensures buf[index..] == old(buf[index..])
  {
    index := 0;
    if c < 0x80 {
      buf[0] := c;
      index := 1;
    } else if c < 0x800 {
      buf[0], buf[1] := 0xC0 + c / 0x40, 0x80 + c % 0x40;
      index := 2;
    } else if c < 0x1_0000 {
      if 0xD800 <= c < 0xE000 || c == 0xFFFF {
        return;
      }
      buf[0], buf[1], buf[2] := 0xE0 + c / 0x1000, 0x80 + c / 0x40 % 0x40, 0x80 + c % 0x40;
      index := 3;
    } else if c < 0x20_0000 {
      buf[0], buf[1] := 0xF0 + c / 0x4_0000, 0x80 + c / 0x1000 % 0x40;
      buf[2], buf[3] := 0x80 + c / 0x40 % 0x40, 0x80 + c % 0x40;
      index := 4;
    }
  }

  lemma AndThen(a: seq<Unit>, u: Unit, b: seq<Unit>)
    ensures a + ([u] + b) == a + [u] + b
  {
  }

  function UnitAfter(s: seq<Unit>, l: nat): Unit
    requires l <= |s|
  {
    if l < |s| then s[l] else 0
  }
}
