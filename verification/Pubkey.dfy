/**
 Public keys in luci2-base/htdocs/luci2/view/system.admin.js: base64 and the length-prefixed
 fields of an SSH key.
 */
module Pubkey {
  import opened Options
  import opened Words

  // ----- bits

  /** The operator | on numbers that are not negative. */
  function Or(a: nat, b: nat): (r: nat)
    ensures r <= a + b
  {
    if a == 0 then b
    else 2 * Or(a / 2, b / 2) + if a % 2 == 1 || b % 2 == 1 then 1 else 0
  }

  /** The operator << on numbers of any size. */
  function Shift(x: nat, n: nat): nat {
    if n == 0 then x else 2 * Shift(x, n - 1)
  }

  function Power2(n: nat): nat {
    Shift(1, n)
  }

  /** Numbers whose bits do not overlap are added. */
  lemma {:induction false} OrDisjoint(a: nat, b: nat, n: nat)
    requires b < Power2(n)
    ensures Or(Shift(a, n), b) == Shift(a, n) + b
  {
    if n == 0 {
      OrZero(a);
    } else {
      OrDisjoint(a, b / 2, n - 1);
    }
  }

  lemma {:induction false} OrZero(a: nat)
    ensures Or(a, 0) == a
  {
    if a > 0 {
      OrZero(a / 2);
    }
  }

  // ----- base64

  function Table(c: char): Option<nat> {
    if 'A' <= c <= 'Z' then Some(c as int - 'A' as int)
    else if 'a' <= c <= 'z' then Some(c as int - 'a' as int + 26)
    else if '0' <= c <= '9' then Some(c as int - '0' as int + 52)
    else if c == '+' then Some(62)
    else if c == '/' then Some(63)
    else if c == '=' then Some(64)
    else None
  }

  predicate Base64(s: string) {
    forall i :: 0 <= i < |s| ==> Table(s[i]).Some?
  }

  /** What the table gives: nothing, past the end of the text. */
  type Entry = e: Option<nat> | e.Some? ==> e.value <= 64 witness None

  function EntryAt(s: string, i: nat): Entry
    requires Base64(s)
  {
    if i < |s| then Table(s[i]) else None
  }

  /** What a missing entry is in a bit operation. */
  function Bits(e: Entry): (v: nat)
    ensures v <= 64
  {
    if e.None? then 0 else e.value
  }

  /** The three codes that four entries make, which are characters. */
  function Codes(e1: Entry, e2: Entry, e3: Entry, e4: Entry): (c: (nat, nat, nat))
    ensures c.0 < 512 && c.1 < 512 && c.2 < 512
  {
    (Or(Bits(e1) * 4, Bits(e2) / 16), Or(Bits(e2) % 16 * 16, Bits(e3) / 4), Or(Bits(e3) % 4 * 64, Bits(e4)))
  }

  /** The second and the third are taken if their last entry is neither missing nor padding. */
  function Decoded(e1: Entry, e2: Entry, e3: Entry, e4: Entry): string {
    var c := Codes(e1, e2, e3, e4);
    [c.0 as char]
    + (if e3.Some? && e3.value < 64 then [c.1 as char] else "")
    + (if e4.Some? && e4.value < 64 then [c.2 as char] else "")
  }

  function DecodedFrom(s: string, i: nat): string
    requires Base64(s)
    decreases |s| - i
  {
    if i >= |s| then ""
    else
      Decoded(EntryAt(s, i), EntryAt(s, i + 1), EntryAt(s, i + 2), EntryAt(s, i + 3)) + DecodedFrom(s, i + 4)
  }

  function Decode(s: string): Option<string> {
    if Base64(s) then Some(DecodedFrom(s, 0)) else None
  }

  method Base64Decode(s: string) returns (r: Option<string>)
    ensures r == Decode(s)
  {
    if !Base64(s) { return None; }
    hide Base64, Or, EntryAt, Bits, Decoded;
    var i := 0;
    var d := "";
    while i < |s|
      invariant d + DecodedFrom(s, i) == DecodedFrom(s, 0)
      decreases |s| - i
    {
      var e1 := EntryAt(s, i);
      i := i + 1;
      var e2 := EntryAt(s, i);
      i := i + 1;
      var e3 := EntryAt(s, i);
      i := i + 1;
      var e4 := EntryAt(s, i);
      i := i + 1;
      CodesDecoded(d, e1, e2, e3, e4, DecodedFrom(s, i));
      var c := Codes(e1, e2, e3, e4);
      d := d + [c.0 as char];
      if e3.Some? && e3.value < 64 {
        d := d + [c.1 as char];
      }
      if e4.Some? && e4.value < 64 {
        d := d + [c.2 as char];
      }
    }
    assert d + "" == d;
    r := Some(d);
  }

  lemma CodesDecoded(d: string, e1: Entry, e2: Entry, e3: Entry, e4: Entry, rest: string)
    ensures var c := Codes(e1, e2, e3, e4);
            var d1 := d + [c.0 as char];
            var d2 := if e3.Some? && e3.value < 64 then d1 + [c.1 as char] else d1;
            var d3 := if e4.Some? && e4.value < 64 then d2 + [c.2 as char] else d2;
            d3 + rest == d + (Decoded(e1, e2, e3, e4) + rest)
  {
    hide Codes;
    var c := Codes(e1, e2, e3, e4);
    var a := [c.0 as char];
    var b := if e3.Some? && e3.value < 64 then [c.1 as char] else "";
    var e := if e4.Some? && e4.value < 64 then [c.2 as char] else "";
    assert d + a + "" == d + a && d + a + b + "" == d + a + b;
    Pieces(d, a, b, e, rest);
  }

  lemma Pieces(d: string, a: string, b: string, e: string, rest: string)
    ensures d + a + b + e + rest == d + (a + b + e + rest)
  {
  }

  // ----- the padded encoding

  type Byte = b: int | 0 <= b < 256

  /** The alphabet of section 4 of RFC 4648. */
  function Alphabet(v: nat): (c: char)
    requires v < 64
    ensures Table(c) == Some(v)
  {
    if v < 26 then 'A' + v as char
    else if v < 52 then 'a' + (v - 26) as char
    else if v < 62 then '0' + (v - 52) as char
    else if v == 62 then '+' else '/'
  }

  /** The encoding of section 4 of RFC 4648: four characters for three bytes, with a padded end. */
  function Encode(b: seq<Byte>): (s: string)
    ensures Base64(s)
    ensures s == "" <==> b == []
  {
    if b == [] then ""
    else if |b| == 1 then [Alphabet(b[0] / 4), Alphabet(b[0] % 4 * 16), '=', '=']
    else if |b| == 2 then [Alphabet(b[0] / 4), Alphabet(b[0] % 4 * 16 + b[1] / 16), Alphabet(b[1] % 16 * 4), '=']
    else
      [Alphabet(b[0] / 4), Alphabet(b[0] % 4 * 16 + b[1] / 16), Alphabet(b[1] % 16 * 4 + b[2] / 64), Alphabet(b[2] % 64)]
      + Encode(b[3..])
  }

  function Chars(b: seq<Byte>): (s: string)
    ensures |s| == |b|
  {
    seq(|b|, i requires 0 <= i < |b| => b[i] as char)
  }

  lemma ShiftTwo(x: nat, n: nat)
    ensures Shift(x, 0) == x
    ensures Shift(x, n + 2) == 4 * Shift(x, n)
  {
  }

  lemma SmallShifts(x: nat)
    ensures Shift(x, 2) == 4 * x && Shift(x, 4) == 16 * x && Shift(x, 6) == 64 * x
  {
    ShiftTwo(x, 0);
    ShiftTwo(x, 2);
    ShiftTwo(x, 4);
  }

  /** The upper and the lower bits of a byte make the byte. */
  lemma Halves(b: Byte)
    ensures Or(b / 4 * 4, b % 4) == Or(b / 16 * 16, b % 16) == Or(b / 64 * 64, b % 64) == b
  {
    hide Or, Shift;
    SmallShifts(1);
    SmallShifts(b / 4);
    SmallShifts(b / 16);
    SmallShifts(b / 64);
    OrDisjoint(b / 4, b % 4, 2);
    OrDisjoint(b / 16, b % 16, 4);
    OrDisjoint(b / 64, b % 64, 6);
  }

  /** Three bytes come out of the four entries made of them. */
  lemma ThreeBytes(a: Byte, b: Byte, c: Byte)
    ensures Or(a / 4 * 4, (a % 4 * 16 + b / 16) / 16) == a
    ensures Or((a % 4 * 16 + b / 16) % 16 * 16, (b % 16 * 4 + c / 64) / 4) == b
    ensures Or((b % 16 * 4 + c / 64) % 4 * 64, c % 64) == c
  {
    hide Or;
    Halves(a);
    Halves(b);
    Halves(c);
    assert (a % 4 * 16 + b / 16) / 16 == a % 4;
    assert (a % 4 * 16 + b / 16) % 16 == b / 16;
    assert (b % 16 * 4 + c / 64) / 4 == b % 16;
    assert (b % 16 * 4 + c / 64) % 4 == c / 64;
  }

  /** The group of characters that the first bytes are written as. */
  lemma FirstGroup(b: seq<Byte>)
    requires b != []
    ensures var e, n := Encode(b), if |b| < 3 then |b| else 3;
            |e| >= 4 && Decoded(Table(e[0]), Table(e[1]), Table(e[2]), Table(e[3])) == Chars(b[..n])
  {
    hide Or, Table, Alphabet;
    var b1, b2 := if |b| > 1 then b[1] else 0, if |b| > 2 then b[2] else 0;
    ThreeBytes(b[0], b1, b2);
    assert Table('=') == Some(64) by {
      Padding();
    }
    assert Chars(b[..1]) == [b[0] as char];
  }

  lemma Padding()
    ensures Table('=') == Some(64)
  {
  }

  lemma {:induction false} DecodesFrom(s: string, i: nat, b: seq<Byte>)
    requires Base64(s) && i <= |s| && s[i..] == Encode(b)
    ensures DecodedFrom(s, i) == Chars(b)
    decreases |b|
  {
    hide Base64, Table, Decoded;
    if b != [] {
      FirstGroup(b);
      assert s[i] == s[i..][0] && s[i + 1] == s[i..][1] && s[i + 2] == s[i..][2] && s[i + 3] == s[i..][3];
      var rest := if |b| < 3 then [] else b[3..];
      NextGroup(b);
      assert s[i + 4..] == s[i..][4..] == Encode(rest);
      DecodesFrom(s, i + 4, rest);
      assert Chars(b) == Chars(b[..|b| - |rest|]) + Chars(rest);
      assert b[..|b|] == b;
    }
  }

  lemma NextGroup(b: seq<Byte>)
    requires b != []
    ensures |Encode(b)| >= 4 && Encode(b)[4..] == Encode(if |b| < 3 then [] else b[3..])
  {
  }

  /** Decoding undoes the padded encoding. */
  lemma DecodeEncode(b: seq<Byte>)
    ensures Decode(Encode(b)) == Some(Chars(b))
  {
    assert Encode(b)[0..] == Encode(b);
    DecodesFrom(Encode(b), 0, b);
  }

  /** Each character of the alphabet of section 4 of RFC 4648 stands for its place in it. */
  lemma TableIs(v: nat)
    requires v < 64
    ensures var c := if v < 26 then "ABCDEFGHIJKLMNOPQRSTUVWXYZ"[v]
                     else if v < 52 then "abcdefghijklmnopqrstuvwxyz"[v - 26]
                     else if v < 62 then "0123456789"[v - 52]
                     else if v == 62 then '+' else '/';
            Table(c) == Some(v) && Alphabet(v) == c
  {
    hide Table;
    var c := Alphabet(v);
    assert Table(c) == Some(v);
  }

  /** No other character stands for anything. */
  lemma TableOnly(c: char)
    ensures Table(c).Some? ==>
              || c in {'A', 'B', 'C', 'D', 'E', 'F', 'G', 'H', 'I', 'J', 'K', 'L', 'M'}
              || c in {'N', 'O', 'P', 'Q', 'R', 'S', 'T', 'U', 'V', 'W', 'X', 'Y', 'Z'}
              || c in {'a', 'b', 'c', 'd', 'e', 'f', 'g', 'h', 'i', 'j', 'k', 'l', 'm'}
              || c in {'n', 'o', 'p', 'q', 'r', 's', 't', 'u', 'v', 'w', 'x', 'y', 'z'}
              || c in {'0', '1', '2', '3', '4', '5', '6', '7', '8', '9', '+', '/', '='}
  {
  }

  /** Digits in base 64. */
  type Digit64 = d: int | 0 <= d < 64

  function NumberOf64(d0: Digit64, d1: Digit64, d2: Digit64, d3: Digit64): int {
    ((d0 as int * 64 + d1) * 64 + d2) * 64 + d3
  }

  lemma GroupNumber(a: Byte, b: Byte, c: Byte)
    ensures (a as int * 256 + b) * 256 + c == NumberOf64(a / 4, a % 4 * 16 + b / 16, b % 16 * 4 + c / 64, c % 64)
  {
  }

  /** A group of three bytes, filled up with zeros, is one number of 24 bits, and the four digits it has in base
      64 are what is written, with padding for digits that no byte contributes to. */
  lemma EncodedGroup(b: seq<Byte>) returns (d0: Digit64, d1: Digit64, d2: Digit64, d3: Digit64)
    requires b != []
    ensures var b0: int, b1: int, b2: int := b[0], if |b| > 1 then b[1] else 0, if |b| > 2 then b[2] else 0;
            (b0 * 256 + b1) * 256 + b2 == NumberOf64(d0, d1, d2, d3)
    ensures Encode(b) == [Alphabet(d0), Alphabet(d1), if |b| < 2 then '=' else Alphabet(d2), if |b| < 3 then '=' else Alphabet(d3)]
                         + Encode(if |b| < 3 then [] else b[3..])
  {
    hide Alphabet, NumberOf64, Encode;
    var b1, b2 := if |b| > 1 then b[1] else 0, if |b| > 2 then b[2] else 0;
    GroupNumber(b[0], b1, b2);
    FirstFour(b, b1, b2);
    d0, d1, d2, d3 := b[0] / 4, b[0] % 4 * 16 + b1 / 16, b1 % 16 * 4 + b2 / 64, b2 % 64;
  }

  lemma FirstFour(b: seq<Byte>, b1: Byte, b2: Byte)
    requires b != [] && b1 == (if |b| > 1 then b[1] else 0) && b2 == if |b| > 2 then b[2] else 0
    ensures Encode(b) == [Alphabet(b[0] / 4), Alphabet(b[0] % 4 * 16 + b1 / 16),
                          if |b| < 2 then '=' else Alphabet(b1 % 16 * 4 + b2 / 64), if |b| < 3 then '=' else Alphabet(b2 % 64)]
                         + Encode(if |b| < 3 then [] else b[3..])
  {
    hide Alphabet;
    if |b| < 3 {
      assert Encode(b) == Encode(b) + Encode([]);
    }
  }

  lemma {:induction false} OrBelow(a: nat, b: nat, n: nat)
    requires a < Power2(n) && b < Power2(n)
    ensures Or(a, b) < Power2(n)
  {
    if a > 0 {
      OrBelow(a / 2, b / 2, n - 1);
    }
  }

  lemma CodesAreBytes(e1: Entry, e2: Entry, e3: Entry, e4: Entry)
    requires Bits(e1) < 64
    ensures Bytes(Decoded(e1, e2, e3, e4))
  {
    Shifts(1);
    hide Or, Shift, Bits;
    OrBelow(Bits(e1) * 4, Bits(e2) / 16, 8);
    OrBelow(Bits(e2) % 16 * 16, Bits(e3) / 4, 8);
    OrBelow(Bits(e3) % 4 * 64, Bits(e4), 8);
  }

  lemma OnlyPadding(c: char)
    ensures Table(c) == Some(64) <==> c == '='
  {
  }

  /** A text that has no padding where a group of four begins decodes to bytes. */
  lemma {:induction false} DecodesToBytes(s: string, i: nat)
    requires Base64(s) && i % 4 == 0
    requires forall k :: 0 <= k < |s| && k % 4 == 0 ==> s[k] != '='
    ensures Bytes(DecodedFrom(s, i))
    decreases |s| - i
  {
    hide Decoded, Base64;
    if i < |s| {
      var e1, e2, e3, e4 := EntryAt(s, i), EntryAt(s, i + 1), EntryAt(s, i + 2), EntryAt(s, i + 3);
      OnlyPadding(s[i]);
      assert Bits(e1) < 64;
      hide EntryAt, Bits;
      CodesAreBytes(e1, e2, e3, e4);
      DecodesToBytes(s, i + 4);
    }
  }

  // ----- fields

  function CodeAt(s: string, i: nat): nat {
    if i < |s| then s[i] as int else 0
  }

  /** The operator << on 32 bits, as a number that is not negative: `p` is the power of two shifted by. */
  function ShiftLeft(x: nat, p: nat): (r: nat)
    ensures r < 0x1_0000_0000
  {
    x * p % 0x1_0000_0000
  }

  /** 32 bits, with a sign. */
  function Int32(n: nat): (r: int)
    ensures -0x8000_0000 <= r < 0x8000_0000 && (r - n) % 0x1_0000_0000 == 0
  {
    var w := n % 0x1_0000_0000;
    if w < 0x8000_0000 then w else w - 0x1_0000_0000
  }

  /** lengthDecode, with None for -1. */
  function LengthDecode(s: string, off: nat): (r: Option<nat>)
    ensures r.Some? ==> off + 4 + r.value <= |s|
  {
    var l := Int32(Or(Or(Or(ShiftLeft(CodeAt(s, off), 0x100_0000), ShiftLeft(CodeAt(s, off + 1), 0x1_0000)),
                         ShiftLeft(CodeAt(s, off + 2), 0x100)),
                      CodeAt(s, off + 3)));
    if l < 0 || off + 4 + l > |s| then None else Some(l)
  }

  predicate Bytes(s: string) {
    forall i :: 0 <= i < |s| ==> s[i] as int < 256
  }

  /** A length in four bytes, the highest first. */
  function LengthBytes(n: nat): (s: string)
    requires n < 0x8000_0000
    ensures |s| == 4 && Bytes(s)
  {
    [(n / 256 / 256 / 256) as char, (n / 256 / 256 % 256) as char, (n / 256 % 256) as char, (n % 256) as char]
  }

  /** A string of section 5 of RFC 4251. */
  function Framed(x: string): (s: string)
    requires |x| < 0x8000_0000
    ensures |s| == 4 + |x|
  {
    LengthBytes(|x|) + x
  }

  lemma FourCodes(a: Byte, b: Byte, c: Byte, d: Byte)
    ensures Or(Or(Or(ShiftLeft(a, 0x100_0000), ShiftLeft(b, 0x1_0000)), ShiftLeft(c, 0x100)), d) == Number(a, b, c, d)
  {
    hide Or, Shift;
    Shifts(1);
    Shifts(a);
    Shifts(a * 256 + b);
    Shifts(a * 0x1_0000 + b * 256 + c);
    assert ShiftLeft(a, 0x100_0000) == a * 0x100_0000;
    assert ShiftLeft(b, 0x1_0000) == b * 0x1_0000;
    assert ShiftLeft(c, 0x100) == c * 0x100;
    hide ShiftLeft;
    OrDisjoint(a, b * 0x1_0000, 24);
    OrDisjoint(a * 256 + b, c * 256, 16);
    OrDisjoint(a * 0x1_0000 + b * 256 + c, d, 8);
  }

  lemma Shifts(x: nat)
    ensures Shift(x, 8) == x * 0x100 && Shift(x, 16) == x * 0x1_0000 && Shift(x, 24) == x * 0x100_0000
  {
    assert Shift(x, 0) == x;
    ShiftByte(x, 0);
    ShiftByte(x, 8);
    ShiftByte(x, 16);
  }

  lemma ShiftByte(x: nat, n: nat)
    ensures Shift(x, n + 8) == 256 * Shift(x, n)
  {
    hide Shift;
    ShiftTwo(x, n);
    ShiftTwo(x, n + 2);
    ShiftTwo(x, n + 4);
    ShiftTwo(x, n + 6);
  }

  /** The number with these four bytes. */
  function Number(a: Byte, b: Byte, c: Byte, d: Byte): (n: nat)
    ensures n < 0x1_0000_0000
  {
    ((a * 256 + b) * 256 + c) * 256 + d
  }

  lemma NumberOf(n: nat, a: Byte, b: Byte, c: Byte, d: Byte)
    requires n < 0x1_0000_0000
    ensures n == Number(a, b, c, d) <==>
            a == n / 256 / 256 / 256 && b == n / 256 / 256 % 256 && c == n / 256 % 256 && d == n % 256
  {
    if n == Number(a, b, c, d) {
      assert n / 256 == (a * 256 + b) * 256 + c;
      assert n / 256 / 256 == a * 256 + b;
    }
  }

  /** The field at `off` is the one framed there, if there is one. */
  function FieldAt(s: string, off: nat): Option<string> {
    var l := LengthDecode(s, off);
    if l.None? then None else Some(s[off + 4..off + 4 + l.value])
  }

  lemma LengthIs(s: string, off: nat, n: nat)
    requires Bytes(s)
    ensures LengthDecode(s, off) == Some(n) <==>
            n < 0x8000_0000 && off + 4 + n <= |s| && s[off..off + 4] == LengthBytes(n)
  {
    hide Or, ShiftLeft, Number;
    if off + 4 <= |s| {
      var a, b, c, d := s[off] as int, s[off + 1] as int, s[off + 2] as int, s[off + 3] as int;
      FourCodes(a, b, c, d);
      assert s[off..off + 4] == [s[off], s[off + 1], s[off + 2], s[off + 3]];
      if n < 0x8000_0000 {
        NumberOf(n, a, b, c, d);
      }
    }
  }

  lemma FieldFramed(s: string, off: nat, x: string)
    requires Bytes(s)
    ensures FieldAt(s, off) == Some(x) <==>
            |x| < 0x8000_0000 && off + 4 + |x| <= |s| && s[off..off + 4 + |x|] == Framed(x)
  {
    hide LengthDecode, LengthBytes, Bytes;
    LengthIs(s, off, |x|);
    if |x| < 0x8000_0000 && off + 4 + |x| <= |s| {
      assert s[off..off + 4 + |x|] == s[off..off + 4] + s[off + 4..off + 4 + |x|];
      SamePieces(s[off..off + 4], s[off + 4..off + 4 + |x|], LengthBytes(|x|), x);
    }
  }

  lemma SamePieces(a: string, b: string, c: string, d: string)
    requires |a| == |c|
    ensures a + b == c + d <==> a == c && b == d
  {
    assert a + b == c + d ==> (a + b)[..|a|] == (c + d)[..|a|] && (a + b)[|a|..] == (c + d)[|a|..];
    assert (a + b)[..|a|] == a && (a + b)[|a|..] == b;
    assert (c + d)[..|c|] == c && (c + d)[|c|..] == d;
  }

  // ----- keys

  datatype Kind = RSA | DSA

  datatype Key = Key(kind: Kind, bits: nat, comment: Option<string>)

  /** The first three fields of a key. */
  datatype Fields = Fields(kind: string, first: string, second: string)

  function FieldsOf(key: string): Option<Fields> {
    var kind := FieldAt(key, 0);
    if kind.None? then None
    else
      var first := FieldAt(key, 4 + |kind.value|);
      if first.None? then None
      else
        var second := FieldAt(key, 8 + |kind.value| + |first.value|);
        if second.None? then None else Some(Fields(kind.value, first.value, second.value))
  }

  /** The number that tells the size is the second for RSA and the first for DSA. */
  function Measured(f: Fields, comment: Option<string>): Option<Key> {
    if f.kind == "ssh-rsa" then Some(Key(RSA, |f.second| / 2 * 16, comment))
    else if f.kind == "ssh-dss" then Some(Key(DSA, |f.first| / 2 * 16, comment))
    else None
  }

  /** The words of a line are the type, the key, which says its type again, and the comment. */
  function KeyOf(parts: seq<string>): Option<Key> {
    if |parts| < 2 || Decode(parts[1]).None? || Decode(parts[1]).value == "" then None
    else
      var f := FieldsOf(Decode(parts[1]).value);
      if f.None? || f.value.kind != parts[0] then None
      else Measured(f.value, if |parts| > 2 then Some(parts[2]) else None)
  }

  method PubkeyDecode(s: string) returns (r: Option<Key>)
    ensures r == KeyOf(Split(s))
  {
    hide LengthDecode, Split, Decode;
    var parts := Split(s);
    if |parts| < 2 { return None; }
    var decoded := Base64Decode(parts[1]);
    if decoded.None? || decoded.value == "" { return None; }
    var key := decoded.value;
    var off := 0;
    var len := LengthDecode(key, off);
    if len.None? { return None; }
    var kind := key[off + 4..off + 4 + len.value];
    if kind != parts[0] { return None; }
    off := off + 4 + len.value;
    var len1 := LengthDecode(key, off);
    if len1.None? { return None; }
    off := off + 4 + len1.value;
    var len2 := LengthDecode(key, off);
    if len2.None? { return None; }
    var n1, n2 := len1.value, len2.value;
    if n1 % 2 == 1 { n1 := n1 - 1; }
    if n2 % 2 == 1 { n2 := n2 - 1; }
    assert n1 * 8 == len1.value / 2 * 16 && n2 * 8 == len2.value / 2 * 16;
    var comment := if |parts| > 2 then Some(parts[2]) else None;
    if kind == "ssh-rsa" {
      return Some(Key(RSA, n2 * 8, comment));
    } else if kind == "ssh-dss" {
      return Some(Key(DSA, n1 * 8, comment));
    } else {
      return None;
    }
  }

  // ----- what is read from a key

  predicate Sized(f: Fields) {
    |f.kind| < 0x8000_0000 && |f.first| < 0x8000_0000 && |f.second| < 0x8000_0000
  }

  /** A key of section 6.6 of RFC 4253, with whatever follows its first two numbers. */
  function Blob(f: Fields, rest: string): string
    requires Sized(f)
  {
    Framed(f.kind) + Framed(f.first) + Framed(f.second) + rest
  }

  /** The fields are read from a key exactly if it is made of them. */
  lemma FieldsExactly(key: string, f: Fields)
    requires Bytes(key)
    ensures FieldsOf(key) == Some(f) <==> Sized(f) && exists rest :: key == Blob(f, rest)
  {
    hide FieldAt, Framed, Bytes;
    FieldFramed(key, 0, f.kind);
    FieldFramed(key, 4 + |f.kind|, f.first);
    FieldFramed(key, 8 + |f.kind| + |f.first|, f.second);
    if FieldsOf(key) == Some(f) {
      assert key == Blob(f, key[12 + |f.kind| + |f.first| + |f.second|..]);
    }
    if Sized(f) && exists rest :: key == Blob(f, rest) {
      var rest :| key == Blob(f, rest);
      BlobSlices(f, rest);
    }
  }

  lemma BlobSlices(f: Fields, rest: string)
    requires Sized(f)
    ensures var key, a, b, c := Blob(f, rest), 4 + |f.kind|, 8 + |f.kind| + |f.first|, 12 + |f.kind| + |f.first| + |f.second|;
            |key| >= c && key[..a] == Framed(f.kind) && key[a..b] == Framed(f.first) && key[b..c] == Framed(f.second)
  {
  }

  lemma Base64Word(s: string)
    requires Base64(s) && s != ""
    ensures Word(s)
  {
    forall i | 0 <= i < |s|
      ensures !Space(s[i])
    {
      assert Table(s[i]).Some?;
    }
  }

  lemma CharsAreBytes(b: seq<Byte>)
    ensures Bytes(Chars(b))
  {
  }

  /** A line with a key on it gives the size of the key and the first word of the comment. */
  lemma KeyRead(f: Fields, rest: string, blob: seq<Byte>, comment: seq<string>)
    requires Sized(f) && Chars(blob) == Blob(f, rest)
    requires Word(f.kind) && forall w :: w in comment ==> Word(w)
    ensures KeyOf(Split(Join([f.kind, Encode(blob)] + comment))) ==
            Measured(f, if comment == [] then None else Some(comment[0]))
  {
    hide Word, Encode, Chars, Split, Join, Decode, FieldsOf, Framed, Base64, Bytes;
    var parts := [f.kind, Encode(blob)] + comment;
    BlobSlices(f, rest);
    Base64Word(Encode(blob));
    SplitJoin(parts);
    DecodeEncode(blob);
    CharsAreBytes(blob);
    FieldsExactly(Chars(blob), f);
  }

  /** The key that fields make: RSA with the size of the second number, or DSA with that of the first, in the
      bits of an even number of bytes. */
  predicate Makes(f: Fields, parts: seq<string>, key: Key) {
    && key.comment == (if |parts| > 2 then Some(parts[2]) else None)
    && ((f.kind == "ssh-rsa" && key.kind == RSA && key.bits == 8 * (|f.second| - |f.second| % 2))
        || (f.kind == "ssh-dss" && key.kind == DSA && key.bits == 8 * (|f.first| - |f.first| % 2)))
  }

  /** A key is read exactly if the second word decodes to a key of the type in the first word, and that one. */
  lemma KeyExactly(parts: seq<string>, key: Key)
    requires |parts| > 1 ==> forall k :: 0 <= k < |parts[1]| && k % 4 == 0 ==> parts[1][k] != '='
    ensures KeyOf(parts) == Some(key) <==>
            |parts| > 1 && exists f, rest :: Sized(f) && Decode(parts[1]) == Some(Blob(f, rest)) && f.kind == parts[0]
                                             && Makes(f, parts, key)
  {
    hide FieldsOf, Blob, DecodedFrom, Base64, Bytes, Sized;
    if |parts| > 1 && Decode(parts[1]).Some? {
      var blob := Decode(parts[1]).value;
      DecodesToBytes(parts[1], 0);
      forall f: Fields, rest: string | Sized(f) && blob == Blob(f, rest) && f.kind == parts[0] && Makes(f, parts, key)
        ensures KeyOf(parts) == Some(key)
      {
        BlobSlices(f, rest);
        FieldsExactly(blob, f);
      }
      if KeyOf(parts) == Some(key) {
        var f := FieldsOf(blob).value;
        FieldsExactly(blob, f);
        assert Makes(f, parts, key);
      }
    }
  }

  // ----- the size of a number

  /** Bytes of a positive number, the highest first, and not zero. */
  type Magnitude = m: seq<Byte> | |m| > 0 && m[0] > 0 witness [1]

  function Natural(m: seq<Byte>): nat {
    if m == [] then 0 else 256 * Natural(m[..|m| - 1]) + m[|m| - 1]
  }

  /** A positive mpint of section 5 of RFC 4251: a byte of zero keeps the highest bit from being a sign. */
  function Mpint(m: Magnitude): seq<Byte> {
    if m[0] >= 128 then [0] + m else m
  }

  function BitsIn(b: nat): nat {
    if b == 0 then 0 else 1 + BitsIn(b / 2)
  }

  function BitLength(m: Magnitude): nat {
    8 * (|m| - 1) + BitsIn(m[0])
  }

  lemma {:induction false} BitsInRange(b: nat)
    requires b > 0
    ensures BitsIn(b) > 0 && Power2(BitsIn(b) - 1) <= b < Power2(BitsIn(b))
  {
    if b > 1 {
      BitsInRange(b / 2);
    }
  }

  /** So many bits does the number have. */
  lemma {:induction false} BitLengthRange(m: Magnitude)
    ensures BitLength(m) > 0 && Power2(BitLength(m) - 1) <= Natural(m) < Power2(BitLength(m))
    decreases |m|
  {
    hide Shift, BitsIn;
    BitsInRange(m[0]);
    if |m| == 1 {
      assert m[..0] == [];
    } else {
      var high: Magnitude := m[..|m| - 1];
      BitLengthRange(high);
      ShiftByte(1, BitLength(high));
      ShiftByte(1, BitLength(high) - 1);
    }
  }

  lemma BitsInByte(b: Byte)
    requires b > 0
    ensures BitsIn(b) <= 8 && (BitsIn(b) == 8 <==> b >= 128)
  {
    BitsInRange(b);
    Shifts(1);
    assert Power2(8) == 2 * Power2(7);
    hide Shift;
    if BitsIn(b) > 8 {
      PowerGrows(8, BitsIn(b) - 1);
    } else if BitsIn(b) < 8 {
      PowerGrows(BitsIn(b), 7);
    }
  }

  lemma {:induction false} PowerGrows(a: nat, b: nat)
    requires a <= b
    ensures Power2(a) <= Power2(b)
  {
    if a < b {
      PowerGrows(a, b - 1);
    }
  }

  /** The bits that are shown are those of the number exactly if it fills an even number of bytes. */
  lemma BitsExactly(f: Fields, comment: Option<string>, m: Magnitude)
    requires (f.kind == "ssh-rsa" && f.second == Chars(Mpint(m))) || (f.kind == "ssh-dss" && f.first == Chars(Mpint(m)))
    ensures Measured(f, comment).Some?
    ensures Measured(f, comment).value.bits == BitLength(m) <==> m[0] >= 128 && |m| % 2 == 0
  {
    hide BitsIn;
    BitsInByte(m[0]);
    BitsInRange(m[0]);
  }

  /** The number 128 has eight bits, and sixteen are shown. */
  lemma OddLength(f: Fields, comment: Option<string>)
    requires f.kind == "ssh-rsa" && f.second == Chars(Mpint([128]))
    ensures Measured(f, comment) == Some(Key(RSA, 16, comment)) && BitLength([128]) == 8
  {
    BitsInByte(128);
  }
}
