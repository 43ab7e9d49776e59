/**
  * Unpadded base64url (section 5 of RFC 4648) as the gateway encodes and decodes it.  Bytes
  * are characters below 256.
  */
module Base64Url {
  import opened Basics

  predicate IsByte(c: char) {
    c as int < 256
  }

  predicate AllBytes(s: string) {
    forall c :: c in s ==> IsByte(c)
  }

  // ---------------------------------------------------------------- the alphabet

  function Sextet(v: nat): (c: char)
    requires v < 64
  {
    if v < 26 then ('A' as int + v) as char
    else if v < 52 then ('a' as int + v - 26) as char
    else if v < 62 then ('0' as int + v - 52) as char
    else if v == 62 then '-' else '_'
  }

  function SextetValue(c: char): Option<nat> {
    if 'A' <= c <= 'Z' then Some(c as int - 'A' as int)
    else if 'a' <= c <= 'z' then Some(c as int - 'a' as int + 26)
    else if '0' <= c <= '9' then Some(c as int - '0' as int + 52)
    else if c == '-' then Some(62)
    else if c == '_' then Some(63)
    else None
  }

  predicate InAlphabet(c: char) {
    SextetValue(c).Some?
  }

  lemma SextetBack(v: nat)
    requires v < 64
    ensures SextetValue(Sextet(v)) == Some(v)
  {
  }

  lemma SextetBound(c: char)
    requires InAlphabet(c)
    ensures SextetValue(c).value < 64
  {
  }

  // ---------------------------------------------------------------- encoding

  /** The first `n` of the four characters for 24 bits. */
  function Quad(bits: nat): string
    requires bits < 0x100_0000
  {
    [Sextet(bits / 64 / 64 / 64), Sextet(bits / 64 / 64 % 64), Sextet(bits / 64 % 64), Sextet(bits % 64)]
  }

  function Bits(a: char, b: char, c: char): (bits: nat)
    requires IsByte(a) && IsByte(b) && IsByte(c)
    ensures bits < 0x100_0000
  {
    (a as int * 256 + b as int) * 256 + c as int
  }

  function Encode(data: string): string
    requires AllBytes(data)
  {
    if data == [] then []
    else if |data| == 1 then Quad(Bits(data[0], '\0', '\0'))[..2]
    else if |data| == 2 then Quad(Bits(data[0], data[1], '\0'))[..3]
    else Quad(Bits(data[0], data[1], data[2])) + Encode(data[3..])
  }

  // ---------------------------------------------------------------- decoding

  function Unquad(w: nat, x: nat, y: nat, z: nat): string
    requires w < 64 && x < 64 && y < 64 && z < 64
  {
    var bits := ((w * 64 + x) * 64 + y) * 64 + z;
    [(bits / 256 / 256) as char, (bits / 256 % 256) as char, (bits % 256) as char]
  }

  /** Groups of four characters; padding only at the very end. */
  function DecodePadded(s: string): Option<string> {
    if s == [] then Some([])
    else if |s| < 4 || !InAlphabet(s[0]) || !InAlphabet(s[1]) then None
    else
      SextetBound(s[0]);
      SextetBound(s[1]);
      var w, x := SextetValue(s[0]).value, SextetValue(s[1]).value;
      if s[2] == '=' then
        (if s[3] == '=' && |s| == 4 then Some(Unquad(w, x, 0, 0)[..1]) else None)
      else if !InAlphabet(s[2]) then None
      else
        SextetBound(s[2]);
        var y := SextetValue(s[2]).value;
        if s[3] == '=' then (if |s| == 4 then Some(Unquad(w, x, y, 0)[..2]) else None)
        else if !InAlphabet(s[3]) then None
        else
          SextetBound(s[3]);
          var rest := DecodePadded(s[4..]);
          if rest.None? then None else Some(Unquad(w, x, y, SextetValue(s[3]).value) + rest.value)
  }

  function Padding(n: nat): string {
    if n % 4 == 2 then "==" else if n % 4 == 3 then "=" else ""
  }

  /** The decoder skips line breaks wherever they stand. */
  function WithoutBreaks(s: string): string {
    if s == [] then []
    else (if s[0] == '\n' || s[0] == '\r' then [] else [s[0]]) + WithoutBreaks(s[1..])
  }

  lemma {:induction false} BreaksAreDropped(s: string, c: char)
    ensures c in WithoutBreaks(s) <==> c in s && c != '\n' && c != '\r'
  {
    if s != [] {
      BreaksAreDropped(s[1..], c);
      assert s == [s[0]] + s[1..];
    }
  }

  function Decode(s: string): Option<string> {
    DecodePadded(WithoutBreaks(s + Padding(|s|)))
  }

  // ---------------------------------------------------------------- the round trip

  lemma {:induction false} NoBreaks(s: string)
    requires forall c :: c in s ==> c != '\n' && c != '\r'
    ensures WithoutBreaks(s) == s
  {
    if s != [] {
      assert s[0] in s && forall c :: c in s[1..] ==> c in s;
      NoBreaks(s[1..]);
    }
  }

  lemma QuadChars(bits: nat)
    requires bits < 0x100_0000
    ensures forall c :: c in Quad(bits) ==> InAlphabet(c)
  {
    SextetBack(bits / 64 / 64 / 64);
    SextetBack(bits / 64 / 64 % 64);
    SextetBack(bits / 64 % 64);
    SextetBack(bits % 64);
  }

  lemma {:induction false} EncodeShape(data: string)
    requires AllBytes(data)
    ensures forall c :: c in Encode(data) ==> InAlphabet(c)
    ensures |Encode(data)| == |data| / 3 * 4 + (if |data| % 3 == 0 then 0 else |data| % 3 + 1)
  {
    hide Quad, SextetValue;
    if data != [] {
      var a, b, c := data[0], if |data| > 1 then data[1] else '\0', if |data| > 2 then data[2] else '\0';
      assert IsByte(a) && IsByte(b) && IsByte(c);
      QuadChars(Bits(a, b, c));
      QuadSize(Bits(a, b, c));
      if |data| >= 3 {
        EncodeShape(data[3..]);
      }
    }
  }

  lemma QuadSize(bits: nat)
    requires bits < 0x100_0000
    ensures |Quad(bits)| == 4
  {
  }

  /** Splitting 24 bits into sextets and putting them together again. */
  lemma SextetsOf(bits: nat)
    requires bits < 0x100_0000
    ensures bits / 64 / 64 / 64 < 64
    ensures ((bits / 64 / 64 / 64 * 64 + bits / 64 / 64 % 64) * 64 + bits / 64 % 64) * 64 + bits % 64 == bits
  {
    var q := bits / 64;
    var r := q / 64;
    assert r / 64 * 64 + r % 64 == r && r * 64 + q % 64 == q && q * 64 + bits % 64 == bits;
  }

  lemma BitsBack(a: char, b: char, c: char)
    requires IsByte(a) && IsByte(b) && IsByte(c)
    ensures var bits := Bits(a, b, c);
            bits < 0x100_0000 && bits / 256 / 256 == a as int && bits / 256 % 256 == b as int && bits % 256 == c as int
  {
  }

  lemma UnquadQuad(a: char, b: char, c: char)
    requires IsByte(a) && IsByte(b) && IsByte(c)
    ensures var bits := Bits(a, b, c);
            bits < 0x100_0000 && bits / 64 / 64 / 64 < 64
            && Unquad(bits / 64 / 64 / 64, bits / 64 / 64 % 64, bits / 64 % 64, bits % 64) == [a, b, c]
  {
    BitsBack(a, b, c);
    SextetsOf(Bits(a, b, c));
    hide Bits;
  }

  /** The four sextets of three bytes, as characters and back. */
  lemma QuadValues(a: char, b: char, c: char) returns (w: nat, x: nat, y: nat, z: nat)
    requires IsByte(a) && IsByte(b) && IsByte(c)
    ensures w < 64 && x < 64 && y < 64 && z < 64
    ensures Quad(Bits(a, b, c)) == [Sextet(w), Sextet(x), Sextet(y), Sextet(z)]
    ensures Unquad(w, x, y, z) == [a, b, c]
    ensures c == '\0' ==> z == 0
    ensures b == '\0' && c == '\0' ==> y == 0
    ensures SextetValue(Sextet(w)) == Some(w) && SextetValue(Sextet(x)) == Some(x)
    ensures SextetValue(Sextet(y)) == Some(y) && SextetValue(Sextet(z)) == Some(z)
  {
    var bits := Bits(a, b, c);
    UnquadQuad(a, b, c);
    w, x, y, z := bits / 64 / 64 / 64, bits / 64 / 64 % 64, bits / 64 % 64, bits % 64;
    ZeroTail(a, b);
    SextetBack(w);
    SextetBack(x);
    SextetBack(y);
    SextetBack(z);
    hide Bits, Unquad, Sextet, SextetValue;
  }

  lemma ZeroTail(a: char, b: char)
    requires IsByte(a) && IsByte(b)
    ensures Bits(a, b, '\0') % 64 == 0 && Bits(a, '\0', '\0') / 64 % 64 == 0
  {
    assert Bits(a, b, '\0') == (a as int * 1024 + b as int * 4) * 64;
    assert Bits(a, '\0', '\0') / 64 == a as int * 16 * 64;
  }

  /** Decoding one whole group and what follows it. */
  lemma DecodeQuad(a: char, b: char, c: char, rest: string)
    requires IsByte(a) && IsByte(b) && IsByte(c)
    ensures DecodePadded(Quad(Bits(a, b, c)) + rest) ==
              if DecodePadded(rest).None? then None else Some([a, b, c] + DecodePadded(rest).value)
  {
    hide Bits, Unquad, Sextet, SextetValue, Quad;
    var w, x, y, z := QuadValues(a, b, c);
    var s := [Sextet(w), Sextet(x), Sextet(y), Sextet(z)] + rest;
    assert s[4..] == rest && s[0] == Sextet(w) && s[1] == Sextet(x) && s[2] == Sextet(y) && s[3] == Sextet(z);
    PaddingIsNoSextet();
  }

  lemma PaddingIsNoSextet()
    ensures SextetValue('=').None?
  {
  }

  /** Decoding a last group of one or two bytes. */
  lemma DecodeShort(a: char, b: char)
    requires IsByte(a) && IsByte(b)
    ensures DecodePadded(Quad(Bits(a, b, '\0'))[..3] + "=") == Some([a, b])
    ensures b == '\0' ==> DecodePadded(Quad(Bits(a, b, '\0'))[..2] + "==") == Some([a])
  {
    hide Bits, Unquad, Sextet, SextetValue, Quad;
    var w, x, y, z := QuadValues(a, b, '\0');
    PaddingIsNoSextet();
    assert Quad(Bits(a, b, '\0'))[..3] + "=" == [Sextet(w), Sextet(x), Sextet(y), '='];
    assert Quad(Bits(a, b, '\0'))[..2] + "==" == [Sextet(w), Sextet(x), '=', '='];
    assert [a, b, '\0'][..2] == [a, b] && [a, b, '\0'][..1] == [a];
  }

  lemma {:induction false} DecodeEncode(data: string)
    requires AllBytes(data)
    ensures DecodePadded(Encode(data) + Padding(|Encode(data)|)) == Some(data)
  {
    hide Quad, Bits, Unquad, SextetValue, DecodePadded;
    EncodeShape(data);
    if data == [] {
      NothingDecodes();
      assert Encode(data) + Padding(0) == "";
    } else if |data| == 1 {
      DecodeShort(data[0], '\0');
      assert data == [data[0]];
    } else if |data| == 2 {
      DecodeShort(data[0], data[1]);
      assert data == [data[0], data[1]];
    } else {
      var q, rest := Quad(Bits(data[0], data[1], data[2])), Encode(data[3..]);
      EncodeShape(data[3..]);
      QuadSize(Bits(data[0], data[1], data[2]));
      DecodeEncode(data[3..]);
      DecodeQuad(data[0], data[1], data[2], rest + Padding(|rest|));
      assert q + rest + Padding(|rest|) == q + (rest + Padding(|rest|));
      assert data == [data[0], data[1], data[2]] + data[3..];
    }
  }

  lemma NothingDecodes()
    ensures DecodePadded("") == Some("") && Padding(0) == ""
  {
  }

  /** Decoding undoes encoding, whatever the bytes. */
  lemma RoundTrip(data: string)
    requires AllBytes(data)
    ensures Decode(Encode(data)) == Some(data)
  {
    EncodeShape(data);
    DecodeEncode(data);
    hide Encode, DecodePadded;
    var padded := Encode(data) + Padding(|Encode(data)|);
    forall c | c in padded
      ensures c != '\n' && c != '\r'
    {
      assert c in Encode(data) || c == '=';
    }
    NoBreaks(padded);
  }
}
