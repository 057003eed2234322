/** UTF-8 by its encoder (section 3 of RFC 3629): what the readers of paths and plans take for text, and how long it is. */
module Utf8 {
  import opened Wrappers
  import opened StatusParser
  import FeaturePlans

  /** The characters there are: surrogates are none. */
  predicate Scalar(n: nat) {
    n < 0x11_0000 && !(0xD800 <= n <= 0xDFFF)
  }

  function Encode(n: nat): (bytes: seq<Byte>)
    requires Scalar(n)
    ensures 1 <= |bytes| <= 4
  {
    if n < 0x80 then [n as Byte]
    else if n < 0x800 then [(0xC0 + n / 64) as Byte, (0x80 + n % 64) as Byte]
    else if n < 0x1_0000 then [(0xE0 + n / 4096) as Byte, (0x80 + n / 64 % 64) as Byte, (0x80 + n % 64) as Byte]
    else
      [(0xF0 + n / 262144) as Byte, (0x80 + n / 4096 % 64) as Byte, (0x80 + n / 64 % 64) as Byte, (0x80 + n % 64) as Byte]
  }

  /** The character the bytes were encoded from. */
  function Decode(bytes: seq<Byte>): nat
    requires CharacterLength(bytes) == |bytes| > 0
  {
    if |bytes| == 1 then bytes[0] as nat
    else if |bytes| == 2 then (bytes[0] as nat - 0xC0) * 64 + (bytes[1] as nat - 0x80)
    else if |bytes| == 3 then
      (bytes[0] as nat - 0xE0) * 4096 + (bytes[1] as nat - 0x80) * 64 + (bytes[2] as nat - 0x80)
    else
      (bytes[0] as nat - 0xF0) * 262144 + (bytes[1] as nat - 0x80) * 4096 + (bytes[2] as nat - 0x80) * 64
      + (bytes[3] as nat - 0x80)
  }

  lemma EncodingIsRead(n: nat, rest: seq<Byte>)
    requires Scalar(n)
    ensures CharacterLength(Encode(n) + rest) == |Encode(n)|
  {
  }

  lemma LengthIsLocal(s: seq<Byte>)
    ensures CharacterLength(s[..CharacterLength(s)]) == CharacterLength(s)
  {
  }

  /** Digits of base 64, put together and taken apart. */
  lemma Digits(a: nat, b: nat, c: nat, d: nat)
    requires b < 64 && c < 64 && d < 64
    ensures var n := a * 262144 + b * 4096 + c * 64 + d;
            n / 262144 == a && n / 4096 % 64 == b && n / 64 % 64 == c && n % 64 == d
  {
    var n := a * 262144 + b * 4096 + c * 64 + d;
    assert n / 64 == a * 4096 + b * 64 + c;
    assert n / 4096 == a * 64 + b;
  }

  lemma ThreeDigits(b: nat, c: nat, d: nat)
    requires c < 64 && d < 64
    ensures var n := b * 4096 + c * 64 + d; n / 4096 == b && n / 64 % 64 == c && n % 64 == d
  {
    var n := b * 4096 + c * 64 + d;
    assert n / 64 == b * 64 + c;
  }

  lemma Recomposed(n: nat)
    ensures n == n / 64 * 64 + n % 64
    ensures n == n / 4096 * 4096 + n / 64 % 64 * 64 + n % 64
    ensures n == n / 262144 * 262144 + n / 4096 % 64 * 4096 + n / 64 % 64 * 64 + n % 64
  {
    assert n / 64 / 64 == n / 4096;
    assert n / 4096 / 64 == n / 262144;
  }

  lemma ShortIsEncoding(bytes: seq<Byte>)
    requires CharacterLength(bytes) == |bytes| && 1 <= |bytes| <= 2
    ensures Scalar(Decode(bytes)) && Encode(Decode(bytes)) == bytes
  {
  }

  lemma ThreeIsEncoding(bytes: seq<Byte>)
    requires CharacterLength(bytes) == |bytes| == 3
    ensures Scalar(Decode(bytes)) && Encode(Decode(bytes)) == bytes
  {
    ThreeDigits(bytes[0] as nat - 0xE0, bytes[1] as nat - 0x80, bytes[2] as nat - 0x80);
  }

  lemma FourIsEncoding(bytes: seq<Byte>)
    requires CharacterLength(bytes) == |bytes| == 4
    ensures Scalar(Decode(bytes)) && Encode(Decode(bytes)) == bytes
  {
    Digits(bytes[0] as nat - 0xF0, bytes[1] as nat - 0x80, bytes[2] as nat - 0x80, bytes[3] as nat - 0x80);
  }

  /** What is read as one character is the encoding of one. */
  lemma ReadIsEncoding(bytes: seq<Byte>)
    requires CharacterLength(bytes) == |bytes| > 0
    ensures Scalar(Decode(bytes)) && Encode(Decode(bytes)) == bytes
  {
    hide Encode, Decode;
    if |bytes| <= 2 {
      ShortIsEncoding(bytes);
    } else if |bytes| == 3 {
      ThreeIsEncoding(bytes);
    } else {
      LengthAtMostFour(bytes);
      FourIsEncoding(bytes);
    }
  }

  lemma LengthAtMostFour(s: seq<Byte>)
    ensures CharacterLength(s) <= 4
  {
  }

  predicate AllScalars(text: seq<nat>) {
    forall k | 0 <= k < |text| :: Scalar(text[k])
  }

  function EncodeAll(text: seq<nat>): seq<Byte>
    requires AllScalars(text)
  {
    if text == [] then [] else Encode(text[0]) + EncodeAll(text[1..])
  }

  lemma {:induction false} EncodedIsUtf8(text: seq<nat>)
    requires AllScalars(text)
    ensures IsUtf8(EncodeAll(text))
  {
    if text != [] {
      var first, rest := Encode(text[0]), EncodeAll(text[1..]);
      EncodedIsUtf8(text[1..]);
      EncodingIsRead(text[0], rest);
      assert (first + rest)[|first|..] == rest;
    }
  }

  lemma {:induction false} Utf8WasEncoded(s: seq<Byte>) returns (text: seq<nat>)
    requires IsUtf8(s)
    ensures AllScalars(text) && EncodeAll(text) == s
    decreases |s|
  {
    hide CharacterLength, Encode, Decode;
    text := [];
    if s != [] {
      var n := CharacterLength(s);
      var later := Utf8WasEncoded(s[n..]);
      LengthIsLocal(s);
      ReadIsEncoding(s[..n]);
      text := [Decode(s[..n])] + later;
      assert text[1..] == later;
      assert s == s[..n] + s[n..];
    }
  }

  ghost predicate Encodes(text: seq<nat>, s: seq<Byte>) {
    AllScalars(text) && EncodeAll(text) == s
  }

  /** Bytes are taken for text exactly when they encode some characters one after another. */
  lemma Utf8Exactly(s: seq<Byte>)
    ensures IsUtf8(s) <==> exists text :: Encodes(text, s)
  {
    if IsUtf8(s) {
      var text := Utf8WasEncoded(s);
      assert Encodes(text, s);
    }
    if text :| Encodes(text, s) {
      EncodedIsUtf8(text);
    }
  }

  /** No text is read as another: different characters never encode to the same bytes. */
  lemma {:induction false} EncodingIsUnambiguous(a: seq<nat>, b: seq<nat>)
    requires AllScalars(a) && AllScalars(b) && EncodeAll(a) == EncodeAll(b)
    ensures a == b
  {
    if a != [] && b != [] {
      var x, y := Encode(a[0]), Encode(b[0]);
      EncodingIsRead(a[0], EncodeAll(a[1..]));
      EncodingIsRead(b[0], EncodeAll(b[1..]));
      assert x == EncodeAll(a)[..|x|] == EncodeAll(b)[..|y|] == y;
      assert EncodeAll(a[1..]) == EncodeAll(a)[|x|..] == EncodeAll(b[1..]);
      EncodingIsUnambiguous(a[1..], b[1..]);
      SameCharacter(a[0], b[0]);
      assert a == [a[0]] + a[1..] && b == [b[0]] + b[1..];
    }
  }

  lemma SameCharacter(a: nat, b: nat)
    requires Scalar(a) && Scalar(b) && Encode(a) == Encode(b)
    ensures a == b
  {
    EncodingIsRead(a, []);
    assert Encode(a) + [] == Encode(a) && Encode(b) + [] == Encode(b);
    DecodeUndoesEncode(a);
    DecodeUndoesEncode(b);
  }

  lemma DecodeUndoesEncode(n: nat)
    requires Scalar(n)
    ensures CharacterLength(Encode(n)) == |Encode(n)| && Decode(Encode(n)) == n
  {
    EncodingIsRead(n, []);
    assert Encode(n) + [] == Encode(n);
    Recomposed(n);
    hide CharacterLength;
  }

  /** The characters of a plan's text. */
  function CodePoints(s: string): (text: seq<nat>)
    ensures |text| == |s| && forall k | 0 <= k < |s| :: text[k] == s[k] as nat
  {
    seq(|s|, k requires 0 <= k < |s| => s[k] as nat)
  }

  /** A plan's limits count the bytes of the encoding. */
  lemma {:induction false} LengthIsEncodedLength(s: string)
    ensures AllScalars(CodePoints(s)) && FeaturePlans.Utf8Length(s) == |EncodeAll(CodePoints(s))|
  {
    if s != [] {
      LengthIsEncodedLength(s[1..]);
      assert CodePoints(s)[1..] == CodePoints(s[1..]);
    }
  }
}
