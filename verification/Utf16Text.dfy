/**
 JavaScript strings, as the contract runtime sees them: sequences of UTF-16 code units,
 in which a surrogate may be unpaired.
 */
module Utf16Text {

  type Unit = u: int | 0 <= u < 0x1_0000

  type Text = seq<Unit>

  /** A Unicode scalar value: any code point that is not a surrogate. */
  type Scalar = c: int | 0 <= c < 0x11_0000 && !(0xD800 <= c < 0xE000)

  predicate IsHigh(u: Unit) { 0xD800 <= u <= 0xDBFF }

  predicate IsLow(u: Unit) { 0xDC00 <= u <= 0xDFFF }

  /** The code units of a source literal; every literal in this project is ASCII. */
  function Ascii(s: string): (t: Text)
    ensures |t| == |s|
  {
    seq(|s|, i requires 0 <= i < |s| => if s[i] as int < 0x1_0000 then s[i] as int else 0xFFFD)
  }

  /** UTF-16 encoding of one scalar value. */
  function EncodeScalar(c: Scalar): Text
  {
    if c < 0x1_0000 then [c]
    else [0xD800 + (c - 0x1_0000) / 0x400, 0xDC00 + (c - 0x1_0000) % 0x400]
  }

  function Encode(scalars: seq<Scalar>): Text
  {
    if scalars == [] then [] else EncodeScalar(scalars[0]) + Encode(scalars[1..])
  }

  /** A text is well-formed when it is the encoding of some sequence of scalar values. */
  ghost predicate WellFormed(s: Text)
  {
    exists scalars :: Encode(scalars) == s
  }

  /** Number of units the first code point of a non-empty text takes. */
  function HeadLength(s: Text): (n: nat)
    requires s != []
    ensures 1 <= n <= |s|
  {
    if IsHigh(s[0]) && |s| > 1 && IsLow(s[1]) then 2 else 1
  }

  /** The first code point is an unpaired surrogate. */
  predicate LoneHead(s: Text)
    requires s != []
  {
    HeadLength(s) == 1 && 0xD800 <= s[0] <= 0xDFFF
  }

  /** No code point of the text is an unpaired surrogate. */
  predicate AllPaired(s: Text)
  {
    s == [] || (!LoneHead(s) && AllPaired(s[HeadLength(s)..]))
  }

  /** One encoded scalar is recognised as one code point, whatever follows it. */
  lemma EncodedHead(c: Scalar, rest: Text)
    ensures HeadLength(EncodeScalar(c) + rest) == |EncodeScalar(c)|
    ensures !LoneHead(EncodeScalar(c) + rest)
  {
    var t := EncodeScalar(c) + rest;
    if c < 0x1_0000 {
      assert t[0] == c;
    } else {
      assert t[0] == EncodeScalar(c)[0] && t[1] == EncodeScalar(c)[1];
    }
  }

  lemma {:induction false} EncodeIsPaired(scalars: seq<Scalar>)
    ensures AllPaired(Encode(scalars))
  {
    if scalars != [] {
      var c := scalars[0];
      var t := EncodeScalar(c);
      var rest := Encode(scalars[1..]);
      EncodeIsPaired(scalars[1..]);
      EncodedHead(c, rest);
      assert (t + rest)[|t|..] == rest;
    }
  }

  /** The scalar value a paired text starts with. */
  function DecodeHead(s: Text): (c: Scalar)
    requires s != [] && !LoneHead(s)
    ensures EncodeScalar(c) == s[..HeadLength(s)]
  {
    if HeadLength(s) == 1 then
      s[0]
    else
      var high: int, low: int := s[0], s[1];
      0x1_0000 + (high - 0xD800) * 0x400 + (low - 0xDC00)
  }

  lemma {:induction false} PairedIsEncoded(s: Text)
    requires AllPaired(s)
    ensures WellFormed(s)
  {
    if s == [] {
      assert Encode([]) == s;
    } else {
      var n := HeadLength(s);
      PairedIsEncoded(s[n..]);
      var tail :| Encode(tail) == s[n..];
      var c := DecodeHead(s);
      assert ([c] + tail)[1..] == tail;
      assert Encode([c] + tail) == s[..n] + s[n..] == s;
    }
  }

  /** Pairing of surrogates is exactly being the image of an encoding. */
  lemma WellFormedIffPaired(s: Text)
    ensures WellFormed(s) <==> AllPaired(s)
  {
    if WellFormed(s) {
      var scalars :| Encode(scalars) == s;
      EncodeIsPaired(scalars);
    }
    if AllPaired(s) {
      PairedIsEncoded(s);
    }
  }

  /**
   The scan of `requireWellFormedUnicode`: false stands for the thrown ContractDecodeError.
   */
  method RequireWellFormedUnicode(value: Text) returns (ok: bool)
    ensures ok <==> WellFormed(value)
  {
    WellFormedIffPaired(value);
    var index := 0;
    assert value[0..] == value;
    while index < |value|
      invariant 0 <= index <= |value|
      invariant AllPaired(value) == AllPaired(value[index..])
    {
      var codeUnit := value[index];
      ghost var rest := value[index..];
      if IsHigh(codeUnit) {
        if index + 1 >= |value| || !IsLow(value[index + 1]) {
          assert LoneHead(rest);
          return false;
        }
        assert HeadLength(rest) == 2 && rest[2..] == value[index + 2..];
        index := index + 1;
      } else if IsLow(codeUnit) {
        assert LoneHead(rest);
        return false;
      } else {
        assert HeadLength(rest) == 1 && rest[1..] == value[index + 1..];
      }
      index := index + 1;
    }
    return true;
  }
}
