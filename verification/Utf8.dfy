/** UTF-8 (section 3 of RFC 3629): text as Unicode scalar values, and its encoding as bytes. */
module Utf8 {
  import opened Prelude

  type Byte = b: int | 0 <= b < 256

  predicate IsScalar(c: int) {
    0 <= c <= 0x10FFFF && !(0xD800 <= c <= 0xDFFF)
  }

  type Scalar = c: int | 0 <= c <= 0x10FFFF && !(0xD800 <= c <= 0xDFFF)

  type Text = seq<Scalar>

  /** `(byte & 0xc0) === 0x80`. */
  predicate IsContinuation(b: Byte) {
    b / 64 == 2
  }

  // ---- Encoding ------------------------------------------------------------

  function EncodeScalar(c: Scalar): (bytes: seq<Byte>)
    ensures 1 <= |bytes| <= 4
    ensures !IsContinuation(bytes[0])
    ensures forall i | 1 <= i < |bytes| :: IsContinuation(bytes[i])
  {
    var rest: nat, low := c / 64, Tail(c);
    if c < 0x80 then One(c)
    else if c < 0x800 then One(0xC0 + rest) + [low]
    else if c < 0x10000 then One(0xE0 + rest / 64) + [Tail(rest), low]
    else One(0xF0 + rest / 64 / 64) + [Tail(rest / 64), Tail(rest), low]
  }

  function One(b: Byte): seq<Byte> {
    [b]
  }

  /** The continuation byte for the lowest six bits. */
  function Tail(n: nat): (b: Byte)
    ensures IsContinuation(b)
  {
    0x80 + n % 64
  }

  /** The bytes of a character by the table of section 3 of RFC 3629: its bits in groups of six, from the right. */
  lemma {:induction false} EncodedAs(c: Scalar)
    ensures EncodeScalar(c) ==
      if c <= 0x7F then [c]
      else if c <= 0x7FF then [0xC0 + c / 0x40, 0x80 + c % 0x40]
      else if c <= 0xFFFF then [0xE0 + c / 0x1000, 0x80 + c / 0x40 % 0x40, 0x80 + c % 0x40]
      else [0xF0 + c / 0x40000, 0x80 + c / 0x1000 % 0x40, 0x80 + c / 0x40 % 0x40, 0x80 + c % 0x40]
  {
    assert c / 64 / 64 == c / 0x1000 && c / 64 / 64 / 64 == c / 0x40000;
  }

  function Encode(text: Text): seq<Byte> {
    if text == [] then [] else EncodeScalar(text[0]) + Encode(text[1..])
  }

  // ---- Decoding ------------------------------------------------------------

  /** How many bytes a character takes that starts with this byte; 0 if none does. */
  function Length(lead: Byte): nat {
    if lead < 0x80 then 1
    else if lead < 0xC0 then 0
    else if lead < 0xE0 then 2
    else if lead < 0xF0 then 3
    else if lead < 0xF8 then 4
    else 0
  }

  /** Six more bits. */
  function Shift(high: int, b: Byte): int {
    high * 64 + (b - 0x80)
  }

  function Value(bytes: seq<Byte>): int
    requires 1 <= |bytes| <= 4
  {
    if |bytes| == 1 then bytes[0]
    else if |bytes| == 2 then Shift(bytes[0] as int - 0xC0, bytes[1])
    else if |bytes| == 3 then Shift(Shift(bytes[0] as int - 0xE0, bytes[1]), bytes[2])
    else Shift(Shift(Shift(bytes[0] as int - 0xF0, bytes[1]), bytes[2]), bytes[3])
  }

  /** The smallest value that needs n bytes. */
  function Smallest(n: nat): int {
    if n <= 1 then 0 else if n == 2 then 0x80 else if n == 3 then 0x800 else 0x10000
  }

  /** The first character: complete, in its shortest form, and a scalar value. */
  function DecodeScalar(bytes: seq<Byte>): (r: Option<(Scalar, nat)>)
    ensures r.Some? ==> 1 <= r.value.1 <= |bytes| && r.value.1 <= 4
  {
    if bytes == [] then None
    else
      var n := Length(bytes[0]);
      if n == 0 || |bytes| < n then None
      else
        var c := Value(bytes[..n]);
        if (forall i | 1 <= i < n :: IsContinuation(bytes[i])) && c >= Smallest(n) && IsScalar(c) then Some((c, n))
        else None
  }

  /** All characters of a byte string; None when it is not UTF-8. */
  function Decode(bytes: seq<Byte>): Option<Text> {
    if bytes == [] then Some([])
    else
      var first := DecodeScalar(bytes);
      if first == None then None
      else
        var rest := Decode(bytes[first.value.1..]);
        if rest == None then None else Some([first.value.0] + rest.value)
  }

  // ---- Round trips ---------------------------------------------------------

  lemma {:induction false} ShiftTail(n: nat)
    ensures Shift(n / 64, Tail(n)) == n
  {
  }

  lemma {:induction false} TailShift(high: nat, b: Byte)
    requires IsContinuation(b)
    ensures Shift(high, b) / 64 == high && Tail(Shift(high, b)) == b
  {
  }

  lemma {:induction false} ScalarDecodes(c: Scalar, more: seq<Byte>)
    ensures DecodeScalar(EncodeScalar(c) + more) == Some((c, |EncodeScalar(c)|))
  {
    var bytes := EncodeScalar(c);
    assert (bytes + more)[..|bytes|] == bytes;
    ShiftTail(c);
    ShiftTail(c / 64);
    ShiftTail(c / 64 / 64);
    hide Shift, Tail;
  }

  lemma {:induction false} ScalarEncodes(bytes: seq<Byte>)
    requires DecodeScalar(bytes).Some?
    ensures var (c, n) := DecodeScalar(bytes).value; EncodeScalar(c) == bytes[..n]
  {
    hide Shift, Tail;
    var (c, n) := DecodeScalar(bytes).value;
    assert forall i | 1 <= i < n :: IsContinuation(bytes[i]);
    if n >= 2 {
      var lead := bytes[0] as int - if n == 2 then 0xC0 else if n == 3 then 0xE0 else 0xF0;
      TailShift(lead, bytes[1]);
      if n >= 3 {
        ShiftNat(lead, bytes[1]);
        TailShift(Shift(lead, bytes[1]), bytes[2]);
        if n >= 4 {
          ShiftNat(Shift(lead, bytes[1]), bytes[2]);
          TailShift(Shift(Shift(lead, bytes[1]), bytes[2]), bytes[3]);
        }
      }
    }
  }

  lemma {:induction false} ShiftNat(high: nat, b: Byte)
    requires IsContinuation(b)
    ensures Shift(high, b) >= 0
  {
  }

  lemma {:induction false} DecodeEncode(text: Text)
    ensures Decode(Encode(text)) == Some(text)
  {
    hide EncodeScalar, DecodeScalar;
    if text != [] {
      var first := EncodeScalar(text[0]);
      ScalarDecodes(text[0], Encode(text[1..]));
      assert (first + Encode(text[1..]))[|first|..] == Encode(text[1..]);
      DecodeEncode(text[1..]);
      assert text == [text[0]] + text[1..];
    }
  }

  lemma {:induction false} EncodeDecode(bytes: seq<Byte>)
    requires Decode(bytes).Some?
    ensures Encode(Decode(bytes).value) == bytes
  {
    hide EncodeScalar, DecodeScalar;
    if bytes != [] {
      ScalarEncodes(bytes);
      EncodeDecode(bytes[DecodeScalar(bytes).value.1..]);
    }
  }

  // ---- Boundaries ----------------------------------------------------------

  lemma {:induction false} EncodeSplits(text: Text, k: nat)
    requires k <= |text|
    ensures Encode(text) == Encode(text[..k]) + Encode(text[k..])
  {
    hide EncodeScalar;
    if k == 0 {
      assert text[0..] == text;
    } else {
      EncodeSplits(text[1..], k - 1);
      assert text[..k][1..] == text[1..][..k - 1];
      assert text[1..][k - 1..] == text[k..];
    }
  }

  /** Where character k starts. */
  function Boundary(text: Text, k: nat): nat
    requires k <= |text|
  {
    |Encode(text[..k])|
  }

  lemma {:induction false} NextBoundary(text: Text, k: nat)
    requires k < |text|
    ensures Boundary(text, k + 1) == Boundary(text, k) + |EncodeScalar(text[k])|
    ensures Boundary(text, k + 1) <= |Encode(text)|
    ensures Encode(text)[Boundary(text, k)..Boundary(text, k + 1)] == EncodeScalar(text[k])
  {
    EncodeSplits(text, k);
    EncodeSplits(text, k + 1);
    EncodeSplits(text[..k + 1], k);
    assert text[..k + 1][..k] == text[..k];
    assert text[..k + 1][k..] == [text[k]];
    assert Encode([text[k]]) == EncodeScalar(text[k]) + Encode([]);
  }

  /** The character that byte p belongs to. */
  function CharacterAt(text: Text, p: nat): (k: nat)
    requires p < |Encode(text)|
    ensures k < |text|
  {
    if p < |EncodeScalar(text[0])| then 0 else CharacterAt(text[1..], p - |EncodeScalar(text[0])|) + 1
  }

  lemma {:induction false} CharacterAtIs(text: Text, p: nat)
    requires p < |Encode(text)|
    ensures var k := CharacterAt(text, p); Boundary(text, k) <= p < Boundary(text, k + 1)
  {
    var k := CharacterAt(text, p);
    var first := EncodeScalar(text[0]);
    if p < |first| {
      NextBoundary(text, 0);
    } else {
      CharacterAtIs(text[1..], p - |first|);
      assert text[..k][1..] == text[1..][..k - 1];
      assert text[..k + 1][1..] == text[1..][..k];
    }
  }

  /** A byte is a continuation byte exactly when it is not the first of its character. */
  lemma {:induction false} ContinuationExactlyInside(text: Text, p: nat)
    requires p < |Encode(text)|
    ensures var k := CharacterAt(text, p);
      && Boundary(text, k) <= p < Boundary(text, k + 1) <= Boundary(text, k) + 4
      && (IsContinuation(Encode(text)[p]) <==> p > Boundary(text, k))
  {
    var k := CharacterAt(text, p);
    CharacterAtIs(text, p);
    NextBoundary(text, k);
    var bytes := Encode(text)[Boundary(text, k)..Boundary(text, k + 1)];
    assert bytes[p - Boundary(text, k)] == Encode(text)[p];
  }

  lemma {:induction false} BoundariesIncrease(text: Text, j: nat, k: nat)
    requires j <= k <= |text|
    ensures Boundary(text, j) + (k - j) <= Boundary(text, k)
    decreases k
  {
    if j < k {
      BoundariesIncrease(text, j, k - 1);
      NextBoundary(text, k - 1);
    }
  }

  lemma {:induction false} CutAtBoundary(text: Text, k: nat)
    requires k <= |text|
    ensures Boundary(text, k) <= |Encode(text)|
    ensures Encode(text)[..Boundary(text, k)] == Encode(text[..k])
    ensures Encode(text)[Boundary(text, k)..] == Encode(text[k..])
  {
    EncodeSplits(text, k);
  }
}
