// AIS message fields (src/decoders/trx-ais/src/lib.rs): most significant bit first
// numbers, two's complement, six-bit text, and the position report layouts of
// ITU-R M.1371-5 Annex 8 (messages 1-3, 18 and 19) with the static data of message 5.
module AisFields {
  import opened Basics
  import opened Words
  import opened AisLink

  // ---- bits of the payload, most significant first ---------------------------------

  function Reverse(bits: Bits): (r: Bits)
    ensures |r| == |bits|
    ensures forall i :: 0 <= i < |bits| ==> r[i] == bits[|bits| - 1 - i]
  {
    seq(|bits|, i requires 0 <= i < |bits| => bits[|bits| - 1 - i])
  }

  function MsbBits(bytes: seq<u8>): (r: Bits)
    ensures |r| == 8 * |bytes|
  {
    if bytes == [] then [] else Reverse(bytes[0]) + MsbBits(bytes[1..])
  }

  lemma {:induction false} MsbBitsSnoc(bytes: seq<u8>, b: u8)
    ensures MsbBits(bytes + [b]) == MsbBits(bytes) + Reverse(b)
  {
    hide Reverse;
    if bytes == [] {
      assert bytes + [b] == [b];
      assert MsbBits([b][1..]) == [];
    } else {
      assert (bytes + [b])[1..] == bytes[1..] + [b];
      MsbBitsSnoc(bytes[1..], b);
    }
  }

  method BytesToMsbBits(bytes: seq<u8>) returns (bits: Bits)
    ensures bits == MsbBits(bytes)
  {
    bits := [];
    var i := 0;
    while i < |bytes|
      invariant 0 <= i <= |bytes|
      invariant bits == MsbBits(bytes[..i])
    {
      ghost var before := bits;
      var shift := 8;
      while shift > 0
        invariant 0 <= shift <= 8
        invariant bits == before + Reverse(bytes[i])[..8 - shift]
      {
        shift := shift - 1;
        bits := bits + [bytes[i][shift]];
      }
      MsbBitsSnoc(bytes[..i], bytes[i]);
      assert bytes[..i + 1] == bytes[..i] + [bytes[i]];
      i := i + 1;
    }
    assert bytes[..i] == bytes;
  }

  // The bytes a sender packs a bit string into.
  function Pack(bits: Bits): seq<u8> {
    if |bits| < 8 then [] else [Reverse(bits[..8])] + Pack(bits[8..])
  }

  lemma {:induction false} PackUnpacks(bits: Bits)
    requires |bits| % 8 == 0
    ensures MsbBits(Pack(bits)) == bits && |Pack(bits)| == |bits| / 8
  {
    if |bits| < 8 {
    } else {
      PackUnpacks(bits[8..]);
      assert Reverse(Reverse(bits[..8])) == bits[..8];
      assert bits == bits[..8] + bits[8..];
    }
  }

  // ---- numbers ------------------------------------------------------------------------

  function Uint(bits: Bits): nat {
    if bits == [] then 0 else 2 * Uint(bits[..|bits| - 1]) + (if bits[|bits| - 1] then 1 else 0)
  }

  lemma {:induction false} UintBound(bits: Bits)
    ensures Uint(bits) < Pow2(|bits|)
  {
    if bits == [] {
    } else {
      UintBound(bits[..|bits| - 1]);
    }
  }

  lemma {:induction false} Pow2Monotone(a: nat, b: nat)
    requires a <= b
    ensures Pow2(a) <= Pow2(b)
    decreases b - a
  {
    if a == b {
    } else {
      Pow2Monotone(a + 1, b);
    }
  }

  lemma Pow2At32()
    ensures Pow2(32) == U32 && Pow2(31) == 0x8000_0000
  {
    assert Pow2(8) == 256 by { assert Pow2(4) == 16; }
    assert Pow2(16) == 0x1_0000 by { assert Pow2(12) == 4096; }
    assert Pow2(24) == 0x100_0000 by { assert Pow2(20) == 0x10_0000; }
    assert Pow2(28) == 0x1000_0000;
  }

  // A field of `len` bits, when it lies inside the message.
  function UintAt(bits: Bits, start: nat, len: nat): Option<nat> {
    if len == 0 || start + len > |bits| || len > 32 then None else Some(Uint(bits[start..start + len]))
  }

  // A field is there exactly if it is not empty, lies inside the message, and fits: an unsigned one
  // into 32 bits, a signed one into 31.
  lemma FieldThere(bits: Bits, start: nat, len: nat)
    ensures UintAt(bits, start, len).Some? <==> 1 <= len <= 32 && start + len <= |bits|
    ensures IntAt(bits, start, len).Some? <==> 1 <= len <= 31 && start + len <= |bits|
  {
  }

  lemma NextBit(bits: Bits, start: nat, i: nat)
    requires start <= i < |bits| && i - start < 32
    ensures Uint(bits[start..i]) * 2 + (if bits[i] then 1 else 0) == Uint(bits[start..i + 1]) < U32
  {
    var field := bits[start..i + 1];
    assert field[..|field| - 1] == bits[start..i] && field[|field| - 1] == bits[i];
    UintBound(field);
    Pow2Monotone(|field|, 32);
    Pow2At32();
  }

  // The 32-bit accumulator never loses a bit, since at most 32 are shifted in.
  method GetUint(bits: Bits, start: nat, len: nat) returns (r: Option<nat>)
    ensures r == UintAt(bits, start, len)
  {
    if len == 0 || start + len > |bits| || len > 32 {
      return None;
    }
    var out, i := 0, start;
    assert bits[start..start] == [];
    while i < start + len
      invariant start <= i <= start + len
      invariant out == Uint(bits[start..i])
    {
      NextBit(bits, start, i);
      out := out * 2 % U32 + (if bits[i] then 1 else 0);
      i := i + 1;
    }
    return Some(out);
  }

  // Two's complement.
  function Signed(bits: Bits): int
    requires bits != []
  {
    Uint(bits) - (if bits[0] then Pow2(|bits|) else 0)
  }

  // A signed field, at most 31 bits wide.
  function IntAt(bits: Bits, start: nat, len: nat): Option<int> {
    if len == 0 || start + len > |bits| || len > 31 then None else Some(Signed(bits[start..start + len]))
  }

  lemma {:induction false} TopBit(bits: Bits)
    requires bits != []
    ensures bits[0] <==> Uint(bits) >= Pow2(|bits| - 1)
  {
    if |bits| == 1 {
      assert Uint(bits[..0]) == 0;
    } else {
      TopBit(bits[..|bits| - 1]);
    }
  }

  function WrapI32(x: int): int {
    (x + 0x8000_0000) % U32 - 0x8000_0000
  }

  // `get_int`: a mask test on the top bit, then a subtraction in wrapping 32-bit
  // arithmetic. It reads two's complement at every width it accepts.
  method GetInt(bits: Bits, start: nat, len: nat) returns (r: Option<int>)
    ensures r == IntAt(bits, start, len)
  {
    var raw := GetUint(bits, start, len);
    if raw.None? || len == 0 || len > 31 {
      return None;
    }
    RawIsSigned(bits[start..start + len], raw.value);
    var signMask := Pow2(len - 1);
    if raw.value / signMask % 2 == 0 {
      return Some(WrapI32(raw.value));
    }
    return Some(WrapI32(WrapI32(raw.value) - WrapI32(Pow2(len))));
  }

  lemma RawIsSigned(field: Bits, raw: nat)
    requires 0 < |field| <= 31 && raw == Uint(field)
    ensures Pow2(|field| - 1) > 0
    ensures raw / Pow2(|field| - 1) % 2 == 0 ==> WrapI32(raw) == Signed(field)
    ensures raw / Pow2(|field| - 1) % 2 != 0 ==> WrapI32(WrapI32(raw) - WrapI32(Pow2(|field|))) == Signed(field)
  {
    var half := Pow2(|field| - 1);
    UintBound(field);
    TopBit(field);
    Pow2Monotone(|field|, 31);
    Pow2At32();
    HighBit(raw, half);
    SignedArithmetic(raw, 2 * half);
  }

  // The subtraction is right even where `1 << len` itself does not fit (width 31).
  lemma SignedArithmetic(raw: nat, m: nat)
    requires raw < m <= 0x8000_0000
    ensures WrapI32(raw) == raw
    ensures raw >= m - raw ==> WrapI32(WrapI32(raw) - WrapI32(m)) == raw - m
  {
  }

  lemma HighBit(raw: nat, half: nat)
    requires half > 0 && raw < 2 * half
    ensures raw / half % 2 == if raw >= half then 1 else 0
  {
    DivRange(raw, half);
  }

  lemma DivRange(raw: nat, half: nat)
    requires half > 0 && raw < 2 * half
    ensures raw / half == if raw >= half then 1 else 0
  {
    var q := raw / half;
    assert raw == q * half + raw % half;
    assert q >= 2 ==> q * half >= 2 * half;
    assert q <= 0 ==> q * half <= 0;
  }

  // ---- writing numbers -------------------------------------------------------------------

  function UintBits(v: nat, width: nat): (r: Bits)
    ensures |r| == width
    decreases width
  {
    if width == 0 then [] else UintBits(v / 2, width - 1) + [v % 2 == 1]
  }

  lemma {:induction false} UintOfBits(v: nat, width: nat)
    requires v < Pow2(width)
    ensures Uint(UintBits(v, width)) == v
    decreases width
  {
    if width == 0 {
    } else {
      UintOfBits(v / 2, width - 1);
      var r := UintBits(v, width);
      assert r[..width - 1] == UintBits(v / 2, width - 1);
    }
  }

  predicate FitsSigned(x: int, width: nat) {
    width > 0 && -1 * Pow2(width - 1) <= x < Pow2(width - 1)
  }

  function SignedBits(x: int, width: nat): (r: Bits)
    ensures |r| == width
  {
    UintBits(x % Pow2(width), width)
  }

  lemma SignedOfBits(x: int, width: nat)
    requires FitsSigned(x, width)
    ensures Signed(SignedBits(x, width)) == x
  {
    var m := Pow2(width);
    ModRange(x, m);
    UintOfBits(x % m, width);
    TopBit(SignedBits(x, width));
  }

  lemma ModRange(x: int, m: int)
    requires m > 0 && -m <= x < m
    ensures 0 <= x % m < m
    ensures x % m == if x >= 0 then x else x + m
  {
    var q := x / m;
    assert x == q * m + x % m;
    assert q >= 1 ==> q * m >= m;
    assert q <= -2 ==> q * m <= -2 * m;
  }

  // ---- a message as a list of fields --------------------------------------------------------

  datatype Field = Field(value: int, width: nat)

  function Encode(fields: seq<Field>): Bits {
    if fields == [] then []
    else SignedBits(fields[0].value, fields[0].width) + Encode(fields[1..])
  }

  function Offset(fields: seq<Field>, k: nat): nat
    requires k <= |fields|
  {
    if k == 0 then 0 else Offset(fields, k - 1) + fields[k - 1].width
  }

  lemma {:induction false} OffsetTail(fields: seq<Field>, k: nat)
    requires 0 < k <= |fields|
    ensures Offset(fields, k) == fields[0].width + Offset(fields[1..], k - 1)
  {
    if k <= 1 {
    } else {
      OffsetTail(fields, k - 1);
    }
  }

  lemma {:induction false} FieldSlice(fields: seq<Field>, k: nat)
    requires k < |fields|
    ensures FieldAt(Encode(fields), Offset(fields, k), fields[k])
  {
    var head, tail := SignedBits(fields[0].value, fields[0].width), Encode(fields[1..]);
    assert Encode(fields) == head + tail;
    if k == 0 {
      SliceLeft(head, tail);
    } else {
      FieldSlice(fields[1..], k - 1);
      OffsetTail(fields, k);
      FieldFurther(head, tail, Offset(fields[1..], k - 1), fields[k]);
    }
  }

  ghost predicate FieldAt(bits: Bits, at: nat, f: Field) {
    at + f.width <= |bits| && bits[at..at + f.width] == SignedBits(f.value, f.width)
  }

  lemma FieldFurther(head: Bits, tail: Bits, at: nat, f: Field)
    requires FieldAt(tail, at, f)
    ensures FieldAt(head + tail, |head| + at, f)
  {
    SliceRight(head, tail, at, f.width);
  }

  lemma SliceLeft(a: Bits, b: Bits)
    ensures (a + b)[0..|a|] == a
  {
  }

  lemma SliceRight(a: Bits, b: Bits, at: nat, n: nat)
    requires at + n <= |b|
    ensures (a + b)[|a| + at..|a| + at + n] == b[at..at + n]
  {
  }

  // What the receiver reads back from field `k`, unsigned and signed.
  lemma FieldRead(fields: seq<Field>, k: nat)
    requires k < |fields| && 1 <= fields[k].width <= 31
    ensures var f := fields[k];
            (0 <= f.value < Pow2(f.width) ==>
               UintAt(Encode(fields), Offset(fields, k), f.width) == Some(f.value))
            && (FitsSigned(f.value, f.width) ==>
               IntAt(Encode(fields), Offset(fields, k), f.width) == Some(f.value))
  {
    FieldSlice(fields, k);
    ReadBack(Encode(fields), Offset(fields, k), fields[k].value, fields[k].width);
  }

  lemma ReadBack(bits: Bits, at: nat, value: int, width: nat)
    requires 1 <= width <= 31 && at + width <= |bits| && bits[at..at + width] == SignedBits(value, width)
    ensures 0 <= value < Pow2(width) ==> UintAt(bits, at, width) == Some(value)
    ensures FitsSigned(value, width) ==> IntAt(bits, at, width) == Some(value)
  {
    if 0 <= value < Pow2(width) {
      ModRange(value, Pow2(width));
      UintOfBits(value, width);
    }
    if FitsSigned(value, width) {
      SignedOfBits(value, width);
    }
  }

  // ---- values -------------------------------------------------------------------------------

  function DecodeTenths(raw: nat, invalid: nat): Option<real> {
    if raw == invalid then None else Some(raw as real / 10.0)
  }

  function DecodeHeading(raw: nat): Option<nat> {
    if raw >= 360 then None else Some(raw)
  }

  function DecodeCoord(raw: int, invalidAbs: real): Option<real> {
    var value := raw as real / 600_000.0;
    if value >= invalidAbs || value <= -invalidAbs then None else Some(value)
  }

  // ---- six-bit text ----------------------------------------------------------------------------

  function SixbitChar(v: nat): char {
    if v < 32 then (v + 64) as char else (v % 256) as char
  }

  // What one six-bit group contributes: a character, or nothing for the filler '@'.
  function Group(bits: Bits): string {
    if SixbitChar(Uint(bits)) != '@' then [SixbitChar(Uint(bits))] else []
  }

  function SixbitChars(bits: Bits): string
    requires |bits| % 6 == 0
  {
    if bits == [] then [] else Group(bits[..6]) + SixbitChars(bits[6..])
  }

  lemma SixtyFour()
    ensures Pow2(6) == 64
  {
    assert Pow2(3) == 8;
  }

  // The only white space among the six-bit characters is the space itself.
  function TrimStart(s: string): string {
    if s != [] && s[0] == ' ' then TrimStart(s[1..]) else s
  }

  function TrimEnd(s: string): string {
    if s != [] && s[|s| - 1] == ' ' then TrimEnd(s[..|s| - 1]) else s
  }

  function SixbitText(bits: Bits, start: nat, len: nat): Option<string> {
    if start + len > |bits| || len % 6 != 0 then None
    else
      var trimmed := TrimEnd(TrimStart(SixbitChars(bits[start..start + len])));
      if trimmed == [] then None else Some(trimmed)
  }

  lemma {:induction false} SixbitCharsAppend(a: Bits, b: Bits)
    requires |a| % 6 == 0 && |b| % 6 == 0
    ensures SixbitChars(a + b) == SixbitChars(a) + SixbitChars(b)
    decreases |a|
  {
    if a == [] {
      assert a + b == b;
    } else {
      assert (a + b)[..6] == a[..6] && (a + b)[6..] == a[6..] + b;
      SixbitCharsAppend(a[6..], b);
      assert Group(a[..6]) + SixbitChars(a[6..]) + SixbitChars(b)
             == Group(a[..6]) + (SixbitChars(a[6..]) + SixbitChars(b));
    }
  }

  // The sender's six-bit groups: text first, then the filler '@' (zero).
  predicate SixbitWritable(c: char) {
    ' ' <= c <= '_' && c != '@'
  }

  function SixbitCode(c: char): nat
    requires SixbitWritable(c)
    ensures SixbitCode(c) < 64
  {
    if c >= '@' then c as nat - 64 else c as nat
  }

  function TextBits(text: string): (r: Bits)
    requires forall c :: c in text ==> SixbitWritable(c)
    ensures |r| == 6 * |text|
  {
    if text == [] then [] else UintBits(SixbitCode(text[0]), 6) + TextBits(text[1..])
  }

  lemma {:induction false} TextDecodes(text: string)
    requires forall c :: c in text ==> SixbitWritable(c)
    ensures SixbitChars(TextBits(text)) == text
  {
    if text == [] {
    } else {
      var head, tail := UintBits(SixbitCode(text[0]), 6), TextBits(text[1..]);
      assert (head + tail)[..6] == head && (head + tail)[6..] == tail;
      GroupDecodes(text[0]);
      TextDecodes(text[1..]);
    }
  }

  lemma GroupDecodes(c: char)
    requires SixbitWritable(c)
    ensures Group(UintBits(SixbitCode(c), 6)) == [c]
  {
    SixtyFour();
    UintOfBits(SixbitCode(c), 6);
  }

  lemma {:induction false} FillerDecodes(n: nat)
    ensures SixbitChars(Zeros(6 * n)) == []
  {
    if n == 0 {
    } else {
      assert Zeros(6 * n)[..6] == Zeros(6) && Zeros(6 * n)[6..] == Zeros(6 * (n - 1));
      UintZeros(6);
      FillerDecodes(n - 1);
    }
  }

  lemma {:induction false} UintZeros(n: nat)
    ensures Uint(Zeros(n)) == 0
  {
    if n == 0 {
    } else {
      assert Zeros(n)[..n - 1] == Zeros(n - 1);
      UintZeros(n - 1);
    }
  }

  lemma SliceMiddle(a: Bits, b: Bits, c: Bits)
    ensures (a + b + c)[|a|..|a| + |b|] == b
  {
  }

  // A text field, filled up with '@' to its length.
  function TextField(text: string, filler: nat): (r: Bits)
    requires forall c :: c in text ==> SixbitWritable(c)
    ensures |r| == 6 * (|text| + filler)
  {
    TextBits(text) + Zeros(6 * filler)
  }

  // What is left of a text without the spaces around it.
  function Trimmed(text: string): Option<string> {
    var t := TrimEnd(TrimStart(text));
    if t == [] then None else Some(t)
  }

  // It reads back as the text without the spaces around it: exactly the text if and only if
  // that is not empty and has none.
  lemma TextFieldReadBack(before: Bits, text: string, filler: nat, after: Bits)
    requires forall c :: c in text ==> SixbitWritable(c)
    ensures var read := SixbitText(before + TextField(text, filler) + after, |before|, |TextField(text, filler)|);
            && read == Trimmed(text)
            && (read == Some(text) <==> text != [] && text[0] != ' ' && text[|text| - 1] != ' ')
  {
    FilledText(text, filler);
    TextInside(before, TextField(text, filler), after, text);
    TrimmedWhole(text);
  }

  lemma TextInside(before: Bits, field: Bits, after: Bits, text: string)
    requires |field| % 6 == 0 && SixbitChars(field) == text
    ensures SixbitText(before + field + after, |before|, |field|) == Trimmed(text)
  {
    SliceMiddle(before, field, after);
    TextThere(before + field + after, |before|, |field|, field, text);
  }

  lemma TextThere(bits: Bits, start: nat, len: nat, field: Bits, text: string)
    requires start + len <= |bits| && bits[start..start + len] == field
    requires |field| % 6 == 0 && SixbitChars(field) == text
    ensures SixbitText(bits, start, len) == Trimmed(text)
  {
  }

  lemma {:induction false} TrimStartShortens(text: string)
    ensures |TrimStart(text)| <= |text|
    ensures TrimStart(text) == text <==> text == [] || text[0] != ' '
    ensures TrimStart(text) != text ==> |TrimStart(text)| < |text|
  {
    if text != [] && text[0] == ' ' {
      TrimStartShortens(text[1..]);
    }
  }

  lemma {:induction false} TrimEndShortens(text: string)
    ensures |TrimEnd(text)| <= |text|
    ensures TrimEnd(text) == text <==> text == [] || text[|text| - 1] != ' '
    ensures TrimEnd(text) != text ==> |TrimEnd(text)| < |text|
  {
    if text == [] || text[|text| - 1] != ' ' {
    } else {
      TrimEndShortens(text[..|text| - 1]);
    }
  }

  lemma TrimmedWhole(text: string)
    ensures Trimmed(text) == Some(text) <==> text != [] && text[0] != ' ' && text[|text| - 1] != ' '
  {
    TrimStartShortens(text);
    TrimEndShortens(TrimStart(text));
  }

  // What is trimmed is exactly the spaces around the text.
  lemma {:induction false} TrimmedIs(before: nat, core: string, after: nat)
    requires core == [] || (core[0] != ' ' && core[|core| - 1] != ' ')
    ensures TrimEnd(TrimStart(Spaces(before) + core + Spaces(after))) == core
    decreases before + after
  {
    var text := Spaces(before) + core + Spaces(after);
    if before > 0 {
      assert text[1..] == Spaces(before - 1) + core + Spaces(after);
      TrimmedIs(before - 1, core, after);
    } else if core == [] {
      if after > 0 {
        assert text[1..] == Spaces(0) + core + Spaces(after - 1);
        TrimmedIs(0, core, after - 1);
      }
    } else {
      assert text == core + Spaces(after);
      TrimmedEnd(core, after);
    }
  }

  function Spaces(n: nat): string {
    seq(n, _ => ' ')
  }

  lemma {:induction false} TrimmedEnd(core: string, after: nat)
    requires core != [] && core[|core| - 1] != ' '
    ensures TrimEnd(core + Spaces(after)) == core
    decreases after
  {
    var text := core + Spaces(after);
    if after == 0 {
      assert text == core;
    } else {
      assert text[..|text| - 1] == core + Spaces(after - 1);
      TrimmedEnd(core, after - 1);
    }
  }

  lemma FilledText(text: string, filler: nat)
    requires forall c :: c in text ==> SixbitWritable(c)
    ensures SixbitChars(TextField(text, filler)) == text
  {
    SixbitCharsAppend(TextBits(text), Zeros(6 * filler));
    TextDecodes(text);
    FillerDecodes(filler);
  }

  // ---- messages -----------------------------------------------------------------------------------

  datatype AisMessage = AisMessage(
    channel: string, messageType: nat, repeatIndicator: nat, mmsi: nat, crcOk: bool, bitLen: nat, rawBytes: seq<u8>,
    lat: Option<real>, lon: Option<real>, sogKnots: Option<real>, cogDeg: Option<real>, headingDeg: Option<nat>,
    navStatus: Option<nat>, vesselName: Option<string>, callsign: Option<string>, destination: Option<string>)

  // Speed, position, course and heading at the bit positions of one message type. A field
  // outside the message rejects it.
  function Position(msg: AisMessage, bits: Bits, sog: nat, lon: nat, lat: nat, cog: nat, hdg: nat): Option<AisMessage> {
    var s := UintAt(bits, sog, 10);
    var x := IntAt(bits, lon, 28);
    var y := IntAt(bits, lat, 27);
    var c := UintAt(bits, cog, 12);
    var h := UintAt(bits, hdg, 9);
    if s.None? || x.None? || y.None? || c.None? || h.None? then None
    else Some(msg.(sogKnots := DecodeTenths(s.value, 1023),
                   lon := DecodeCoord(x.value, 181.0),
                   lat := DecodeCoord(y.value, 91.0),
                   cogDeg := DecodeTenths(c.value, 3600),
                   headingDeg := DecodeHeading(h.value)))
  }

  function ParseFrame(frame: RawFrame, channel: string): Option<AisMessage> {
    if !frame.crcOk then None else ParseBits(MsbBits(frame.payload), |frame.bits|, frame.payload, channel)
  }

  function ParseBits(bits: Bits, bitLen: nat, rawBytes: seq<u8>, channel: string): Option<AisMessage> {
    if |bits| < 40 then None
    else
      var messageType := UintAt(bits, 0, 6).value;
      var msg := AisMessage(channel, messageType, UintAt(bits, 6, 2).value, UintAt(bits, 8, 30).value,
                            true, bitLen, rawBytes, None, None, None, None, None, None, None, None, None);
      if 1 <= messageType <= 3 then
        Position(msg.(navStatus := UintAt(bits, 38, 4)), bits, 50, 61, 89, 116, 128)
      else if messageType == 18 then
        Position(msg, bits, 46, 57, 85, 112, 124)
      else if messageType == 19 then
        var positioned := Position(msg, bits, 46, 57, 85, 112, 124);
        if positioned.None? then None
        else Some(positioned.value.(vesselName := SixbitText(bits, 143, 120)))
      else if messageType == 5 then
        Some(msg.(callsign := SixbitText(bits, 70, 42),
                  vesselName := SixbitText(bits, 112, 120),
                  destination := SixbitText(bits, 302, 120)))
      else Some(msg)
  }

  // The bits a message must have, by its type.
  function BitsNeeded(messageType: nat): nat {
    if messageType in {1, 2, 3} then 137 else if messageType in {18, 19} then 133 else 40
  }

  // Exactly which frames give a message: those that check and are long enough.
  lemma AcceptedIff(frame: RawFrame, channel: string)
    ensures ParseFrame(frame, channel).Some?
            <==> frame.crcOk && |frame.payload| >= 5
                 && 8 * |frame.payload| >= BitsNeeded(Uint(MsbBits(frame.payload)[..6]))
  {
    hide MsbBits, Uint, DecodeCoord, DecodeTenths, DecodeHeading, SixbitText;
    var bits := MsbBits(frame.payload);
    if |bits| >= 40 {
      assert bits[0..6] == bits[..6];
    }
  }

  // What every message has from its first 38 bits and its frame.
  lemma AcceptedHeader(frame: RawFrame, channel: string)
    requires ParseFrame(frame, channel).Some?
    ensures var m, bits := ParseFrame(frame, channel).value, MsbBits(frame.payload);
            && |bits| >= 40
            && m.messageType == Uint(bits[..6]) && m.repeatIndicator == Uint(bits[6..8]) && m.mmsi == Uint(bits[8..38])
            && m.channel == channel && m.crcOk && m.rawBytes == frame.payload && m.bitLen == |frame.bits|
  {
    hide MsbBits, Uint, DecodeCoord, DecodeTenths, DecodeHeading, SixbitText;
    var bits := MsbBits(frame.payload);
    assert bits[0..6] == bits[..6];
  }

  // Position and movement are in messages 1 to 3, 18 and 19 alone, the navigational status in 1
  // to 3, a name in 5 and 19, callsign and destination in 5; a text outside the message is none.
  lemma AcceptedParts(frame: RawFrame, channel: string)
    requires ParseFrame(frame, channel).Some?
    ensures var m, n := ParseFrame(frame, channel).value, 8 * |frame.payload|;
            && (m.messageType !in {1, 2, 3, 18, 19} ==>
                  m.lat == m.lon == m.sogKnots == m.cogDeg == None && m.headingDeg == None)
            && (m.messageType in {1, 2, 3} <==> m.navStatus.Some?)
            && (m.vesselName.Some? ==> (m.messageType == 5 && n >= 232) || (m.messageType == 19 && n >= 263))
            && (m.callsign.Some? ==> m.messageType == 5 && n >= 112)
            && (m.destination.Some? ==> m.messageType == 5 && n >= 422)
  {
    hide MsbBits, Uint, DecodeCoord, DecodeTenths, DecodeHeading, SixbitChars, TrimStart, TrimEnd;
  }

  // ---- position reports: what is sent is what is read ---------------------------------------------------

  datatype Report = Report(
    messageType: nat, repeatIndicator: nat, mmsi: nat, navStatus: nat, rot: int, sog: nat, accuracy: nat,
    lon: int, lat: int, cog: nat, hdg: nat, rest: nat)

  predicate InRange(r: Report) {
    && r.messageType in {1, 2, 3, 18}
    && r.repeatIndicator < 4
    && r.mmsi < 0x4000_0000
    && r.navStatus < 16
    && r.sog < 1024
    && -0x800_0000 <= r.lon < 0x800_0000
    && -0x400_0000 <= r.lat < 0x400_0000
    && r.cog < 4096
    && r.hdg < 512
  }

  // The layout of ITU-R M.1371-5 Annex 8: class A (messages 1 to 3) carries navigational
  // status and rate of turn, class B (message 18) eight reserved bits instead.
  function Layout(r: Report): seq<Field> {
    [Field(r.messageType, 6), Field(r.repeatIndicator, 2), Field(r.mmsi, 30)]
    + (if r.messageType == 18 then [Field(0, 4), Field(0, 4), Field(r.sog, 10)]
       else [Field(r.navStatus, 4), Field(r.rot, 8), Field(r.sog, 10)])
    + [Field(r.accuracy, 1), Field(r.lon, 28), Field(r.lat, 27), Field(r.cog, 12), Field(r.hdg, 9)]
    + [if r.messageType == 18 then Field(r.rest, 35) else Field(r.rest, 31)]
  }

  lemma LayoutOffsets(r: Report)
    ensures var f := Layout(r);
            var back := if r.messageType == 18 then 4 else 0;
            |f| == 12 && Offset(f, 1) == 6 && Offset(f, 2) == 8 && Offset(f, 3) == 38
            && Offset(f, 5) == 50 - back && Offset(f, 7) == 61 - back && Offset(f, 8) == 89 - back
            && Offset(f, 9) == 116 - back && Offset(f, 10) == 128 - back && Offset(f, 12) == 168
  {
    var f := Layout(r);
    assert Offset(f, 1) == 6;
    assert Offset(f, 2) == 8;
    assert Offset(f, 3) == 38;
    assert Offset(f, 4) == 42;
    var back := if r.messageType == 18 then 4 else 0;
    assert Offset(f, 5) == 50 - back;
    assert Offset(f, 6) == 60 - back;
    assert Offset(f, 7) == 61 - back;
    assert Offset(f, 8) == 89 - back;
    assert Offset(f, 9) == 116 - back;
    assert Offset(f, 10) == 128 - back;
    assert Offset(f, 11) == 137 - back;
  }

  lemma {:induction false} EncodeLength(fields: seq<Field>)
    ensures |Encode(fields)| == Offset(fields, |fields|)
  {
    if fields == [] {
    } else {
      EncodeLength(fields[1..]);
      OffsetTail(fields, |fields|);
    }
  }

  // What a receiver must report for a position report.
  function Expectation(r: Report, channel: string, bitLen: nat, rawBytes: seq<u8>): AisMessage {
    AisMessage(channel, r.messageType, r.repeatIndicator, r.mmsi, true, bitLen, rawBytes,
               if -54_600_000 < r.lat < 54_600_000 then Some(r.lat as real / 600_000.0) else None,
               if -108_600_000 < r.lon < 108_600_000 then Some(r.lon as real / 600_000.0) else None,
               if r.sog == 1023 then None else Some(r.sog as real / 10.0),
               if r.cog == 3600 then None else Some(r.cog as real / 10.0),
               if r.hdg < 360 then Some(r.hdg) else None,
               if r.messageType == 18 then None else Some(r.navStatus),
               None, None, None)
  }

  lemma SmallPowers()
    ensures Pow2(2) == 4 && Pow2(4) == 16 && Pow2(6) == 64 && Pow2(9) == 512 && Pow2(10) == 1024 && Pow2(12) == 4096
    ensures Pow2(26) == 0x400_0000 && Pow2(27) == 0x800_0000 && Pow2(30) == 0x4000_0000
  {
    assert Pow2(8) == 256;
    assert Pow2(14) == 0x4000;
    assert Pow2(16) == 0x1_0000;
    assert Pow2(18) == 0x4_0000;
    assert Pow2(20) == 0x10_0000;
    assert Pow2(22) == 0x40_0000;
    assert Pow2(24) == 0x100_0000;
    assert Pow2(28) == 0x1000_0000;
  }

  lemma HeaderRead(r: Report)
    requires InRange(r)
    ensures var bits := Encode(Layout(r));
            |bits| == 168 && UintAt(bits, 0, 6) == Some(r.messageType) && UintAt(bits, 6, 2) == Some(r.repeatIndicator)
            && UintAt(bits, 8, 30) == Some(r.mmsi)
            && (r.messageType != 18 ==> UintAt(bits, 38, 4) == Some(r.navStatus))
  {
    var f := Layout(r);
    LayoutOffsets(r);
    EncodeLength(f);
    SmallPowers();
    FieldRead(f, 0);
    FieldRead(f, 1);
    FieldRead(f, 2);
    FieldRead(f, 3);
  }

  lemma KinematicsRead(r: Report)
    requires InRange(r)
    ensures var bits := Encode(Layout(r));
            var back := if r.messageType == 18 then 4 else 0;
            UintAt(bits, 50 - back, 10) == Some(r.sog) && IntAt(bits, 61 - back, 28) == Some(r.lon)
            && IntAt(bits, 89 - back, 27) == Some(r.lat) && UintAt(bits, 116 - back, 12) == Some(r.cog)
            && UintAt(bits, 128 - back, 9) == Some(r.hdg)
  {
    hide Encode, UintAt, IntAt;
    var f := Layout(r);
    LayoutOffsets(r);
    SmallPowers();
    FieldRead(f, 5);
    FieldRead(f, 7);
    FieldRead(f, 8);
    FieldRead(f, 9);
    FieldRead(f, 10);
  }

  // Bits that agree up to some length have the same fields there.
  ghost predicate Agree(a: Bits, b: Bits, len: nat) {
    len <= |a| && len <= |b| && a[..len] == b[..len]
  }

  lemma AgreeAt(a: Bits, b: Bits, len: nat, at: nat, n: nat)
    requires Agree(a, b, len) && at + n <= len
    ensures UintAt(a, at, n) == UintAt(b, at, n) && IntAt(a, at, n) == IntAt(b, at, n)
            && SixbitText(a, at, n) == SixbitText(b, at, n)
  {
    assert a[at..at + n] == a[..len][at..at + n] == b[..len][at..at + n] == b[at..at + n];
  }

  // The bits of a report up to its heading.
  function ReportBits(r: Report): nat {
    if r.messageType == 18 then 133 else 137
  }

  // Every in-range position report is read back field by field, the not-available codes
  // (and coordinates beyond the poles or the date line) as None, whatever follows its heading.
  lemma ReportReadFrom(r: Report, frame: RawFrame, channel: string)
    requires InRange(r) && frame.crcOk && Agree(MsbBits(frame.payload), Encode(Layout(r)), ReportBits(r))
    ensures ParseFrame(frame, channel) == Some(Expectation(r, channel, |frame.bits|, frame.payload))
  {
    hide Encode, Layout, UintAt, IntAt, Agree, MsbBits, SixbitText, ParseBits, InRange, Expectation;
    var bits, sent, n := MsbBits(frame.payload), Encode(Layout(r)), ReportBits(r);
    HeaderRead(r);
    KinematicsRead(r);
    var back := if r.messageType == 18 then 4 else 0;
    AgreeAt(bits, sent, n, 0, 6);
    AgreeAt(bits, sent, n, 6, 2);
    AgreeAt(bits, sent, n, 8, 30);
    AgreeAt(bits, sent, n, 38, 4);
    AgreeAt(bits, sent, n, 50 - back, 10);
    AgreeAt(bits, sent, n, 61 - back, 28);
    AgreeAt(bits, sent, n, 89 - back, 27);
    AgreeAt(bits, sent, n, 116 - back, 12);
    AgreeAt(bits, sent, n, 128 - back, 9);
    AgreeLength(bits, sent, n);
    ParseFields(r, bits, |frame.bits|, frame.payload, channel);
  }

  lemma AgreeLength(a: Bits, b: Bits, len: nat)
    requires Agree(a, b, len)
    ensures |a| >= len && |b| >= len
  {
  }

  // As the standard lays the whole report out.
  lemma ReportReadBack(r: Report, channel: string, wire: Bits)
    requires InRange(r)
    ensures var payload := Pack(Encode(Layout(r)));
            ParseFrame(RawFrame(payload, wire, true), channel) == Some(Expectation(r, channel, |wire|, payload))
  {
    hide Encode, Layout, UintAt, IntAt, MsbBits, Pack, SixbitText, ParseFrame, InRange, Expectation;
    HeaderRead(r);
    PackUnpacks(Encode(Layout(r)));
    ReportReadFrom(r, RawFrame(Pack(Encode(Layout(r))), wire, true), channel);
  }

  // The reads of `Position`, given what they find.
  lemma PositionFound(msg: AisMessage, bits: Bits, back: nat, r: Report)
    requires back <= 4
    requires UintAt(bits, 50 - back, 10) == Some(r.sog) && IntAt(bits, 61 - back, 28) == Some(r.lon)
             && IntAt(bits, 89 - back, 27) == Some(r.lat) && UintAt(bits, 116 - back, 12) == Some(r.cog)
             && UintAt(bits, 128 - back, 9) == Some(r.hdg)
    ensures Position(msg, bits, 50 - back, 61 - back, 89 - back, 116 - back, 128 - back)
            == Some(msg.(sogKnots := DecodeTenths(r.sog, 1023), lon := DecodeCoord(r.lon, 181.0),
                         lat := DecodeCoord(r.lat, 91.0), cogDeg := DecodeTenths(r.cog, 3600),
                         headingDeg := DecodeHeading(r.hdg)))
  {
  }

  lemma ParseFields(r: Report, bits: Bits, bitLen: nat, rawBytes: seq<u8>, channel: string)
    requires InRange(r)
    requires |bits| >= 40 && UintAt(bits, 0, 6) == Some(r.messageType) && UintAt(bits, 6, 2) == Some(r.repeatIndicator)
    requires UintAt(bits, 8, 30) == Some(r.mmsi)
    requires r.messageType != 18 ==> UintAt(bits, 38, 4) == Some(r.navStatus)
    requires var back := if r.messageType == 18 then 4 else 0;
             UintAt(bits, 50 - back, 10) == Some(r.sog) && IntAt(bits, 61 - back, 28) == Some(r.lon)
             && IntAt(bits, 89 - back, 27) == Some(r.lat) && UintAt(bits, 116 - back, 12) == Some(r.cog)
             && UintAt(bits, 128 - back, 9) == Some(r.hdg)
    ensures ParseBits(bits, bitLen, rawBytes, channel) == Some(Expectation(r, channel, bitLen, rawBytes))
  {
    hide UintAt, IntAt, SixbitText, DecodeCoord, Position;
    CoordinateLimits(r.lat, 54_600_000, 91.0);
    CoordinateLimits(r.lon, 108_600_000, 181.0);
    var msg := AisMessage(channel, r.messageType, r.repeatIndicator, r.mmsi, true, bitLen, rawBytes,
                          None, None, None, None, None, None, None, None, None);
    if r.messageType == 18 {
      PositionFound(msg, bits, 4, r);
    } else {
      PositionFound(msg.(navStatus := Some(r.navStatus)), bits, 0, r);
    }
  }

  lemma CoordinateLimits(raw: int, limit: int, degrees: real)
    requires limit as real == degrees * 600_000.0
    ensures DecodeCoord(raw, degrees) == if -limit < raw < limit then Some(raw as real / 600_000.0) else None
  {
    var value := raw as real / 600_000.0;
    assert raw as real == value * 600_000.0;
  }
}
