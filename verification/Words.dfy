// Machine words by their bits, least significant bit first: `w >> n` drops the
// first `n` bits, `^` works bit by bit, and a byte's first bit is the one that HDLC
// sends first.
module Words {

  type Bits = seq<bool>

  type u8 = s: Bits | |s| == 8 witness [false, false, false, false, false, false, false, false]

  type u16 = s: Bits | |s| == 16 witness seq(16, _ => false)

  function Zeros(n: nat): (r: Bits)
    ensures |r| == n && forall i :: 0 <= i < n ==> !r[i]
  {
    seq(n, _ => false)
  }

  function Ones(n: nat): (r: Bits)
    ensures |r| == n && forall i :: 0 <= i < n ==> r[i]
  {
    seq(n, _ => true)
  }

  function Xor(a: Bits, b: Bits): (r: Bits)
    requires |a| == |b|
    ensures |r| == |a| && forall i :: 0 <= i < |a| ==> r[i] == (a[i] != b[i])
  {
    seq(|a|, i requires 0 <= i < |a| => a[i] != b[i])
  }

  lemma XorEquation(a: Bits, b: Bits, c: Bits)
    requires |a| == |b| == |c|
    ensures Xor(a, b) == c <==> Xor(a, c) == b
  {
    if Xor(a, b) == c {
      assert Xor(a, c) == b;
    }
    if Xor(a, c) == b {
      assert Xor(a, b) == c;
    }
  }

  lemma XorZeros(a: Bits)
    ensures Xor(a, Zeros(|a|)) == a
    ensures Xor(Zeros(|a|), a) == a
    ensures Xor(a, a) == Zeros(|a|)
  {
  }

  function Shr(a: Bits, n: nat): (r: Bits)
    requires n <= |a|
    ensures |r| == |a|
  {
    a[n..] + Zeros(n)
  }

  lemma TakeFirst(before: Bits, bits: Bits)
    requires bits != []
    ensures before + bits == before + [bits[0]] + bits[1..]
  {
  }

  // The number a word stands for.
  function Value(bits: Bits): nat {
    if bits == [] then 0 else (if bits[0] then 1 else 0) + 2 * Value(bits[1..])
  }

  // The low `width` bits of a number.
  function ToBits(n: nat, width: nat): (r: Bits)
    ensures |r| == width
    decreases width
  {
    if width == 0 then [] else [n % 2 == 1] + ToBits(n / 2, width - 1)
  }

  function Pow2(n: nat): (r: nat)
    ensures r > 0
  {
    if n == 0 then 1 else 2 * Pow2(n - 1)
  }

  lemma {:induction false} ValueBound(bits: Bits)
    ensures Value(bits) < Pow2(|bits|)
  {
    if bits == [] {
    } else {
      ValueBound(bits[1..]);
    }
  }

  lemma {:induction false} ValuePadded(bits: Bits, n: nat)
    ensures Value(bits + Zeros(n)) == Value(bits)
    decreases |bits| + n
  {
    if bits != [] {
      assert (bits + Zeros(n))[1..] == bits[1..] + Zeros(n);
      ValuePadded(bits[1..], n);
    } else if n > 0 {
      assert (bits + Zeros(n))[1..] == bits + Zeros(n - 1);
      ValuePadded(bits, n - 1);
    } else {
      assert bits + Zeros(n) == bits;
    }
  }

  lemma {:induction false} ToBitsOfValue(bits: Bits, width: nat)
    requires |bits| <= width
    ensures ToBits(Value(bits), width) == bits + Zeros(width - |bits|)
    decreases width
  {
    if bits != [] {
      ToBitsOfValue(bits[1..], width - 1);
    } else if width > 0 {
      ToBitsOfValue([], width - 1);
      assert ToBits(0, width) == [false] + ToBits(0, width - 1);
    }
  }

  lemma {:induction false} ValueOfToBits(n: nat, width: nat)
    requires n < Pow2(width)
    ensures Value(ToBits(n, width)) == n
    decreases width
  {
    if width == 0 {
    } else {
      ValueOfToBits(n / 2, width - 1);
    }
  }

  // Bytes in transmission order.
  function Serial(bytes: seq<u8>): (r: Bits)
    ensures |r| == 8 * |bytes|
  {
    if bytes == [] then [] else bytes[0] + Serial(bytes[1..])
  }

  lemma {:induction false} SerialAppend(a: seq<u8>, b: seq<u8>)
    ensures Serial(a + b) == Serial(a) + Serial(b)
  {
    if a == [] {
      assert a + b == b;
    } else {
      assert (a + b)[1..] == a[1..] + b;
      SerialAppend(a[1..], b);
    }
  }
}
