// Octet strings and big-endian numbers.
module Octets {
  import opened Basics

  type octet = x: int | 0 <= x < 256

  type Octets = seq<octet>

  const U16 := 0x1_0000

  type u16 = x: int | 0 <= x < 0x1_0000

  function Be16(v: u16): (r: Octets)
    ensures |r| == 2
  {
    [v / 256, v % 256]
  }

  function Be32(v: u32): (r: Octets)
    ensures |r| == 4
  {
    Be16(v / U16) + Be16(v % U16)
  }

  function FromBe16(a: octet, b: octet): u16 {
    256 * a + b
  }

  function FromBe32(a: octet, b: octet, c: octet, d: octet): u32 {
    U16 * FromBe16(a, b) + FromBe16(c, d)
  }

  lemma Be16ReadBack(v: u16)
    ensures FromBe16(Be16(v)[0], Be16(v)[1]) == v
  {
  }

  lemma Be32ReadBack(v: u32)
    ensures FromBe32(Be32(v)[0], Be32(v)[1], Be32(v)[2], Be32(v)[3]) == v
  {
    var r := Be32(v);
    Be16ReadBack(v / U16);
    Be16ReadBack(v % U16);
    assert r[0] == Be16(v / U16)[0] && r[1] == Be16(v / U16)[1];
    assert r[2] == Be16(v % U16)[0] && r[3] == Be16(v % U16)[1];
  }

  // Reading a number from the front of a string.
  function Get16(bytes: Octets): u16
    requires |bytes| >= 2
  {
    FromBe16(bytes[0], bytes[1])
  }

  function Get32(bytes: Octets): u32
    requires |bytes| >= 4
  {
    FromBe32(bytes[0], bytes[1], bytes[2], bytes[3])
  }

  lemma Get16Front(v: u16, rest: Octets)
    ensures Get16(Be16(v) + rest) == v && (Be16(v) + rest)[2..] == rest
  {
    Be16ReadBack(v);
  }

  lemma Get32Front(v: u32, rest: Octets)
    ensures Get32(Be32(v) + rest) == v && (Be32(v) + rest)[4..] == rest
  {
    Be32ReadBack(v);
    var all := Be32(v) + rest;
    assert all[0] == Be32(v)[0] && all[1] == Be32(v)[1] && all[2] == Be32(v)[2] && all[3] == Be32(v)[3];
  }

  lemma Be32OfGet32(bytes: Octets)
    requires |bytes| >= 4
    ensures Be32(Get32(bytes)) == bytes[..4]
  {
    var high, low := FromBe16(bytes[0], bytes[1]), FromBe16(bytes[2], bytes[3]);
    assert Get32(bytes) / U16 == high && Get32(bytes) % U16 == low;
    assert Be16(high) == [bytes[0], bytes[1]] && Be16(low) == [bytes[2], bytes[3]];
  }

  lemma HeadAppend<T>(a: seq<T>, b: seq<T>)
    requires a != []
    ensures [a[0]] + (a[1..] + b) == a + b
  {
  }

  lemma Assoc(a: Octets, b: Octets, c: Octets)
    ensures (a + b) + c == a + (b + c)
  {
  }

  lemma Front(a: Octets, b: Octets)
    ensures (a + b)[..|a|] == a && (a + b)[|a|..] == b
  {
  }
}
