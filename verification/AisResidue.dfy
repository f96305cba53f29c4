// The register after an intact frame, as the number that RFC 1662 gives.
module AisResidue {
  import opened Words
  import opened AisCrc

  // A word and a number with the same bits.
  predicate Same(s: u16, v: bv16) {
    && s[0] == (v & 0x0001 != 0) && s[1] == (v & 0x0002 != 0) && s[2] == (v & 0x0004 != 0) && s[3] == (v & 0x0008 != 0)
    && s[4] == (v & 0x0010 != 0) && s[5] == (v & 0x0020 != 0) && s[6] == (v & 0x0040 != 0) && s[7] == (v & 0x0080 != 0)
    && s[8] == (v & 0x0100 != 0) && s[9] == (v & 0x0200 != 0) && s[10] == (v & 0x0400 != 0)
    && s[11] == (v & 0x0800 != 0)
    && s[12] == (v & 0x1000 != 0) && s[13] == (v & 0x2000 != 0) && s[14] == (v & 0x4000 != 0)
    && s[15] == (v & 0x8000 != 0)
  }

  // The source's branch on a machine word.
  function ClockNumber(v: bv16): bv16 {
    if v & 1 != 0 then (v >> 1) ^ 0x8408 else v >> 1
  }

  function ShiftedNumber(v: bv16, n: nat): bv16
    decreases n
  {
    if n == 0 then v else ShiftedNumber(ClockNumber(v), n - 1)
  }

  lemma NumberBits(v: bv16)
    ensures var c, odd := ClockNumber(v), v & 1 != 0;
            && (c & 0x0001 != 0) == (v & 0x0002 != 0) && (c & 0x0002 != 0) == (v & 0x0004 != 0)
            && (c & 0x0004 != 0) == (v & 0x0008 != 0) && (c & 0x0008 != 0) == ((v & 0x0010 != 0) != odd)
            && (c & 0x0010 != 0) == (v & 0x0020 != 0) && (c & 0x0020 != 0) == (v & 0x0040 != 0)
            && (c & 0x0040 != 0) == (v & 0x0080 != 0) && (c & 0x0080 != 0) == (v & 0x0100 != 0)
            && (c & 0x0100 != 0) == (v & 0x0200 != 0) && (c & 0x0200 != 0) == (v & 0x0400 != 0)
            && (c & 0x0400 != 0) == ((v & 0x0800 != 0) != odd) && (c & 0x0800 != 0) == (v & 0x1000 != 0)
            && (c & 0x1000 != 0) == (v & 0x2000 != 0) && (c & 0x2000 != 0) == (v & 0x4000 != 0)
            && (c & 0x4000 != 0) == (v & 0x8000 != 0) && (c & 0x8000 != 0) == odd
  {
  }

  lemma WordBits(s: u16)
    ensures var t := Clock(s);
            && t[0] == s[1] && t[1] == s[2] && t[2] == s[3] && t[3] == (s[4] != s[0])
            && t[4] == s[5] && t[5] == s[6] && t[6] == s[7] && t[7] == s[8]
            && t[8] == s[9] && t[9] == s[10] && t[10] == (s[11] != s[0]) && t[11] == s[12]
            && t[12] == s[13] && t[13] == s[14] && t[14] == s[15] && t[15] == s[0]
  {
  }

  lemma ClockSame(s: u16, v: bv16)
    requires Same(s, v)
    ensures Same(Clock(s), ClockNumber(v))
  {
    hide Clock, ClockNumber;
    NumberBits(v);
    WordBits(s);
  }

  // Clocks of the register are clocks of the machine word.
  lemma {:induction false} ShiftedSame(s: u16, v: bv16, n: nat)
    requires Same(s, v)
    ensures Same(Shifted(s, n), ShiftedNumber(v, n))
    decreases n
  {
    hide Same, Clock, ClockNumber;
    if n == 0 {
    } else {
      ClockSame(s, v);
      ShiftedSame(Clock(s), ClockNumber(v), n - 1);
    }
  }

  lemma SixteenClocks()
    ensures ShiftedNumber(0xFFFF, 16) == 0xF0B8
  {
    assert ShiftedNumber(0xFFFF, 16) == ShiftedNumber(0xF9F3, 14);
    assert ShiftedNumber(0xF9F3, 14) == ShiftedNumber(0xF870, 12);
    assert ShiftedNumber(0xF870, 12) == ShiftedNumber(0x3E1C, 10);
    assert ShiftedNumber(0x3E1C, 10) == ShiftedNumber(0x0F87, 8);
    assert ShiftedNumber(0x0F87, 8) == ShiftedNumber(0xC5ED, 6);
    assert ShiftedNumber(0xC5ED, 6) == ShiftedNumber(0x737F, 4);
    assert ShiftedNumber(0x737F, 4) == ShiftedNumber(0xDAD3, 2);
    assert ShiftedNumber(0xDAD3, 2) == ShiftedNumber(0xF0B8, 0);
  }

  // The constant is the one of RFC 1662 Appendix C.2.
  lemma GoodFcsIs()
    ensures Same(GoodFcs(), 0xF0B8)
  {
    hide Shifted, ShiftedNumber;
    ShiftedSame(Ones(16), 0xFFFF, 16);
    SixteenClocks();
  }
}
