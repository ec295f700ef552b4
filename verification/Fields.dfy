/** Field extraction from an instruction word (ops/include/ops/base_op.h). */
module Fields {
  import opened Patterns

  predicate IsBitSet(w: Word, num: nat)
    requires num < 32
  {
    w & (1 << num) != 0
  }

  function GetMaskFromBits(lo: nat, hi: nat): Word
    requires lo <= hi < 32 && hi - lo < 31
  {
    ((1 << (hi - lo + 1)) - 1) << lo
  }

  function Field(w: Word, lo: nat, hi: nat): Word
    requires lo <= hi < 32 && hi - lo < 31
  {
    (w & GetMaskFromBits(lo, hi)) >> lo
  }

  function Rd(w: Word): (i: nat) ensures i < 32 { Field(w, 0, 4) as bv5 as nat }
  function Rn(w: Word): (i: nat) ensures i < 32 { Field(w, 5, 9) as bv5 as nat }
  function Rt2(w: Word): (i: nat) ensures i < 32 { Field(w, 10, 14) as bv5 as nat }
  function Rm(w: Word): (i: nat) ensures i < 32 { Field(w, 16, 20) as bv5 as nat }
  function Imm12(w: Word): (i: nat) ensures i < 0x1000 { Field(w, 10, 21) as bv12 as nat }
  function Imm6(w: Word): (i: nat) ensures i < 64 { Field(w, 10, 15) as bv6 as nat }
  function Imm7(w: Word): (i: nat) ensures i < 128 { Field(w, 15, 21) as bv7 as nat }
  function Imm9(w: Word): (i: nat) ensures i < 512 { Field(w, 12, 20) as bv9 as nat }
  function Imm14(w: Word): (i: nat) ensures i < 0x4000 { Field(w, 5, 18) as bv14 as nat }
  function Imm16(w: Word): (i: nat) ensures i < 0x1_0000 { Field(w, 5, 20) as bv16 as nat }
  function ImmHi(w: Word): (i: nat) ensures i < 0x8_0000 { Field(w, 5, 23) as bv19 as nat }
  function ImmLo(w: Word): (i: nat) ensures i < 4 { Field(w, 29, 30) as bv2 as nat }
  function Imm26(w: Word): (i: nat) ensures i < 0x400_0000 { Field(w, 0, 25) as bv26 as nat }
  function B40(w: Word): (i: nat) ensures i < 32 { Field(w, 19, 23) as bv5 as nat }
  function Hw(w: Word): (i: nat) ensures i < 4 { Field(w, 21, 22) as bv2 as nat }
  function ShiftBits(w: Word): (i: nat) ensures i < 4 { Field(w, 22, 23) as bv2 as nat }
  function Cond(w: Word): (i: nat) ensures i < 16 { Field(w, 12, 15) as bv4 as nat }
  function Sz(w: Word): (i: nat) ensures i < 4 { Field(w, 30, 31) as bv2 as nat }

  predicate Sf(w: Word) { IsBitSet(w, 31) }
  predicate Sh(w: Word) { IsBitSet(w, 22) }
}
