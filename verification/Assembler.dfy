/** Instruction words by the bit layouts of the headers in ops/include/ops, and their way through the
    dispatcher and the field extraction. */
module Assembler {
  import opened Patterns
  import opened Fields
  import opened Dispatcher
  import opened Isa
  import Shifts

  function AddSubWord(sf: bv1, op: bv1, setFlags: bv1, sh: bv1, imm12: bv12, rn: bv5, rd: bv5): Word {
    ((sf as Word) << 31) | ((op as Word) << 30) | ((setFlags as Word) << 29) | 0x11000000 | ((sh as Word) << 22)
    | ((imm12 as Word) << 10) | ((rn as Word) << 5) | (rd as Word)
  }

  function BranchWord(link: bv1, imm26: bv26): Word {
    ((link as Word) << 31) | 0x14000000 | (imm26 as Word)
  }

  function RetWord(rn: bv5): Word {
    0xD65F0000 | ((rn as Word) << 5)
  }

  function TbnzWord(b5: bv1, b40: bv5, imm14: bv14, rt: bv5): Word {
    ((b5 as Word) << 31) | 0x37000000 | ((b40 as Word) << 19) | ((imm14 as Word) << 5) | (rt as Word)
  }

  function CsincWord(sf: bv1, rm: bv5, cond: bv4, rn: bv5, rd: bv5): Word {
    ((sf as Word) << 31) | 0x1A800400 | ((rm as Word) << 16) | ((cond as Word) << 12) | ((rn as Word) << 5)
    | (rd as Word)
  }

  function MovzWord(sf: bv1, hw: bv2, imm16: bv16, rd: bv5): Word {
    ((sf as Word) << 31) | 0x52800000 | ((hw as Word) << 21) | ((imm16 as Word) << 5) | (rd as Word)
  }

  function AdrpWord(immLo: bv2, immHi: bv19, rd: bv5): Word {
    0x90000000 | ((immLo as Word) << 29) | ((immHi as Word) << 5) | (rd as Word)
  }

  function OrrWord(sf: bv1, shift: bv2, rm: bv5, imm6: bv6, rn: bv5, rd: bv5): Word {
    ((sf as Word) << 31) | 0x2A000000 | ((shift as Word) << 22) | ((rm as Word) << 16) | ((imm6 as Word) << 10)
    | ((rn as Word) << 5) | (rd as Word)
  }

  /** Index 1 is post-index, 2 signed offset, 3 pre-index. */
  function PairWord(x: bv1, index: bv2, load: bv1, imm7: bv7, rt2: bv5, rn: bv5, rt: bv5): Word {
    ((x as Word) << 31) | 0x28000000 | ((index as Word) << 23) | ((load as Word) << 22) | ((imm7 as Word) << 15)
    | ((rt2 as Word) << 10) | ((rn as Word) << 5) | (rt as Word)
  }

  function UnsignedWord(x: bv1, load: bv1, imm12: bv12, rn: bv5, rt: bv5): Word {
    0xB9000000 | ((x as Word) << 30) | ((load as Word) << 22) | ((imm12 as Word) << 10) | ((rn as Word) << 5)
    | (rt as Word)
  }

  function IndexedWord(x: bv1, load: bv1, imm9: bv9, pre: bv1, rn: bv5, rt: bv5): Word {
    0xB8000400 | ((x as Word) << 30) | ((load as Word) << 22) | ((imm9 as Word) << 12) | ((pre as Word) << 11)
    | ((rn as Word) << 5) | (rt as Word)
  }

  function UnscaledWord(x: bv1, load: bv1, imm9: bv9, rn: bv5, rt: bv5): Word {
    0xB8000000 | ((x as Word) << 30) | ((load as Word) << 22) | ((imm9 as Word) << 12) | ((rn as Word) << 5)
    | (rt as Word)
  }

  predicate On(b: bv1) {
    b == 1
  }

  /** The 12-bit immediate, shifted by 12 or not. */
  function Immediate(sh: bv1, imm: bv12): nat {
    if On(sh) then (imm as nat) * 4096 else imm as nat
  }

  function WidthBit(b: bv1): Shifts.Width {
    if On(b) then Shifts.W64 else Shifts.W32
  }

  // ---------- each assembled word reaches its handler, with its fields ----------

  lemma AddSubRoundTrip(sf: bv1, op: bv1, setFlags: bv1, sh: bv1, imm12: bv12, rn: bv5, rd: bv5)
    ensures var w := AddSubWord(sf, op, setFlags, sh, imm12, rn, rd);
            && HandlerOf(w) == Some(if On(op) then (if On(setFlags) then SubsImm else SubImm)
                                              else (if On(setFlags) then AddsImm else AddImm))
            && Sf(w) == On(sf) && Sh(w) == On(sh)
            && Imm12(w) == imm12 as nat && Rn(w) == rn as nat && Rd(w) == rd as nat
  {}

  lemma BranchRoundTrip(link: bv1, imm26: bv26)
    ensures var w := BranchWord(link, imm26);
            HandlerOf(w) == Some(if On(link) then Bl else B) && Imm26(w) == imm26 as nat
  {}

  lemma RetRoundTrip(rn: bv5)
    ensures HandlerOf(RetWord(rn)) == Some(Ret) && Rn(RetWord(rn)) == rn as nat
  {}

  lemma TbnzRoundTrip(b5: bv1, b40: bv5, imm14: bv14, rt: bv5)
    ensures var w := TbnzWord(b5, b40, imm14, rt);
            && HandlerOf(w) == Some(Tbnz)
            && Sf(w) == On(b5) && B40(w) == b40 as nat && Imm14(w) == imm14 as nat && Rd(w) == rt as nat
  {}

  lemma CsincRoundTrip(sf: bv1, rm: bv5, cond: bv4, rn: bv5, rd: bv5)
    ensures var w := CsincWord(sf, rm, cond, rn, rd);
            && HandlerOf(w) == Some(Csinc) && Sf(w) == On(sf)
            && Rm(w) == rm as nat && Cond(w) == cond as nat && Rn(w) == rn as nat && Rd(w) == rd as nat
  {}

  lemma MovzRoundTrip(sf: bv1, hw: bv2, imm16: bv16, rd: bv5)
    ensures var w := MovzWord(sf, hw, imm16, rd);
            && HandlerOf(w) == Some(Movz)
            && Sf(w) == On(sf) && Hw(w) == hw as nat && Imm16(w) == imm16 as nat && Rd(w) == rd as nat
  {}

  lemma AdrpRoundTrip(immLo: bv2, immHi: bv19, rd: bv5)
    ensures var w := AdrpWord(immLo, immHi, rd);
            HandlerOf(w) == Some(Adrp) && ImmLo(w) == immLo as nat && ImmHi(w) == immHi as nat && Rd(w) == rd as nat
  {}

  lemma OrrRoundTrip(sf: bv1, shift: bv2, rm: bv5, imm6: bv6, rn: bv5, rd: bv5)
    ensures var w := OrrWord(sf, shift, rm, imm6, rn, rd);
            && HandlerOf(w) == Some(OrrSh) && Sf(w) == On(sf) && ShiftBits(w) == shift as nat
            && Rm(w) == rm as nat && Imm6(w) == imm6 as nat && Rn(w) == rn as nat && Rd(w) == rd as nat
  {}

  lemma PairHandlerRoundTrip(x: bv1, index: bv2, load: bv1, imm7: bv7, rt2: bv5, rn: bv5, rt: bv5)
    requires index != 0
    ensures var w := PairWord(x, index, load, imm7, rt2, rn, rt);
            && HandlerOf(w) == Some(if On(load) then Ldp else Stp)
            && PairWidth(w) == Some(WidthBit(x))
            && (if On(load) then LdpForm(w) else StpForm(w))
               == (if index == 1 then PostIndex else if index == 2 then SignedOffset else PreIndex)
  {}

  lemma PairRoundTrip(x: bv1, index: bv2, load: bv1, imm7: bv7, rt2: bv5, rn: bv5, rt: bv5)
    ensures var w := PairWord(x, index, load, imm7, rt2, rn, rt);
            Imm7(w) == imm7 as nat && Rt2(w) == rt2 as nat && Rn(w) == rn as nat && Rd(w) == rt as nat
  {}

  lemma UnsignedRoundTrip(x: bv1, load: bv1, imm12: bv12, rn: bv5, rt: bv5)
    ensures var w := UnsignedWord(x, load, imm12, rn, rt);
            && HandlerOf(w) == Some(if On(load) then LdrImm else StrImm)
            && SingleWidth(w) == Some(WidthBit(x))
            && (if On(load) then LdrUnsignedOffset(w) else StrUnsignedOffset(w))
            && Imm12(w) == imm12 as nat && Rn(w) == rn as nat && Rd(w) == rt as nat
  {}

  lemma IndexedHandlerRoundTrip(x: bv1, load: bv1, imm9: bv9, pre: bv1, rn: bv5, rt: bv5)
    ensures var w := IndexedWord(x, load, imm9, pre, rn, rt);
            && HandlerOf(w) == Some(if On(load) then LdrImm else StrImm)
            && SingleWidth(w) == Some(WidthBit(x))
            && Imm9(w) == imm9 as nat && Rn(w) == rn as nat && Rd(w) == rt as nat
  {}

  lemma IndexedFormRoundTrip(x: bv1, load: bv1, imm9: bv9, pre: bv1, rn: bv5, rt: bv5)
    ensures var w := IndexedWord(x, load, imm9, pre, rn, rt);
            && (if On(load) then LdrIndexed(w) && !LdrUnsignedOffset(w) else StrIndexed(w) && !StrUnsignedOffset(w))
            && (Field(w, 10, 11) == 1 <==> !On(pre))
  {}

  /** The load form is LDUR; it is dispatched, like STUR, to the handler that stores. */
  lemma UnscaledRoundTrip(x: bv1, load: bv1, imm9: bv9, rn: bv5, rt: bv5)
    ensures var w := UnscaledWord(x, load, imm9, rn, rt);
            && HandlerOf(w) == Some(Stur)
            && SingleWidth(w) == Some(WidthBit(x))
            && Imm9(w) == imm9 as nat && Rn(w) == rn as nat && Rd(w) == rt as nat
  {}
}
