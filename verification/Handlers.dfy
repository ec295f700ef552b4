/** The handlers of ops/src, statement by statement, against the effects of module Isa, and the run loop
    of the session. */
module Handlers {
  import opened Patterns
  import opened Ints
  import opened Shifts
  import opened Arith
  import opened Memory
  import opened Fields
  import opened Dispatcher
  import opened Isa
  import opened CoreState

  method AddImm(bits: Word, st: State) returns (s: Status)
    requires st.Valid()
    modifies st, st.r, st.stack
    ensures Outcome(s, st.View()) == ExecAddImm(bits, old(st.View()))
  {
    hide IsBitSet, Field;
    var wd := if IsBitSet(bits, 31) then W64 else W32;
    var rn := st.GetR(wd, Rn(bits));
    if IsBitSet(bits, 22) {
      st.SetR(wd, Rd(bits), Wrap(wd, rn + Imm12(bits) * 4096));
    } else {
      st.SetR(wd, Rd(bits), Wrap(wd, rn + Imm12(bits)));
    }
    return Continue;
  }

  method SubImm(bits: Word, st: State) returns (s: Status)
    requires st.Valid()
    modifies st, st.r, st.stack
    ensures Outcome(s, st.View()) == ExecSubImm(bits, old(st.View()))
  {
    hide IsBitSet, Field;
    var wd := if IsBitSet(bits, 31) then W64 else W32;
    var rn := st.GetR(wd, Rn(bits));
    if IsBitSet(bits, 22) {
      st.SetR(wd, Rd(bits), Wrap(wd, rn - Imm12(bits) * 4096));
    } else {
      st.SetR(wd, Rd(bits), Wrap(wd, rn - Imm12(bits)));
    }
    return Continue;
  }

  /** The flags of an addition, read off the operands and the reduced sum. */
  lemma AddFlagBits(wd: Width, x: nat, y: nat)
    requires x < Modulus(wd) && y < Modulus(wd)
    ensures var res := Wrap(wd, x + y);
            var top := Half(wd);
            AddFlags(wd, x, y)
            == Flags(res >= top, res == 0, Modulus(wd) - 1 - y < x,
                     (x >= top) == (y >= top) && (res >= top) != (x >= top))
  {}

  /** The complement, read as signed. */
  lemma SignedNot(wd: Width, y: nat)
    requires y < Modulus(wd)
    ensures 0 <= Not(wd, y) < Modulus(wd) && Signed(wd, Not(wd, y)) == -1 - Signed(wd, y)
  {}

  lemma WrapSum(wd: Width, x: nat, y: nat)
    requires x < Modulus(wd) && y < Modulus(wd)
    ensures Wrap(wd, x - y) == if y <= x then x - y else x - y + Modulus(wd)
    ensures Wrap(wd, x + Not(wd, y) + 1) == Wrap(wd, x - y)
  {}

  /** The flags of a subtraction, read off the operands and the reduced difference. */
  lemma SubFlagBits(wd: Width, x: nat, y: nat)
    requires x < Modulus(wd) && y < Modulus(wd)
    ensures var res := Wrap(wd, x - y);
            var top := Half(wd);
            SubFlags(wd, x, y)
            == Flags(res >= top, res == 0, y <= x, (x >= top) != (y >= top) && (res >= top) != (x >= top))
  {
    hide Wrap;
    SignedNot(wd, y);
    WrapSum(wd, x, y);
  }

  /** update_nzcv of ops/src/adds.cpp. The 64-bit V compares a truth value with a masked register. */
  method UpdateNzcvAdd(st: State, wd: Width, rn: nat, imm: nat)
    requires st.Valid() && rn < Modulus(wd) && imm < 0x100_0000
    modifies st
    ensures st.View() == old(st.View()).(f := AddsFlags(wd, rn, imm))
  {
    hide BitAnd, AddFlags;
    AddFlagBits(wd, rn, imm);
    var res := Wrap(wd, rn + imm);
    SignBitOf(wd, rn);
    SignBitOf(wd, imm);
    SignBitOf(wd, res);
    st.SetC(Modulus(wd) - 1 - imm < rn);
    st.SetN(BitAnd(res, Half(wd)) != 0);
    var isSameSign := BitAnd(rn, Half(wd)) == BitAnd(imm, Half(wd));
    if wd == W32 {
      st.SetV(isSameSign && BitAnd(res, Half(wd)) != BitAnd(rn, Half(wd)));
    } else {
      var left := if isSameSign && BitAnd(res, Half(wd)) != 0 then 1 else 0;
      st.SetV(left != BitAnd(rn, Half(wd)));
    }
    st.SetZ(res == 0);
  }

  method AddsImm(bits: Word, st: State) returns (s: Status)
    requires st.Valid()
    modifies st, st.r, st.stack
    ensures Outcome(s, st.View()) == ExecAddsImm(bits, old(st.View()))
  {
    hide IsBitSet, Field, AddsFlags;
    var wd := if IsBitSet(bits, 31) then W64 else W32;
    var rn := st.GetR(wd, Rn(bits));
    var imm := Imm12(bits);
    if IsBitSet(bits, 22) {
      imm := imm * 4096;
    }
    UpdateNzcvAdd(st, wd, rn, imm);
    st.SetR(wd, Rd(bits), Wrap(wd, rn + imm));
    return Continue;
  }

  /** update_nzcv of ops/src/subs.cpp. */
  method UpdateNzcvSub(st: State, wd: Width, rn: nat, imm: nat)
    requires st.Valid() && rn < Modulus(wd) && imm < 0x100_0000
    modifies st
    ensures st.View() == old(st.View()).(f := SubFlags(wd, rn, imm))
  {
    hide BitAnd, SubFlags;
    SubFlagBits(wd, rn, imm);
    var res := Wrap(wd, rn - imm);
    SignBitOf(wd, rn);
    SignBitOf(wd, imm);
    SignBitOf(wd, res);
    st.SetN(BitAnd(res, Half(wd)) != 0);
    var isSameSign := BitAnd(rn, Half(wd)) == BitAnd(imm, Half(wd));
    st.SetV(!isSameSign && BitAnd(res, Half(wd)) != BitAnd(rn, Half(wd)));
    st.SetZ(res == 0);
    st.SetC(imm <= rn);
  }

  method SubsImm(bits: Word, st: State) returns (s: Status)
    requires st.Valid()
    modifies st, st.r, st.stack
    ensures Outcome(s, st.View()) == ExecSubsImm(bits, old(st.View()))
  {
    hide IsBitSet, Field, SubFlags;
    var wd := if IsBitSet(bits, 31) then W64 else W32;
    var rn := st.GetR(wd, Rn(bits));
    var imm := Imm12(bits);
    if IsBitSet(bits, 22) {
      imm := imm * 4096;
    }
    st.SetR(wd, Rd(bits), Wrap(wd, rn - Imm12(bits)));
    UpdateNzcvSub(st, wd, rn, imm);
    return Continue;
  }

  method OrrSh(bits: Word, st: State) returns (s: Status)
    requires st.Valid()
    modifies st, st.r, st.stack
    ensures Outcome(s, st.View()) == ExecOrrSh(bits, old(st.View()))
  {
    hide IsBitSet, Field, BitOr, Shifted;
    var wd := if IsBitSet(bits, 31) then W64 else W32;
    var rule := RuleOf(ShiftBits(bits));
    var rm := st.GetR(wd, Rm(bits));
    if Imm6(bits) >= Bits(wd) {
      return Undefined;
    }
    var shifted := ShiftByRule(rule, wd, rm, Imm6(bits));
    if shifted.None? {
      return Undefined;
    }
    if Rn(bits) != 31 {
      var rn := st.GetR(wd, Rn(bits));
      st.SetR(wd, Rd(bits), OrValue(wd, rn, shifted.value));
    } else {
      st.SetR(wd, Rd(bits), shifted.value);
    }
    return Continue;
  }

  method Csinc(bits: Word, st: State) returns (s: Status)
    requires st.Valid()
    modifies st, st.r, st.stack
    ensures Outcome(s, st.View()) == ExecCsinc(bits, old(st.View()))
  {
    hide IsBitSet, Field, CondTrue;
    var wd := if IsBitSet(bits, 31) then W64 else W32;
    var cond := Cond(bits);
    if Rm(bits) == 31 && cond / 2 != 7 && Rn(bits) == 31 {
      cond := InvertCond(cond);
      st.SetR(wd, Rd(bits), if CondTrue(cond, st.nzcv) then 1 else 0);
      return Continue;
    }
    if CondTrue(cond, st.nzcv) {
      var rn := st.GetR(wd, Rn(bits));
      st.SetR(wd, Rd(bits), if Rn(bits) == 31 then 0 else rn);
    } else {
      var rm := st.GetR(wd, Rm(bits));
      st.SetR(wd, Rd(bits), Wrap(wd, (if Rm(bits) == 31 then 0 else rm) + 1));
    }
    return Continue;
  }

  lemma MovzValue(imm: nat, hw: nat)
    requires imm < 0x1_0000 && hw < 2
    ensures (imm * Pow2(hw * 16)) % TWO32 == if hw == 1 then imm * 0x1_0000 else imm
  {
    hide Pow2;
    Pow2Values();
    if hw == 0 {
      assert Pow2(hw * 16) == 1;
    } else {
      assert Pow2(hw * 16) == 0x1_0000;
    }
  }

  method Movz(bits: Word, st: State) returns (s: Status)
    requires st.Valid()
    modifies st, st.r, st.stack
    ensures Outcome(s, st.View()) == ExecMovz(bits, old(st.View()))
  {
    hide IsBitSet, Field, Pow2;
    var wd := if IsBitSet(bits, 31) then W64 else W32;
    var shft := Hw(bits) * 16;
    if shft >= 32 {
      return Undefined;
    }
    MovzValue(Imm16(bits), Hw(bits));
    st.SetR(wd, Rd(bits), (Imm16(bits) * Pow2(shft)) % TWO32);
    return Continue;
  }

  method Adrp(bits: Word, st: State) returns (s: Status)
    requires st.Valid()
    modifies st, st.r, st.stack
    ensures Outcome(s, st.View()) == ExecAdrp(bits, old(st.View()))
  {
    hide Field;
    var imm := if ImmLo(bits) != 0 || ImmHi(bits) != 0 then 1 else 0;
    var alignedPc := st.pc - st.pc % 1024;
    st.SetR(W64, Rd(bits), Wrap(W64, alignedPc + imm * 1024));
    return Continue;
  }

  /** A field moved to the top of a 32-bit word and shifted back arithmetically is sign-extended. */
  lemma TopFieldExtends(v: nat, bits: nat)
    requires 0 < bits < 32 && v < Pow2(bits)
    ensures v * Pow2(32 - bits) < TWO32
    ensures !FullWidthShift(ASR, W32, v * Pow2(32 - bits), 32 - bits) || bits == 1
    ensures Signed(W32, Shifted(ASR, W32, v * Pow2(32 - bits), 32 - bits)) == SignExtend(v, bits)
  {
    hide Pow2;
    Pow2Add(bits, 32 - bits);
    Pow2Add(bits - 1, 32 - bits);
    Pow2Double(bits);
    WidthPowers(W32);
    FieldFloor(v, Pow2(bits - 1), Pow2(32 - bits), v * Pow2(32 - bits));
    WrapBack(if v >= Pow2(bits - 1) then v - Pow2(bits) else v);
  }

  /** A field of which the upper half `h` counts as negative, moved up by `p` and divided again. */
  lemma FieldFloor(v: nat, h: nat, p: nat, data: nat)
    requires p > 0 && v < 2 * h && data == v * p && h * p == 0x8000_0000
    ensures data < TWO32 && (data >= 0x8000_0000 <==> v >= h) && h <= 0x8000_0000
    ensures Signed(W32, data) / p == if v >= h then v - 2 * h else v
  {
    MultipleGap(v, 2 * h, p);
    MultipleGap(v, h, p);
    FactorAtMost(h, p);
    if v >= h {
      MultipleAtMost(h, v, p);
      Distribute(v, -2 * h, p);
      FloorUnique(data - TWO32, p, v - 2 * h, 0);
    } else {
      FloorUnique(data, p, v, 0);
    }
  }

  lemma WrapBack(q: int)
    requires -0x8000_0000 <= q < 0x8000_0000
    ensures Signed(W32, Wrap(W32, q)) == q
  {}

  lemma Pow2Double(n: nat)
    requires n > 0
    ensures Pow2(n) == 2 * Pow2(n - 1)
  {}

  /** The displacement of B and BL: mask, shift left by 6, arithmetic shift right by 6, read as signed. */
  method BranchDisplacement(bits: Word) returns (words: int)
    ensures words == SignExtend(Imm26(bits), 26)
    ensures -0x200_0000 <= words < 0x200_0000
  {
    hide Field, Pow2, Shifted, BitAnd;
    Pow2At26();
    TopFieldExtends(Imm26(bits), 26);
    var simm32 := Imm26(bits) * Pow2(6);
    var shifted := ShiftByRule(ASR, W32, simm32, 6);
    words := Signed(W32, shifted.value);
  }

  method B(bits: Word, st: State) returns (s: Status)
    requires st.Valid()
    modifies st, st.r, st.stack
    ensures Outcome(s, st.View()) == ExecB(bits, old(st.View()))
  {
    hide Field, SignExtend;
    var simm := BranchDisplacement(bits);
    st.UpdatePc(Wrap(W64, st.pc + simm - 1));
    return Continue;
  }

  method Bl(bits: Word, st: State) returns (s: Status)
    requires st.Valid()
    modifies st, st.r, st.stack
    ensures Outcome(s, st.View()) == ExecBl(bits, old(st.View()))
  {
    hide Field, SignExtend;
    var simm := BranchDisplacement(bits);
    st.SetR(W64, 30, Wrap(W64, st.pc + 1));
    st.UpdatePc(Wrap(W64, st.pc + simm - 1));
    return Continue;
  }

  method Tbnz(bits: Word, st: State) returns (s: Status)
    requires st.Valid()
    modifies st, st.r, st.stack
    ensures Outcome(s, st.View()) == ExecTbnz(bits, old(st.View()))
  {
    hide Field, IsBitSet, BitAnd, IsSet, Pow2, Reg, Rd, B40, Imm14;
    var wd := if IsBitSet(bits, 31) then W64 else W32;
    var bitPos := (if IsBitSet(bits, 31) then 32 else 0) + B40(bits);
    var rt := st.GetR(wd, Rd(bits));
    AndSingleBit(rt, bitPos);
    if BitAnd(rt, Pow2(bitPos)) != 0 {
      st.UpdatePc(Wrap(W64, st.pc + Imm14(bits) - 1));
    }
    return Continue;
  }

  method Ret(bits: Word, st: State) returns (s: Status)
    requires st.Valid()
    modifies st, st.r, st.stack
    ensures Outcome(s, st.View()) == ExecRet(bits, old(st.View()))
  {
    hide Field;
    var rn := st.GetR(W64, Rn(bits));
    if rn == 0 {
      return Stop;
    }
    st.UpdatePc(rn - 1);
    st.SetR(W64, Rn(bits), 0);
    return Continue;
  }

  /** A register write and a stack write commute. */
  lemma PutAfterSetReg(c: Cpu, wd: Width, i: nat, x: nat, off: int, v: nat)
    requires i < 32 && x < Modulus(wd) && Access(off, Bytes(wd)) == Continue
    ensures Put(SetReg(c, wd, i, x), wd, off, v) == SetReg(Put(c, wd, off, v), wd, i, x)
  {}

  lemma RegAfterPut(c: Cpu, wd: Width, i: nat, off: int, v: nat)
    requires i < 32 && Access(off, Bytes(wd)) == Continue
    ensures Reg(Put(c, wd, off, v), wd, i) == Reg(c, wd, i)
  {}

  method Stp(bits: Word, st: State) returns (s: Status)
    requires st.Valid()
    modifies st, st.r, st.stack
    ensures Outcome(s, st.View()) == ExecStp(bits, old(st.View()))
  {
    hide Field, Address, StpWrite, Reg, Access;
    if PairWidth(bits).None? {
      return Stop;
    }
    var wd := PairWidth(bits).value;
    var rn := st.GetR(wd, Rn(bits));
    var simm := Imm7(bits) * Bytes(wd);
    var dst1 := Address(wd, rn, simm);
    var dst2 := Address(wd, rn, simm + Bytes(wd));
    s := st.Locate(wd, dst1);
    if s != Continue {
      return;
    }
    s := st.Locate(wd, dst2);
    if s != Continue {
      return;
    }
    s := StpCells(bits, st, wd, simm, dst1, dst2);
  }

  /** The register reads and the stack writes of STP, in the order of each form. */
  method StpCells(bits: Word, st: State, wd: Width, simm: nat, dst1: int, dst2: int) returns (s: Status)
    requires st.Valid() && Access(dst1, Bytes(wd)) == Continue && Access(dst2, Bytes(wd)) == Continue
    modifies st, st.r, st.stack
    ensures Outcome(s, st.View()) == StpWrite(bits, old(st.View()), wd, simm, dst1, dst2)
  {
    hide Field, Put, SetReg, Reg, Access;
    var rn := st.GetR(wd, Rn(bits));
    var rt1 := st.GetR(wd, Rd(bits));
    var rt2 := st.GetR(wd, Rt2(bits));
    if Rd(bits) == 31 {
      rt1 := 0;
    }
    if Rt2(bits) == 31 {
      rt2 := 0;
    }
    ghost var c := st.View();
    ghost var c1 := Put(c, wd, dst1, rt1);
    RegAfterPut(c, wd, Rn(bits), dst1, rt1);
    RegAfterPut(c1, wd, Rn(bits), dst2, rt2);
    PutAfterSetReg(c, wd, Rn(bits), Wrap(wd, rn + simm), dst1, rt1);
    PutAfterSetReg(c1, wd, Rn(bits), Wrap(wd, rn + simm), dst2, rt2);
    match StpForm(bits) {
      case SignedOffset =>
        st.WriteVm(wd, dst1, rt1);
        st.WriteVm(wd, dst2, rt2);
      case PreIndex =>
        st.SetR(wd, Rn(bits), Wrap(wd, rn + simm));
        st.WriteVm(wd, dst1, rt1);
        st.WriteVm(wd, dst2, rt2);
      case PostIndex =>
        st.WriteVm(wd, dst1, rt1);
        st.WriteVm(wd, dst2, rt2);
        st.SetR(wd, Rn(bits), Wrap(wd, rn + simm));
      case BadIndex =>
        return Stop;
      case NoForm =>
        return Stop;
    }
    return Continue;
  }

  method Ldp(bits: Word, st: State) returns (s: Status)
    requires st.Valid()
    modifies st, st.r, st.stack
    ensures Outcome(s, st.View()) == ExecLdp(bits, old(st.View()))
  {
    hide Field, Address, Get, LdpWrite, Reg, Access;
    if PairWidth(bits).None? {
      return Stop;
    }
    var wd := PairWidth(bits).value;
    var rn := st.GetR(wd, Rn(bits));
    var simm := Imm7(bits) * Bytes(wd);
    var src1 := Address(wd, rn, simm);
    var src2 := Address(wd, rn, simm + Bytes(wd));
    s := st.Locate(wd, src1);
    if s != Continue {
      return;
    }
    s := st.Locate(wd, src2);
    if s != Continue {
      return;
    }
    var v1 := st.ReadVm(wd, src1);
    var v2 := st.ReadVm(wd, src2);
    s := LdpRegisters(bits, st, wd, simm, v1, v2);
  }

  /** The register writes of LDP, in the order of each form. */
  method LdpRegisters(bits: Word, st: State, wd: Width, simm: nat, v1: nat, v2: nat) returns (s: Status)
    requires st.Valid() && v1 < Modulus(wd) && v2 < Modulus(wd)
    modifies st, st.r, st.stack
    ensures Outcome(s, st.View()) == LdpWrite(bits, old(st.View()), wd, simm, v1, v2)
  {
    hide Field, SetReg, Reg;
    match LdpForm(bits) {
      case SignedOffset =>
        st.SetR(wd, Rd(bits), v1);
        st.SetR(wd, Rt2(bits), v2);
      case PreIndex =>
        var rn := st.GetR(wd, Rn(bits));
        st.SetR(wd, Rn(bits), Wrap(wd, rn + simm));
        st.SetR(wd, Rd(bits), v1);
        st.SetR(wd, Rt2(bits), v2);
      case PostIndex =>
        st.SetR(wd, Rd(bits), v1);
        st.SetR(wd, Rt2(bits), v2);
        var rn := st.GetR(wd, Rn(bits));
        st.SetR(wd, Rn(bits), Wrap(wd, rn + simm));
      case BadIndex =>
        return Stop;
      case NoForm =>
        return Stop;
    }
    return Continue;
  }

  method StrImm(bits: Word, st: State) returns (s: Status)
    requires st.Valid()
    modifies st, st.r, st.stack
    ensures Outcome(s, st.View()) == ExecStrImm(bits, old(st.View()))
  {
    hide Field, Address, Store;
    if SingleWidth(bits).None? {
      return Stop;
    }
    var wd := SingleWidth(bits).value;
    var rn := st.GetR(wd, Rn(bits));
    var rt := st.GetR(wd, Rd(bits));
    if Rd(bits) == 31 {
      rt := 0;
    }
    if StrUnsignedOffset(bits) {
      var dst := Address(wd, rn, Imm12(bits) * Bytes(wd));
      s := st.Locate(wd, dst);
      if s == Continue {
        st.WriteVm(wd, dst, rt);
      }
    } else if StrIndexed(bits) {
      var simm := Imm9(bits);
      var dst := Address(wd, rn, simm);
      s := st.Locate(wd, dst);
      if s != Continue {
        return;
      }
      // bits 10-11 shifted down by 11: 0 for post-index, 1 for pre-index, never 3
      var enc := IndexCode(bits);
      if enc == 1 {
        st.WriteVm(wd, dst, rt);
        if wd == W32 {
          st.SetR(wd, Rn(bits), Wrap(wd, rn + simm));
        }
      } else {
        return Stop;
      }
    } else {
      return Stop;
    }
  }

  /** The two index bits, shifted down one place too far. */
  function IndexCode(bits: Word): (enc: Word)
    ensures Field(bits, 10, 11) != 0 ==> (enc == 1 <==> Field(bits, 10, 11) != 1)
  {
    (bits & GetMaskFromBits(10, 11)) >> 11
  }

  method LdrImm(bits: Word, st: State) returns (s: Status)
    requires st.Valid()
    modifies st, st.r, st.stack
    ensures Outcome(s, st.View()) == ExecLdrImm(bits, old(st.View()))
  {
    hide Field, Address, Load, IndexCode;
    if SingleWidth(bits).None? {
      return Stop;
    }
    var wd := SingleWidth(bits).value;
    var rn := st.GetR(wd, Rn(bits));
    if LdrUnsignedOffset(bits) {
      var src := Address(wd, rn, Imm12(bits) * Bytes(wd));
      s := st.Locate(wd, src);
      if s == Continue {
        var v := st.ReadVm(wd, src);
        st.SetR(wd, Rd(bits), v);
      }
    } else if LdrIndexed(bits) {
      var simm := Imm9(bits);
      var src := Address(wd, rn, simm);
      s := st.Locate(wd, src);
      if s != Continue {
        return;
      }
      var v := st.ReadVm(wd, src);
      var enc := IndexCode(bits);
      if enc == 1 {
        st.SetR(wd, Rd(bits), v);
        rn := st.GetR(wd, Rn(bits));
        st.SetR(wd, Rn(bits), Wrap(wd, rn + simm));
      } else {
        return Stop;
      }
    } else {
      return Stop;
    }
  }

  /** The displacement of STUR and LDUR: the field at the top of the word, shifted back arithmetically. */
  method UnscaledDisplacement(bits: Word) returns (simm: int)
    ensures simm == SignExtend(Imm9(bits), 9)
    ensures -256 <= simm < 256
  {
    hide Field, Shifted, BitAnd, Pow2;
    Pow2At9();
    TopFieldExtends(Imm9(bits), 9);
    var shifted := ShiftByRule(ASR, W32, Imm9(bits) * Pow2(23), 23);
    simm := Signed(W32, shifted.value);
  }

  method Stur(bits: Word, st: State) returns (s: Status)
    requires st.Valid()
    modifies st, st.r, st.stack
    ensures Outcome(s, st.View()) == ExecStur(bits, old(st.View()))
  {
    hide Field, Address, Store, SignExtend;
    var simm := UnscaledDisplacement(bits);
    if SingleWidth(bits).None? {
      return Stop;
    }
    var wd := SingleWidth(bits).value;
    var rn := st.GetR(wd, Rn(bits));
    var rt := st.GetR(wd, Rd(bits));
    var dst := Address(wd, rn, simm);
    s := st.Locate(wd, dst);
    if s == Continue {
      st.WriteVm(wd, dst, if Rd(bits) == 31 then 0 else rt);
    }
  }

  method Ldur(bits: Word, st: State) returns (s: Status)
    requires st.Valid()
    modifies st, st.r, st.stack
    ensures Outcome(s, st.View()) == ExecLdur(bits, old(st.View()))
  {
    hide Field, Address, Load, SignExtend;
    var simm := UnscaledDisplacement(bits);
    if SingleWidth(bits).None? {
      return Stop;
    }
    var wd := SingleWidth(bits).value;
    var rn := st.GetR(wd, Rn(bits));
    var src := Address(wd, rn, simm);
    s := st.Locate(wd, src);
    if s == Continue {
      var v := st.ReadVm(wd, src);
      st.SetR(wd, Rd(bits), v);
    }
  }
}
