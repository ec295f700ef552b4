/** Loads and stores: which dispatched words succeed, what a load reads back, which address is used. */
module LoadStore {
  import opened Patterns
  import opened Ints
  import opened Shifts
  import opened Memory
  import opened Fields
  import opened Dispatcher
  import opened Isa
  import opened Assembler

  // ---------- dispatch and the handler's own tests ----------

  /** How a pair access from the base and offset of `w` ends. */
  function PairStatus(w: Word, c: Cpu): Status {
    match PairWidth(w)
    case None => Stop
    case Some(wd) => PairAccess(wd, Reg(c, wd, Rn(w)), Imm7(w) * Bytes(wd))
  }

  /** A word dispatched to STP never reaches an error branch of the handler, neither that of the size, nor
      that of the form, nor that of the second test of the indexed forms: how it ends depends only on the
      two addresses. */
  lemma StpNeverRejected(w: Word, c: Cpu)
    requires HandlerOf(w) == Some(Stp)
    ensures PairWidth(w).Some? && (StpForm(w) == SignedOffset || Indexed(StpForm(w)))
            && ExecStp(w, c).status == PairStatus(w, c)
  {
    hide HandlerOf, Field, Matches, Address, Access, Reg, Put, SetReg, PairWidth, StpForm;
    ExactPairs(w);
    PairFields(w);
  }

  /** The same for LDP. */
  lemma LdpNeverRejected(w: Word, c: Cpu)
    requires HandlerOf(w) == Some(Ldp)
    ensures PairWidth(w).Some? && (LdpForm(w) == SignedOffset || Indexed(LdpForm(w)))
            && ExecLdp(w, c).status == PairStatus(w, c)
  {
    hide HandlerOf, Field, Matches, Address, Access, Reg, Get, SetReg, PairWidth, LdpForm;
    ExactPairs(w);
    PairFields(w);
  }

  lemma PairFields(w: Word)
    ensures Matches(R_STP_POST, w) || Matches(R_STP_PRE, w) || Matches(R_STP_OFFSET, w) ==>
              PairWidth(w).Some? && (StpForm(w) == SignedOffset || Indexed(StpForm(w)))
    ensures Matches(R_LDP_POST, w) || Matches(R_LDP_PRE, w) || Matches(R_LDP_OFFSET, w) ==>
              PairWidth(w).Some? && (LdpForm(w) == SignedOffset || Indexed(LdpForm(w)))
  {}

  /** Words dispatched to the unsigned-offset form of STR: the tree leaves bit 31 untested, and the size
      test recovers it, so the store succeeds exactly on words of the row with an address in bounds. */
  lemma StrUnsignedExact(w: Word, c: Cpu)
    requires HandlerOf(w) == Some(StrImm) && w & 0x3FC00000 == 0x39000000
    ensures Matches(R_STR_IMM_OFFSET, w) <==> SingleWidth(w).Some?
    ensures ExecStrImm(w, c).status == Continue
            <==> Matches(R_STR_IMM_OFFSET, w)
                 && var wd := SingleWidth(w).value;
                    Access(Address(wd, Reg(c, wd, Rn(w)), Imm12(w) * Bytes(wd)), Bytes(wd)) == Continue
  {
    StrFields(w);
    hide HandlerOf, Field, Matches, Address, Access, Reg, Put;
  }

  lemma StrFields(w: Word)
    requires w & 0x3FC00000 == 0x39000000
    ensures StrUnsignedOffset(w) && (Matches(R_STR_IMM_OFFSET, w) <==> SingleWidth(w).Some?)
  {}

  lemma LdrUnsignedExact(w: Word, c: Cpu)
    requires HandlerOf(w) == Some(LdrImm) && w & 0x3FC00000 == 0x39400000
    ensures Matches(R_LDR_IMM_OFFSET, w) <==> SingleWidth(w).Some?
    ensures ExecLdrImm(w, c).status == Continue
            <==> Matches(R_LDR_IMM_OFFSET, w)
                 && var wd := SingleWidth(w).value;
                    Access(Address(wd, Reg(c, wd, Rn(w)), Imm12(w) * Bytes(wd)), Bytes(wd)) == Continue
  {
    LdrFields(w);
    hide HandlerOf, Field, Matches, Address, Access, Reg, Get, SetReg;
  }

  lemma LdrFields(w: Word)
    requires w & 0x3FC00000 == 0x39400000
    ensures LdrUnsignedOffset(w) && (Matches(R_LDR_IMM_OFFSET, w) <==> SingleWidth(w).Some?)
  {}

  /** Words dispatched to the STUR handler always have a valid size; the two index bits of the indexed
      rows make post-index fail whenever it would otherwise succeed. */
  lemma IndexedOutcome(w: Word, c: Cpu)
    ensures Matches(R_STR_IMM_POST, w) ==> ExecStrImm(w, c).status != Continue && ExecStrImm(w, c).cpu == c
    ensures Matches(R_LDR_IMM_POST, w) ==> ExecLdrImm(w, c).status != Continue && ExecLdrImm(w, c).cpu == c
    ensures HandlerOf(w) == Some(Stur) ==> SingleWidth(w).Some?
  {
    StrPostFields(w);
    LdrPostFields(w);
    SturFields(w);
    ExactStur(w);
    hide HandlerOf, Field, Matches, Address, Reg, Get, SetReg, Put;
  }

  lemma StrPostFields(w: Word)
    ensures Matches(R_STR_IMM_POST, w) ==>
              SingleWidth(w).Some? && !StrUnsignedOffset(w) && StrIndexed(w) && Field(w, 10, 11) == 1
  {}

  lemma LdrPostFields(w: Word)
    ensures Matches(R_LDR_IMM_POST, w) ==>
              SingleWidth(w).Some? && !LdrUnsignedOffset(w) && LdrIndexed(w) && Field(w, 10, 11) == 1
  {}

  lemma StrOffsetFields(w: Word)
    ensures Matches(R_STR_IMM_OFFSET, w) ==> SingleWidth(w).Some? && StrUnsignedOffset(w)
  {}

  lemma StrPreFields(w: Word)
    ensures Matches(R_STR_IMM_PRE, w) ==>
              SingleWidth(w).Some? && !StrUnsignedOffset(w) && StrIndexed(w) && Field(w, 10, 11) == 3
  {}

  lemma LdrOffsetFields(w: Word)
    ensures Matches(R_LDR_IMM_OFFSET, w) ==> SingleWidth(w).Some? && LdrUnsignedOffset(w)
  {}

  lemma LdrPreFields(w: Word)
    ensures Matches(R_LDR_IMM_PRE, w) ==>
              SingleWidth(w).Some? && !LdrUnsignedOffset(w) && LdrIndexed(w) && Field(w, 10, 11) == 3
  {}

  lemma SturFields(w: Word)
    ensures Matches(R_STUR, w) || Matches(R_STUR_ROW38, w) ==> SingleWidth(w).Some?
  {}

  // ---------- LDUR ----------

  /** Every assembled LDUR runs as STUR: no register changes, and the cell it should read is overwritten
      with the target register. */
  lemma LdurStores(c: Cpu, x: bv1, imm9: bv9, rn: bv5, rt: bv5)
    ensures var w := UnscaledWord(x, 1, imm9, rn, rt);
            var wd := WidthBit(x);
            var off := Address(wd, Reg(c, wd, rn as nat), SignExtend(imm9 as nat, 9));
            && Exec(w, c).cpu.r == c.r
            && Exec(w, c) == StoreOne(c, wd, off, Source(c, wd, rt as nat))
  {
    UnscaledRoundTrip(x, 1, imm9, rn, rt);
    var w := UnscaledWord(x, 1, imm9, rn, rt);
    hide HandlerOf, Field, UnscaledWord, SingleWidth, Address, Reg, Source, SignExtend, Access;
  }

  lemma ExampleAddress()
    ensures Address(W32, 255, SignExtend(0x1FC, 9)) == 251
  {
    hide Pow2;
    Pow2At9();
  }

  /** LDUR W8, [X29, #-4]: run from X29 = 255, it stores the low half of register 8 at 251 and leaves the
      registers as they were. */
  lemma LdurExample(c: Cpu)
    requires c.r[29] == 255
    ensures HandlerOf(0xB85FC3A8) == Some(Stur)
    ensures Exec(0xB85FC3A8, c) == Done(Put(c, W32, 251, c.r[8] % TWO32))
  {
    assert 0xB85FC3A8 == UnscaledWord(0, 1, 0x1FC, 29, 8);
    LdurStores(c, 0, 0x1FC, 29, 8);
    UnscaledRoundTrip(0, 1, 0x1FC, 29, 8);
    hide UnscaledWord, HandlerOf, Exec, Pow2, Put;
    assert (0x1FC as bv9) as nat == 0x1FC && (29 as bv5) as nat == 29 && (8 as bv5) as nat == 8;
    ExampleAddress();
  }

  // ---------- reading back ----------

  /** The second cell of a pair lies directly behind the first, once the first is in bounds. */
  lemma AdjacentCells(wd: Width, base: nat, disp: int)
    requires Access(Address(wd, base, disp), Bytes(wd)) == Continue
    ensures Address(wd, base, disp + Bytes(wd)) == Address(wd, base, disp) + Bytes(wd)
  {}

  /** Two adjacent cells written one after the other both read back. */
  lemma TwoCells(mem: seq<u8>, a: nat, wd: Width, v1: nat, v2: nat)
    requires a + 2 * Bytes(wd) <= |mem| && v1 < Modulus(wd) && v2 < Modulus(wd)
    ensures var m := Store(Store(mem, a, Bytes(wd), v1), a + Bytes(wd), Bytes(wd), v2);
            Load(m, a, Bytes(wd)) == v1 && Load(m, a + Bytes(wd), Bytes(wd)) == v2
  {
    hide Store, Load;
    Pow256Values();
    var n := Bytes(wd);
    LoadStored(mem, a, n, v1);
    LoadUnaffected(Store(mem, a, n, v1), a + n, n, v2, a, n);
    LoadStored(Store(mem, a, n, v1), a + n, n, v2);
  }

  /** STR then LDR with an unsigned offset, same base, offset and width. */
  lemma StrLdrRoundTrip(ws: Word, wl: Word, c: Cpu)
    requires StrUnsignedOffset(ws) && ExecStrImm(ws, c).status == Continue
    requires LdrUnsignedOffset(wl) && SingleWidth(wl) == SingleWidth(ws) && Rn(wl) == Rn(ws) && Imm12(wl) == Imm12(ws)
    ensures var wd := SingleWidth(ws).value;
            var stored := ExecStrImm(ws, c).cpu;
            var o := ExecLdrImm(wl, stored);
            && o.status == Continue && o.cpu.mem == stored.mem && Reg(o.cpu, wd, Rd(wl)) == Source(c, wd, Rd(ws))
  {
    hide Field, Address, Store, Load;
    var wd := SingleWidth(ws).value;
    Pow256Values();
    LoadStored(c.mem, Address(wd, Reg(c, wd, Rn(ws)), Imm12(ws) * Bytes(wd)), Bytes(wd), Source(c, wd, Rd(ws)));
  }

  /** STUR then the LDUR handler, same base, displacement and width. */
  lemma SturLdurRoundTrip(ws: Word, wl: Word, c: Cpu)
    requires ExecStur(ws, c).status == Continue
    requires SingleWidth(wl) == SingleWidth(ws) && Rn(wl) == Rn(ws) && Imm9(wl) == Imm9(ws)
    ensures var wd := SingleWidth(ws).value;
            var stored := ExecStur(ws, c).cpu;
            var o := ExecLdur(wl, stored);
            && o.status == Continue && o.cpu.mem == stored.mem && Reg(o.cpu, wd, Rd(wl)) == Source(c, wd, Rd(ws))
  {
    hide Field, Address, Store, Load, SignExtend;
    var wd := SingleWidth(ws).value;
    Pow256Values();
    LoadStored(c.mem, Address(wd, Reg(c, wd, Rn(ws)), SignExtend(Imm9(ws), 9)), Bytes(wd), Source(c, wd, Rd(ws)));
  }
}
