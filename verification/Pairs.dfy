/** STP and LDP: what a stored pair reads back as, and where addresses and base registers are the
    architecture's. */
module Pairs {
  import opened Patterns
  import opened Ints
  import opened Shifts
  import opened Memory
  import opened Fields
  import opened Dispatcher
  import opened Isa
  import opened Arm
  import opened Conformance
  import opened LoadStore
  import opened Addressing

  predicate Defined(form: Form) {
    form == SignedOffset || Indexed(form)
  }

  /** The offset as the handlers use it, not sign-extended. */
  function Used(w: Word, wd: Width): (d: nat)
    ensures d == Imm7(w) * Bytes(wd) && d < 1024
  {
    if wd == W32 then Imm7(w) * 4 else Imm7(w) * 8
  }

  // ---------- what the handlers do ----------

  /** STP: two adjacent cells receive the two registers, and the indexed forms advance the base. */
  lemma StpStores(w: Word, c: Cpu)
    requires Defined(StpForm(w)) && ExecStp(w, c).status == Continue
    ensures PairWidth(w).Some?
    ensures var wd := PairWidth(w).value;
            var base, disp := Reg(c, wd, Rn(w)), Used(w, wd);
            var a := Address(wd, base, disp);
            && Access(a, Bytes(wd)) == Access(a + Bytes(wd), Bytes(wd)) == Continue
            && Address(wd, base, disp + Bytes(wd)) == a + Bytes(wd)
            && 0 <= a && a + 2 * Bytes(wd) <= |c.mem|
            && ExecStp(w, c).cpu == Stored(w, c, wd, a)
  {
    hide HandlerOf, Field, Address, Store, StpForm, PairWidth, Advance;
    var wd := PairWidth(w).value;
    AdjacentCells(wd, Reg(c, wd, Rn(w)), Used(w, wd));
  }

  function Stored(w: Word, c: Cpu, wd: Width, a: nat): Cpu
    requires a + 2 * Bytes(wd) <= |c.mem|
  {
    var mem := Store(Store(c.mem, a, Bytes(wd), Source(c, wd, Rd(w))), a + Bytes(wd), Bytes(wd), Source(c, wd, Rt2(w)));
    var d := c.(mem := mem);
    if Indexed(StpForm(w)) then Advance(d, wd, Rn(w), Used(w, wd)) else d
  }

  /** The value of a cell, if it lies in the stack. */
  function Cell(c: Cpu, wd: Width, off: int): (v: nat)
    ensures v < Modulus(wd)
  {
    if Access(off, Bytes(wd)) == Continue then Get(c, wd, off) else 0
  }

  lemma LdpRuns(w: Word, c: Cpu, wd: Width)
    requires PairWidth(w) == Some(wd)
    requires PairAccess(wd, Reg(c, wd, Rn(w)), Used(w, wd)) == Continue || ExecLdp(w, c).status == Continue
    ensures var base, disp := Reg(c, wd, Rn(w)), Used(w, wd);
            && PairAccess(wd, base, disp) == Continue
            && ExecLdp(w, c) == LdpWrite(w, c, wd, disp, Cell(c, wd, Address(wd, base, disp)),
                                         Cell(c, wd, Address(wd, base, disp + Bytes(wd))))
  {
    hide Field, Address, Get, PairWidth, LdpWrite, Access;
  }

  /** LDP: the two registers receive two adjacent cells. A later update of the base spares them if it is
      a different register or adds nothing. */
  lemma LdpLoads(w: Word, c: Cpu, wd: Width)
    requires Defined(LdpForm(w)) && PairWidth(w) == Some(wd) && Rd(w) != Rt2(w)
    requires LdpForm(w) == PostIndex ==> Imm7(w) == 0 || Rn(w) !in {Rd(w), Rt2(w)}
    requires PairAccess(wd, Reg(c, wd, Rn(w)), Used(w, wd)) == Continue
    ensures var base, disp := Reg(c, wd, Rn(w)), Used(w, wd);
            var o := ExecLdp(w, c);
            && o.status == Continue && o.cpu.mem == c.mem
            && Reg(o.cpu, wd, Rd(w)) == Cell(c, wd, Address(wd, base, disp))
            && Reg(o.cpu, wd, Rt2(w)) == Cell(c, wd, Address(wd, base, disp + Bytes(wd)))
  {
    hide Field, Address, LdpForm, PairWidth, PairAccess, Cell, ExecLdp, SetReg, Advance, Reg;
    LdpRuns(w, c, wd);
    var v1 := Cell(c, wd, Address(wd, Reg(c, wd, Rn(w)), Used(w, wd)));
    var v2 := Cell(c, wd, Address(wd, Reg(c, wd, Rn(w)), Used(w, wd) + Bytes(wd)));
    var moved := Advance(c, wd, Rn(w), Used(w, wd));
    var loaded := SetReg(SetReg(c, wd, Rd(w), v1), wd, Rt2(w), v2);
    BothLoaded(c, wd, Rd(w), v1, Rt2(w), v2);
    BothLoaded(moved, wd, Rd(w), v1, Rt2(w), v2);
    AdvanceSpares(c, wd, Rn(w), Used(w, wd), Rd(w));
    AdvanceSpares(loaded, wd, Rn(w), Used(w, wd), Rd(w));
    AdvanceSpares(loaded, wd, Rn(w), Used(w, wd), Rt2(w));
  }

  lemma BothLoaded(c: Cpu, wd: Width, t1: nat, v1: nat, t2: nat, v2: nat)
    requires t1 < 32 && t2 < 32 && t1 != t2 && v1 < Modulus(wd) && v2 < Modulus(wd)
    ensures var d := SetReg(SetReg(c, wd, t1, v1), wd, t2, v2);
            Reg(d, wd, t1) == v1 && Reg(d, wd, t2) == v2 && d.mem == c.mem
  {}

  lemma AdvanceSpares(c: Cpu, wd: Width, n: nat, step: nat, t: nat)
    requires n < 32 && t < 32
    ensures Advance(c, wd, n, step).mem == c.mem
    ensures n != t || step == 0 ==> Reg(Advance(c, wd, n, step), wd, t) == Reg(c, wd, t)
  {}

  // ---------- reading back ----------

  /** A pair stored by STP and reloaded by LDP with the same base, offset and width, both in the signed
      offset form: the loaded registers receive the stored ones, and memory is as STP left it. */
  lemma StpLdpRoundTrip(ws: Word, wl: Word, c: Cpu)
    requires HandlerOf(ws) == Some(Stp) && StpForm(ws) == SignedOffset && ExecStp(ws, c).status == Continue
    requires HandlerOf(wl) == Some(Ldp) && LdpForm(wl) == SignedOffset
    requires PairWidth(wl) == PairWidth(ws) && Rn(wl) == Rn(ws) && Imm7(wl) == Imm7(ws) && Rd(wl) != Rt2(wl)
    ensures Reloaded(ws, wl, c)
  {
    hide HandlerOf, Field, Address, Store, Load, ExecStp, ExecLdp, PairWidth, StpForm, LdpForm;
    StpStores(ws, c);
    var wd := PairWidth(ws).value;
    var base, disp := Reg(c, wd, Rn(ws)), Used(ws, wd);
    var a := Address(wd, base, disp);
    LdpLoads(wl, ExecStp(ws, c).cpu, wd);
    TwoCells(c.mem, a, wd, Source(c, wd, Rd(ws)), Source(c, wd, Rt2(ws)));
  }

  /** LDP, run on what STP leaves behind, loads the stored pair and leaves memory alone. */
  predicate Reloaded(ws: Word, wl: Word, c: Cpu) {
    PairWidth(ws).Some?
    && var wd := PairWidth(ws).value;
       var stored := ExecStp(ws, c).cpu;
       var o := ExecLdp(wl, stored);
       && o.status == Continue && o.cpu.mem == stored.mem
       && Reg(o.cpu, wd, Rd(wl)) == Source(c, wd, Rd(ws))
       && Reg(o.cpu, wd, Rt2(wl)) == Source(c, wd, Rt2(ws))
  }

  lemma WrapAgain(wd: Width, x: int, y: int)
    ensures Wrap(wd, Wrap(wd, x) + y) == Wrap(wd, x + y)
  {
    var m := Modulus(wd);
    var q := x / m;
    assert x == q * m + Wrap(wd, x);
    var q2, rest := (Wrap(wd, x) + y) / m, Wrap(wd, Wrap(wd, x) + y);
    Distribute(q, q2, m);
    EuclidUnique(x + y, m, q + q2, rest);
  }

  /** Both indexed forms of STP leave the base pointing at the stored pair: any form of LDP with offset
      zero reloads it. */
  lemma IndexedStpLdp(ws: Word, wl: Word, c: Cpu)
    requires Indexed(StpForm(ws)) && ExecStp(ws, c).status == Continue
    requires Defined(LdpForm(wl)) && Imm7(wl) == 0
    requires PairWidth(wl) == PairWidth(ws) && Rn(wl) == Rn(ws) && Rd(wl) != Rt2(wl)
    ensures Reloaded(ws, wl, c)
  {
    hide HandlerOf, Field, Address, Store, Load, ExecStp, ExecLdp, PairWidth, StpForm, LdpForm;
    StpStores(ws, c);
    var wd := PairWidth(ws).value;
    var base, disp := Reg(c, wd, Rn(ws)), Used(ws, wd);
    var a := Address(wd, base, disp);
    var d := ExecStp(ws, c).cpu;
    MovedBase(wd, base, disp);
    LdpLoads(wl, d, wd);
    TwoCells(c.mem, a, wd, Source(c, wd, Rd(ws)), Source(c, wd, Rt2(ws)));
  }

  lemma MovedBase(wd: Width, base: nat, disp: nat)
    ensures Address(wd, Wrap(wd, base + disp), 0) == Address(wd, base, disp)
    ensures Address(wd, Wrap(wd, base + disp), Bytes(wd)) == Address(wd, base, disp + Bytes(wd))
  {
    hide Wrap, Signed;
    WrapAgain(wd, base + disp, 0);
    WrapAgain(wd, base + disp, Bytes(wd));
  }

  // ---------- against the architecture ----------

  lemma Imm7Gap(imm7: nat)
    requires imm7 < 128
    ensures SignExtend(imm7, 7) == if imm7 < 64 then imm7 else imm7 - 128
  {
    assert Pow2(6) == 64 && Pow2(7) == 128;
  }

  lemma PairGap(form: Form, w: Word, wd: Width)
    ensures var gap := Used(w, wd) - PairDisplacement(form, w, wd);
            0 <= gap <= 1024 && (gap == 0 <==> if form == PostIndex then Imm7(w) == 0 else Imm7(w) < 64)
    ensures var gap := Used(w, wd) - PairStep(w, wd); 0 <= gap <= 1024 && (gap == 0 <==> Imm7(w) < 64)
  {
    hide Field, SignExtend;
    Imm7Gap(Imm7(w));
  }

  /** STP and LDP use the architecture's address exactly when the field is below 64, for post-index zero,
      and, for 32 bits, the architecture's address lies within reach. */
  lemma PairAddressConformance(w: Word, c: Cpu, wd: Width, form: Form)
    requires Defined(form)
    ensures var disp := PairDisplacement(form, w, wd);
            Address(wd, Reg(c, wd, Rn(w)), Used(w, wd)) == ArmAddress(c, Rn(w), disp)
            <==> && (if form == PostIndex then Imm7(w) == 0 else Imm7(w) < 64)
                 && (wd == W64 || Near(ArmAddress(c, Rn(w), disp)))
  {
    hide Field, Address, ArmAddress, Near, PairDisplacement;
    PairGap(form, w, wd);
    AddressConformance(c, wd, Rn(w), Used(w, wd), PairDisplacement(form, w, wd));
  }

  /** Indexed STP: the registers are the architecture's exactly when the field is below 64 and nothing
      carries out of a 32-bit base. */
  lemma StpWriteback(w: Word, c: Cpu)
    requires Indexed(StpForm(w)) && ExecStp(w, c).status == Continue
    ensures PairWidth(w).Some?
    ensures var wd := PairWidth(w).value;
            ExecStp(w, c).cpu.r == ArmWriteback(c, Rn(w), PairStep(w, wd)).r
            <==> Imm7(w) < 64 && NoCarry(c, wd, Rn(w), Used(w, wd))
  {
    hide Field, StpForm, PairWidth, ExecStp, PairStep, Address, Store;
    StpStores(w, c);
    var wd := PairWidth(w).value;
    PairGap(StpForm(w), w, wd);
    WritebackConformance(c, wd, Rn(w), Used(w, wd), PairStep(w, wd));
    assert ExecStp(w, c).cpu.r == Advance(c, wd, Rn(w), Used(w, wd)).r;
  }

  lemma SameCarry(c: Cpu, mem: seq<u8>, wd: Width, n: nat, used: nat)
    requires n < 32 && |mem| == STACK_SIZE
    ensures NoCarry(c.(mem := mem), wd, n, used) == NoCarry(c, wd, n, used)
  {}

  /** Both cells of the handler's pair and of the architecture's, when both accesses succeed. */
  lemma PairCells(w: Word, c: Cpu, wd: Width, form: Form)
    requires PairAccess(wd, Reg(c, wd, Rn(w)), Used(w, wd)) == Continue
    requires ArmPairAccess(c, wd, Rn(w), PairDisplacement(form, w, wd)) == Continue
    ensures var disp := PairDisplacement(form, w, wd);
            var off, a := Address(wd, Reg(c, wd, Rn(w)), Used(w, wd)), ArmAddress(c, Rn(w), disp);
            && off == a + (Used(w, wd) - disp)
            && Address(wd, Reg(c, wd, Rn(w)), Used(w, wd) + Bytes(wd)) == off + Bytes(wd)
            && ArmAddress(c, Rn(w), disp + Bytes(wd)) == a + Bytes(wd)
            && 0 <= a && 0 <= off && a + 2 * Bytes(wd) <= STACK_SIZE && off + 2 * Bytes(wd) <= STACK_SIZE
  {
    hide Field, PairDisplacement, Address, ArmAddress;
    var disp := PairDisplacement(form, w, wd);
    PairGap(form, w, wd);
    CellGap(c, wd, Rn(w), Used(w, wd), disp);
    AdjacentCells(wd, Reg(c, wd, Rn(w)), Used(w, wd));
    NextArmCell(c, Rn(w), disp, Bytes(wd));
  }

  lemma NextArmCell(c: Cpu, n: nat, disp: int, size: nat)
    requires n < 32 && size <= 8 && Access(ArmAddress(c, n, disp), size) == Continue
    ensures ArmAddress(c, n, disp + size) == ArmAddress(c, n, disp) + size
  {
    WrapShift(W64, c.r[n] + disp, size);
  }

  /** The pair lies where the architecture has it; when that is so says `PairAddressConformance`. */
  predicate AtArmAddress(w: Word, c: Cpu, wd: Width, form: Form) {
    Address(wd, Reg(c, wd, Rn(w)), Used(w, wd)) == ArmAddress(c, Rn(w), PairDisplacement(form, w, wd))
  }

  /** At the architecture's address both cells are located as the architecture locates them. */
  lemma SameCells(w: Word, c: Cpu, wd: Width, form: Form)
    requires AtArmAddress(w, c, wd, form)
    ensures var disp := PairDisplacement(form, w, wd);
            var a := ArmAddress(c, Rn(w), disp);
            && PairAccess(wd, Reg(c, wd, Rn(w)), Used(w, wd)) == ArmPairAccess(c, wd, Rn(w), disp)
            && (Access(a, Bytes(wd)) == Continue ==>
                  && Address(wd, Reg(c, wd, Rn(w)), Used(w, wd) + Bytes(wd)) == a + Bytes(wd)
                  && ArmAddress(c, Rn(w), disp + Bytes(wd)) == a + Bytes(wd))
  {
    hide Field, PairDisplacement, Address, ArmAddress, Access;
    var disp := PairDisplacement(form, w, wd);
    if Access(ArmAddress(c, Rn(w), disp), Bytes(wd)) == Continue {
      AdjacentCells(wd, Reg(c, wd, Rn(w)), Used(w, wd));
      NextArmCell(c, Rn(w), disp, Bytes(wd));
    }
  }

  // ---------- the same pair at two places ----------

  function PutPair(mem: seq<u8>, a: nat, wd: Width, v1: nat, v2: nat): seq<u8>
    requires a + 2 * Bytes(wd) <= |mem|
  {
    Store(Store(mem, a, Bytes(wd), v1), a + Bytes(wd), Bytes(wd), v2)
  }

  predicate Holds(mem: seq<u8>, a: nat, wd: Width, v: nat) {
    a + Bytes(wd) <= |mem| && Load(mem, a, Bytes(wd)) == v
  }

  /** What memory must hold already for a pair stored `gap` bytes too high to leave the same memory:
      nothing if there is no gap, the pair at both places if they are apart, and if they share a cell, one
      value throughout. */
  predicate Coincide(mem: seq<u8>, a: nat, gap: nat, wd: Width, v1: nat, v2: nat) {
    var n := Bytes(wd);
    || gap == 0
    || (gap == n && Holds(mem, a, wd, v1) && v1 == v2 && Holds(mem, a + 2 * n, wd, v2))
    || (gap > n && Holds(mem, a, wd, v1) && Holds(mem, a + n, wd, v2)
        && Holds(mem, a + gap, wd, v1) && Holds(mem, a + gap + n, wd, v2))
  }

  lemma PairsCoincide(mem: seq<u8>, a: nat, gap: nat, wd: Width, v1: nat, v2: nat)
    requires a + gap + 2 * Bytes(wd) <= |mem| && v1 < Modulus(wd) && v2 < Modulus(wd)
    requires gap <= Bytes(wd) ==> gap == 0 || gap == Bytes(wd)
    requires gap > Bytes(wd) ==> gap >= 2 * Bytes(wd)
    ensures PutPair(mem, a + gap, wd, v1, v2) == PutPair(mem, a, wd, v1, v2) <==> Coincide(mem, a, gap, wd, v1, v2)
  {
    hide Store, Load;
    if gap == Bytes(wd) {
      SharedCell(mem, a, wd, v1, v2);
    } else if gap > 0 {
      ApartPairs(mem, a, a + gap, wd, v1, v2);
    }
  }

  lemma ApartPairs(mem: seq<u8>, a: nat, b: nat, wd: Width, v1: nat, v2: nat)
    requires a + 2 * Bytes(wd) <= b && b + 2 * Bytes(wd) <= |mem| && v1 < Modulus(wd) && v2 < Modulus(wd)
    ensures PutPair(mem, b, wd, v1, v2) == PutPair(mem, a, wd, v1, v2)
            <==> && Holds(mem, a, wd, v1) && Holds(mem, a + Bytes(wd), wd, v2)
                 && Holds(mem, b, wd, v1) && Holds(mem, b + Bytes(wd), wd, v2)
  {
    hide Store, Load;
    PairKept(mem, a, wd, v1, v2);
    PairKept(mem, b, wd, v1, v2);
    PairElsewhere(mem, a, wd, v1, v2, b);
    PairElsewhere(mem, a, wd, v1, v2, b + Bytes(wd));
    PairElsewhere(mem, b, wd, v1, v2, a);
    PairElsewhere(mem, b, wd, v1, v2, a + Bytes(wd));
  }

  lemma PairKept(mem: seq<u8>, a: nat, wd: Width, v1: nat, v2: nat)
    requires a + 2 * Bytes(wd) <= |mem| && v1 < Modulus(wd) && v2 < Modulus(wd)
    ensures Holds(PutPair(mem, a, wd, v1, v2), a, wd, v1) && Holds(PutPair(mem, a, wd, v1, v2), a + Bytes(wd), wd, v2)
    ensures Holds(mem, a, wd, v1) && Holds(mem, a + Bytes(wd), wd, v2) ==> PutPair(mem, a, wd, v1, v2) == mem
  {
    hide Store, Load;
    Pow256Values();
    TwoCells(mem, a, wd, v1, v2);
    StoreSame(mem, a, Bytes(wd), v1);
    StoreSame(mem, a + Bytes(wd), Bytes(wd), v2);
  }

  lemma PairElsewhere(mem: seq<u8>, a: nat, wd: Width, v1: nat, v2: nat, b: nat)
    requires a + 2 * Bytes(wd) <= |mem| && b + Bytes(wd) <= |mem|
    requires b + Bytes(wd) <= a || a + 2 * Bytes(wd) <= b
    ensures Load(PutPair(mem, a, wd, v1, v2), b, Bytes(wd)) == Load(mem, b, Bytes(wd))
  {
    hide Store, Load;
    var n := Bytes(wd);
    LoadUnaffected(mem, a, n, v1, b, n);
    LoadUnaffected(Store(mem, a, n, v1), a + n, n, v2, b, n);
  }

  lemma SharedCell(mem: seq<u8>, a: nat, wd: Width, v1: nat, v2: nat)
    requires a + 3 * Bytes(wd) <= |mem| && v1 < Modulus(wd) && v2 < Modulus(wd)
    ensures PutPair(mem, a + Bytes(wd), wd, v1, v2) == PutPair(mem, a, wd, v1, v2)
            <==> Holds(mem, a, wd, v1) && v1 == v2 && Holds(mem, a + 2 * Bytes(wd), wd, v2)
  {
    hide Store, Load;
    var n := Bytes(wd);
    Pow256Values();
    PairKept(mem, a, wd, v1, v2);
    PairKept(mem, a + n, wd, v1, v2);
    PairElsewhere(mem, a, wd, v1, v2, a + 2 * n);
    PairElsewhere(mem, a + n, wd, v1, v2, a);
    StoreSame(mem, a, n, v1);
    LoadUnaffected(mem, a + n, n, v1, a + 2 * n, n);
    StoreSame(Store(mem, a + n, n, v1), a + 2 * n, n, v2);
  }

  // ---------- STP ----------

  /** What the registers and memory need when both accesses of STP succeed. */
  predicate StpLossless(w: Word, c: Cpu, wd: Width, form: Form) {
    var disp := PairDisplacement(form, w, wd);
    var a := ArmAddress(c, Rn(w), disp);
    && (Indexed(form) ==> Imm7(w) < 64 && NoCarry(c, wd, Rn(w), Used(w, wd)))
    && a >= 0 && Used(w, wd) >= disp
    && Coincide(c.mem, a, Used(w, wd) - disp, wd, Source(c, wd, Rd(w)), Source(c, wd, Rt2(w)))
  }

  predicate StpRight(w: Word, c: Cpu, wd: Width) {
    var s := PairAccess(wd, Reg(c, wd, Rn(w)), Used(w, wd));
    && s == ArmPairAccess(c, wd, Rn(w), PairDisplacement(StpForm(w), w, wd))
    && (s == Continue ==> StpLossless(w, c, wd, StpForm(w)))
  }

  /** STP: the outcome is the architecture's exactly when both accesses fail alike, or both succeed, the
      base is written back right, and the pair lies where the architecture has it or memory already held
      what would show the difference. */
  lemma StpConformance(w: Word, c: Cpu, wd: Width)
    requires Defined(StpForm(w)) && PairWidth(w) == Some(wd)
    ensures ExecStp(w, c) == ArmStp(w, c, wd, StpForm(w)) <==> StpRight(w, c, wd)
  {
    hide Field, StpForm, PairWidth, PairDisplacement, PairStep, Address, ArmAddress, PairAccess, ArmPairAccess;
    hide Store, Near, Advance, ArmWriteback, NoCarry, Coincide;
    var form := StpForm(w);
    var disp := PairDisplacement(form, w, wd);
    var s := PairAccess(wd, Reg(c, wd, Rn(w)), Used(w, wd));
    var t := ArmPairAccess(c, wd, Rn(w), disp);
    StpEnds(w, c, wd);
    ArmStpEnds(w, c, wd, form);
    if s == t == Continue {
      var a, gap := ArmAddress(c, Rn(w), disp), Used(w, wd) - disp;
      var v1, v2 := Source(c, wd, Rd(w)), Source(c, wd, Rt2(w));
      PairCells(w, c, wd, form);
      PairGap(form, w, wd);
      GapCells(w, wd, form);
      PairsCoincide(c.mem, a, gap, wd, v1, v2);
      var here, there := PutPair(c.mem, a + gap, wd, v1, v2), PutPair(c.mem, a, wd, v1, v2);
      if Indexed(form) {
        AdvanceApart(c, here, there, wd, Rn(w), Used(w, wd), PairStep(w, wd));
      }
    }
  }

  /** The gap is a whole number of cells. */
  lemma GapCells(w: Word, wd: Width, form: Form)
    ensures var gap := Used(w, wd) - PairDisplacement(form, w, wd);
            gap == 0 || gap == Bytes(wd) || gap >= 2 * Bytes(wd)
  {
    hide Field, SignExtend;
    Imm7Gap(Imm7(w));
  }

  lemma StpEnds(w: Word, c: Cpu, wd: Width)
    requires Defined(StpForm(w)) && PairWidth(w) == Some(wd)
    ensures var s := PairAccess(wd, Reg(c, wd, Rn(w)), Used(w, wd));
            ExecStp(w, c).status == s && (s != Continue ==> ExecStp(w, c).cpu == c)
    ensures var off := Address(wd, Reg(c, wd, Rn(w)), Used(w, wd));
            ExecStp(w, c).status == Continue ==>
              && 0 <= off && off + 2 * Bytes(wd) <= STACK_SIZE
              && ExecStp(w, c).cpu == Stored(w, c, wd, off)
  {
    if ExecStp(w, c).status == Continue {
      StpStores(w, c);
    }
    hide Field, StpForm, PairWidth, Address, Access, Put, Advance, Reg, Source, Stored;
  }

  lemma ArmStpEnds(w: Word, c: Cpu, wd: Width, form: Form)
    ensures var disp := PairDisplacement(form, w, wd);
            var t := ArmPairAccess(c, wd, Rn(w), disp);
            var a := ArmAddress(c, Rn(w), disp);
            && (t != Continue ==> ArmStp(w, c, wd, form) == Outcome(t, c))
            && (t == Continue ==>
                  && 0 <= a && a + 2 * Bytes(wd) <= STACK_SIZE
                  && var d := c.(mem := PutPair(c.mem, a, wd, Source(c, wd, Rd(w)), Source(c, wd, Rt2(w))));
                     ArmStp(w, c, wd, form)
                     == Done(if Indexed(form) then ArmWriteback(d, Rn(w), PairStep(w, wd)) else d))
  {
    hide Field, PairDisplacement, PairStep, ArmAddress, Store, ArmWriteback, Source;
    var disp := PairDisplacement(form, w, wd);
    if ArmPairAccess(c, wd, Rn(w), disp) == Continue {
      NextArmCell(c, Rn(w), disp, Bytes(wd));
    }
  }

  /** Base and memory are right together exactly when each is. */
  lemma AdvanceApart(c: Cpu, here: seq<u8>, there: seq<u8>, wd: Width, n: nat, used: nat, step: int)
    requires n < 32 && used < TWO32 && 0 <= used - step < TWO32 && |here| == |there| == STACK_SIZE
    ensures Advance(c.(mem := here), wd, n, used) == ArmWriteback(c.(mem := there), n, step)
            <==> here == there && used == step && NoCarry(c, wd, n, used)
  {
    hide NoCarry;
    WritebackConformance(c.(mem := here), wd, n, used, step);
    SameCarry(c, here, wd, n, used);
    hide Wrap;
    assert ArmWriteback(c.(mem := there), n, step) == ArmWriteback(c.(mem := here), n, step).(mem := there);
    assert Advance(c.(mem := here), wd, n, used).mem == here;
  }

  // ---------- LDP ----------

  /** Two loads into distinct registers, `v` where the architecture loads `u`, are right together exactly
      when each is. */
  lemma TwoLoads(c: Cpu, wd: Width, t1: nat, v1: nat, u1: nat, t2: nat, v2: nat, u2: nat)
    requires t1 < 32 && t2 < 32 && t1 != t2 && v1 < Modulus(wd) && v2 < Modulus(wd)
    requires u1 < Modulus(wd) && u2 < Modulus(wd)
    ensures SetReg(SetReg(c, wd, t1, v1), wd, t2, v2) == WriteX(WriteX(c, wd, t1, u1), wd, t2, u2)
            <==> WriteRight(c, wd, t1, v1, u1) && WriteRight(c, wd, t2, v2, u2)
  {
    var code := SetReg(SetReg(c, wd, t1, v1), wd, t2, v2);
    var arm := WriteX(WriteX(c, wd, t1, u1), wd, t2, u2);
    MergeIsWrite(c.r[t1], wd, v1, u1);
    MergeIsWrite(c.r[t2], wd, v2, u2);
    assert code.r[t1] == Merge(wd, c.r[t1], v1) && arm.r[t1] == if t1 == 31 then c.r[t1] else u1;
    assert code.r[t2] == Merge(wd, c.r[t2], v2) && arm.r[t2] == if t2 == 31 then c.r[t2] else u2;
    assert code.r[t1] == arm.r[t1] && code.r[t2] == arm.r[t2] ==> code.r == arm.r;
  }

  /** With the base updated as well, and distinct from both, before or after the loads. */
  lemma ThreeWrites(c: Cpu, wd: Width, n: nat, used: nat, step: int,
                    t1: nat, v1: nat, u1: nat, t2: nat, v2: nat, u2: nat)
    requires t1 < 32 && t2 < 32 && t1 != t2 && v1 < Modulus(wd) && v2 < Modulus(wd)
    requires u1 < Modulus(wd) && u2 < Modulus(wd)
    requires n < 32 && n != t1 && n != t2 && used < TWO32 && 0 <= used - step < TWO32
    ensures var before := SetReg(SetReg(Advance(c, wd, n, used), wd, t1, v1), wd, t2, v2);
            && before == Advance(SetReg(SetReg(c, wd, t1, v1), wd, t2, v2), wd, n, used)
            && (before == WriteX(WriteX(ArmWriteback(c, n, step), wd, t1, u1), wd, t2, u2)
                <==> used == step && NoCarry(c, wd, n, used)
                     && WriteRight(c, wd, t1, v1, u1) && WriteRight(c, wd, t2, v2, u2))
            && (before.r[n] == Wrap(W64, c.r[n] + step) <==> used == step && NoCarry(c, wd, n, used))
  {
    hide Wrap, Merge, NoCarry, WriteRight;
    var b0, b1, b2 := Merge(wd, c.r[n], Wrap(wd, Reg(c, wd, n) + used)), Merge(wd, c.r[t1], v1), Merge(wd, c.r[t2], v2);
    var a0 := Wrap(W64, c.r[n] + step);
    var a1, a2 := if t1 == 31 then c.r[t1] else u1, if t2 == 31 then c.r[t2] else u2;
    HandlerWrites(c, wd, n, used, t1, v1, t2, v2);
    ArmWrites(c, wd, n, step, t1, u1, t2, u2);
    ThreeUpdates(c.r, n, b0, a0, t1, b1, a1, t2, b2, a2);
    RightBase(c, wd, n, used, step);
    RightLoad(c, wd, t1, v1, u1);
    RightLoad(c, wd, t2, v2, u2);
  }

  lemma HandlerWrites(c: Cpu, wd: Width, n: nat, used: nat, t1: nat, v1: nat, t2: nat, v2: nat)
    requires t1 < 32 && t2 < 32 && t1 != t2 && v1 < Modulus(wd) && v2 < Modulus(wd) && n < 32 && n != t1 && n != t2
    ensures var m0 := Merge(wd, c.r[n], Wrap(wd, Reg(c, wd, n) + used));
            var d := c.(r := c.r[n := m0][t1 := Merge(wd, c.r[t1], v1)][t2 := Merge(wd, c.r[t2], v2)]);
            && SetReg(SetReg(Advance(c, wd, n, used), wd, t1, v1), wd, t2, v2) == d
            && Advance(SetReg(SetReg(c, wd, t1, v1), wd, t2, v2), wd, n, used) == d
  {
    hide Wrap, Merge;
    var m0 := Merge(wd, c.r[n], Wrap(wd, Reg(c, wd, n) + used));
    var m1, m2 := Merge(wd, c.r[t1], v1), Merge(wd, c.r[t2], v2);
    assert c.r[t1 := m1][t2 := m2][n := m0] == c.r[n := m0][t1 := m1][t2 := m2];
  }

  lemma ArmWrites(c: Cpu, wd: Width, n: nat, step: int, t1: nat, v1: nat, t2: nat, v2: nat)
    requires t1 < 32 && t2 < 32 && t1 != t2 && v1 < Modulus(wd) && v2 < Modulus(wd) && n < 32 && n != t1 && n != t2
    ensures WriteX(WriteX(ArmWriteback(c, n, step), wd, t1, v1), wd, t2, v2)
            == c.(r := c.r[n := Wrap(W64, c.r[n] + step)][t1 := if t1 == 31 then c.r[t1] else v1]
                          [t2 := if t2 == 31 then c.r[t2] else v2])
  {
    hide Wrap;
    var r := c.r[n := Wrap(W64, c.r[n] + step)];
    assert r[t1 := c.r[t1]] == r;
    var r1 := r[t1 := if t1 == 31 then c.r[t1] else v1];
    assert r1[t2 := c.r[t2]] == r1;
  }

  lemma ThreeUpdates(r: seq<u64>, n: nat, b0: u64, a0: u64, t1: nat, b1: u64, a1: u64, t2: nat, b2: u64, a2: u64)
    requires n < |r| && t1 < |r| && t2 < |r| && n != t1 && n != t2 && t1 != t2
    ensures r[n := b0][t1 := b1][t2 := b2] == r[n := a0][t1 := a1][t2 := a2] <==> b0 == a0 && b1 == a1 && b2 == a2
  {
    var b, a := r[n := b0][t1 := b1][t2 := b2], r[n := a0][t1 := a1][t2 := a2];
    assert b[n] == b0 && b[t1] == b1 && b[t2] == b2 && a[n] == a0 && a[t1] == a1 && a[t2] == a2;
  }

  lemma RightBase(c: Cpu, wd: Width, n: nat, used: nat, step: int)
    requires n < 32 && used < TWO32 && 0 <= used - step < TWO32
    ensures Merge(wd, c.r[n], Wrap(wd, Reg(c, wd, n) + used)) == Wrap(W64, c.r[n] + step)
            <==> used == step && NoCarry(c, wd, n, used)
  {
    hide Merge, Wrap;
    WritebackValue(c.r[n], wd, used, step);
  }

  lemma RightLoad(c: Cpu, wd: Width, t: nat, v: nat, u: nat)
    requires t < 32 && v < Modulus(wd) && u < Modulus(wd)
    ensures Merge(wd, c.r[t], v) == (if t == 31 then c.r[t] else u) <==> WriteRight(c, wd, t, v, u)
  {
    hide Merge;
    MergeIsWrite(c.r[t], wd, v, u);
  }

  /** What index 31 holds after an indexed LDP that has it as base and as the destination of `v`: the
      handler replaces the base, the architecture only moves it. */
  predicate SpRight(c: Cpu, wd: Width, form: Form, used: nat, step: int, v: nat)
    requires v < Modulus(wd)
  {
    Merge(wd, c.r[31], if form == PreIndex then v else Wrap(wd, v + used)) == Wrap(W64, c.r[31] + step)
  }

  /** The registers the handler's indexed LDP leaves, for loaded values `v1` and `v2`. */
  function LoadedIndexed(c: Cpu, wd: Width, form: Form, n: nat, used: nat, t1: nat, v1: nat, t2: nat, v2: nat): Cpu
    requires n < 32 && t1 < 32 && t2 < 32 && v1 < Modulus(wd) && v2 < Modulus(wd)
  {
    if form == PreIndex then SetReg(SetReg(Advance(c, wd, n, used), wd, t1, v1), wd, t2, v2)
    else Advance(SetReg(SetReg(c, wd, t1, v1), wd, t2, v2), wd, n, used)
  }

  lemma SpFirst(c: Cpu, wd: Width, form: Form, used: nat, step: int, v1: nat, u1: nat, t2: nat, v2: nat, u2: nat)
    requires t2 < 31 && v1 < Modulus(wd) && v2 < Modulus(wd) && u1 < Modulus(wd) && u2 < Modulus(wd)
    ensures LoadedIndexed(c, wd, form, 31, used, 31, v1, t2, v2)
            == WriteX(WriteX(ArmWriteback(c, 31, step), wd, 31, u1), wd, t2, u2)
            <==> SpRight(c, wd, form, used, step, v1) && WriteRight(c, wd, t2, v2, u2)
  {
    var code := LoadedIndexed(c, wd, form, 31, used, 31, v1, t2, v2);
    var arm := WriteX(WriteX(ArmWriteback(c, 31, step), wd, 31, u1), wd, t2, u2);
    hide Wrap;
    SpAfter(c, wd, form, used, v1, t2, v2);
    hide LoadedIndexed, Merge;
    RightLoad(c, wd, t2, v2, u2);
    assert arm.r[31] == Wrap(W64, c.r[31] + step) && arm.r[t2] == u2;
    assert code.r[31] == arm.r[31] && code.r[t2] == arm.r[t2] ==> code.r == arm.r;
  }

  lemma SpAfter(c: Cpu, wd: Width, form: Form, used: nat, v: nat, t: nat, x: nat)
    requires t < 31 && v < Modulus(wd) && x < Modulus(wd)
    ensures var m := Merge(wd, c.r[31], if form == PreIndex then v else Wrap(wd, v + used));
            var d := c.(r := c.r[31 := m][t := Merge(wd, c.r[t], x)]);
            && LoadedIndexed(c, wd, form, 31, used, 31, v, t, x) == d
            && LoadedIndexed(c, wd, form, 31, used, t, x, 31, v) == d
  {
    hide Wrap;
    var m := Merge(wd, c.r[31], if form == PreIndex then v else Wrap(wd, v + used));
    var one := LoadedIndexed(c, wd, form, 31, used, 31, v, t, x);
    var two := LoadedIndexed(c, wd, form, 31, used, t, x, 31, v);
    MergeTwice(wd, c.r[31], v, if form == PreIndex then v else Wrap(wd, v + used));
    MergeTwice(wd, c.r[31], Wrap(wd, Reg(c, wd, 31) + used), v);
    assert one.r[31] == m && two.r[31] == m;
    assert one.r == c.r[31 := m][t := Merge(wd, c.r[t], x)];
    assert two.r == c.r[31 := m][t := Merge(wd, c.r[t], x)];
  }

  lemma SpSecond(c: Cpu, wd: Width, form: Form, used: nat, step: int, t1: nat, v1: nat, u1: nat, v2: nat, u2: nat)
    requires t1 < 31 && v1 < Modulus(wd) && v2 < Modulus(wd) && u1 < Modulus(wd) && u2 < Modulus(wd)
    ensures LoadedIndexed(c, wd, form, 31, used, t1, v1, 31, v2)
            == WriteX(WriteX(ArmWriteback(c, 31, step), wd, t1, u1), wd, 31, u2)
            <==> WriteRight(c, wd, t1, v1, u1) && SpRight(c, wd, form, used, step, v2)
  {
    SpFirst(c, wd, form, used, step, v2, u2, t1, v1, u1);
    SpAfter(c, wd, form, used, v2, t1, v1);
  }

  /** What the registers need when both accesses of LDP succeed: the base is written back right, and each
      destination receives the architecture's value without losing anything or, as index 31, already holds
      what it receives. */
  predicate LdpLossless(w: Word, c: Cpu, wd: Width, form: Form) {
    var off := Address(wd, Reg(c, wd, Rn(w)), Used(w, wd));
    var a := ArmAddress(c, Rn(w), PairDisplacement(form, w, wd));
    var v1, v2 := Cell(c, wd, off), Cell(c, wd, off + Bytes(wd));
    var right1 := WriteRight(c, wd, Rd(w), v1, Cell(c, wd, a));
    var right2 := WriteRight(c, wd, Rt2(w), v2, Cell(c, wd, a + Bytes(wd)));
    if !Indexed(form) then right1 && right2
    else if Rn(w) == Rd(w) then SpRight(c, wd, form, Used(w, wd), PairStep(w, wd), v1) && right2
    else if Rn(w) == Rt2(w) then right1 && SpRight(c, wd, form, Used(w, wd), PairStep(w, wd), v2)
    else Imm7(w) < 64 && NoCarry(c, wd, Rn(w), Used(w, wd)) && right1 && right2
  }

  predicate LdpRight(w: Word, c: Cpu, wd: Width) {
    var s := PairAccess(wd, Reg(c, wd, Rn(w)), Used(w, wd));
    && s == ArmPairAccess(c, wd, Rn(w), PairDisplacement(LdpForm(w), w, wd))
    && (s == Continue ==> LdpLossless(w, c, wd, LdpForm(w)))
  }

  /** LDP into two different registers, for the indexed forms different from the base unless that is index
      31, which the architecture reads as stack pointer and as zero register: the outcome is the
      architecture's exactly when both accesses fail alike, or both succeed and nothing is lost. */
  lemma LdpConformance(w: Word, c: Cpu, wd: Width)
    requires Defined(LdpForm(w)) && PairWidth(w) == Some(wd)
    requires Rd(w) != Rt2(w) && (Indexed(LdpForm(w)) && Rn(w) in {Rd(w), Rt2(w)} ==> Rn(w) == 31)
    ensures ExecLdp(w, c) == ArmLdp(w, c, wd, LdpForm(w)) <==> LdpRight(w, c, wd)
  {
    hide Field, LdpForm, PairWidth, PairDisplacement, PairStep, Address, ArmAddress, PairAccess, ArmPairAccess;
    hide Advance, SetReg, WriteX, ArmWriteback, NoCarry, WriteRight, SpRight, Cell, ExecLdp, ArmLdp;
    var form := LdpForm(w);
    var disp := PairDisplacement(form, w, wd);
    LdpEnds(w, c, wd);
    ArmLdpEnds(w, c, wd, form);
    if PairAccess(wd, Reg(c, wd, Rn(w)), Used(w, wd)) == ArmPairAccess(c, wd, Rn(w), disp) == Continue {
      PairCells(w, c, wd, form);
      PairGap(form, w, wd);
      LdpRuns(w, c, wd);
      var off, a, n := Address(wd, Reg(c, wd, Rn(w)), Used(w, wd)), ArmAddress(c, Rn(w), disp), Bytes(wd);
      var v1, u1, v2, u2 := Cell(c, wd, off), Cell(c, wd, a), Cell(c, wd, off + n), Cell(c, wd, a + n);
      var used, step := Used(w, wd), PairStep(w, wd);
      if !Indexed(form) {
        TwoLoads(c, wd, Rd(w), v1, u1, Rt2(w), v2, u2);
      } else if Rn(w) == Rd(w) {
        SpFirst(c, wd, form, used, step, v1, u1, Rt2(w), v2, u2);
      } else if Rn(w) == Rt2(w) {
        SpSecond(c, wd, form, used, step, Rd(w), v1, u1, v2, u2);
      } else {
        ThreeWrites(c, wd, Rn(w), used, step, Rd(w), v1, u1, Rt2(w), v2, u2);
      }
    }
  }

  lemma LdpEnds(w: Word, c: Cpu, wd: Width)
    requires Defined(LdpForm(w)) && PairWidth(w) == Some(wd)
    ensures var s := PairAccess(wd, Reg(c, wd, Rn(w)), Used(w, wd));
            ExecLdp(w, c).status == s && (s != Continue ==> ExecLdp(w, c).cpu == c)
  {
    hide Field, LdpForm, PairWidth, Address, Access, Advance, Get, Reg, SetReg;
  }

  lemma ArmLdpEnds(w: Word, c: Cpu, wd: Width, form: Form)
    ensures var disp := PairDisplacement(form, w, wd);
            var t := ArmPairAccess(c, wd, Rn(w), disp);
            var a := ArmAddress(c, Rn(w), disp);
            && (t != Continue ==> ArmLdp(w, c, wd, form) == Outcome(t, c))
            && (t == Continue ==>
                  var d := if Indexed(form) then ArmWriteback(c, Rn(w), PairStep(w, wd)) else c;
                  ArmLdp(w, c, wd, form)
                  == Done(WriteX(WriteX(d, wd, Rd(w), Cell(c, wd, a)), wd, Rt2(w), Cell(c, wd, a + Bytes(wd)))))
  {
    hide Field, PairDisplacement, PairStep, ArmAddress, Get, ArmWriteback, WriteX;
    var disp := PairDisplacement(form, w, wd);
    if ArmPairAccess(c, wd, Rn(w), disp) == Continue {
      NextArmCell(c, Rn(w), disp, Bytes(wd));
    }
  }

  /** Indexed LDP, base and destinations distinct: the base register is the architecture's exactly when
      the field is below 64 and nothing carries out of a 32-bit base. */
  lemma LdpWriteback(w: Word, c: Cpu)
    requires Indexed(LdpForm(w)) && ExecLdp(w, c).status == Continue
    requires Rd(w) != Rt2(w) && Rn(w) !in {Rd(w), Rt2(w)}
    ensures PairWidth(w).Some?
    ensures var wd := PairWidth(w).value;
            ExecLdp(w, c).cpu.r[Rn(w)] == Wrap(W64, c.r[Rn(w)] + PairStep(w, wd))
            <==> Imm7(w) < 64 && NoCarry(c, wd, Rn(w), Used(w, wd))
  {
    hide Field, LdpForm, PairStep, Address, Cell, Advance, SetReg, NoCarry, Wrap, PairAccess;
    var wd := PairWidth(w).value;
    hide PairWidth, ExecLdp;
    LdpRuns(w, c, wd);
    PairGap(LdpForm(w), w, wd);
    var a := Address(wd, Reg(c, wd, Rn(w)), Used(w, wd));
    var b := Address(wd, Reg(c, wd, Rn(w)), Used(w, wd) + Bytes(wd));
    ThreeWrites(c, wd, Rn(w), Used(w, wd), PairStep(w, wd), Rd(w), Cell(c, wd, a), Cell(c, wd, a),
                Rt2(w), Cell(c, wd, b), Cell(c, wd, b));
  }

  // ---------- push and pop ----------

  /** Advancing a base twice by small amounts restores it only when both are zero. */
  lemma TwoSteps(wd: Width, r: u64, a: nat, b: nat)
    requires a < 2048 && b < 2048
    ensures var low := if wd == W64 then r else r % TWO32;
            var once := Merge(wd, r, Wrap(wd, low + a));
            var twice := Merge(wd, once, Wrap(wd, (if wd == W64 then once else once % TWO32) + b));
            twice == r <==> a == 0 && b == 0
  {
    hide Wrap, Merge;
    var low := if wd == W64 then r else r % TWO32;
    var once := Wrap(wd, low + a);
    MergeTwice(wd, r, once, Wrap(wd, once + b));
    WrapAgain(wd, low + a, b);
    MergeIsWrite(r, wd, Wrap(wd, low + a + b), low);
    StaysPut(wd, low, a + b);
  }

  lemma MergeTwice(wd: Width, r: u64, x: nat, y: nat)
    requires x < Modulus(wd) && y < Modulus(wd)
    ensures var once := Merge(wd, r, x);
            (if wd == W64 then once else once % TWO32) == x && Merge(wd, once, y) == Merge(wd, r, y)
  {}

  lemma StaysPut(wd: Width, x: nat, d: nat)
    requires x < Modulus(wd) && d < 4096
    ensures Wrap(wd, x + d) == x <==> d == 0
  {}

  /** Pre-index STP, then post-index LDP with the same base and width (the push and pop of a function):
      the base is restored exactly when both offsets are zero, in the architecture when their signed values
      cancel. The pair is reloaded whenever the base is restored. */
  lemma PushPop(ws: Word, wl: Word, c: Cpu)
    requires StpForm(ws) == PreIndex && ExecStp(ws, c).status == Continue
    requires LdpForm(wl) == PostIndex && ExecLdp(wl, ExecStp(ws, c).cpu).status == Continue
    requires PairWidth(wl) == PairWidth(ws) && Rn(wl) == Rn(ws)
    requires Rd(wl) != Rt2(wl) && Rn(wl) !in {Rd(wl), Rt2(wl)}
    ensures var popped := ExecLdp(wl, ExecStp(ws, c).cpu).cpu;
            && (popped.r[Rn(ws)] == c.r[Rn(ws)] <==> Imm7(ws) == 0 && Imm7(wl) == 0)
            && (popped.r[Rn(ws)] == c.r[Rn(ws)] ==> Reloaded(ws, wl, c))
  {
    hide Field, StpForm, LdpForm, PairWidth, Address, ExecStp, ExecLdp, Store, Merge, Wrap;
    StpStores(ws, c);
    var wd := PairWidth(ws).value;
    var d := ExecStp(ws, c).cpu;
    LdpBase(wl, d, wd);
    assert d.r[Rn(ws)] == Merge(wd, c.r[Rn(ws)], Wrap(wd, Reg(c, wd, Rn(ws)) + Used(ws, wd)));
    TwoSteps(wd, c.r[Rn(ws)], Used(ws, wd), Used(wl, wd));
    if Imm7(wl) == 0 {
      IndexedStpLdp(ws, wl, c);
    }
  }

  /** In the architecture the base is restored exactly when the two signed steps cancel. */
  lemma ArmPushPop(c: Cpu, n: nat, push: int, pop: int)
    requires n < 32 && -1024 <= push < 1024 && -1024 <= pop < 1024
    ensures ArmWriteback(ArmWriteback(c, n, push), n, pop).r[n] == c.r[n] <==> push + pop == 0
  {
    hide Wrap;
    WrapAgain(W64, c.r[n] + push, pop);
    SameWord(c.r[n] + push + pop, c.r[n]);
    WrapSmall(c.r[n]);
  }

  lemma LdpBase(w: Word, c: Cpu, wd: Width)
    requires LdpForm(w) == PostIndex && PairWidth(w) == Some(wd) && ExecLdp(w, c).status == Continue
    requires Rn(w) !in {Rd(w), Rt2(w)}
    ensures ExecLdp(w, c).cpu.r[Rn(w)] == Merge(wd, c.r[Rn(w)], Wrap(wd, Reg(c, wd, Rn(w)) + Used(w, wd)))
  {
    hide Field, LdpForm, PairWidth, Address, Cell, PairAccess, Merge, Wrap, ExecLdp;
    LdpRuns(w, c, wd);
  }
}
