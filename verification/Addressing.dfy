/** Which address a load or store uses, and what single loads and stores do to the state, against the
    architecture: the base is a 64-bit register, the result of a load into index 31 is discarded. */
module Addressing {
  import opened Patterns
  import opened Ints
  import opened Memory
  import opened Shifts
  import opened Fields
  import opened Dispatcher
  import opened Isa
  import opened Arm
  import opened Assembler
  import opened Conformance
  import opened LoadStore

  // ---------- addresses ----------

  /** Two displacements less than the modulus apart reach the same address only when equal. */
  lemma SameAddress(wd: Width, x: int, d: nat)
    requires d < Modulus(wd)
    ensures Signed(wd, Wrap(wd, x + d)) == Signed(wd, Wrap(wd, x)) <==> d == 0
  {
    WrapShift(wd, x, d);
  }

  /** An address that a 32-bit signed offset can express. */
  predicate Near(a: int) {
    -0x8000_0000 <= a < 0x8000_0000
  }

  lemma CutOff(x: int, y: int, k: int)
    requires x == y + k * TWO32
    ensures Wrap(W32, x) == Wrap(W32, y)
  {
    var q, rest := y / TWO32, y % TWO32;
    assert x == (q + k) * TWO32 + rest;
    EuclidUnique(x, TWO32, q + k, rest);
  }

  lemma SignedFar(x: int) returns (k: int)
    ensures Signed(W64, Wrap(W64, x)) == x + k * TWO32
  {
    var q := x / TWO64;
    k := -q * TWO32;
    assert Wrap(W64, x) == x - q * TWO64;
    if Wrap(W64, x) >= Half(W64) {
      k := k - TWO32;
    }
  }

  lemma NearIsItself(a: int)
    ensures Near(a) ==> Signed(W32, Wrap(W32, a)) == a
  {}

  lemma LowHalves(r: u64, disp: int)
    ensures Wrap(W32, r % TWO32 + disp) == Wrap(W32, r + disp)
    ensures Near(Signed(W64, Wrap(W64, r + disp)))
            ==> Signed(W64, Wrap(W64, r + disp)) == Signed(W32, Wrap(W32, r + disp))
  {
    hide Wrap, Signed, Near;
    CutOff(r + disp, r % TWO32 + disp, r / TWO32);
    var a := Signed(W64, Wrap(W64, r + disp));
    var k := SignedFar(r + disp);
    CutOff(a, r + disp, k);
    NearIsItself(a);
  }

  lemma SignedIsNear(x: int)
    ensures Near(Signed(W32, Wrap(W32, x)))
  {}

  /** The address of an access from register `n` with the displacement `used`, against the architecture's
      with `disp`: the same exactly when the displacements are, and, for the 32-bit forms, which cut the
      base to its lower half, when the architecture's address lies within reach of 32 bits. */
  lemma AddressConformance(c: Cpu, wd: Width, n: nat, used: int, disp: int)
    requires n < 32 && 0 <= used - disp < TWO32
    ensures Address(wd, Reg(c, wd, n), used) == ArmAddress(c, n, disp)
            <==> used == disp && (wd == W64 || Near(ArmAddress(c, n, disp)))
  {
    hide Signed, Wrap, Near;
    SameAddress(wd, c.r[n] + disp, used - disp);
    LowHalves(c.r[n], used);
    LowHalves(c.r[n], disp);
    SignedIsNear(c.r[n] + used);
  }

  /** The condition under which an access with the right displacement ends as the architecture's: the
      64-bit address, or one that 32 bits express, or a start offset that the accessor rejects anyway. */
  predicate Reached(c: Cpu, wd: Width, n: nat, disp: int)
    requires n < 32
  {
    wd == W64 || Near(ArmAddress(c, n, disp)) || Access(Address(wd, Reg(c, wd, n), disp), Bytes(wd)) == Throw
  }

  lemma FarIsRejected(c: Cpu, n: nat, disp: int, size: nat)
    requires n < 32 && !Near(ArmAddress(c, n, disp))
    ensures Access(ArmAddress(c, n, disp), size) == Throw
  {}

  lemma StoreConformance(c: Cpu, wd: Width, n: nat, disp: int, t: nat)
    requires n < 32 && t < 32
    ensures StoreOne(c, wd, Address(wd, Reg(c, wd, n), disp), Source(c, wd, t)) == ArmStore(c, wd, n, disp, t)
            <==> Reached(c, wd, n, disp)
  {
    hide Address, ArmAddress, Near, Put, Source;
    AddressConformance(c, wd, n, disp, disp);
    if !Near(ArmAddress(c, n, disp)) {
      FarIsRejected(c, n, disp, Bytes(wd));
    }
  }

  /** What a load needs beyond its address: a destination that loses nothing, or index 31, holding what
      should be discarded. */
  predicate LoadedRight(c: Cpu, wd: Width, t: nat, v: nat)
    requires t < 32
  {
    if t != 31 then Clear(c, wd, t) else v == Reg(c, wd, 31)
  }

  predicate LoadRight(c: Cpu, wd: Width, n: nat, disp: int, t: nat)
    requires n < 32 && t < 32
  {
    var off := Address(wd, Reg(c, wd, n), disp);
    Reached(c, wd, n, disp) && (Access(off, Bytes(wd)) == Continue ==> LoadedRight(c, wd, t, Get(c, wd, off)))
  }

  lemma LoadConformance(c: Cpu, wd: Width, n: nat, disp: int, t: nat)
    requires n < 32 && t < 32
    ensures LoadOne(c, wd, Address(wd, Reg(c, wd, n), disp), t) == ArmLoad(c, wd, n, disp, t)
            <==> LoadRight(c, wd, n, disp, t)
  {
    hide Address, ArmAddress, Near, Get, SetReg, WriteX, Reg;
    AddressConformance(c, wd, n, disp, disp);
    var off := Address(wd, Reg(c, wd, n), disp);
    if !Near(ArmAddress(c, n, disp)) {
      FarIsRejected(c, n, disp, Bytes(wd));
    }
    if Access(off, Bytes(wd)) == Continue {
      WriteConformance(c, c.f, wd, t, Get(c, wd, off), Get(c, wd, off));
    }
  }

  // ---------- STR, LDR, STUR, LDUR ----------

  /** STR with unsigned offset, and STUR. */
  lemma StrConformance(w: Word, c: Cpu, wd: Width)
    requires SingleWidth(w) == Some(wd)
    ensures StrUnsignedOffset(w) ==>
              (ExecStrImm(w, c) == ArmStore(c, wd, Rn(w), Imm12(w) * Bytes(wd), Rd(w))
               <==> Reached(c, wd, Rn(w), Imm12(w) * Bytes(wd)))
    ensures ExecStur(w, c) == ArmStore(c, wd, Rn(w), SignExtend(Imm9(w), 9), Rd(w))
            <==> Reached(c, wd, Rn(w), SignExtend(Imm9(w), 9))
  {
    hide Field, SingleWidth, StrUnsignedOffset, Address, StoreOne, ArmStore, Reached, SignExtend, Source, Reg;
    StoreConformance(c, wd, Rn(w), Imm12(w) * Bytes(wd), Rd(w));
    StoreConformance(c, wd, Rn(w), SignExtend(Imm9(w), 9), Rd(w));
  }

  /** LDR with unsigned offset, and the LDUR handler. */
  lemma LdrConformance(w: Word, c: Cpu, wd: Width)
    requires SingleWidth(w) == Some(wd)
    ensures LdrUnsignedOffset(w) ==>
              (ExecLdrImm(w, c) == ArmLoad(c, wd, Rn(w), Imm12(w) * Bytes(wd), Rd(w))
               <==> LoadRight(c, wd, Rn(w), Imm12(w) * Bytes(wd), Rd(w)))
    ensures ExecLdur(w, c) == ArmLoad(c, wd, Rn(w), SignExtend(Imm9(w), 9), Rd(w))
            <==> LoadRight(c, wd, Rn(w), SignExtend(Imm9(w), 9), Rd(w))
  {
    hide Field, SingleWidth, LdrUnsignedOffset, Address, LoadOne, ArmLoad, LoadRight, SignExtend, Reg;
    LoadConformance(c, wd, Rn(w), Imm12(w) * Bytes(wd), Rd(w));
    LoadConformance(c, wd, Rn(w), SignExtend(Imm9(w), 9), Rd(w));
  }

  // ---------- LDUR ----------

  /** A store where the architecture loads: the same outcome exactly when the address is reached and, for
      an access that succeeds, the cell already holds the register, which loses nothing. */
  predicate StoredIsLoaded(c: Cpu, wd: Width, n: nat, disp: int, t: nat)
    requires n < 32 && t < 32
  {
    var off := Address(wd, Reg(c, wd, n), disp);
    && Reached(c, wd, n, disp)
    && (Access(off, Bytes(wd)) == Continue ==> Get(c, wd, off) == Source(c, wd, t) && (t != 31 ==> Clear(c, wd, t)))
  }

  lemma StoreForLoad(c: Cpu, wd: Width, n: nat, disp: int, t: nat)
    requires n < 32 && t < 32
    ensures StoreOne(c, wd, Address(wd, Reg(c, wd, n), disp), Source(c, wd, t)) == ArmLoad(c, wd, n, disp, t)
            <==> StoredIsLoaded(c, wd, n, disp, t)
  {
    hide Address, ArmAddress, Near, Put, Get, Source, WriteX, Clear;
    AddressConformance(c, wd, n, disp, disp);
    var off := Address(wd, Reg(c, wd, n), disp);
    if !Near(ArmAddress(c, n, disp)) {
      FarIsRejected(c, n, disp, Bytes(wd));
    }
    if Access(off, Bytes(wd)) == Continue {
      PutAgainstWrite(c, wd, off, t, Get(c, wd, off));
    }
  }

  lemma PutAgainstWrite(c: Cpu, wd: Width, off: int, t: nat, v: nat)
    requires t < 32 && Access(off, Bytes(wd)) == Continue && v == Get(c, wd, off)
    ensures Put(c, wd, off, Source(c, wd, t)) == WriteX(c, wd, t, v)
            <==> v == Source(c, wd, t) && (t != 31 ==> Clear(c, wd, t))
  {
    hide Store, Load;
    Pow256Values();
    StoreSame(c.mem, off, Bytes(wd), Source(c, wd, t));
    assert c.r[t := v][t] == v;
    assert c.r[t := c.r[t]] == c.r;
  }

  /** Every LDUR, for every field and state: the STUR handler that receives it ends as the architecture's
      load exactly when the address is reached and, for an access that succeeds, the cell already holds the
      register. */
  lemma LdurConformance(c: Cpu, x: bv1, imm9: bv9, rn: bv5, rt: bv5)
    ensures var disp := SignExtend(imm9 as nat, 9);
            Exec(UnscaledWord(x, 1, imm9, rn, rt), c) == ArmLoad(c, WidthBit(x), rn as nat, disp, rt as nat)
            <==> StoredIsLoaded(c, WidthBit(x), rn as nat, disp, rt as nat)
  {
    hide Exec, UnscaledWord, Address, StoreOne, ArmLoad, StoredIsLoaded, SignExtend, Source;
    LdurStores(c, x, imm9, rn, rt);
    StoreForLoad(c, WidthBit(x), rn as nat, SignExtend(imm9 as nat, 9), rt as nat);
  }

  // ---------- base registers ----------

  /** The low half of the base does not carry into its upper half, which a 32-bit addition would lose. */
  predicate NoCarry(c: Cpu, wd: Width, n: nat, used: nat)
    requires n < 32
  {
    wd == W64 || c.r[n] % TWO32 + used < TWO32
  }

  /** Adding `used` to the base register as the handlers do against adding `step`. */
  lemma WritebackConformance(c: Cpu, wd: Width, n: nat, used: nat, step: int)
    requires n < 32 && used < TWO32 && 0 <= used - step < TWO32
    ensures Advance(c, wd, n, used) == ArmWriteback(c, n, step) <==> used == step && NoCarry(c, wd, n, used)
  {
    WritebackValue(c.r[n], wd, used, step);
    assert Advance(c, wd, n, used).r[n] == Merge(wd, c.r[n], Wrap(wd, Reg(c, wd, n) + used));
    assert ArmWriteback(c, n, step).r[n] == Wrap(W64, c.r[n] + step);
  }

  lemma WritebackValue(r: u64, wd: Width, used: nat, step: int)
    requires used < TWO32 && 0 <= used - step < TWO32
    ensures var low := if wd == W64 then r else r % TWO32;
            Merge(wd, r, Wrap(wd, low + used)) == Wrap(W64, r + step)
            <==> used == step && (wd == W64 || low + used < TWO32)
  {
    hide Wrap;
    if wd == W64 {
      SameWord(r + used, r + step);
    } else {
      var low := r % TWO32;
      var carry := if low + used < TWO32 then 0 else TWO32;
      WrapLow(low + used, carry);
      SameWord(r + used - carry, r + step);
      WrapSmall(r + used - carry);
    }
  }

  lemma WrapLow(x: nat, carry: nat)
    requires x < 2 * TWO32 && carry == if x < TWO32 then 0 else TWO32
    ensures Wrap(W32, x) == x - carry
  {}

  lemma WrapSmall(x: int)
    requires 0 <= x < TWO64
    ensures Wrap(W64, x) == x
  {}

  // ---------- indexed STR and LDR ----------

  lemma Imm9Gap(imm9: nat)
    requires imm9 < 512
    ensures 0 <= imm9 - SignExtend(imm9, 9) <= 512 && (imm9 == SignExtend(imm9, 9) <==> imm9 < 256)
    ensures SignExtend(imm9, 9) == 0 <==> imm9 == 0
  {
    hide Pow2;
    Pow2At9();
  }

  /** Pre-index STR and LDR use the architecture's address exactly when the field is below 256 and, for 32
      bits, the address lies within reach. */
  lemma IndexedAddressConformance(w: Word, c: Cpu, wd: Width)
    ensures var disp := SignExtend(Imm9(w), 9);
            Address(wd, Reg(c, wd, Rn(w)), Imm9(w)) == ArmAddress(c, Rn(w), disp)
            <==> Imm9(w) < 256 && (wd == W64 || Near(ArmAddress(c, Rn(w), disp)))
  {
    hide Field, Address, ArmAddress, Near, SignExtend;
    Imm9Gap(Imm9(w));
    AddressConformance(c, wd, Rn(w), Imm9(w), SignExtend(Imm9(w), 9));
  }

  /** Pre-index STR: only the 32-bit form writes the base back, so the registers are the architecture's
      exactly when the 64-bit form has a zero offset and the 32-bit form a non-negative one without carry. */
  lemma StrWriteback(w: Word, c: Cpu, wd: Width)
    requires SingleWidth(w) == Some(wd) && StrIndexed(w) && !StrUnsignedOffset(w) && ExecStrImm(w, c).status == Continue
    ensures ExecStrImm(w, c).cpu.r == ArmWriteback(c, Rn(w), SignExtend(Imm9(w), 9)).r
            <==> if wd == W64 then Imm9(w) == 0 else Imm9(w) < 256 && NoCarry(c, wd, Rn(w), Imm9(w))
  {
    hide Field, SingleWidth, StrIndexed, StrUnsignedOffset, Address, SignExtend, Access;
    Imm9Gap(Imm9(w));
    WritebackConformance(c, wd, Rn(w), Imm9(w), SignExtend(Imm9(w), 9));
    if wd == W64 {
      KeptBase(c, Rn(w), SignExtend(Imm9(w), 9));
    } else {
      assert ExecStrImm(w, c).cpu.r == Advance(c, wd, Rn(w), Imm9(w)).r;
    }
  }

  lemma KeptBase(c: Cpu, n: nat, step: int)
    requires n < 32 && -TWO32 < step < TWO32
    ensures c.r == ArmWriteback(c, n, step).r <==> step == 0
  {
    hide Wrap;
    SameWord(c.r[n] + step, c.r[n]);
    WrapSmall(c.r[n]);
    assert ArmWriteback(c, n, step).r[n] == Wrap(W64, c.r[n] + step);
    assert step == 0 ==> c.r[n := c.r[n]] == c.r;
  }

  /** Pre-index LDR, base and destination distinct: besides the address, the registers are the
      architecture's exactly when the offset is not negative, nothing carries and the destination loses
      nothing. */
  lemma LdrWriteback(w: Word, c: Cpu, wd: Width)
    requires SingleWidth(w) == Some(wd) && LdrIndexed(w) && !LdrUnsignedOffset(w) && ExecLdrImm(w, c).status == Continue
    requires Rn(w) != Rd(w)
    ensures var v := Get(c, wd, Address(wd, Reg(c, wd, Rn(w)), Imm9(w)));
            ExecLdrImm(w, c).cpu == WriteX(ArmWriteback(c, Rn(w), SignExtend(Imm9(w), 9)), wd, Rd(w), v)
            <==> Imm9(w) < 256 && NoCarry(c, wd, Rn(w), Imm9(w)) && LoadedRight(c, wd, Rd(w), v)
  {
    hide Field, SingleWidth, LdrIndexed, LdrUnsignedOffset, Address, SignExtend, Access, Get;
    var v := Get(c, wd, Address(wd, Reg(c, wd, Rn(w)), Imm9(w)));
    Imm9Gap(Imm9(w));
    TwoWrites(c, wd, Rn(w), Imm9(w), SignExtend(Imm9(w), 9), Rd(w), v, v);
  }

  /** Two accesses that both succeed lie as far apart as their displacements. */
  lemma CellGap(c: Cpu, wd: Width, n: nat, used: int, disp: int)
    requires n < 32 && 0 <= used - disp <= 1024
    requires Access(Address(wd, Reg(c, wd, n), used), Bytes(wd)) == Continue
    requires Access(ArmAddress(c, n, disp), Bytes(wd)) == Continue
    ensures Address(wd, Reg(c, wd, n), used) == ArmAddress(c, n, disp) + (used - disp)
  {
    hide Signed, Wrap;
    var a, off := ArmAddress(c, n, disp), Address(wd, Reg(c, wd, n), used);
    LowHalves(c.r[n], used);
    LowHalves(c.r[n], disp);
    SignedShift(wd, c.r[n] + disp, used - disp);
  }

  /** Moving an address within the stack by `d` either moves it by `d` or out of the stack. */
  lemma SignedShift(wd: Width, x: int, d: nat)
    requires d <= 1024
    requires 0 <= Signed(wd, Wrap(wd, x)) <= STACK_SIZE && 0 <= Signed(wd, Wrap(wd, x + d)) <= STACK_SIZE
    ensures Signed(wd, Wrap(wd, x + d)) == Signed(wd, Wrap(wd, x)) + d
  {
    WrapShift(wd, x, d);
  }

  function SingleForm(w: Word): Form {
    if Field(w, 10, 11) == 1 then PostIndex else PreIndex
  }

  predicate StrIndexedRight(w: Word, c: Cpu, wd: Width) {
    var s := Access(Address(wd, Reg(c, wd, Rn(w)), Imm9(w)), Bytes(wd));
    && s == Access(ArmAddress(c, Rn(w), IndexDisplacement(SingleForm(w), w)), Bytes(wd))
    && (s == Continue ==>
          && SingleForm(w) == PreIndex
          && if wd == W64 then Imm9(w) == 0 else Imm9(w) < 256 && NoCarry(c, wd, Rn(w), Imm9(w)))
  }

  /** Indexed STR. Post-index never succeeds, so it is right exactly when the architecture's access fails
      alike. Pre-index is right exactly when both accesses fail alike or both succeed and the registers are
      right: only the 32-bit form writes the base back. */
  lemma StrIndexedConformance(w: Word, c: Cpu, wd: Width)
    requires SingleWidth(w) == Some(wd) && StrIndexed(w) && !StrUnsignedOffset(w)
    ensures ExecStrImm(w, c) == ArmStrIndexed(w, c, wd, SingleForm(w)) <==> StrIndexedRight(w, c, wd)
  {
    hide Field, SingleWidth, StrIndexed, StrUnsignedOffset, Address, ArmAddress, SignExtend, Access, Near, Store;
    hide ArmWriteback, NoCarry;
    var form := SingleForm(w);
    var s := Access(Address(wd, Reg(c, wd, Rn(w)), Imm9(w)), Bytes(wd));
    var t := Access(ArmAddress(c, Rn(w), IndexDisplacement(form, w)), Bytes(wd));
    if s == Continue && t == Continue && form == PreIndex {
      Imm9Gap(Imm9(w));
      CellGap(c, wd, Rn(w), Imm9(w), SignExtend(Imm9(w), 9));
      StrWriteback(w, c, wd);
      var stored := ArmStore(c, wd, Rn(w), SignExtend(Imm9(w), 9), Rd(w)).cpu;
      assert stored == c.(mem := stored.mem);
      WritebackKeeps(c, stored.mem, Rn(w), SignExtend(Imm9(w), 9));
    }
  }

  lemma WritebackKeeps(c: Cpu, mem: seq<u8>, n: nat, step: int)
    requires n < 32 && |mem| == STACK_SIZE
    ensures ArmWriteback(c.(mem := mem), n, step) == c.(r := ArmWriteback(c, n, step).r, mem := mem)
  {}

  /** What the registers need when a pre-index LDR has loaded `v`. As base and destination, index 31 takes
      the value and then the offset, where the architecture only adds the offset. */
  predicate LdrLossless(w: Word, c: Cpu, wd: Width, v: nat)
    requires v < Modulus(wd)
  {
    if Rn(w) != Rd(w) then Imm9(w) < 256 && NoCarry(c, wd, Rn(w), Imm9(w)) && LoadedRight(c, wd, Rd(w), v)
    else Merge(wd, c.r[Rn(w)], Wrap(wd, v + Imm9(w))) == Wrap(W64, c.r[Rn(w)] + SignExtend(Imm9(w), 9))
  }

  predicate LdrIndexedRight(w: Word, c: Cpu, wd: Width) {
    var off := Address(wd, Reg(c, wd, Rn(w)), Imm9(w));
    var s := Access(off, Bytes(wd));
    && s == Access(ArmAddress(c, Rn(w), IndexDisplacement(SingleForm(w), w)), Bytes(wd))
    && (s == Continue ==> SingleForm(w) == PreIndex && LdrLossless(w, c, wd, Get(c, wd, off)))
  }

  /** Indexed LDR, base and destination distinct unless both are index 31, which the architecture reads as
      stack pointer and zero register. Post-index is right exactly when the architecture's access fails
      alike; pre-index, when both fail alike or both succeed and base and destination are right. */
  lemma LdrIndexedConformance(w: Word, c: Cpu, wd: Width)
    requires SingleWidth(w) == Some(wd) && LdrIndexed(w) && !LdrUnsignedOffset(w)
    requires Rn(w) != Rd(w) || Rd(w) == 31
    ensures ExecLdrImm(w, c) == ArmLdrIndexed(w, c, wd, SingleForm(w)) <==> LdrIndexedRight(w, c, wd)
  {
    hide Field, SingleWidth, LdrIndexed, LdrUnsignedOffset, Address, ArmAddress, SignExtend, Access, Near, Get;
    hide ArmWriteback, Advance, SetReg, WriteX, LoadedRight, NoCarry, Merge, Wrap;
    var form := SingleForm(w);
    var off := Address(wd, Reg(c, wd, Rn(w)), Imm9(w));
    var a := ArmAddress(c, Rn(w), IndexDisplacement(form, w));
    if Access(off, Bytes(wd)) == Access(a, Bytes(wd)) == Continue && form == PreIndex {
      Imm9Gap(Imm9(w));
      CellGap(c, wd, Rn(w), Imm9(w), SignExtend(Imm9(w), 9));
      if Rn(w) != Rd(w) {
        BaseFirst(c, wd, Rn(w), Imm9(w), SignExtend(Imm9(w), 9), Rd(w), Get(c, wd, off), Get(c, wd, a));
      } else {
        SpReplaced(c, wd, Imm9(w), SignExtend(Imm9(w), 9), Get(c, wd, off), Get(c, wd, a));
      }
    }
  }

  lemma SpReplaced(c: Cpu, wd: Width, used: nat, step: int, v: nat, u: nat)
    requires v < Modulus(wd) && u < Modulus(wd)
    ensures Advance(SetReg(c, wd, 31, v), wd, 31, used) == WriteX(ArmWriteback(c, 31, step), wd, 31, u)
            <==> Merge(wd, c.r[31], Wrap(wd, v + used)) == Wrap(W64, c.r[31] + step)
  {
    hide Wrap;
    var code := Advance(SetReg(c, wd, 31, v), wd, 31, used);
    assert Reg(SetReg(c, wd, 31, v), wd, 31) == v;
    assert code.r[31] == Merge(wd, c.r[31], Wrap(wd, v + used));
    assert ArmWriteback(c, 31, step).r[31] == Wrap(W64, c.r[31] + step);
    assert code.r == c.r[31 := code.r[31]];
  }

  /** With distinct registers, a wrong base shows whatever the values; with a right one, the cells agree. */
  lemma BaseFirst(c: Cpu, wd: Width, n: nat, used: nat, step: int, t: nat, v: nat, u: nat)
    requires n < 32 && t < 32 && n != t && v < Modulus(wd) && u < Modulus(wd)
    requires used < TWO32 && 0 <= used - step < TWO32
    requires used == step ==> v == u
    ensures Advance(SetReg(c, wd, t, v), wd, n, used) == WriteX(ArmWriteback(c, n, step), wd, t, u)
            <==> used == step && NoCarry(c, wd, n, used) && LoadedRight(c, wd, t, v)
  {
    TwoWrites(c, wd, n, used, step, t, v, u);
  }

  /** A load and a base update of distinct registers are right together exactly when each is. */
  lemma TwoWrites(c: Cpu, wd: Width, n: nat, used: nat, step: int, t: nat, v: nat, u: nat)
    requires n < 32 && t < 32 && n != t && v < Modulus(wd) && u < Modulus(wd)
    requires used < TWO32 && 0 <= used - step < TWO32
    ensures Advance(SetReg(c, wd, t, v), wd, n, used) == WriteX(ArmWriteback(c, n, step), wd, t, u)
            <==> used == step && NoCarry(c, wd, n, used) && WriteRight(c, wd, t, v, u)
  {
    hide Wrap;
    var code := Advance(SetReg(c, wd, t, v), wd, n, used);
    var arm := WriteX(ArmWriteback(c, n, step), wd, t, u);
    WritebackValue(c.r[n], wd, used, step);
    MergeIsWrite(c.r[t], wd, v, u);
    assert code.r[n] == Merge(wd, c.r[n], Wrap(wd, Reg(c, wd, n) + used)) && arm.r[n] == Wrap(W64, c.r[n] + step);
    assert code.r[t] == Merge(wd, c.r[t], v) && arm.r[t] == if t == 31 then c.r[t] else u;
    assert code.r[n] == arm.r[n] && code.r[t] == arm.r[t] ==> code.r == arm.r;
  }

  // ---------- every displacement ----------

  /** Every displacement from -256 to 255 is encodable, and is the one used. */
  lemma UnscaledEncodes(k: int, imm: nat)
    requires -256 <= k < 256 && imm == k % 512
    ensures imm < 512 && SignExtend(imm, 9) == k
  {
    hide Pow2;
    Pow2At9();
  }

  lemma AddressInStack(wd: Width, base: nat, k: int)
    requires base <= STACK_SIZE && 0 <= base + k <= STACK_SIZE
    ensures Address(wd, base, k) == base + k
  {}

  /** For every k from -256 to 255, the word assembled for it accesses base + k: STUR stores there, the
      LDUR handler loads from there; with a base in the stack, that is the cell at base + k itself. */
  lemma SignedDisplacement(c: Cpu, x: bv1, load: bv1, k: int, imm: bv9, rn: bv5, rt: bv5)
    requires -256 <= k < 256 && imm as nat == k % 512
    ensures var w := UnscaledWord(x, load, imm, rn, rt);
            var wd := WidthBit(x);
            var base := Reg(c, wd, rn as nat);
            && Exec(w, c) == StoreOne(c, wd, Address(wd, base, k), Source(c, wd, rt as nat))
            && ExecLdur(w, c) == LoadOne(c, wd, Address(wd, base, k), rt as nat)
            && (base <= STACK_SIZE && 0 <= base + k <= STACK_SIZE ==> Address(wd, base, k) == base + k)
  {
    UnscaledRoundTrip(x, load, imm, rn, rt);
    UnscaledEncodes(k, imm as nat);
    hide HandlerOf, Field, UnscaledWord, SingleWidth, Address, Reg, Source, SignExtend, StoreOne, LoadOne;
    if Reg(c, WidthBit(x), rn as nat) <= STACK_SIZE && 0 <= Reg(c, WidthBit(x), rn as nat) + k <= STACK_SIZE {
      AddressInStack(WidthBit(x), Reg(c, WidthBit(x), rn as nat), k);
    }
  }
}
