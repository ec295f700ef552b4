/** core/src/state.cpp: the mutable state behind the handlers. */
module CoreState {
  import opened Ints
  import opened Shifts
  import opened Arith
  import opened Memory
  import opened Isa

  class State {
    const r: array<u64>
    var pc: u64
    var nzcv: Flags
    const stack: array<u8>

    ghost predicate Valid() {
      r.Length == 32 && stack.Length == STACK_SIZE && r as object != stack
    }

    /** The state as a value. */
    ghost function View(): Cpu
      requires Valid()
      reads this, r, stack
    {
      CpuState(r[..], pc, nzcv, stack[..])
    }

    /** Registers and stack have no initialiser. */
    constructor ()
      ensures Valid() && fresh(r) && fresh(stack)
      ensures pc == 0 && nzcv == Flags(false, false, false, false)
    {
      r := new u64[32];
      pc := 0;
      nzcv := Flags(false, false, false, false);
      stack := new u8[STACK_SIZE];
      new;
    }

    method SetN(flag: bool)
      requires Valid()
      modifies `nzcv
      ensures View() == old(View()).(f := old(nzcv).(n := flag))
    {
      nzcv := nzcv.(n := flag);
    }

    method SetZ(flag: bool)
      requires Valid()
      modifies `nzcv
      ensures View() == old(View()).(f := old(nzcv).(z := flag))
    {
      nzcv := nzcv.(z := flag);
    }

    method SetC(flag: bool)
      requires Valid()
      modifies `nzcv
      ensures View() == old(View()).(f := old(nzcv).(c := flag))
    {
      nzcv := nzcv.(c := flag);
    }

    method SetV(flag: bool)
      requires Valid()
      modifies `nzcv
      ensures View() == old(View()).(f := old(nzcv).(v := flag))
    {
      nzcv := nzcv.(v := flag);
    }

    method AdvancePc()
      requires Valid()
      modifies `pc
      ensures View() == NextPc(old(View()))
    {
      pc := Wrap(W64, pc + 1);
    }

    method UpdatePc(newPc: u64)
      requires Valid()
      modifies `pc
      ensures View() == old(View()).(pc := newPc)
    {
      pc := newPc;
    }

    /** Reading through get_r_ref_32 or get_r_ref_64. */
    method GetR(wd: Width, idx: nat) returns (v: nat)
      requires Valid() && idx < 32
      ensures v == Reg(View(), wd, idx)
    {
      v := if wd == W64 then r[idx] else r[idx] % TWO32;
    }

    /** Writing through get_r_ref_32 or get_r_ref_64. */
    method SetR(wd: Width, idx: nat, v: nat)
      requires Valid() && idx < 32 && v < Modulus(wd)
      modifies r
      ensures View() == SetReg(old(View()), wd, idx, v)
    {
      if wd == W64 {
        r[idx] := v;
      } else {
        r[idx] := r[idx] - r[idx] % TWO32 + v;
      }
      assert r[..] == old(r[..])[idx := r[idx]];
    }

    /** The guard of get_vm_with_offset_32 and get_vm_with_offset_64, and the end of the array. */
    method Locate(wd: Width, offset: int) returns (s: Status)
      requires Valid()
      ensures s == Access(offset, Bytes(wd))
      ensures s == if offset < 0 || offset > 524288 then Throw
                   else if offset + (if wd == W32 then 4 else 8) > 524288 then Undefined
                   else Continue
    {
      if offset < 0 || offset > STACK_SIZE {
        return Throw;
      }
      if offset + Bytes(wd) > stack.Length {
        return Undefined;
      }
      return Continue;
    }

    /** Writing through the reference an accessor returned: the bytes of the value, lowest first. */
    method WriteVm(wd: Width, offset: int, v: nat)
      requires Valid() && Access(offset, Bytes(wd)) == Continue && v < Modulus(wd)
      modifies stack
      ensures View() == Put(old(View()), wd, offset, v)
    {
      var rest := v;
      ghost var mem := stack[..];
      for k := 0 to Bytes(wd)
        invariant stack[..] == Store(mem, offset, k, v)
        invariant rest == High(v, k)
      {
        StoreNext(mem, offset, k, v);
        stack[offset + k] := rest % 256;
        rest := rest / 256;
      }
    }

    /** Reading through the reference an accessor returned. */
    method ReadVm(wd: Width, offset: int) returns (v: nat)
      requires Valid() && Access(offset, Bytes(wd)) == Continue
      ensures v == Get(View(), wd, offset)
    {
      v := 0;
      for k := Bytes(wd) downto 0
        invariant v == FromBytes(stack[offset + k..offset + Bytes(wd)])
      {
        assert stack[offset + k..offset + Bytes(wd)][1..] == stack[offset + k + 1..offset + Bytes(wd)];
        v := stack[offset + k] + 256 * v;
      }
    }
  }
}
