/** The byte stack of core/src/state.cpp: little-endian accesses of 4 and 8 bytes. */
module Memory {
  import opened Ints

  /** The `n` low bytes of a value, lowest first. */
  function ToBytes(v: nat, n: nat): (b: seq<u8>)
    ensures |b| == n
  {
    if n == 0 then [] else [v % 256] + ToBytes(v / 256, n - 1)
  }

  function FromBytes(b: seq<u8>): nat {
    if b == [] then 0 else b[0] + 256 * FromBytes(b[1..])
  }

  function Store(mem: seq<u8>, a: nat, n: nat, v: nat): (m: seq<u8>)
    requires a + n <= |mem|
    ensures |m| == |mem|
  {
    mem[..a] + ToBytes(v, n) + mem[a + n..]
  }

  function Load(mem: seq<u8>, a: nat, n: nat): nat
    requires a + n <= |mem|
  {
    FromBytes(mem[a..a + n])
  }

  /** 256 to the `n`. */
  function Pow256(n: nat): (p: nat)
    ensures p > 0
  {
    if n == 0 then 1 else 256 * Pow256(n - 1)
  }

  lemma Pow256Values()
    ensures Pow256(4) == TWO32 && Pow256(8) == TWO64
  {
    assert Pow256(2) == 0x1_0000;
    assert Pow256(6) == 0x1_0000_0000_0000;
  }

  lemma {:induction false} FromBytesBound(b: seq<u8>)
    ensures FromBytes(b) < Pow256(|b|)
  {
    if b != [] {
      FromBytesBound(b[1..]);
    }
  }

  lemma {:induction false} BytesRoundTrip(v: nat, n: nat)
    requires v < Pow256(n)
    ensures FromBytes(ToBytes(v, n)) == v
  {
    if n > 0 {
      BytesRoundTrip(v / 256, n - 1);
      assert ToBytes(v, n)[1..] == ToBytes(v / 256, n - 1);
    }
  }

  lemma {:induction false} FromBytesRoundTrip(b: seq<u8>)
    ensures ToBytes(FromBytes(b), |b|) == b
  {
    if b != [] {
      FromBytesRoundTrip(b[1..]);
      LowestByte(b[0], FromBytes(b[1..]));
      assert [b[0]] + b[1..] == b;
    }
  }

  lemma LowestByte(low: u8, high: nat)
    ensures (low + 256 * high) % 256 == low && (low + 256 * high) / 256 == high
  {}

  /** What is left of a value above its `k` low bytes. */
  function High(v: nat, k: nat): nat {
    if k == 0 then v else High(v / 256, k - 1)
  }

  /** The bytes of a value split into the bytes of its low part and of its high part. */
  lemma {:induction false} ToBytesSplit(v: nat, n: nat, k: nat)
    requires k <= n
    ensures ToBytes(v, n) == ToBytes(v, k) + ToBytes(High(v, k), n - k)
  {
    if k > 0 {
      ToBytesSplit(v / 256, n - 1, k - 1);
    }
  }

  /** Storing one byte more. */
  lemma StoreNext(mem: seq<u8>, a: nat, n: nat, v: nat)
    requires a + n < |mem|
    ensures Store(mem, a, n + 1, v) == Store(mem, a, n, v)[a + n := High(v, n) % 256]
    ensures High(v, n) / 256 == High(v, n + 1)
  {
    hide High;
    ToBytesSplit(v, n + 1, n);
    assert ToBytes(High(v, n), 1) == [High(v, n) % 256];
    HighNext(v, n);
  }

  lemma {:induction false} HighNext(v: nat, n: nat)
    ensures High(v, n) / 256 == High(v, n + 1)
  {
    if n > 0 {
      HighNext(v / 256, n - 1);
    }
  }

  // ---------- reading what was written ----------

  /** A load of the stored cell returns the value. */
  lemma LoadStored(mem: seq<u8>, a: nat, n: nat, v: nat)
    requires a + n <= |mem| && v < Pow256(n)
    ensures Load(Store(mem, a, n, v), a, n) == v
  {
    assert Store(mem, a, n, v)[a..a + n] == ToBytes(v, n);
    BytesRoundTrip(v, n);
  }

  /** Disjoint cells do not interfere. */
  lemma LoadUnaffected(mem: seq<u8>, a: nat, n: nat, v: nat, b: nat, k: nat)
    requires a + n <= |mem| && b + k <= |mem| && (a + n <= b || b + k <= a)
    ensures Load(Store(mem, a, n, v), b, k) == Load(mem, b, k)
  {
    assert Store(mem, a, n, v)[b..b + k] == mem[b..b + k];
  }

  /** Storing what the cell holds changes nothing, and nothing else leaves memory unchanged. */
  lemma StoreSame(mem: seq<u8>, a: nat, n: nat, v: nat)
    requires a + n <= |mem| && v < Pow256(n)
    ensures Store(mem, a, n, v) == mem <==> Load(mem, a, n) == v
  {
    hide ToBytes, FromBytes, Pow256;
    LoadStored(mem, a, n, v);
    FromBytesRoundTrip(mem[a..a + n]);
  }

  /** A stored double word reads back as its low word and, above it, its high word. */
  lemma LoadHalves(mem: seq<u8>, a: nat, v: u64)
    requires a + 8 <= |mem|
    ensures Load(Store(mem, a, 8, v), a, 4) == v % TWO32
    ensures Load(Store(mem, a, 8, v), a + 4, 4) == v / TWO32
  {
    hide ToBytes, FromBytes, Store, High, Pow256;
    Pow256Values();
    StoredBytes(mem, a, 8, v, 4);
    HighWord(v);
    LowBytes(v, 4);
    BytesRoundTrip(v / TWO32, 4);
  }

  /** The first `k` bytes of a stored cell and the others. */
  lemma StoredBytes(mem: seq<u8>, a: nat, n: nat, v: nat, k: nat)
    requires a + n <= |mem| && k <= n
    ensures Store(mem, a, n, v)[a..a + k] == ToBytes(v, k)
    ensures Store(mem, a, n, v)[a + k..a + n] == ToBytes(High(v, k), n - k)
  {
    hide ToBytes, High;
    ToBytesSplit(v, n, k);
  }

  lemma HighWord(v: nat)
    ensures High(v, 4) == v / TWO32
  {
    assert High(v / 256, 3) == High(v / 256 / 256, 2) == High(v / 256 / 256 / 256, 1) == v / 256 / 256 / 256 / 256;
  }

  /** The low `n` bytes of a value read back as its remainder. */
  lemma {:induction false} LowBytes(v: nat, n: nat)
    ensures FromBytes(ToBytes(v, n)) == v % Pow256(n)
  {
    if n > 0 {
      LowBytes(v / 256, n - 1);
      assert ToBytes(v, n)[1..] == ToBytes(v / 256, n - 1);
      RemainderTwice(v, Pow256(n - 1));
    }
  }

  lemma RemainderTwice(v: nat, p: nat)
    requires p > 0
    ensures v % (256 * p) == v % 256 + 256 * ((v / 256) % p)
  {
    var h := v / 256;
    var q, r := h / p, h % p;
    assert h == q * p + r;
    assert 256 * (q * p) == q * (256 * p);
    DivModUnique(v, 256 * p, q, 256 * r + v % 256);
  }

  // ---------- any sequence of writes ----------

  datatype Write = Write(a: nat, n: nat, v: nat)

  ghost predicate Fits(ws: seq<Write>, size: nat) {
    forall i :: 0 <= i < |ws| ==> ws[i].a + ws[i].n <= size
  }

  /** The memory after the writes, first to last. */
  ghost function After(mem: seq<u8>, ws: seq<Write>): (m: seq<u8>)
    requires Fits(ws, |mem|)
    ensures |m| == |mem|
  {
    if ws == [] then mem
    else
      var w := ws[|ws| - 1];
      Store(After(mem, ws[..|ws| - 1]), w.a, w.n, w.v)
  }

  predicate Covers(w: Write, x: nat) {
    w.a <= x < w.a + w.n
  }

  /** The byte the most recent covering write left at `x`, if any write covers it. */
  ghost function Latest(ws: seq<Write>, x: nat, initial: u8): u8 {
    if ws == [] then initial
    else
      var w := ws[|ws| - 1];
      if Covers(w, x) then ToBytes(w.v, w.n)[x - w.a] else Latest(ws[..|ws| - 1], x, initial)
  }

  lemma {:induction false} ByteAfter(mem: seq<u8>, ws: seq<Write>, x: nat)
    requires Fits(ws, |mem|) && x < |mem|
    ensures After(mem, ws)[x] == Latest(ws, x, mem[x])
  {
    if ws != [] {
      ByteAfter(mem, ws[..|ws| - 1], x);
    }
  }

  /** Any mixture of stores, then a load of any size: byte by byte, the load returns the most recent
      write that covers the byte. */
  lemma LoadAfterWrites(mem: seq<u8>, ws: seq<Write>, a: nat, n: nat)
    requires Fits(ws, |mem|) && a + n <= |mem|
    ensures Load(After(mem, ws), a, n) < Pow256(n)
    ensures forall i :: 0 <= i < n ==>
              ToBytes(Load(After(mem, ws), a, n), n)[i] == Latest(ws, a + i, mem[a + i])
  {
    var cell := After(mem, ws)[a..a + n];
    FromBytesBound(cell);
    FromBytesRoundTrip(cell);
    forall i | 0 <= i < n ensures cell[i] == Latest(ws, a + i, mem[a + i]) {
      ByteAfter(mem, ws, a + i);
    }
  }
}
