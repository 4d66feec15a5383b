/** Byte-addressed memory of the debuggee and the eight-byte words through which
    PTRACE_PEEKDATA and PTRACE_POKEDATA see it. */
module Memory {

  const WORD_LIMIT: int := 0x1_0000_0000_0000_0000
  const ALL_ONES: Word := 0xFFFF_FFFF_FFFF_FFFF
  const INT3: Byte := 0xCC

  type Byte = b: int | 0 <= b < 0x100
  type Word = w: int | 0 <= w < 0x1_0000_0000_0000_0000

  /** The mapped bytes of the address space. */
  type Mem = map<Word, Byte>

  /** 64-bit wrap-around. */
  function Wrap(x: int): Word {
    x % 0x1_0000_0000_0000_0000
  }

  /** 64-bit addition. */
  function Plus(a: int, b: int): Word {
    Wrap(a + b)
  }

  /** The low 32 bits of a word, read as a signed number: `(int32_t)w`. */
  function Int32(w: Word): int {
    var low := w % 0x1_0000_0000;
    if low < 0x8000_0000 then low else low - 0x1_0000_0000
  }

  /** A word read as a signed number: `(long long)w`. */
  function Int64(w: Word): int {
    if w < 0x8000_0000_0000_0000 then w else w - 0x1_0000_0000_0000_0000
  }

  // ----- Little-endian words

  function Pow256(n: nat): (p: nat)
    ensures p > 0
  {
    if n == 0 then 1 else 256 * Pow256(n - 1)
  }

  function Encode(w: nat, n: nat): (bs: seq<Byte>)
    ensures |bs| == n
  {
    if n == 0 then [] else [w % 256] + Encode(w / 256, n - 1)
  }

  function Decode(bs: seq<Byte>): nat {
    if bs == [] then 0 else bs[0] + 256 * Decode(bs[1..])
  }

  lemma {:induction false} DecodeBound(bs: seq<Byte>)
    ensures Decode(bs) < Pow256(|bs|)
  {
    if bs != [] {
      DecodeBound(bs[1..]);
    }
  }

  lemma {:induction false} EncodeOfDecode(bs: seq<Byte>)
    ensures Encode(Decode(bs), |bs|) == bs
  {
    if bs != [] {
      EncodeOfDecode(bs[1..]);
      assert Decode(bs) % 256 == bs[0] && Decode(bs) / 256 == Decode(bs[1..]);
    }
  }

  lemma Pow256Of8()
    ensures Pow256(8) == WORD_LIMIT
  {
    assert Pow256(4) == 0x1_0000_0000;
    assert Pow256(6) == 256 * (256 * Pow256(4));
    assert Pow256(8) == 256 * (256 * Pow256(6));
  }

  /** An all-ones word is eight 0xFF bytes. */
  lemma {:induction false} DecodeAllOnes(bs: seq<Byte>)
    ensures Decode(bs) == Pow256(|bs|) - 1 <==> forall i :: 0 <= i < |bs| ==> bs[i] == 0xFF
  {
    if bs != [] {
      DecodeAllOnes(bs[1..]);
      DecodeBound(bs[1..]);
      assert forall i :: 1 <= i < |bs| ==> bs[i] == bs[1..][i - 1];
      assert forall i :: 0 <= i < |bs| - 1 ==> bs[1..][i] == bs[i + 1];
    }
  }

  // ----- Ranges of bytes

  predicate Mapped(mem: Mem, a: int, n: nat) {
    forall k :: a <= k < a + n ==> k in mem
  }

  function LoadBytes(mem: Mem, a: int, n: nat): (bs: seq<Byte>)
    requires Mapped(mem, a, n)
    ensures |bs| == n && forall i :: 0 <= i < n ==> bs[i] == mem[a + i]
  {
    seq(n, i requires 0 <= i < n => mem[a + i])
  }

  function StoreBytes(mem: Mem, a: int, bs: seq<Byte>): (mem': Mem)
    ensures mem'.Keys == mem.Keys
    ensures forall k <- mem :: mem'[k] == if a <= k < a + |bs| then bs[k - a] else mem[k]
  {
    map k | k in mem :: if a <= k < a + |bs| then bs[k - a] else mem[k]
  }

  // ----- PTRACE_PEEKDATA and PTRACE_POKEDATA

  /** A failing read is indistinguishable from a word of ones: both come back as -1. */
  function PeekData(mem: Mem, a: int): Word {
    if Mapped(mem, a, 8) then LoadWord(mem, a) else ALL_ONES
  }

  function LoadWord(mem: Mem, a: int): Word
    requires Mapped(mem, a, 8)
  {
    Pow256Of8();
    DecodeBound(LoadBytes(mem, a, 8));
    Decode(LoadBytes(mem, a, 8))
  }

  function StoreWord(mem: Mem, a: int, w: Word): (mem': Mem)
    ensures mem'.Keys == mem.Keys
  {
    StoreBytes(mem, a, Encode(w, 8))
  }

  function PokeData(mem: Mem, a: int, w: Word): (mem': Mem)
    ensures mem'.Keys == mem.Keys
  {
    if Mapped(mem, a, 8) then StoreWord(mem, a, w) else mem
  }

  /** `(w & 0xFFFFFFFFFFFFFF00) | b` */
  function SetLowByte(w: Word, b: Byte): Word {
    w - w % 256 + b
  }

  /** PEEK fails or reads -1 exactly on an unmapped range or on eight 0xFF bytes. */
  lemma PeekIsAllOnes(mem: Mem, a: int)
    ensures PeekData(mem, a) == ALL_ONES
       <==> (Mapped(mem, a, 8) ==> forall k :: a <= k < a + 8 ==> mem[k] == 0xFF)
  {
    if Mapped(mem, a, 8) {
      var bs := LoadBytes(mem, a, 8);
      Pow256Of8();
      DecodeAllOnes(bs);
      assert forall k :: a <= k < a + 8 ==> mem[k] == bs[k - a];
    }
  }

  /** The low byte of a peeked word is the byte at the address itself. */
  lemma LowByteOfPeek(mem: Mem, a: int)
    requires Mapped(mem, a, 8)
    ensures PeekData(mem, a) % 256 == mem[a]
  {
  }

  lemma SetLowByteSplits(w: Word, b: Byte)
    ensures SetLowByte(w, b) % 256 == b && SetLowByte(w, b) / 256 == w / 256
  {
    assert SetLowByte(w, b) == 256 * (w / 256) + b;
  }

  lemma EncodeSetLowByte(bs: seq<Byte>, b: Byte)
    requires |bs| == 8 && Decode(bs) < WORD_LIMIT
    ensures Encode(SetLowByte(Decode(bs), b), 8) == [b] + bs[1..]
  {
    var w := Decode(bs);
    EncodeOfDecode(bs);
    SetLowByteSplits(w, b);
    assert Encode(w, 8) == [w % 256] + Encode(w / 256, 7);
    assert Encode(w / 256, 7) == bs[1..];
  }

  /** Rewriting a whole word with a changed low byte changes that one byte of memory
      and no other, whatever else lives in the word. */
  lemma PatchOneByte(mem: Mem, a: Word, b: Byte)
    requires Mapped(mem, a, 8)
    ensures PokeData(mem, a, SetLowByte(PeekData(mem, a), b)) == mem[a := b]
  {
    hide Encode, Decode, Pow256;
    var bs := LoadBytes(mem, a, 8);
    Pow256Of8();
    DecodeBound(bs);
    EncodeSetLowByte(bs, b);
    var mem' := StoreBytes(mem, a, [b] + bs[1..]);
    forall k | k in mem
      ensures mem'[k] == mem[a := b][k]
    {
      if a < k < a + 8 {
        assert ([b] + bs[1..])[k - a] == bs[k - a] == mem[k];
      }
    }
    assert mem' == mem[a := b];
  }
}
