/** src/parameter_extractor.cc: arguments read out of the debuggee's memory, eight bytes
    at a time.  Addresses are plain integers: a word that reaches past the top of the
    address space is unmapped. */
module ParameterExtractor {
  import opened Memory
  import opened Text
  import opened Helpers
  import opened Ptrace

  // ----- Characters

  /** `isprint` in the C locale; a byte of 0x80 and more is a negative `char`. */
  predicate IsPrintable(b: Byte) {
    32 <= b <= 126
  }

  const NEWLINE: Byte := 10

  /** The codes of `bs` in decimal, with nothing between them. */
  function Codes(bs: seq<Byte>): string {
    if bs == [] then "" else Codes(bs[..|bs| - 1]) + ToDecimal(bs[|bs| - 1])
  }

  /** The number of printable bytes from `a` on, up to the first one that is not printable
      or not mapped. */
  function PrintableRun(mem: Mem, a: nat): (n: nat)
    ensures Mapped(mem, a, n)
    ensures forall k :: a <= k < a + n ==> IsPrintable(mem[k])
    ensures a + n in mem ==> !IsPrintable(mem[a + n])
    decreases WORD_LIMIT - a
  {
    if a in mem && IsPrintable(mem[a]) then 1 + PrintableRun(mem, a + 1) else 0
  }

  /** The run of the bytes from 32 to 126 is the only one that cannot be extended. */
  lemma RunIsMaximal(mem: Mem, a: nat, n: nat)
    requires Mapped(mem, a, n) && forall k :: a <= k < a + n ==> 32 <= mem[k] <= 126
    requires a + n in mem ==> !(32 <= mem[a + n] <= 126)
    ensures n == PrintableRun(mem, a)
  {
    var m := PrintableRun(mem, a);
    assert n < m ==> a + n in mem;
    assert m < n ==> a + m in mem;
  }

  /** What reading whole words can see of that run: all of it if the word in which it ends
      is mapped, and otherwise only the words before. */
  function ScanLength(mem: Mem, a: nat): (n: nat)
    ensures n <= PrintableRun(mem, a)
  {
    var n := PrintableRun(mem, a);
    if Mapped(mem, a + n / 8 * 8, 8) then n else n / 8 * 8
  }

  /** The word scan sees the whole run exactly when the stopping byte's word is mapped or
      none of its bytes belong to the run. */
  lemma ScanSeesRun(mem: Mem, a: nat)
    ensures ScanLength(mem, a) == PrintableRun(mem, a)
       <==> Mapped(mem, a + PrintableRun(mem, a) / 8 * 8, 8) || PrintableRun(mem, a) % 8 == 0
  {
  }

  /** The eight `char`s of a peeked word are the bytes of memory, in order. */
  lemma CharsOfWord(mem: Mem, a: int)
    requires PeekData(mem, a) != ALL_ONES
    ensures Mapped(mem, a, 8)
    ensures forall j :: 0 <= j < 8 ==> a + j in mem && Encode(PeekData(mem, a), 8)[j] == mem[a + j]
  {
    EncodeOfDecode(LoadBytes(mem, a, 8));
  }

  /** The scan has printed the first `n` bytes at `a`, all of them printable. */
  ghost predicate Printed(mem: Mem, a: nat, n: nat, result: string) {
    && Mapped(mem, a, n)
    && (forall k :: a <= k < a + n ==> IsPrintable(mem[k]))
    && result == Codes(LoadBytes(mem, a, n))
  }

  lemma PrintedSnoc(mem: Mem, a: nat, n: nat, result: string)
    requires Printed(mem, a, n, result) && a + n in mem && IsPrintable(mem[a + n])
    ensures Printed(mem, a, n + 1, result + ToDecimal(mem[a + n]))
  {
    hide Codes, ToDecimal, IsPrintable;
    CodesSnoc(LoadBytes(mem, a, n), mem[a + n]);
    assert LoadBytes(mem, a, n + 1) == LoadBytes(mem, a, n) + [mem[a + n]];
  }

  /** The scan for characters.  The nested word and byte loops print the longest printable
      prefix of memory that whole words can see. */
  method GetCharData(child: Tracee, addr: Word) returns (result: string)
    ensures result == Codes(LoadBytes(child.cpu.mem, addr, ScanLength(child.cpu.mem, addr)))
  {
    hide Printed, PeekData, Mapped, Encode, ScanLength;
    ghost var mem := child.cpu.mem;
    result := "";
    PrintedNothing(mem, addr);
    var index := 0;
    while true
      invariant index >= 0 && addr + 8 * index <= WORD_LIMIT
      invariant Printed(mem, addr, 8 * index, result)
      decreases WORD_LIMIT - addr - 8 * index
    {
      var base := addr + 8 * index;
      var data := child.Peek(base);
      if data == ALL_ONES {
        ScanEndsAtWord(mem, addr, index, result);
        break;
      }
      CharsOfWord(mem, base);
      UnmappedAbove(mem, base);
      var chars := Encode(data, 8);
      var j := 0;
      var quit := false;
      while j < 8 && chars[j] != NEWLINE
        invariant 0 <= j <= 8 && !quit
        invariant Printed(mem, addr, 8 * index + j, result)
      {
        if IsPrintable(chars[j]) {
          PrintedSnoc(mem, addr, 8 * index + j, result);
          result := result + ToDecimal(chars[j]);
        } else {
          quit := true;
          break;
        }
        j := j + 1;
      }
      if quit || (j < 8 && chars[j] == NEWLINE) {
        ScanEndsInWord(mem, addr, index, j, result);
        break;
      }
      index := index + 1;
    }
  }

  lemma PrintedNothing(mem: Mem, a: nat)
    ensures Printed(mem, a, 0, "")
  {
  }

  lemma CodesSnoc(bs: seq<Byte>, b: Byte)
    ensures Codes(bs + [b]) == Codes(bs) + ToDecimal(b)
  {
    assert (bs + [b])[..|bs|] == bs;
  }

  /** A mapped word of ones stops the run at its first byte. */
  lemma RunStopsAtOnes(mem: Mem, a: nat, index: nat)
    requires Mapped(mem, a, 8 * index) && forall k :: a <= k < a + 8 * index ==> IsPrintable(mem[k])
    requires Mapped(mem, a + 8 * index, 8) && PeekData(mem, a + 8 * index) == ALL_ONES
    ensures PrintableRun(mem, a) == 8 * index
  {
    hide PeekData, PrintableRun;
    PeekIsAllOnes(mem, a + 8 * index);
    assert a + 8 * index in mem && mem[a + 8 * index] == 0xFF;
    RunIsMaximal(mem, a, 8 * index);
  }

  /** Before a word that is not mapped the run ends within that word. */
  lemma RunEndsBeforeGap(mem: Mem, a: nat, index: nat)
    requires Mapped(mem, a, 8 * index) && forall k :: a <= k < a + 8 * index ==> IsPrintable(mem[k])
    requires !Mapped(mem, a + 8 * index, 8)
    ensures 8 * index <= PrintableRun(mem, a) < 8 * index + 8
  {
    hide PrintableRun;
    var n := PrintableRun(mem, a);
    assert n < 8 * index ==> a + n in mem;
    var k :| a + 8 * index <= k < a + 8 * index + 8 && k !in mem;
    assert n <= k - a;
  }

  lemma ScanEndsAtWord(mem: Mem, a: nat, index: nat, result: string)
    requires Printed(mem, a, 8 * index, result) && PeekData(mem, a + 8 * index) == ALL_ONES
    ensures result == Codes(LoadBytes(mem, a, ScanLength(mem, a)))
  {
    hide PeekData, PrintableRun, Codes;
    if Mapped(mem, a + 8 * index, 8) {
      RunStopsAtOnes(mem, a, index);
    } else {
      RunEndsBeforeGap(mem, a, index);
      assert PrintableRun(mem, a) / 8 * 8 == 8 * index;
    }
    assert ScanLength(mem, a) == 8 * index;
  }

  lemma ScanEndsInWord(mem: Mem, a: nat, index: nat, j: nat, result: string)
    requires Printed(mem, a, 8 * index + j, result) && j < 8 && Mapped(mem, a + 8 * index, 8)
    requires a + 8 * index + j in mem && !IsPrintable(mem[a + 8 * index + j])
    ensures result == Codes(LoadBytes(mem, a, ScanLength(mem, a)))
  {
    hide PrintableRun, Codes;
    RunIsMaximal(mem, a, 8 * index + j);
    assert ScanLength(mem, a) == 8 * index + j;
  }

  // ----- Numbers

  /** The scan stops at a failing, zero or out-of-range word. */
  predicate NumberStops(mem: Mem, a: nat) {
    var w := PeekData(mem, a);
    w == ALL_ONES || Int32(w) == 0 || w >= 0x1000_0000_0000_0000 || 0x1000_0000 <= w < 0x1_0000_0000
  }

  /** A zero size means slots of four bytes. */
  function Stride(byteSize: nat): (s: nat)
    ensures s > 0
  {
    if byteSize == 0 then 4 else byteSize
  }

  /** The values of the maximal prefix of slots that do not stop the scan. */
  function Numbers(mem: Mem, a: nat, stride: nat): (values: seq<int>)
    requires stride > 0
    decreases WORD_LIMIT - a
  {
    if NumberStops(mem, a) then [] else
      UnmappedAbove(mem, a);
      [Int32(PeekData(mem, a))] + Numbers(mem, a + stride, stride)
  }

  lemma UnmappedAbove(mem: Mem, a: int)
    ensures PeekData(mem, a) != ALL_ONES ==> a + 8 <= WORD_LIMIT
  {
    assert Mapped(mem, a, 8) ==> a + 7 in mem;
  }

  /** A word that ends a list of numbers: it reads as -1, its low half is zero, or it would be
      printed with sixteen or with eight hexadecimal digits. */
  predicate EndsNumbers(w: Word) {
    || w == 0xFFFF_FFFF_FFFF_FFFF
    || w % 0x1_0000_0000 == 0
    || w >= 0x1000_0000_0000_0000
    || 0x1000_0000 <= w <= 0xFFFF_FFFF
  }

  /** Slot i is read at a + i * stride; every slot before the end passes, the next stops. */
  lemma {:induction false} NumbersAreMaximalPrefix(mem: Mem, a: nat, stride: nat, i: nat)
    requires stride > 0 && i <= |Numbers(mem, a, stride)|
    ensures var values := Numbers(mem, a, stride);
            var w := PeekData(mem, a + i * stride);
            if i < |values| then !EndsNumbers(w) && values[i] == Int32(w) else EndsNumbers(w)
    decreases i
  {
    hide PeekData;
    if i > 0 {
      NumbersAreMaximalPrefix(mem, a + stride, stride, i - 1);
      assert a + stride + (i - 1) * stride == a + i * stride;
    }
  }

  function DecimalsOf(values: seq<int>): (ss: seq<string>)
    ensures |ss| == |values|
  {
    seq(|values|, i requires 0 <= i < |values| => ToDecimal(values[i]))
  }

  /** "[n,..,n]", or nothing at all for no values. */
  function RenderNumbers(values: seq<int>): string {
    if values == [] then "" else "[" + Join(DecimalsOf(values), ',') + "]"
  }

  /** The text of the list while its first `idx` values are printed. */
  function PartialList(values: seq<int>, idx: nat): string
    requires idx <= |values|
  {
    if idx == 0 then "["
    else "[" + Join(DecimalsOf(values[..idx]), ',') + if idx == |values| then "" else ","
  }

  lemma PartialListStep(values: seq<int>, idx: nat)
    requires idx < |values|
    ensures PartialList(values, idx + 1)
         == PartialList(values, idx) + ToDecimal(values[idx]) + if idx == |values| - 1 then "" else ","
  {
    assert DecimalsOf(values[..idx + 1]) == DecimalsOf(values[..idx]) + [ToDecimal(values[idx])];
    if idx > 0 {
      JoinSnoc(DecimalsOf(values[..idx]), ',', ToDecimal(values[idx]));
    }
  }

  lemma NumbersStep(mem: Mem, addr: nat, stride: nat, values: seq<int>, index: nat)
    requires stride > 0 && Numbers(mem, addr, stride) == values + Numbers(mem, addr + index * stride, stride)
    ensures var a := addr + index * stride;
            if NumberStops(mem, a) then Numbers(mem, addr, stride) == values
            else Numbers(mem, addr, stride) ==
                   values + [Int32(PeekData(mem, a))] + Numbers(mem, addr + (index + 1) * stride, stride)
  {
    assert addr + (index + 1) * stride == addr + index * stride + stride;
  }

  /** The scan for numbers. */
  method GetNumberData(child: Tracee, addr: Word, byteSize: nat) returns (result: string)
    ensures result == RenderNumbers(Numbers(child.cpu.mem, addr, Stride(byteSize)))
  {
    hide Numbers, PeekData, Int32, LongToHexString, PartialList, DecimalsOf, Join;
    ghost var mem, stride := child.cpu.mem, Stride(byteSize);
    var index := 0;
    var values: seq<int> := [];
    while true
      invariant index >= 0
      invariant Numbers(mem, addr, stride) == values + Numbers(mem, addr + index * stride, stride)
      decreases WORD_LIMIT - addr - index * stride
    {
      var dataAddress := addr + index * 8 / 2;
      if byteSize != 0 {
        dataAddress := addr + index * byteSize;
      }
      assert dataAddress == addr + index * stride;
      NumbersStep(mem, addr, stride, values, index);
      var data := child.Peek(dataAddress);
      if data == ALL_ONES {
        break;
      }
      if Int32(data) == 0 {
        break;
      }
      HexLength(data);
      if |LongToHexString(data)| == 18 || |LongToHexString(data)| == 10 {
        break;
      }
      UnmappedAbove(mem, dataAddress);
      values := values + [Int32(data)];
      index := index + 1;
      assert addr + index * stride == dataAddress + stride;
    }
    if |values| == 0 {
      return "";
    }
    result := "[";
    PartialListEnds(values);
    for idx := 0 to |values|
      invariant result == PartialList(values, idx)
    {
      PartialListStep(values, idx);
      if idx == |values| - 1 {
        result := result + ToDecimal(values[idx]);
      } else {
        result := result + ToDecimal(values[idx]) + ",";
      }
    }
    result := result + "]";
  }

  lemma PartialListEnds(values: seq<int>)
    ensures PartialList(values, 0) == "["
    ensures values != [] ==> PartialList(values, |values|) + "]" == RenderNumbers(values)
  {
    assert values[..|values|] == values;
  }

  // ----- Pointers

  predicate PointerStops(mem: Mem, a: nat) {
    PeekData(mem, a) == ALL_ONES || PeekData(mem, a) == 0
  }

  /** The pointers in the maximal prefix of eight-byte slots that hold one. */
  function Pointers(mem: Mem, a: nat): (ps: seq<Word>)
    ensures forall i :: 0 <= i < |ps| ==> ps[i] != 0
    decreases WORD_LIMIT - a
  {
    if PointerStops(mem, a) then [] else
      UnmappedAbove(mem, a);
      [PeekData(mem, a)] + Pointers(mem, a + 8)
  }

  /** Slot i is read at a + 8 * i; every slot before the end holds a pointer, the next none. */
  lemma {:induction false} PointersAreMaximalPrefix(mem: Mem, a: nat, i: nat)
    requires i <= |Pointers(mem, a)|
    ensures var ps := Pointers(mem, a);
            var w := PeekData(mem, a + 8 * i);
            if i < |ps| then w != 0 && w != 0xFFFF_FFFF_FFFF_FFFF && ps[i] == w
            else w == 0 || w == 0xFFFF_FFFF_FFFF_FFFF
    decreases i
  {
    hide PeekData;
    if i > 0 {
      PointersAreMaximalPrefix(mem, a + 8, i - 1);
    }
  }

  /** The scan for pointers returns the addresses of the slots, not the pointers in them. */
  method GetAddressData(child: Tracee, addr: Word) returns (result: seq<Word>)
    ensures |result| == |Pointers(child.cpu.mem, addr)|
    ensures forall i :: 0 <= i < |result| ==>
              result[i] == addr + 8 * i && PeekData(child.cpu.mem, result[i]) == Pointers(child.cpu.mem, addr)[i]
  {
    hide Pointers, PeekData;
    ghost var mem := child.cpu.mem;
    ghost var found: seq<Word> := [];
    result := [];
    var index := 0;
    while true
      invariant index == |result| == |found|
      invariant forall i :: 0 <= i < index ==> result[i] == addr + 8 * i && PeekData(mem, result[i]) == found[i]
      invariant Pointers(mem, addr) == found + Pointers(mem, addr + 8 * index)
      decreases WORD_LIMIT - addr - 8 * index
    {
      var dataAddress := addr + 8 * index;
      PointersUnfold(mem, dataAddress);
      var data := child.Peek(dataAddress);
      if data == ALL_ONES {
        break;
      }
      if data == 0 {
        break;
      }
      UnmappedAbove(mem, dataAddress);
      result := result + [dataAddress];
      found := found + [data];
      index := index + 1;
    }
  }

  lemma PointersUnfold(mem: Mem, a: nat)
    ensures Pointers(mem, a) == if PointerStops(mem, a) then [] else [PeekData(mem, a)] + Pointers(mem, a + 8)
  {
  }
}
