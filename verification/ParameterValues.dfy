/** src/parameter_extractor.cc: how a value becomes the text of an argument. */
module ParameterValues {
  import opened Memory
  import opened Text
  import opened Helpers
  import opened Common
  import opened Ptrace
  import opened ParameterExtractor
  import opened Rendering

  /** The pointers at `value`, each with the numbers it leads to. */
  function NumberPairs(mem: Mem, value: Word, byteSize: nat): (pairs: seq<(Word, seq<int>)>)
    ensures forall i :: 0 <= i < |pairs| ==> pairs[i].0 != 0
  {
    var ps := Pointers(mem, value);
    seq(|ps|, i requires 0 <= i < |ps| => (ps[i], Numbers(mem, ps[i], Stride(byteSize))))
  }

  /** The printable bytes that the word scan finds at `a`. */
  function StringAt(mem: Mem, a: nat): (bs: seq<Byte>)
    ensures forall i :: 0 <= i < |bs| ==> IsPrintable(bs[i])
  {
    LoadBytes(mem, a, ScanLength(mem, a))
  }

  function StringPairs(mem: Mem, value: Word): (pairs: seq<(Word, seq<Byte>)>)
    ensures PrintablePairs(pairs)
  {
    var ps := Pointers(mem, value);
    seq(|ps|, i requires 0 <= i < |ps| => (ps[i], StringAt(mem, ps[i])))
  }

  // ----- What is found in memory, byte by byte and word by word

  /** `values` are the numbers in the slots of `stride` bytes from `a` on. */
  ghost predicate ListsNumbers(mem: Mem, a: nat, stride: nat, values: seq<int>) {
    && (forall k :: 0 <= k < |values| ==>
          !EndsNumbers(PeekData(mem, a + k * stride)) && values[k] == Int32(PeekData(mem, a + k * stride)))
    && EndsNumbers(PeekData(mem, a + |values| * stride))
  }

  /** `ps` are the words from `a` on, up to a zero or a word that reads as -1. */
  ghost predicate ListsPointers(mem: Mem, a: nat, ps: seq<Word>) {
    && (forall k :: 0 <= k < |ps| ==>
          ps[k] == PeekData(mem, a + 8 * k) && ps[k] != 0 && ps[k] != 0xFFFF_FFFF_FFFF_FFFF)
    && PeekData(mem, a + 8 * |ps|) in {0, 0xFFFF_FFFF_FFFF_FFFF}
  }

  /** `bs` are the bytes from `a` on, up to one that is not printable in a mapped word, or up to
      a word that is not mapped. */
  ghost predicate ListsText(mem: Mem, a: nat, bs: seq<Byte>) {
    && (forall k :: 0 <= k < |bs| ==> a + k in mem && bs[k] == mem[a + k] && 32 <= bs[k] <= 126)
    && if Mapped(mem, a + |bs| / 8 * 8, 8) then a + |bs| in mem && !(32 <= mem[a + |bs|] <= 126)
       else |bs| % 8 == 0
  }

  /** `pairs` are the pointers from `a` on, each with the numbers it leads to. */
  ghost predicate ListsNumberPairs(mem: Mem, a: nat, stride: nat, pairs: seq<(Word, seq<int>)>) {
    && ListsPointers(mem, a, seq(|pairs|, k requires 0 <= k < |pairs| => pairs[k].0))
    && forall k :: 0 <= k < |pairs| ==> ListsNumbers(mem, pairs[k].0, stride, pairs[k].1)
  }

  /** `pairs` are the pointers from `a` on, each with the text it leads to. */
  ghost predicate ListsTextPairs(mem: Mem, a: nat, pairs: seq<(Word, seq<Byte>)>) {
    && ListsPointers(mem, a, seq(|pairs|, k requires 0 <= k < |pairs| => pairs[k].0))
    && forall k :: 0 <= k < |pairs| ==> ListsText(mem, pairs[k].0, pairs[k].1)
  }

  lemma NumbersAreListed(mem: Mem, a: nat, stride: nat)
    requires stride > 0
    ensures ListsNumbers(mem, a, stride, Numbers(mem, a, stride))
  {
    hide PeekData, EndsNumbers, Numbers;
    var values := Numbers(mem, a, stride);
    NumbersAreMaximalPrefix(mem, a, stride, |values|);
    forall k | 0 <= k < |values|
      ensures !EndsNumbers(PeekData(mem, a + k * stride)) && values[k] == Int32(PeekData(mem, a + k * stride))
    {
      NumbersAreMaximalPrefix(mem, a, stride, k);
    }
  }

  lemma PointersAreListed(mem: Mem, a: nat)
    ensures ListsPointers(mem, a, Pointers(mem, a))
  {
    hide PeekData, Pointers;
    var ps := Pointers(mem, a);
    PointersAreMaximalPrefix(mem, a, |ps|);
    forall k: nat | k < |ps|
      ensures ps[k] == PeekData(mem, a + 8 * k) && ps[k] != 0 && ps[k] != 0xFFFF_FFFF_FFFF_FFFF
    {
      PointersAreMaximalPrefix(mem, a, k);
    }
  }

  lemma TextIsListed(mem: Mem, a: nat)
    ensures ListsText(mem, a, StringAt(mem, a))
  {
    hide PrintableRun;
    var n := PrintableRun(mem, a);
    var bs := StringAt(mem, a);
    if |bs| < n {
      assert |bs| == n / 8 * 8;
    }
  }

  lemma NumberPairsAreListed(mem: Mem, a: Word, byteSize: nat)
    ensures ListsNumberPairs(mem, a, Stride(byteSize), NumberPairs(mem, a, byteSize))
  {
    hide Pointers, Numbers, ListsNumbers, ListsPointers;
    var pairs := NumberPairs(mem, a, byteSize);
    PointersAreListed(mem, a);
    assert seq(|pairs|, k requires 0 <= k < |pairs| => pairs[k].0) == Pointers(mem, a);
    forall k | 0 <= k < |pairs|
      ensures ListsNumbers(mem, pairs[k].0, Stride(byteSize), pairs[k].1)
    {
      NumbersAreListed(mem, pairs[k].0, Stride(byteSize));
    }
  }

  lemma TextPairsAreListed(mem: Mem, a: Word)
    ensures ListsTextPairs(mem, a, StringPairs(mem, a))
  {
    hide Pointers, StringAt, ListsText, ListsPointers;
    var pairs := StringPairs(mem, a);
    PointersAreListed(mem, a);
    assert seq(|pairs|, k requires 0 <= k < |pairs| => pairs[k].0) == Pointers(mem, a);
    forall k | 0 <= k < |pairs|
      ensures ListsText(mem, pairs[k].0, pairs[k].1)
    {
      TextIsListed(mem, pairs[k].0);
    }
  }

  // ----- The texts

  function WithNumber(p: Param, mem: Mem, value: Word, isArray: bool): Param {
    if !isArray then p.(value := ToDecimal(Int64(value)))
    else if value == 0 then p.(value := "0x0")
    else p.(value := LongToHexString(value), valueAlias := RenderNumbers(Numbers(mem, value, Stride(p.byteSize))))
  }

  function WithNumbers(p: Param, mem: Mem, value: Word): Param {
    p.(valueAlias := RenderEntries(NumberEntries(NumberPairs(mem, value, p.byteSize))))
  }

  function WithString(p: Param, mem: Mem, value: Word, isArray: bool): Param {
    if !isArray then p.(value := ToDecimal(Int64(value)))
    else p.(value := LongToHexString(value), valueAlias := Codes(StringAt(mem, value)))
  }

  function WithStrings(p: Param, mem: Mem, value: Word): Param {
    p.(valueAlias := RenderEntries(StringEntries(StringPairs(mem, value))))
  }

  method GetNumberValue(child: Tracee, param: SdbParameter, value: Word, isArray: bool)
    modifies param
    ensures param.Copy() == WithNumber(old(param.Copy()), child.cpu.mem, value, isArray)
  {
    if !isArray {
      if value == 0 {
        param.value := "0";
        assert ToDecimal(0) == "0";
      } else {
        param.value := ToDecimal(Int64(value));
      }
      return;
    }
    if value == 0 {
      param.value := "0x0";
      return;
    }
    param.value := LongToHexString(value);
    var data := GetNumberData(child, value, param.byteSize);
    param.valueAlias := data;
  }

  /** Appending one entry to the list under construction. */
  lemma EntryAppended(entries: seq<string>, idx: nat, pointer: Word, payload: string, text: string)
    requires idx < |entries| && entries[idx] == RenderEntry(pointer, payload) && text == PartialEntries(entries, idx)
    ensures text + LongToHexString(pointer) + "=" + payload + (if idx == |entries| - 1 then " " else ", ")
         == PartialEntries(entries, idx + 1)
  {
    PartialEntriesStep(entries, idx);
    var hex, sep := LongToHexString(pointer), if idx == |entries| - 1 then " " else ", ";
    assert text + hex + "=" + payload + sep == text + (hex + "=" + payload) + sep;
  }

  method GetMultiNumberValue(child: Tracee, param: SdbParameter, value: Word)
    modifies param
    ensures param.Copy() == WithNumbers(old(param.Copy()), child.cpu.mem, value)
  {
    hide PartialEntries, RenderEntries, RenderEntry, RenderNumbers, Numbers, Pointers;
    hide LongToHexString, PeekData;
    ghost var mem := child.cpu.mem;
    var addrs := GetAddressData(child, value);
    ghost var entries := NumberEntries(NumberPairs(mem, value, param.byteSize));
    PartialEntriesEnds(entries);
    param.valueAlias := "[ ";
    for idx := 0 to |addrs|
      invariant param.valueAlias == PartialEntries(entries, idx)
      invariant param.Copy() == old(param.Copy()).(valueAlias := param.valueAlias)
    {
      var addr := child.Peek(addrs[idx]);
      var data := GetNumberData(child, addr, param.byteSize);
      EntryAppended(entries, idx, addr, data, param.valueAlias);
      if idx == |addrs| - 1 {
        param.valueAlias := param.valueAlias + LongToHexString(addr) + "=" + data + " ";
      } else {
        param.valueAlias := param.valueAlias + LongToHexString(addr) + "=" + data + ", ";
      }
    }
    param.valueAlias := param.valueAlias + "]";
  }

  method GetStringValue(child: Tracee, param: SdbParameter, value: Word, isArray: bool)
    modifies param
    ensures param.Copy() == WithString(old(param.Copy()), child.cpu.mem, value, isArray)
  {
    if !isArray {
      param.value := ToDecimal(Int64(value));
      return;
    }
    param.value := LongToHexString(value);
    var data := GetCharData(child, value);
    param.valueAlias := data;
  }

  method GetMultiStringValue(child: Tracee, param: SdbParameter, value: Word)
    modifies param
    ensures param.Copy() == WithStrings(old(param.Copy()), child.cpu.mem, value)
  {
    hide PartialEntries, RenderEntries, RenderEntry, Codes, ScanLength, Pointers, LongToHexString, PeekData;
    ghost var mem := child.cpu.mem;
    var addrs := GetAddressData(child, value);
    ghost var entries := StringEntries(StringPairs(mem, value));
    PartialEntriesEnds(entries);
    param.valueAlias := "[ ";
    for idx := 0 to |addrs|
      invariant param.valueAlias == PartialEntries(entries, idx)
      invariant param.Copy() == old(param.Copy()).(valueAlias := param.valueAlias)
    {
      var addr := child.Peek(addrs[idx]);
      var data := GetCharData(child, addr);
      EntryAppended(entries, idx, addr, data, param.valueAlias);
      if idx == |addrs| - 1 {
        param.valueAlias := param.valueAlias + LongToHexString(addr) + "=" + data + " ";
      } else {
        param.valueAlias := param.valueAlias + LongToHexString(addr) + "=" + data + ", ";
      }
    }
    param.valueAlias := param.valueAlias + "]";
  }

  /** What a reader of the alias gets back. */
  lemma NumbersReadBack(p: Param, mem: Mem, value: Word)
    ensures ParseNumberAlias(WithNumbers(p, mem, value).valueAlias) == Some(NumberPairs(mem, value, p.byteSize))
  {
    NumberAliasRoundTrip(NumberPairs(mem, value, p.byteSize));
  }

  lemma StringsReadBack(p: Param, mem: Mem, value: Word)
    ensures ParseStringAlias(WithStrings(p, mem, value).valueAlias) == Some(StringPairs(mem, value))
  {
    StringAliasRoundTrip(StringPairs(mem, value));
  }
}
