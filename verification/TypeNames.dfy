/** src/compile_unit.cc: `get_datatype_metadata`, which collects the tags along a type chain
    and writes the type's name from right to left. */
module TypeNames {
  import opened Text
  import opened Common
  import opened TypeChain

  /** The name `dt` with the entry `h` put in front; `tags` are the tags so far. */
  function Prepend(h: DataType, tags: seq<Tag>, dt: string): string {
    var afterTypedef := |tags| > 0 && tags[|tags| - 1] == Typedef;
    match h.tag
    case PointerType => (if h.typ == 0 then "void " else "") + ("*" + dt)
    case Typedef => (if afterTypedef then "(" + h.name + ") " else h.name + " ") + dt
    case ConstType => "const " + dt
    case _ =>
      if afterTypedef && h.tag == BaseType && h.name != "" then "(" + h.name + ") " + dt
      else if h.name != "" then h.name + " " + dt
      else dt
  }

  /** The name after the hops to the entries of `c`. */
  function NameAlong(dts: seq<DataType>, c: seq<nat>, tags: seq<Tag>, dt: string): string
    requires forall j :: 0 <= j < |c| ==> c[j] < |dts|
  {
    if c == [] then dt
    else
      var h := dts[c[0]];
      NameAlong(dts, c[1..], tags + [h.tag], Prepend(h, tags, dt))
  }

  function SizeAlong(dts: seq<DataType>, c: seq<nat>, byteSize: nat): nat
    requires forall j :: 0 <= j < |c| ==> c[j] < |dts|
  {
    if c == [] then byteSize else dts[c[|c| - 1]].byteSize
  }

  function StartTags(subject: DataType): seq<Tag> {
    if subject.tag == UnspecifiedParameters then [UnspecifiedParameters] else []
  }

  function StartName(subject: DataType): string {
    if subject.tag == UnspecifiedParameters then "..." else ""
  }

  /** What the whole chain of `subject` makes of a parameter. */
  function WithMetadata(dts: seq<DataType>, subject: DataType, p: Param): Param {
    var c := WholeChain(dts, subject.typ);
    var tags := p.datatypes + StartTags(subject);
    p.(datatypes := tags + TagsOf(dts, c),
       byteSize := SizeAlong(dts, c, p.byteSize),
       dtName := NameAlong(dts, c, tags, StartName(subject)))
  }

  /** Follows the chain for at most `fuel` hops.  `done` is false if it has not ended then;
      with as many hops as there are types that means that it never does. */
  method GetDatatypeMetadata(dts: seq<DataType>, subject: DataType, param: SdbParameter, fuel: nat)
    returns (done: bool)
    requires fuel >= |dts|
    modifies param
    ensures done <==> Terminates(dts, subject.typ)
    ensures done ==> param.Copy() == WithMetadata(dts, subject, old(param.Copy()))
  {
    hide Ends, Chain, Prepend, NameAlong, SizeAlong, Walked, Terminates;
    EndsIffNeverRevisits(dts, subject.typ);
    ghost var before := param.Copy();
    var dt := "";
    var stopSearch := true;
    if subject.tag == UnspecifiedParameters {
      param.datatypes := param.datatypes + [UnspecifiedParameters];
      dt := "...";
    }
    if subject.typ == 0 {
      stopSearch := false;
    }
    ghost var start := param.datatypes;
    var currentType := subject.typ;
    var hops := 0;
    ghost var c: seq<nat> := [];
    WalkStart(dts, currentType);
    RecordStart(dts, start, dt, before.byteSize);
    while stopSearch
      invariant 0 <= hops <= fuel
      invariant forall j :: 0 <= j < |c| ==> c[j] < |dts|
      invariant Walked(dts, subject.typ, c, currentType) && |c| == hops
      invariant stopSearch ==> currentType != 0
      invariant !stopSearch ==> WalkDone(dts, currentType)
      invariant param.Copy() ==
                before.(datatypes := start + TagsOf(dts, c), byteSize := SizeAlong(dts, c, before.byteSize))
      invariant NameAlong(dts, c, start, StartName(subject)) == dt
      decreases stopSearch, fuel - hops
    {
      var found := false;
      var i := 0;
      while i < |dts|
        invariant 0 <= i <= |dts| && !found
        invariant forall j :: 0 <= j < i ==> dts[j].sectionOffset != currentType
      {
        if currentType == dts[i].sectionOffset {
          FoundAt(dts, currentType, 0, i);
          if hops == fuel {
            WalkTooLong(dts, subject.typ, c, currentType, fuel);
            return false;
          }
          WalkStep(dts, subject.typ, c, currentType, i);
          RecordSnoc(dts, c, i, start, StartName(subject), before.byteSize);
          param.byteSize := dts[i].byteSize;
          dt := Prepend(dts[i], param.datatypes, dt);
          param.datatypes := param.datatypes + [dts[i].tag];
          c := c + [i];
          currentType := dts[i].typ;
          found := true;
          hops := hops + 1;
          if currentType == 0 {
            stopSearch := false;
          }
          break;
        }
        i := i + 1;
      }
      if !found {
        NotFound(dts, currentType, 0);
        stopSearch := false;
      }
    }
    WalkEnds(dts, subject.typ, c, currentType);
    param.dtName := dt;
    return true;
  }

  /** `c` are the entries reached from `t`, after which the walk looks for `u`. */
  ghost predicate Walked(dts: seq<DataType>, t: int, c: seq<nat>, u: int) {
    && (forall j :: 0 <= j < |c| ==> c[j] < |dts|)
    && Chain(dts, t, |c|) == c
    && OffsetAfter(dts, t, |c|) == u
  }

  predicate WalkDone(dts: seq<DataType>, u: int) {
    u == 0 || Find(dts, u) == None
  }

  lemma WalkStart(dts: seq<DataType>, t: int)
    ensures Walked(dts, t, [], t)
  {
  }

  lemma WalkStep(dts: seq<DataType>, t: int, c: seq<nat>, u: int, i: nat)
    requires Walked(dts, t, c, u) && u != 0 && Find(dts, u) == Some(i)
    ensures Walked(dts, t, c + [i], dts[i].typ)
  {
    ChainSplits(dts, t, |c|, 1);
    assert Chain(dts, u, 1) == [i];
    OffsetIsType(dts, t, |c| + 1);
  }

  lemma WalkEnds(dts: seq<DataType>, t: int, c: seq<nat>, u: int)
    requires Walked(dts, t, c, u) && WalkDone(dts, u)
    ensures Terminates(dts, t) && WholeChain(dts, t) == c
  {
    ChainSplits(dts, t, |c|, 0);
    assert Ends(dts, t, |c|);
    TerminatesAfter(dts, t, |c|);
    EndsIffNeverRevisits(dts, t);
    if |c| <= |dts| {
      EndsMore(dts, t, |c|, |dts|);
    } else {
      EndsMore(dts, t, |dts|, |c|);
    }
  }

  lemma WalkTooLong(dts: seq<DataType>, t: int, c: seq<nat>, u: int, fuel: nat)
    requires Walked(dts, t, c, u) && u != 0 && Find(dts, u).Some? && |c| == fuel >= |dts|
    ensures !Terminates(dts, t)
  {
    ChainSplits(dts, t, |c|, 0);
    EndsIffNeverRevisits(dts, t);
    if Ends(dts, t, |dts|) {
      EndsMore(dts, t, |dts|, |c|);
    }
  }

  lemma RecordStart(dts: seq<DataType>, tags: seq<Tag>, dt: string, byteSize: nat)
    ensures tags + TagsOf(dts, []) == tags && NameAlong(dts, [], tags, dt) == dt
    ensures SizeAlong(dts, [], byteSize) == byteSize
  {
  }

  /** What one more entry adds to the tags, the size and the name. */
  lemma RecordSnoc(dts: seq<DataType>, c: seq<nat>, i: nat, tags: seq<Tag>, dt: string, byteSize: nat)
    requires i < |dts| && forall j :: 0 <= j < |c| ==> c[j] < |dts|
    ensures tags + TagsOf(dts, c + [i]) == tags + TagsOf(dts, c) + [dts[i].tag]
    ensures SizeAlong(dts, c + [i], byteSize) == dts[i].byteSize
    ensures NameAlong(dts, c + [i], tags, dt) == Prepend(dts[i], tags + TagsOf(dts, c), NameAlong(dts, c, tags, dt))
  {
    NameSnoc(dts, c, i, tags, dt);
    assert TagsOf(dts, c + [i]) == TagsOf(dts, c) + [dts[i].tag];
  }

  lemma {:induction false} NameSnoc(dts: seq<DataType>, c: seq<nat>, i: nat, tags: seq<Tag>, dt: string)
    requires i < |dts| && forall j :: 0 <= j < |c| ==> c[j] < |dts|
    ensures NameAlong(dts, c + [i], tags, dt)
         == Prepend(dts[i], tags + TagsOf(dts, c), NameAlong(dts, c, tags, dt))
    decreases |c|
  {
    hide Prepend;
    if c == [] {
      assert tags + TagsOf(dts, c) == tags;
      assert ([] + [i])[1..] == [];
    } else {
      var h := dts[c[0]];
      NameSnoc(dts, c[1..], i, tags + [h.tag], Prepend(h, tags, dt));
      assert (c + [i])[1..] == c[1..] + [i];
      assert tags + TagsOf(dts, c) == tags + [h.tag] + TagsOf(dts, c[1..]);
    }
  }

  // ----- What the names look like

  /** The text of one entry: a star for a pointer, or "void *" at the end of the chain, "const "
      for a constant, for all others the name and a space, in brackets for a typedef or a base
      type right after a typedef, and nothing without a name. */
  function HopText(h: DataType, afterTypedef: bool): string {
    if h.tag == PointerType then (if h.typ == 0 then "void *" else "*")
    else if h.tag == ConstType then "const "
    else if h.name == "" && h.tag != Typedef then ""
    else if afterTypedef && h.tag in {Typedef, BaseType} then "(" + h.name + ") "
    else h.name + " "
  }

  lemma PrependIsText(h: DataType, tags: seq<Tag>, dt: string)
    ensures Prepend(h, tags, dt) == HopText(h, tags != [] && tags[|tags| - 1] == Typedef) + dt
  {
    assert "void " + "*" == "void *";
  }

  lemma PrefixSnoc(c: seq<nat>, k: nat)
    requires k < |c|
    ensures c[..k + 1] == c[..k] + [c[k]]
  {
  }

  /** Every entry of a chain puts its text in front of the name so far. */
  lemma NameOfHop(dts: seq<DataType>, c: seq<nat>, k: nat)
    requires k < |c| && forall j :: 0 <= j < |c| ==> c[j] < |dts|
    ensures NameAlong(dts, c[..k + 1], [], "") ==
            HopText(dts[c[k]], k > 0 && dts[c[k - 1]].tag == Typedef) + NameAlong(dts, c[..k], [], "")
  {
    hide NameAlong, HopText, Prepend;
    PrefixSnoc(c, k);
    var tags, named := TagsOf(dts, c[..k]), NameAlong(dts, c[..k], [], "");
    NameSnoc(dts, c[..k], c[k], [], "");
    assert [] + tags == tags;
    PrependIsText(dts[c[k]], tags, named);
  }

  /** The name of a chain of two entries, and of one of three. */
  lemma NameOfShortChain(dts: seq<DataType>, c: seq<nat>)
    requires 2 <= |c| <= 3 && forall j :: 0 <= j < |c| ==> c[j] < |dts|
    ensures var first := HopText(dts[c[0]], false);
            var second := HopText(dts[c[1]], dts[c[0]].tag == Typedef);
            NameAlong(dts, c, [], "") ==
            if |c| == 2 then second + first else HopText(dts[c[2]], dts[c[1]].tag == Typedef) + (second + first)
  {
    hide HopText;
    NameOfHop(dts, c, 0);
    NameOfHop(dts, c, 1);
    hide NameAlong;
    assert c[..0] == [] && c[..|c|] == c;
    assert HopText(dts[c[0]], false) + "" == HopText(dts[c[0]], false);
    if |c| == 3 {
      NameOfHop(dts, c, 2);
    }
  }

  /** A typedef of a base type shows the base type in brackets. */
  lemma NameOfTypedef(dts: seq<DataType>, c: seq<nat>)
    requires |c| == 2 && forall j :: 0 <= j < |c| ==> c[j] < |dts|
    requires dts[c[0]].tag == Typedef && dts[c[1]].tag == BaseType && dts[c[1]].name != ""
    ensures NameAlong(dts, c, [], "") == "(" + dts[c[1]].name + ") " + (dts[c[0]].name + " ")
  {
    hide NameAlong;
    NameOfShortChain(dts, c);
  }

  /** A typedef of that one shows both, and a pointer to it follows the name. */
  lemma NameOverTypedef(dts: seq<DataType>, c: seq<nat>)
    requires |c| == 3 && forall j :: 0 <= j < |c| ==> c[j] < |dts|
    requires dts[c[1]].tag == Typedef && dts[c[2]].tag == BaseType && dts[c[2]].name != ""
    ensures var base, first := "(" + dts[c[2]].name + ") ", dts[c[0]];
            && (first.tag == Typedef ==>
                  NameAlong(dts, c, [], "") == base + ("(" + dts[c[1]].name + ") " + (first.name + " ")))
            && (first.tag == PointerType && first.typ != 0 ==>
                  NameAlong(dts, c, [], "") == base + (dts[c[1]].name + " " + "*"))
  {
    hide NameAlong;
    NameOfShortChain(dts, c);
  }

  /** A typedef of a structure without a name, and a pointer to it. */
  lemma NameOfStructure(dts: seq<DataType>, c: seq<nat>)
    requires 2 <= |c| <= 3 && forall j :: 0 <= j < |c| ==> c[j] < |dts|
    requires dts[c[|c| - 1]].tag == StructureType && dts[c[|c| - 1]].name == "" && dts[c[|c| - 2]].tag == Typedef
    requires |c| == 3 ==> dts[c[0]].tag == PointerType && dts[c[0]].typ != 0
    ensures NameAlong(dts, c, [], "") == dts[c[|c| - 2]].name + " " + if |c| == 3 then "*" else ""
  {
    hide NameAlong;
    NameOfShortChain(dts, c);
  }

  /** The name of a parameter is that of its whole chain. */
  lemma NameOfParameter(dts: seq<DataType>, subject: DataType, name: string)
    requires subject.tag != UnspecifiedParameters
    ensures var p := WithMetadata(dts, subject, Param(name, [], "", "", "", 0, false, []));
            && p.dtName == NameAlong(dts, WholeChain(dts, subject.typ), [], "")
            && p.datatypes == TagsOf(dts, WholeChain(dts, subject.typ))
  {
    hide NameAlong, WholeChain;
    var tags := TagsOf(dts, WholeChain(dts, subject.typ));
    assert [] + [] + tags == tags;
  }

  /** That of a variable argument list is "...". */
  lemma NameOfVariadic(dts: seq<DataType>, subject: DataType, name: string)
    requires subject.tag == UnspecifiedParameters
    ensures var p := WithMetadata(dts, subject, Param(name, [], "", "", "", 0, false, []));
            && UnspecifiedParameters in p.datatypes
            && (subject.typ == 0 ==> p.dtName == "..." && p.datatypes == [UnspecifiedParameters])
  {
    hide Prepend;
    var tags := TagsOf(dts, WholeChain(dts, subject.typ));
    assert ([] + [UnspecifiedParameters] + tags)[0] == UnspecifiedParameters;
    assert subject.typ == 0 ==> WholeChain(dts, subject.typ) == [];
  }

  // ----- Reading a name back

  predicate IsModifier(t: Tag) {
    t == PointerType || t == ConstType
  }

  /** The chain `c` consists of pointers and constants and ends in a named base type, or in
      a pointer to void. */
  ghost predicate PlainChain(dts: seq<DataType>, c: seq<nat>) {
    && c != []
    && (forall j :: 0 <= j < |c| ==> c[j] < |dts|)
    && (forall j :: 0 <= j < |c| - 1 ==> IsModifier(dts[c[j]].tag) && dts[c[j]].typ != 0)
    && var last := dts[c[|c| - 1]];
       (last.tag == BaseType && last.name != "") || (last.tag == PointerType && last.typ == 0)
  }

  /** The name a plain chain ends in. */
  function BaseName(dts: seq<DataType>, c: seq<nat>): string
    requires c != [] && c[|c| - 1] < |dts|
  {
    var last := dts[c[|c| - 1]];
    if last.tag == BaseType then last.name else "void"
  }

  function ModifierText(t: Tag): string {
    if t == PointerType then "*" else "const "
  }

  /** The modifiers in front of a base name, the first one rightmost. */
  function ModifiersText(mods: seq<Tag>): string {
    if mods == [] then "" else ModifiersText(mods[1..]) + ModifierText(mods[0])
  }

  function Modifiers(dts: seq<DataType>, c: seq<nat>): seq<Tag>
    requires PlainChain(dts, c)
  {
    WithoutBase(TagsOf(dts, c))
  }

  function WithoutBase(tags: seq<Tag>): seq<Tag> {
    if tags != [] && tags[|tags| - 1] == BaseType then tags[..|tags| - 1] else tags
  }

  predicate EndsWith(s: string, suffix: string) {
    |s| >= |suffix| && s[|s| - |suffix|..] == suffix
  }

  /** Peels modifiers off the right end of a name. */
  function ParseModifiers(s: string): (seq<Tag>, string)
    decreases |s|
  {
    if EndsWith(s, "*") then
      var (mods, rest) := ParseModifiers(s[..|s| - 1]);
      ([PointerType] + mods, rest)
    else if EndsWith(s, "const ") then
      var (mods, rest) := ParseModifiers(s[..|s| - 6]);
      ([ConstType] + mods, rest)
    else ([], s)
  }

  /** The tags of the chain and the name it ends in. */
  function ParseTypeName(s: string): Option<(seq<Tag>, string)> {
    var (mods, rest) := ParseModifiers(s);
    if !EndsWith(rest, " ") then None
    else
      var name := rest[..|rest| - 1];
      Some((if name == "void" then mods else mods + [BaseType], name))
  }

  lemma Regroup(a: string, b: string, m: string, dt: string)
    ensures a + b + (m + dt) == a + (b + m) + dt
  {
  }

  lemma PlainChainTail(dts: seq<DataType>, c: seq<nat>)
    requires PlainChain(dts, c) && |c| > 1
    ensures PlainChain(dts, c[1..]) && BaseName(dts, c[1..]) == BaseName(dts, c)
  {
    var d := c[1..];
    assert d[|d| - 1] == c[|c| - 1];
    forall j | 0 <= j < |d| - 1
      ensures IsModifier(dts[d[j]].tag) && dts[d[j]].typ != 0
    {
      assert d[j] == c[j + 1];
    }
  }

  lemma ModifiersCons(dts: seq<DataType>, c: seq<nat>)
    requires PlainChain(dts, c) && PlainChain(dts, c[1..]) && |c| > 1
    ensures Modifiers(dts, c) == [dts[c[0]].tag] + Modifiers(dts, c[1..])
  {
    assert TagsOf(dts, c) == [dts[c[0]].tag] + TagsOf(dts, c[1..]);
    WithoutBaseCons(dts[c[0]].tag, TagsOf(dts, c[1..]));
  }

  lemma WithoutBaseCons(t: Tag, rest: seq<Tag>)
    requires rest != []
    ensures WithoutBase([t] + rest) == [t] + WithoutBase(rest)
  {
  }

  lemma NameOfOne(dts: seq<DataType>, c: seq<nat>, tags: seq<Tag>, dt: string)
    requires |c| == 1 && c[0] < |dts|
    ensures NameAlong(dts, c, tags, dt) == Prepend(dts[c[0]], tags, dt)
  {
    hide Prepend;
    var rest := c[1..];
    assert rest == [];
  }

  lemma NameOfLast(dts: seq<DataType>, c: seq<nat>, tags: seq<Tag>, dt: string)
    requires PlainChain(dts, c) && |c| == 1 && (tags != [] ==> IsModifier(tags[|tags| - 1]))
    ensures NameAlong(dts, c, tags, dt) == BaseName(dts, c) + " " + ModifiersText(Modifiers(dts, c)) + dt
  {
    hide NameAlong, ModifiersText;
    var h := dts[c[0]];
    NameOfOne(dts, c, tags, dt);
    assert TagsOf(dts, c) == [h.tag];
    if h.tag == BaseType {
      NoModifiersText();
      assert Modifiers(dts, c) == [];
    } else {
      NoModifiersText();
      ModifiersTextCons(PointerType, []);
      assert Modifiers(dts, c) == [PointerType] + [];
    }
  }

  lemma NoModifiersText()
    ensures ModifiersText([]) == ""
  {
  }

  lemma NameUnfold(dts: seq<DataType>, c: seq<nat>, tags: seq<Tag>, dt: string)
    requires PlainChain(dts, c) && |c| > 1
    ensures var h := dts[c[0]];
            NameAlong(dts, c, tags, dt) == NameAlong(dts, c[1..], tags + [h.tag], ModifierText(h.tag) + dt)
  {
    var h := dts[c[0]];
    assert Prepend(h, tags, dt) == ModifierText(h.tag) + dt;
  }

  lemma ModifiersTextCons(t: Tag, rest: seq<Tag>)
    ensures ModifiersText([t] + rest) == ModifiersText(rest) + ModifierText(t)
  {
    assert ([t] + rest)[1..] == rest;
  }

  lemma {:induction false} NameOfPlainChain(dts: seq<DataType>, c: seq<nat>, tags: seq<Tag>, dt: string)
    requires PlainChain(dts, c) && (tags != [] ==> IsModifier(tags[|tags| - 1]))
    ensures NameAlong(dts, c, tags, dt) == BaseName(dts, c) + " " + ModifiersText(Modifiers(dts, c)) + dt
    decreases |c|
  {
    hide NameAlong, ModifiersText, Modifiers, BaseName, ModifierText;
    if |c| == 1 {
      NameOfLast(dts, c, tags, dt);
    } else {
      var h := dts[c[0]];
      PlainChainTail(dts, c);
      ModifiersCons(dts, c);
      var rest, m := Modifiers(dts, c[1..]), ModifierText(h.tag);
      NameUnfold(dts, c, tags, dt);
      NameOfPlainChain(dts, c[1..], tags + [h.tag], m + dt);
      ModifiersTextCons(h.tag, rest);
      Regroup(BaseName(dts, c) + " ", ModifiersText(rest), m, dt);
    }
  }

  lemma EndsWithLast(s: string, suffix: string)
    requires EndsWith(s, suffix) && suffix != ""
    ensures s != "" && s[|s| - 1] == suffix[|suffix| - 1]
  {
    assert s[|s| - |suffix|..][|suffix| - 1] == s[|s| - 1];
  }

  lemma ParsePeels(init: string, t: Tag)
    requires IsModifier(t)
    ensures ParseModifiers(init + ModifierText(t)) ==
            (var (mods, rest) := ParseModifiers(init); ([t] + mods, rest))
  {
    var last := ModifierText(t);
    var s := init + last;
    assert s[|init|..] == last && s[..|init|] == init;
    if t == ConstType && EndsWith(s, "*") {
      EndsWithLast(s, "*");
    }
  }

  lemma ConstBeforeSpace(name: string)
    requires EndsWith(name + " ", "const ")
    ensures EndsWith(name, "const")
  {
    var s := name + " ";
    assert name[|name| - 5..] == s[|s| - 6..][..5];
  }

  lemma ParseStops(name: string)
    requires !EndsWith(name, "const")
    ensures ParseModifiers(name + " ") == ([], name + " ")
  {
    var s := name + " ";
    if EndsWith(s, "*") {
      EndsWithLast(s, "*");
    } else if EndsWith(s, "const ") {
      ConstBeforeSpace(name);
    }
  }

  lemma {:induction false} ParseModifiersOf(name: string, mods: seq<Tag>)
    requires !EndsWith(name, "const") && forall j :: 0 <= j < |mods| ==> IsModifier(mods[j])
    ensures ParseModifiers(name + " " + ModifiersText(mods)) == (mods, name + " ")
    decreases |mods|
  {
    hide ParseModifiers, EndsWith;
    if mods == [] {
      ParseStops(name);
      assert name + " " + "" == name + " ";
    } else {
      var init, last := name + " " + ModifiersText(mods[1..]), ModifierText(mods[0]);
      ParseModifiersOf(name, mods[1..]);
      ParsePeels(init, mods[0]);
      assert init + last == name + " " + ModifiersText(mods);
      assert [mods[0]] + mods[1..] == mods;
    }
  }

  lemma NameThenSpace(name: string)
    ensures EndsWith(name + " ", " ") && (name + " ")[..|name|] == name
  {
  }

  /** The name of a plain chain parses back to the tags the walk collects and the name of
      the type it ends in. */
  lemma PlainNameRoundTrip(dts: seq<DataType>, c: seq<nat>)
    requires PlainChain(dts, c)
    requires dts[c[|c| - 1]].tag == BaseType ==> BaseName(dts, c) != "void" && !EndsWith(BaseName(dts, c), "const")
    ensures ParseTypeName(NameAlong(dts, c, [], "")) == Some((TagsOf(dts, c), BaseName(dts, c)))
  {
    hide NameAlong, ParseModifiers, ModifiersText;
    var name, mods := BaseName(dts, c), Modifiers(dts, c);
    NameOfPlainChain(dts, c, [], "");
    ParseModifiersOf(name, mods);
    assert name + " " + ModifiersText(mods) + "" == name + " " + ModifiersText(mods);
    NameThenSpace(name);
    assert TagsOf(dts, c) == if name == "void" then mods else mods + [BaseType];
  }

  /** What the metadata of a fresh parameter says about its type can be read off its name. */
  lemma MetadataReadBack(dts: seq<DataType>, subject: DataType, name: string)
    requires subject.tag != UnspecifiedParameters
    requires var c := WholeChain(dts, subject.typ);
             && PlainChain(dts, c)
             && (dts[c[|c| - 1]].tag == BaseType ==> BaseName(dts, c) != "void" && !EndsWith(BaseName(dts, c), "const"))
    ensures var p := WithMetadata(dts, subject, Param(name, [], "", "", "", 0, false, []));
            ParseTypeName(p.dtName) == Some((p.datatypes, BaseName(dts, WholeChain(dts, subject.typ))))
  {
    hide NameAlong, ParseTypeName, PlainChain, BaseName;
    var c := WholeChain(dts, subject.typ);
    PlainNameRoundTrip(dts, c);
    assert [] + [] + TagsOf(dts, c) == TagsOf(dts, c);
  }

  /** On such chains a name determines the tags and the base name. */
  lemma PlainNameInjective(dts: seq<DataType>, c: seq<nat>, dts': seq<DataType>, c': seq<nat>)
    requires PlainChain(dts, c) && PlainChain(dts', c')
    requires dts[c[|c| - 1]].tag == BaseType ==> BaseName(dts, c) != "void" && !EndsWith(BaseName(dts, c), "const")
    requires dts'[c'[|c'| - 1]].tag == BaseType ==> BaseName(dts', c') != "void" && !EndsWith(BaseName(dts', c'), "const")
    requires NameAlong(dts, c, [], "") == NameAlong(dts', c', [], "")
    ensures TagsOf(dts, c) == TagsOf(dts', c') && BaseName(dts, c) == BaseName(dts', c')
  {
    PlainNameRoundTrip(dts, c);
    PlainNameRoundTrip(dts', c');
  }
}
