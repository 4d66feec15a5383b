/** src/compile_unit.cc: following `type` offsets through the flat list of types. */
module TypeChain {
  import opened Text
  import opened Common

  // ----- One hop

  /** The first entry at or after `from` whose section offset is `t`. */
  function FindFrom(dts: seq<DataType>, t: int, from: nat): (r: Option<nat>)
    ensures match r
            case Some(i) =>
              && from <= i < |dts| && dts[i].sectionOffset == t
              && forall j :: from <= j < i ==> dts[j].sectionOffset != t
            case None => forall j :: from <= j < |dts| ==> dts[j].sectionOffset != t
    decreases |dts| - from
  {
    if from >= |dts| then None
    else if dts[from].sectionOffset == t then Some(from)
    else FindFrom(dts, t, from + 1)
  }

  lemma FoundAt(dts: seq<DataType>, t: int, from: nat, i: nat)
    requires from <= i < |dts| && dts[i].sectionOffset == t
    requires forall j :: from <= j < i ==> dts[j].sectionOffset != t
    ensures FindFrom(dts, t, from) == Some(i)
  {
  }

  lemma NotFound(dts: seq<DataType>, t: int, from: nat)
    requires forall j :: from <= j < |dts| ==> dts[j].sectionOffset != t
    ensures FindFrom(dts, t, from) == None
  {
  }

  function Find(dts: seq<DataType>, t: int): Option<nat> {
    FindFrom(dts, t, 0)
  }

  // ----- The chain

  /** The entries reached in the first `n` hops from the offset `t`.  An offset of zero,
      like one that no entry has, ends the chain. */
  function Chain(dts: seq<DataType>, t: int, n: nat): (c: seq<nat>)
    ensures |c| <= n && forall k :: 0 <= k < |c| ==> c[k] < |dts|
    decreases n
  {
    if n == 0 || t == 0 then []
    else
      match Find(dts, t)
      case None => []
      case Some(i) => [i] + Chain(dts, dts[i].typ, n - 1)
  }

  /** At most `n` hops can be made from the offset `t`. */
  predicate Ends(dts: seq<DataType>, t: int, n: nat)
    decreases n
  {
    t == 0 ||
    match Find(dts, t)
    case None => true
    case Some(i) => n > 0 && Ends(dts, dts[i].typ, n - 1)
  }

  /** The offset the walk looks for after `n` hops. */
  function OffsetAfter(dts: seq<DataType>, t: int, n: nat): int
    requires |Chain(dts, t, n)| == n
    decreases n
  {
    if n == 0 then t else OffsetAfter(dts, dts[Find(dts, t).value].typ, n - 1)
  }

  /** The walk from `t` comes to an end. */
  ghost predicate Terminates(dts: seq<DataType>, t: int) {
    exists n: nat :: Ends(dts, t, n)
  }

  lemma TerminatesAfter(dts: seq<DataType>, t: int, n: nat)
    requires Ends(dts, t, n)
    ensures Terminates(dts, t)
  {
  }

  /** Some entry is reached twice. */
  ghost predicate Revisits(dts: seq<DataType>, t: int) {
    exists n: nat, j: nat, k: nat :: j < k < |Chain(dts, t, n)| && Chain(dts, t, n)[j] == Chain(dts, t, n)[k]
  }

  lemma {:induction false} EndsMore(dts: seq<DataType>, t: int, m: nat, n: nat)
    requires Ends(dts, t, m) && m <= n
    ensures Ends(dts, t, n) && Chain(dts, t, n) == Chain(dts, t, m)
    decreases m
  {
    if t != 0 && Find(dts, t).Some? {
      EndsMore(dts, dts[Find(dts, t).value].typ, m - 1, n - 1);
    }
  }

  /** A walk that has not ended has made all its hops, and can make one more. */
  lemma {:induction false} NotEnded(dts: seq<DataType>, t: int, n: nat)
    ensures !Ends(dts, t, n) <==> |Chain(dts, t, n + 1)| == n + 1
    decreases n
  {
    if t != 0 && Find(dts, t).Some? {
      var t' := dts[Find(dts, t).value].typ;
      assert Chain(dts, t, n + 1) == [Find(dts, t).value] + Chain(dts, t', n);
      if n > 0 {
        NotEnded(dts, t', n - 1);
      }
    }
  }

  lemma {:induction false} ChainSplits(dts: seq<DataType>, t: int, m: nat, n: nat)
    requires |Chain(dts, t, m)| == m
    ensures Chain(dts, t, m + n) == Chain(dts, t, m) + Chain(dts, OffsetAfter(dts, t, m), n)
    ensures Ends(dts, t, m + n) <==> Ends(dts, OffsetAfter(dts, t, m), n)
    decreases m
  {
    if m > 0 {
      ChainSplits(dts, dts[Find(dts, t).value].typ, m - 1, n);
    }
  }

  lemma {:induction false} ChainPrefix(dts: seq<DataType>, t: int, m: nat, n: nat)
    requires m <= |Chain(dts, t, n)|
    ensures Chain(dts, t, m) == Chain(dts, t, n)[..m]
    decreases m
  {
    if m > 0 {
      ChainPrefix(dts, dts[Find(dts, t).value].typ, m - 1, n - 1);
    }
  }

  /** The offset looked for after a hop is the type of the entry it reached. */
  lemma {:induction false} OffsetIsType(dts: seq<DataType>, t: int, n: nat)
    requires n > 0 && |Chain(dts, t, n)| == n
    ensures OffsetAfter(dts, t, n) == dts[Chain(dts, t, n)[n - 1]].typ
    decreases n
  {
    if n > 1 {
      OffsetIsType(dts, dts[Find(dts, t).value].typ, n - 1);
    }
  }

  /** A walk that comes back to where it looked before never ends. */
  lemma {:induction false} CycleNeverEnds(dts: seq<DataType>, t: int, d: nat, n: nat)
    requires d > 0 && |Chain(dts, t, d)| == d && OffsetAfter(dts, t, d) == t
    ensures !Ends(dts, t, n)
    decreases n
  {
    if n < d {
      ChainPrefix(dts, t, n + 1, d);
      NotEnded(dts, t, n);
    } else {
      ChainSplits(dts, t, d, n - d);
      CycleNeverEnds(dts, t, d, n - d);
    }
  }

  lemma RevisitNeverEnds(dts: seq<DataType>, t: int, m: nat, j: nat, k: nat, n: nat)
    requires j < k < |Chain(dts, t, m)| && Chain(dts, t, m)[j] == Chain(dts, t, m)[k]
    ensures !Ends(dts, t, n)
  {
    hide Chain, Ends, OffsetAfter;
    var c := Chain(dts, t, m);
    ChainPrefix(dts, t, j + 1, m);
    ChainPrefix(dts, t, k + 1, m);
    assert c[..j + 1][j] == c[j] && c[..k + 1][k] == c[k];
    OffsetIsType(dts, t, j + 1);
    OffsetIsType(dts, t, k + 1);
    OffsetSplits(dts, t, j + 1, k - j);
    CycleNeverEnds(dts, OffsetAfter(dts, t, j + 1), k - j, n);
    ChainSplits(dts, t, j + 1, n);
    if Ends(dts, t, n) {
      EndsMore(dts, t, n, j + 1 + n);
    }
  }

  lemma {:induction false} OffsetSplits(dts: seq<DataType>, t: int, m: nat, n: nat)
    requires |Chain(dts, t, m)| == m && |Chain(dts, t, m + n)| == m + n
    ensures |Chain(dts, OffsetAfter(dts, t, m), n)| == n
    ensures OffsetAfter(dts, t, m + n) == OffsetAfter(dts, OffsetAfter(dts, t, m), n)
    decreases m
  {
    if m > 0 {
      OffsetSplits(dts, dts[Find(dts, t).value].typ, m - 1, n);
    }
  }

  /** Entry `i` is the first that bears the offset `t`. */
  ghost predicate IsFirstAt(dts: seq<DataType>, t: int, i: nat) {
    i < |dts| && dts[i].sectionOffset == t && forall j :: 0 <= j < i ==> dts[j].sectionOffset != t
  }

  /** The offset that hop `k` of the chain `c` from `t` looks for. */
  function AskedFor(dts: seq<DataType>, t: int, c: seq<nat>, k: nat): int
    requires k <= |c| && forall j :: 0 <= j < |c| ==> c[j] < |dts|
  {
    if k == 0 then t else dts[c[k - 1]].typ
  }

  /** Hop `k` reaches the first entry that bears the offset it looks for. */
  ghost predicate LinkAt(dts: seq<DataType>, t: int, c: seq<nat>, k: nat)
    requires k < |c| && forall j :: 0 <= j < |c| ==> c[j] < |dts|
  {
    AskedFor(dts, t, c, k) != 0 && IsFirstAt(dts, AskedFor(dts, t, c, k), c[k])
  }

  ghost predicate Linked(dts: seq<DataType>, t: int, c: seq<nat>) {
    && (forall j :: 0 <= j < |c| ==> c[j] < |dts|)
    && forall k: nat :: k < |c| ==> LinkAt(dts, t, c, k)
  }

  lemma Shifted(dts: seq<DataType>, t: int, i: nat, rest: seq<nat>, k: nat)
    requires k <= |rest| && i < |dts| && forall j :: 0 <= j < |rest| ==> rest[j] < |dts|
    ensures var c := [i] + rest;
            && (forall j :: 0 <= j < |c| ==> c[j] < |dts|)
            && AskedFor(dts, t, c, k + 1) == AskedFor(dts, dts[i].typ, rest, k)
            && (k < |rest| ==> LinkAt(dts, t, c, k + 1) == LinkAt(dts, dts[i].typ, rest, k))
  {
    hide IsFirstAt;
  }

  lemma LinkedCons(dts: seq<DataType>, t: int, i: nat, rest: seq<nat>)
    requires t != 0 && IsFirstAt(dts, t, i) && Linked(dts, dts[i].typ, rest)
    ensures Linked(dts, t, [i] + rest)
    ensures AskedFor(dts, t, [i] + rest, |rest| + 1) == AskedFor(dts, dts[i].typ, rest, |rest|)
  {
    var c := [i] + rest;
    Shifted(dts, t, i, rest, |rest|);
    assert LinkAt(dts, t, c, 0);
    hide LinkAt, AskedFor, IsFirstAt;
    forall k: nat | k < |c|
      ensures LinkAt(dts, t, c, k)
    {
      if k > 0 {
        Shifted(dts, t, i, rest, k - 1);
      }
    }
  }

  /** A chain is linked in this way, and a walk that has ended looks for zero or for an offset
      nobody bears. */
  lemma {:induction false} ChainLinks(dts: seq<DataType>, t: int, n: nat)
    ensures Linked(dts, t, Chain(dts, t, n))
    ensures Ends(dts, t, n) ==>
              var asked := AskedFor(dts, t, Chain(dts, t, n), |Chain(dts, t, n)|);
              asked == 0 || forall j :: 0 <= j < |dts| ==> dts[j].sectionOffset != asked
    decreases n
  {
    hide Linked, AskedFor, IsFirstAt;
    NoLinks(dts, t);
    if n > 0 && t != 0 && Find(dts, t).Some? {
      var i := Find(dts, t).value;
      ChainLinks(dts, dts[i].typ, n - 1);
      FoundIsFirst(dts, t, i);
      LinkedCons(dts, t, i, Chain(dts, dts[i].typ, n - 1));
    }
  }

  lemma NoLinks(dts: seq<DataType>, t: int)
    ensures Linked(dts, t, []) && AskedFor(dts, t, [], 0) == t
  {
  }

  lemma FoundIsFirst(dts: seq<DataType>, t: int, i: nat)
    requires Find(dts, t) == Some(i)
    ensures IsFirstAt(dts, t, i)
  {
  }

  /** Pigeonhole: more than `bound` numbers below `bound` repeat one. */
  lemma {:induction false} Pigeonhole(s: seq<nat>, bound: nat)
    requires |s| > bound && forall k :: 0 <= k < |s| ==> s[k] < bound
    ensures exists j, k :: 0 <= j < k < |s| && s[j] == s[k]
    decreases bound
  {
    assert s[0] < bound;
    if j :| 0 <= j < |s| && s[j] == bound - 1 {
      if k :| 0 <= k < |s| && k != j && s[k] == bound - 1 {
        assert s[j] == s[k];
      } else {
        var s' := s[..j] + s[j + 1..];
        Pigeonhole(s', bound - 1);
        var x, y :| 0 <= x < y < |s'| && s'[x] == s'[y];
        var x', y' := if x < j then x else x + 1, if y < j then y else y + 1;
        assert s[x'] == s[y'];
      }
    } else {
      Pigeonhole(s, bound - 1);
    }
  }

  lemma LongWalkRevisits(dts: seq<DataType>, t: int)
    requires !Ends(dts, t, |dts|)
    ensures Revisits(dts, t)
  {
    hide Ends;
    var c := Chain(dts, t, |dts| + 1);
    NotEnded(dts, t, |dts|);
    Pigeonhole(c, |dts|);
  }

  /** The walk ends exactly if it never reaches an entry twice, and then it makes no more
      hops than there are types. */
  lemma EndsIffNeverRevisits(dts: seq<DataType>, t: int)
    ensures Terminates(dts, t) <==> !Revisits(dts, t)
    ensures Terminates(dts, t) <==> Ends(dts, t, |dts|)
  {
    hide Chain, Ends;
    if Revisits(dts, t) {
      var m: nat, j: nat, k: nat :|
        j < k < |Chain(dts, t, m)| && Chain(dts, t, m)[j] == Chain(dts, t, m)[k];
      forall n: nat
        ensures !Ends(dts, t, n)
      {
        RevisitNeverEnds(dts, t, m, j, k, n);
      }
    } else if !Ends(dts, t, |dts|) {
      LongWalkRevisits(dts, t);
    } else {
      TerminatesAfter(dts, t, |dts|);
    }
  }

  /** More than |dts| hops are only made by a walk that never ends. */
  lemma TooManyHops(dts: seq<DataType>, t: int, n: nat)
    requires |Chain(dts, t, n)| > |dts|
    ensures !Terminates(dts, t)
  {
    ChainPrefix(dts, t, |dts| + 1, n);
    NotEnded(dts, t, |dts|);
    EndsIffNeverRevisits(dts, t);
  }

  // ----- The restart scan

  /** Section offsets identify entries, and zero is none of them. */
  ghost predicate ProperOffsets(dts: seq<DataType>) {
    && (forall i :: 0 <= i < |dts| ==> dts[i].sectionOffset > 0)
    && (forall i, j :: 0 <= i < j < |dts| ==> dts[i].sectionOffset != dts[j].sectionOffset)
  }

  /** The entries of the chain from `t`, all of them if it ends. */
  function WholeChain(dts: seq<DataType>, t: int): (c: seq<nat>)
    ensures forall k :: 0 <= k < |c| ==> c[k] < |dts|
  {
    Chain(dts, t, |dts|)
  }

  /** Hop `k` is the first on the chain to reach a structure. */
  ghost predicate FirstStructure(dts: seq<DataType>, c: seq<nat>, k: nat)
    requires forall j :: 0 <= j < |c| ==> c[j] < |dts|
  {
    && k < |c| && dts[c[k]].tag == StructureType
    && forall j :: 0 <= j < k ==> dts[c[j]].tag != StructureType
  }

  /** What the scan of the type list finds: after a hop it starts over, but at position 1. */
  function RestartScan(dts: seq<DataType>, t: int, from: nat, n: nat): (r: Option<nat>)
    ensures r.Some? ==> r.value < |dts|
    decreases n
  {
    match FindFrom(dts, t, from)
    case None => None
    case Some(i) =>
      if dts[i].tag == StructureType then Some(i)
      else if n == 0 then None
      else RestartScan(dts, dts[i].typ, 1, n - 1)
  }

  /** With distinct offsets a later start finds the same entry or none. */
  lemma HopFrom(dts: seq<DataType>, t: int, from: nat)
    requires ProperOffsets(dts)
    ensures FindFrom(dts, t, from) ==
            if Find(dts, t).Some? && Find(dts, t).value >= from then Find(dts, t) else None
    ensures t == 0 ==> Find(dts, t) == None
  {
    var r := Find(dts, t);
    if r.Some? && r.value >= from {
      FoundAt(dts, t, from, r.value);
    } else {
      NotFound(dts, t, from);
    }
  }

  /** Hop 0 is not before position `from`, and no later hop up to `k` is at position 0. */
  predicate HopsAllowed(c: seq<nat>, from: nat, k: nat) {
    k < |c| && c[0] >= from && forall j :: 1 <= j <= k ==> c[j] != 0
  }

  /** `r` is the structure at hop `k` exactly if `k` is the first structure on the chain `c`
      and all hops up to it are allowed. */
  ghost predicate ScanAgrees(dts: seq<DataType>, c: seq<nat>, from: nat, r: Option<nat>)
    requires forall j :: 0 <= j < |c| ==> c[j] < |dts|
  {
    match r
    case Some(i) => exists k: nat :: FirstStructure(dts, c, k) && c[k] == i && HopsAllowed(c, from, k)
    case None => forall k: nat :: FirstStructure(dts, c, k) ==> !HopsAllowed(c, from, k)
  }

  lemma ScanAgreesStep(dts: seq<DataType>, i: nat, rest: seq<nat>, from: nat, r: Option<nat>)
    requires i < |dts| && dts[i].tag != StructureType && i >= from && forall j :: 0 <= j < |rest| ==> rest[j] < |dts|
    requires ScanAgrees(dts, rest, 1, r)
    ensures ScanAgrees(dts, [i] + rest, from, r)
  {
    var c := [i] + rest;
    FirstStructureShift(dts, i, rest);
    AllowedShift(i, rest, from);
    match r
    case Some(x) =>
      var k: nat :| FirstStructure(dts, rest, k) && rest[k] == x && HopsAllowed(rest, 1, k);
      assert FirstStructure(dts, c, k + 1) && c[k + 1] == x && HopsAllowed(c, from, k + 1);
    case None =>
      forall k: nat | FirstStructure(dts, c, k)
        ensures !HopsAllowed(c, from, k)
      {
        var k' := k - 1;
        assert FirstStructure(dts, c, k' + 1) && FirstStructure(dts, rest, k');
        assert HopsAllowed(c, from, k' + 1) <==> HopsAllowed(rest, 1, k');
      }
  }

  lemma {:induction false} ScanFollowsChain(dts: seq<DataType>, t: int, from: nat, n: nat)
    requires ProperOffsets(dts) && Ends(dts, t, n)
    ensures ScanAgrees(dts, Chain(dts, t, n), from, RestartScan(dts, t, from, n))
    decreases n
  {
    HopFrom(dts, t, from);
    var c := Chain(dts, t, n);
    match FindFrom(dts, t, from)
    case None =>
      assert c != [] ==> c[0] < from;
      assert forall k: nat :: FirstStructure(dts, c, k) ==> !HopsAllowed(c, from, k);
    case Some(i) =>
      var rest := Chain(dts, dts[i].typ, n - 1);
      assert c == [i] + rest;
      if dts[i].tag == StructureType {
        assert FirstStructure(dts, c, 0) && HopsAllowed(c, from, 0);
      } else {
        ScanFollowsChain(dts, dts[i].typ, 1, n - 1);
        ScanAgreesStep(dts, i, rest, from, RestartScan(dts, dts[i].typ, 1, n - 1));
      }
  }

  lemma FirstStructureShift(dts: seq<DataType>, i: nat, rest: seq<nat>)
    requires i < |dts| && dts[i].tag != StructureType && forall j :: 0 <= j < |rest| ==> rest[j] < |dts|
    ensures forall k: nat :: FirstStructure(dts, rest, k) <==> FirstStructure(dts, [i] + rest, k + 1)
    ensures !FirstStructure(dts, [i] + rest, 0)
  {
    var c := [i] + rest;
    assert forall j :: 0 <= j < |rest| ==> c[j + 1] == rest[j];
    forall k: nat
      ensures FirstStructure(dts, rest, k) <==> FirstStructure(dts, c, k + 1)
    {
      if FirstStructure(dts, c, k + 1) {
        forall j | 0 <= j < k
          ensures dts[rest[j]].tag != StructureType
        {
          assert dts[c[j + 1]].tag != StructureType;
        }
      }
    }
  }

  lemma AllowedShift(i: nat, rest: seq<nat>, from: nat)
    requires i >= from
    ensures forall k: nat :: HopsAllowed(rest, 1, k) <==> HopsAllowed([i] + rest, from, k + 1)
  {
    var c := [i] + rest;
    forall k: nat
      ensures HopsAllowed(rest, 1, k) <==> HopsAllowed(c, from, k + 1)
    {
      if HopsAllowed(c, from, k + 1) {
        assert c[1] != 0;
        forall j | 1 <= j <= k
          ensures rest[j] != 0
        {
          assert c[j + 1] != 0;
        }
      }
    }
  }

  function TagsOf(dts: seq<DataType>, c: seq<nat>): (tags: seq<Tag>)
    requires forall j :: 0 <= j < |c| ==> c[j] < |dts|
    ensures |tags| == |c| && forall j :: 0 <= j < |c| ==> tags[j] == dts[c[j]].tag
  {
    seq(|c|, j requires 0 <= j < |c| => dts[c[j]].tag)
  }

  /** The scan returns the first structure on the chain if no hop after the first up to it
      is at position 0, and nothing otherwise. */
  lemma ScanFindsFirstStructure(dts: seq<DataType>, t: int, k: nat)
    requires ProperOffsets(dts) && Ends(dts, t, |dts|) && FirstStructure(dts, WholeChain(dts, t), k)
    ensures var c := WholeChain(dts, t);
            RestartScan(dts, t, 0, |dts|) == if forall j :: 1 <= j <= k ==> c[j] != 0 then Some(c[k]) else None
  {
    hide RestartScan, Chain, Ends;
    var c := WholeChain(dts, t);
    ScanFollowsChain(dts, t, 0, |dts|);
    if RestartScan(dts, t, 0, |dts|).Some? {
      var k': nat :| FirstStructure(dts, c, k') && c[k'] == RestartScan(dts, t, 0, |dts|).value && HopsAllowed(c, 0, k');
      assert k' == k;
    } else {
      assert !HopsAllowed(c, 0, k);
    }
  }

  lemma {:induction false} FirstStructureExists(dts: seq<DataType>, c: seq<nat>, n: nat)
    requires forall j :: 0 <= j < |c| ==> c[j] < |dts|
    requires n < |c| && dts[c[n]].tag == StructureType
    ensures exists k: nat :: k <= n && FirstStructure(dts, c, k)
    decreases n
  {
    if m: nat :| m < n && dts[c[m]].tag == StructureType {
      FirstStructureExists(dts, c, m);
    } else {
      assert FirstStructure(dts, c, n);
    }
  }

  /** Unless a later hop is at position 0, the scan succeeds exactly if the chain walk
      collects the tag of a structure. */
  lemma ScanAgreesWithTags(dts: seq<DataType>, t: int)
    requires ProperOffsets(dts) && Ends(dts, t, |dts|)
    requires forall j :: 1 <= j < |WholeChain(dts, t)| ==> WholeChain(dts, t)[j] != 0
    ensures RestartScan(dts, t, 0, |dts|).Some? <==> StructureType in TagsOf(dts, WholeChain(dts, t))
  {
    hide RestartScan, Chain, Ends;
    var c := WholeChain(dts, t);
    ScanFollowsChain(dts, t, 0, |dts|);
    assert forall k: nat :: FirstStructure(dts, c, k) ==> TagsOf(dts, c)[k] == StructureType;
    if StructureType in TagsOf(dts, c) {
      var n: nat :| n < |c| && TagsOf(dts, c)[n] == StructureType;
      FirstStructureExists(dts, c, n);
      var k: nat :| FirstStructure(dts, c, k);
      ScanFindsFirstStructure(dts, t, k);
    }
  }

  /** The search loops of `generate_complex_payload` and `complex_value_to_string`, for a
      chain that is known to end. */
  method FindStructure(dts: seq<DataType>, t: int) returns (r: Option<nat>)
    requires ProperOffsets(dts) && Ends(dts, t, |dts|)
    ensures r == RestartScan(dts, t, 0, |dts|)
  {
    var temp, index := t, 0;
    ghost var from: nat, hops: nat := 0, |dts|;
    while index < |dts|
      invariant from <= index
      invariant forall j :: from <= j < index && j < |dts| ==> dts[j].sectionOffset != temp
      invariant Ends(dts, temp, hops)
      invariant RestartScan(dts, t, 0, |dts|) == RestartScan(dts, temp, from, hops)
      decreases hops, |dts| - index
    {
      if temp == dts[index].sectionOffset {
        FoundAt(dts, temp, from, index);
        if dts[index].tag == StructureType {
          return Some(index);
        }
        HopFrom(dts, temp, from);
        temp := dts[index].typ;
        index := 0;
        from, hops := 1, hops - 1;
      }
      index := index + 1;
    }
    NotFound(dts, temp, from);
    return None;
  }
}
