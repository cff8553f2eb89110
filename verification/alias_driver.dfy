/** Alias.Move and Alias.Copy: both selections, the pairing, and the calls issued to the backends. */
module AliasDriver {

  import opened Wrappers
  import opened AliasSelection
  import opened AliasPairing

  type Selection = Result<seq<Object>, Error>

  datatype Call =
    | Transfer(src: Object, dst: Object)
    | Remove(src: Object)

  /** `Panicked` is the run-time failure of indexing past the end of the sources. */
  datatype Outcome =
    | Rejected(error: Error)
    | Panicked(calls: seq<Call>)
    | Done(calls: seq<Call>)

  function Issued(r: Outcome): seq<Call> {
    match r
    case Rejected(_) => []
    case Panicked(calls) => calls
    case Done(calls) => calls
  }

  function Sources(calls: seq<Call>): seq<Object> {
    seq(|calls|, i requires 0 <= i < |calls| => calls[i].src)
  }

  /** The destinations the calls name, in order; a removal names its source. */
  function Targets(calls: seq<Call>): seq<Object> {
    seq(|calls|, i requires 0 <= i < |calls| => if calls[i].Transfer? then calls[i].dst else calls[i].src)
  }

  function Transfers(srcs: seq<Object>, dsts: seq<Object>, n: nat): seq<Call>
    requires n <= |srcs| && n <= |dsts|
  {
    seq(n, i requires 0 <= i < n => Transfer(srcs[i], dsts[i]))
  }

  function Removals(srcs: seq<Object>): seq<Call> {
    seq(|srcs|, i requires 0 <= i < |srcs| => Remove(srcs[i]))
  }

  /** What the selection of a list built by Get must return. */
  function Selected(fs: FileSystem, check: bool, es: seq<Entry>, policy: Policy): Selection
    requires es != [] && es[0].Plain?
  {
    Expected(policy, Survivors(fs, check, es[0].obj.stat, es, |es|), |es|)
  }

  lemma SelectedDistinct(fs: FileSystem, check: bool, es: seq<Entry>, policy: Policy)
    requires es != [] && es[0].Plain? && DistinctEntries(es)
    ensures Selected(fs, check, es, policy).Success? ==> Distinct(Selected(fs, check, es, policy).value)
  {
    SelectionDistinct(fs, check, es, policy);
  }

  function Objects(es: seq<Entry>): (objs: seq<Object>)
    requires forall i | 0 <= i < |es| :: es[i].Plain?
    ensures es == Plains(objs)
  {
    seq(|es|, i requires 0 <= i < |es| => es[i].obj)
  }

  method Select(fs: FileSystem, check: bool, list: array<Entry>, policy: Policy)
    returns (r: Selection)
    requires list.Length > 0 && list[0].Plain?
    modifies list
    ensures r == Selected(fs, check, old(list[..]), policy)
    ensures r.Success? ==>
      r.value != [] && |r.value| <= list.Length && list[..] == Plains(r.value) + old(list[|r.value|..])
  {
    ghost var expected := Selected(fs, check, list[..], policy);
    var n := GetAllObjs(fs, check, list, policy);
    if n.Failure? {
      return Failure(n.error);
    }
    assert list[..n.value] == Plains(expected.value);
    var objs := Objects(list[..n.value]);
    assert forall i | 0 <= i < |objs| :: Plain(objs[i]) == Plain(expected.value[i]);
    assert objs == expected.value;
    assert list[..] == list[..n.value] + list[n.value..];
    return Success(objs);
  }

  /** The program's slice of destinations is the front of the list it was selected from, and the pairing reorders it
      there; nothing reads the list in between. */
  method WriteBack(list: array<Entry>, objs: array<Object>)
    requires objs.Length <= list.Length
    modifies list
    ensures list[..] == Plains(objs[..]) + old(list[objs.Length..])
  {
    for i := 0 to objs.Length
      invariant forall j | 0 <= j < i :: list[j] == Plain(objs[j])
      invariant forall j | objs.Length <= j < list.Length :: list[j] == old(list[j])
    {
      list[i] := Plain(objs[i]);
    }
  }

  /** What a move or copy leaves in the list of its target: the selected destinations, as many as were served in the
      order of the calls, the leader first; behind them what was there. */
  ghost predicate Reordered(mounts: Mounts, srcs: seq<Object>, dsts: seq<Object>, pick: Pick, calls: seq<Call>,
                            before: seq<Entry>, after: seq<Entry>)
  {
    && |dsts| <= |before| == |after|
    && after[|dsts|..] == before[|dsts|..]
    && multiset(after[..|dsts|]) == multiset(Plains(dsts))
    && (forall i | 0 <= i < |dsts| && i < |calls| :: calls[i].Transfer? && after[i] == Plain(calls[i].dst))
    && (dsts != [] ==> after[0] == Plain(Leader(mounts, srcs, dsts, pick)))
  }

  lemma ReorderedBy(mounts: Mounts, srcs: seq<Object>, dsts: seq<Object>, pick: Pick, calls: seq<Call>,
                    before: seq<Entry>, after: seq<Entry>, paired: seq<Object>)
    requires |dsts| <= |before| && after == Plains(paired) + before[|dsts|..] && multiset(paired) == multiset(dsts)
    requires dsts != [] ==> paired != [] && paired[0] == Leader(mounts, srcs, dsts, pick)
    requires forall i | 0 <= i < |paired| && i < |calls| :: calls[i].Transfer? && calls[i].dst == paired[i]
    ensures Reordered(mounts, srcs, dsts, pick, calls, before, after)
  {
    hide Leader;
    RoomFilled(paired, dsts);
    assert after[..|dsts|] == Plains(paired);
    PlainsOf(paired, dsts);
  }

  lemma {:induction false} PlainCount(objs: seq<Object>, e: Entry)
    ensures multiset(Plains(objs))[e] == if e.Plain? then multiset(objs)[e.obj] else 0
  {
    if objs != [] {
      var n := |objs| - 1;
      PlainCount(objs[..n], e);
      assert objs == objs[..n] + [objs[n]] && Plains(objs) == Plains(objs[..n]) + [Plain(objs[n])];
    }
  }

  lemma PlainsOf(a: seq<Object>, b: seq<Object>)
    requires multiset(a) == multiset(b)
    ensures multiset(Plains(a)) == multiset(Plains(b))
  {
    forall e ensures multiset(Plains(a))[e] == multiset(Plains(b))[e] {
      PlainCount(a, e);
      PlainCount(b, e);
    }
  }

  /** What Alias.Move does with the selected sources and destinations. */
  ghost predicate MoveOutcome(mounts: Mounts, putPolicy: Policy, srcs: Selection, dsts: Selection, r: Outcome) {
    match r
    case Rejected(e) =>
      if putPolicy.Disabled? then e == PermissionDenied
      else if dsts.Failure? then dsts == Failure(e)
      else if srcs.Failure? then srcs == Failure(e)
      else if |srcs.value| < |dsts.value| then e == NotEnoughSrcObjs
      else e == VirtualPath && exists k | 0 <= k < |dsts.value| :: mounts(dsts.value[k].path).None?
    case Panicked(calls) =>
      && !putPolicy.Disabled? && srcs.Success? && dsts.Success?
      && (forall k | 0 <= k < |dsts.value| :: mounts(dsts.value[k].path).Some?)
      && RunsOut(mounts, calls, srcs.value, dsts.value)
      && |Reachable(mounts, srcs.value, |srcs.value|)| < |dsts.value| <= |srcs.value|
    case Done(calls) =>
      && !putPolicy.Disabled? && srcs.Success? && dsts.Success?
      && (forall k | 0 <= k < |dsts.value| :: mounts(dsts.value[k].path).Some?)
      && |dsts.value| <= |Reachable(mounts, srcs.value, |srcs.value|)| == |calls|
      && MovesAll(mounts, calls, srcs.value, dsts.value)
  }

  /** Alias.Move. */
  method Move(fs: FileSystem, mounts: Mounts, check: bool, putPolicy: Policy,
              srcList: array<Entry>, dstList: array<Entry>, pick: Pick)
    returns (r: Outcome)
    requires srcList != dstList && Picks(pick)
    requires srcList.Length > 0 && srcList[0].Plain? && dstList.Length > 0 && dstList[0].Plain?
    requires DistinctEntries(dstList[..])
    modifies srcList, dstList
    ensures var srcs := Selected(fs, check, old(srcList[..]), Policy.All);
            var dsts := Selected(fs, check, old(dstList[..]), putPolicy);
            && MoveOutcome(mounts, putPolicy, srcs, dsts, r)
            && (!r.Rejected? ==> Reordered(mounts, srcs.value, dsts.value, pick, Issued(r), old(dstList[..]), dstList[..]))
  {
    hide Picks, Reordered, RunsOut, MovesAll, Reachable, Selected, Distinct, DistinctEntries;
    SelectedDistinct(fs, check, dstList[..], putPolicy);
    if putPolicy.Disabled? {
      return Rejected(PermissionDenied);
    }
    var dsts := Select(fs, check, dstList, putPolicy);
    if dsts.Failure? {
      return Rejected(dsts.error);
    }
    var tmpSrcs := Select(fs, check, srcList, Policy.All);
    if tmpSrcs.Failure? {
      return Rejected(tmpSrcs.error);
    }
    r := MoveSelected(mounts, putPolicy, tmpSrcs.value, dsts.value, dstList, pick, old(dstList[..]));
  }

  /** The selections made: the pairing and the calls. The front of the list holds the destinations. */
  method MoveSelected(mounts: Mounts, putPolicy: Policy, srcs: seq<Object>, dsts: seq<Object>, dstList: array<Entry>, pick: Pick,
                      ghost before: seq<Entry>)
    returns (r: Outcome)
    requires !putPolicy.Disabled? && Distinct(dsts) && Picks(pick)
    requires |before| == dstList.Length && |dsts| <= |before| && dstList[|dsts|..] == before[|dsts|..]
    modifies dstList
    ensures MoveOutcome(mounts, putPolicy, Success(srcs), Success(dsts), r)
    ensures !r.Rejected? ==> Reordered(mounts, srcs, dsts, pick, Issued(r), before, dstList[..])
  {
    hide Picks, Leader, Reordered, RunsOut, Reachable, SamePairs, Bag, Distinct, MovesAll, Transfers, Removals;
    var dstObjs := new Object[|dsts|](i requires 0 <= i < |dsts| => dsts[i]);
    assert dstObjs[..] == dsts;
    var paired := GetMoveObjs(mounts, srcs, dstObjs, pick);
    if paired.Failure? {
      return Rejected(paired.error);
    }
    RoomFilled(dstObjs[..], dsts);
    WriteBack(dstList, dstObjs);
    var complete, calls := IssueMove(paired.value, dstObjs[..]);
    CallsAt(paired.value, dstObjs[..], calls, complete);
    ReorderedBy(mounts, srcs, dsts, pick, calls, before, dstList[..], dstObjs[..]);
    if !complete {
      RanOut(mounts, calls, srcs, dsts, paired.value, dstObjs[..]);
      return Panicked(calls);
    }
    MovedAll(mounts, calls, srcs, dsts, paired.value, dstObjs[..]);
    return Done(calls);
  }

  /** What Alias.Copy does: one copy into every selected destination, each from a source the read policy allows. */
  ghost predicate CopyOutcome(mounts: Mounts, putPolicy: Policy, spread: Spread, srcs: Selection, dsts: Selection, r: Outcome) {
    match r
    case Rejected(e) =>
      if putPolicy.Disabled? then e == PermissionDenied
      else if dsts.Failure? then dsts == Failure(e)
      else if exists k | 0 <= k < |dsts.value| :: mounts(dsts.value[k].path).None? then e == VirtualPath
      else srcs == Failure(e)
    case Panicked(_) => false
    case Done(calls) =>
      && !putPolicy.Disabled? && srcs.Success? && srcs.value != [] && dsts.Success?
      && (forall k | 0 <= k < |dsts.value| :: mounts(dsts.value[k].path).Some?)
      && (forall i | 0 <= i < |calls| :: calls[i].Transfer?
            && GoodSource(mounts, srcs.value, spread, calls[i].src, calls[i].dst))
      && multiset(Targets(calls)) == multiset(dsts.value)
  }

  /** Alias.Copy. */
  method Copy(fs: FileSystem, mounts: Mounts, check: bool, putPolicy: Policy, spread: Spread,
              srcList: array<Entry>, dstList: array<Entry>, pick: Pick)
    returns (r: Outcome)
    requires srcList != dstList && Picks(pick)
    requires srcList.Length > 0 && srcList[0].Plain? && dstList.Length > 0 && dstList[0].Plain?
    requires DistinctEntries(dstList[..])
    modifies srcList, dstList
    ensures var srcs := Selected(fs, check, old(srcList[..]), Policy.All);
            var dsts := Selected(fs, check, old(dstList[..]), putPolicy);
            && CopyOutcome(mounts, putPolicy, spread, srcs, dsts, r)
            && (!r.Rejected? ==> Reordered(mounts, srcs.value, dsts.value, pick, Issued(r), old(dstList[..]), dstList[..]))
  {
    hide Picks, Reordered, Selected, Distinct, DistinctEntries;
    SelectedDistinct(fs, check, dstList[..], putPolicy);
    if putPolicy.Disabled? {
      return Rejected(PermissionDenied);
    }
    var dsts := Select(fs, check, dstList, putPolicy);
    if dsts.Failure? {
      return Rejected(dsts.error);
    }
    var tmpSrcs := Select(fs, check, srcList, Policy.All);
    r := CopySelected(mounts, putPolicy, spread, tmpSrcs, dsts.value, dstList, pick, old(dstList[..]));
  }

  /** The same for copies, whose sources may not have been found. */
  method CopySelected(mounts: Mounts, putPolicy: Policy, spread: Spread, srcs: Selection, dsts: seq<Object>, dstList: array<Entry>,
                      pick: Pick, ghost before: seq<Entry>)
    returns (r: Outcome)
    requires !putPolicy.Disabled? && Distinct(dsts) && Picks(pick) && (srcs.Success? ==> srcs.value != [])
    requires |before| == dstList.Length && |dsts| <= |before| && dstList[|dsts|..] == before[|dsts|..]
    modifies dstList
    ensures CopyOutcome(mounts, putPolicy, spread, srcs, Success(dsts), r)
    ensures !r.Rejected? ==> Reordered(mounts, srcs.value, dsts, pick, Issued(r), before, dstList[..])
  {
    hide CopyOutcome, Picks, Leader, Reordered, GoodSource, Distinct;
    var dstObjs := new Object[|dsts|](i requires 0 <= i < |dsts| => dsts[i]);
    assert dstObjs[..] == dsts;
    var paired := GetCopyObjs(mounts, srcs, dstObjs, spread, pick);
    if paired.Failure? {
      NotCopied(mounts, putPolicy, spread, srcs, dsts, paired.error);
      return Rejected(paired.error);
    }
    RoomFilled(dstObjs[..], dsts);
    WriteBack(dstList, dstObjs);
    var calls: seq<Call> := [];
    for i := 0 to |paired.value|
      invariant |calls| == i && forall k | 0 <= k < i :: calls[k] == Transfer(paired.value[k], dstObjs[k])
    {
      calls := calls + [Transfer(paired.value[i], dstObjs[i])];
    }
    CopiedAll(mounts, putPolicy, spread, srcs, dsts, calls, paired.value, dstObjs[..]);
    ReorderedBy(mounts, srcs.value, dsts, pick, calls, before, dstList[..], dstObjs[..]);
    return Done(calls);
  }

  /** The two loops of Alias.Move over the pairing. */
  method IssueMove(srcs: seq<Object>, dsts: seq<Object>) returns (complete: bool, calls: seq<Call>)
    ensures complete <==> |dsts| <= |srcs|
    ensures !complete ==> calls == Transfers(srcs, dsts, |srcs|)
    ensures complete ==> calls == Transfers(srcs, dsts, |dsts|) + Removals(srcs[|dsts|..])
  {
    calls := [];
    var i := 0;
    while i < |dsts|
      invariant i <= |dsts| && i <= |srcs| && calls == Transfers(srcs, dsts, i)
    {
      if i >= |srcs| {
        return false, calls;
      }
      calls := calls + [Transfer(srcs[i], dsts[i])];
      i := i + 1;
    }
    ghost var moved := calls;
    while i < |srcs|
      invariant |dsts| <= i <= |srcs| && calls == moved + Removals(srcs[|dsts|..i])
    {
      assert srcs[|dsts|..i + 1] == srcs[|dsts|..i] + [srcs[i]];
      calls := calls + [Remove(srcs[i])];
      i := i + 1;
    }
    assert srcs[|dsts|..i] == srcs[|dsts|..];
    return true, calls;
  }

  /** Every reachable selected source is moved or removed, once; every selected destination receives one
      object; and no assignment keeps more transfers on their own mount. */
  ghost predicate MovesAll(mounts: Mounts, calls: seq<Call>, srcs: seq<Object>, dsts: seq<Object>) {
    && multiset(Sources(calls)) == multiset(Reachable(mounts, srcs, |srcs|))
    && |dsts| <= |calls|
    && (forall i | 0 <= i < |calls| :: calls[i].Transfer? <==> i < |dsts|)
    && var targets := seq(|dsts|, i requires 0 <= i < |dsts| && calls[i].Transfer? => calls[i].dst);
       && multiset(targets) == multiset(dsts)
       && SamePairs(mounts, Sources(calls), targets, |dsts|) == |Bag(mounts, srcs) * Bag(mounts, dsts)|
  }

  /** All reachable sources were moved, each to a destination of its own, as many as possible on their own mount,
      when the next destination found no source. */
  ghost predicate RunsOut(mounts: Mounts, calls: seq<Call>, srcs: seq<Object>, dsts: seq<Object>) {
    && multiset(Sources(calls)) == multiset(Reachable(mounts, srcs, |srcs|))
    && (forall i | 0 <= i < |calls| :: calls[i].Transfer?)
    && multiset(Targets(calls)) <= multiset(dsts)
    && SamePairs(mounts, Sources(calls), Targets(calls), |calls|) == |Bag(mounts, srcs) * Bag(mounts, dsts)|
  }

  lemma RanOut(mounts: Mounts, calls: seq<Call>, allSrcs: seq<Object>, dsts: seq<Object>,
               srcs: seq<Object>, targets: seq<Object>)
    requires |srcs| < |targets| && calls == Transfers(srcs, targets, |srcs|)
    requires multiset(targets) == multiset(dsts)
    requires multiset(srcs) == multiset(Reachable(mounts, allSrcs, |allSrcs|))
    requires SamePairs(mounts, srcs, targets, |srcs|) == |Bag(mounts, allSrcs) * Bag(mounts, dsts)|
    ensures RunsOut(mounts, calls, allSrcs, dsts)
  {
    hide Reachable, Bag, SamePairs, Transfers, Sources, Targets;
    TransfersOf(srcs, targets, |srcs|);
    assert srcs[..|srcs|] == srcs;
    PrefixBag(targets, |srcs|);
    SamePairsPrefix(mounts, srcs, targets, targets[..|srcs|], |srcs|);
  }

  lemma PrefixBag(objs: seq<Object>, n: nat)
    requires n <= |objs|
    ensures multiset(objs[..n]) <= multiset(objs)
  {
    assert objs == objs[..n] + objs[n..];
  }

  lemma NotCopied(mounts: Mounts, putPolicy: Policy, spread: Spread, srcs: Selection, dsts: seq<Object>, e: Error)
    requires !putPolicy.Disabled?
    requires if exists k | 0 <= k < |dsts| :: mounts(dsts[k].path).None? then e == VirtualPath else srcs == Failure(e)
    ensures CopyOutcome(mounts, putPolicy, spread, srcs, Success(dsts), Rejected(e))
  {
  }

  lemma CopiedAll(mounts: Mounts, putPolicy: Policy, spread: Spread, srcs: Selection, dsts: seq<Object>, calls: seq<Call>,
                  paired: seq<Object>, targets: seq<Object>)
    requires !putPolicy.Disabled? && srcs.Success? && srcs.value != [] && multiset(targets) == multiset(dsts)
    requires forall k | 0 <= k < |dsts| :: mounts(dsts[k].path).Some?
    requires |paired| == |targets| == |calls| && forall i | 0 <= i < |calls| :: calls[i] == Transfer(paired[i], targets[i])
    requires forall i | 0 <= i < |paired| :: GoodSource(mounts, srcs.value, spread, paired[i], targets[i])
    ensures CopyOutcome(mounts, putPolicy, spread, srcs, Success(dsts), Done(calls))
  {
    hide GoodSource;
    assert Targets(calls) == targets;
  }

  lemma TransfersOf(srcs: seq<Object>, dsts: seq<Object>, n: nat)
    requires n <= |srcs| && n <= |dsts|
    ensures var calls := Transfers(srcs, dsts, n);
            && |calls| == n && Sources(calls) == srcs[..n] && Targets(calls) == dsts[..n]
            && forall i | 0 <= i < n :: calls[i].Transfer?
  {
  }

  lemma {:induction false} SamePairsPrefix(mounts: Mounts, srcs: seq<Object>, a: seq<Object>, b: seq<Object>, n: nat)
    requires n <= |srcs| && n <= |a| && n <= |b| && forall i | 0 <= i < n :: a[i] == b[i]
    ensures SamePairs(mounts, srcs, a, n) == SamePairs(mounts, srcs, b, n)
  {
    if n > 0 {
      SamePairsPrefix(mounts, srcs, a, b, n - 1);
    }
  }

  lemma MovedAll(mounts: Mounts, calls: seq<Call>, allSrcs: seq<Object>, dsts: seq<Object>,
                 srcs: seq<Object>, targets: seq<Object>)
    requires |targets| == |dsts| <= |srcs|
    requires calls == Transfers(srcs, targets, |targets|) + Removals(srcs[|targets|..])
    requires multiset(targets) == multiset(dsts)
    requires multiset(srcs) == multiset(Reachable(mounts, allSrcs, |allSrcs|))
    requires SamePairs(mounts, srcs, targets, |targets|) == |Bag(mounts, allSrcs) * Bag(mounts, dsts)|
    ensures MovesAll(mounts, calls, allSrcs, dsts)
  {
    hide Reachable, SamePairs, Bag, Transfers, Removals, Sources;
    CallsOf(srcs, targets);
    assert seq(|dsts|, i requires 0 <= i < |dsts| && calls[i].Transfer? => calls[i].dst) == targets;
  }

  lemma CallsAt(srcs: seq<Object>, dsts: seq<Object>, calls: seq<Call>, complete: bool)
    requires complete <==> |dsts| <= |srcs|
    requires calls == if complete then Transfers(srcs, dsts, |dsts|) + Removals(srcs[|dsts|..]) else Transfers(srcs, dsts, |srcs|)
    ensures |calls| == |srcs| && forall i | 0 <= i < |dsts| && i < |calls| :: calls[i] == Transfer(srcs[i], dsts[i])
  {
  }

  lemma CallsOf(srcs: seq<Object>, dsts: seq<Object>)
    requires |dsts| <= |srcs|
    ensures var calls := Transfers(srcs, dsts, |dsts|) + Removals(srcs[|dsts|..]);
            && |calls| == |srcs| && Sources(calls) == srcs
            && forall i | 0 <= i < |calls| :: calls[i] == if i < |dsts| then Transfer(srcs[i], dsts[i]) else Remove(srcs[i])
  {
  }

  // ----- from paths to calls -----

  ghost predicate Resolves(fs: FileSystem, paths: seq<string>) {
    FirstResolving(fs, paths) < |paths|
  }

  function ListOf(fs: FileSystem, paths: seq<string>): (es: seq<Entry>)
    requires FirstResolving(fs, paths) < |paths|
    ensures es != [] && es[0].Plain?
  {
    Listing(fs, paths, FirstResolving(fs, paths))
  }

  /** Both lists from Get, then Move, over the raw paths of the roots of source and target. */
  method MovePaths(fs: FileSystem, mounts: Mounts, check: bool, putPolicy: Policy,
                   srcPaths: seq<string>, dstPaths: seq<string>, pick: Pick)
    returns (r: Outcome)
    requires Picks(pick)
    ensures if Resolves(fs, srcPaths) && Resolves(fs, dstPaths)
            then MoveOutcome(mounts, putPolicy, Selected(fs, check, ListOf(fs, srcPaths), Policy.All),
                             Selected(fs, check, ListOf(fs, dstPaths), putPolicy), r)
            else r == Rejected(ObjectNotFound)
  {
    hide Picks, Reordered, MoveOutcome, Listing, DistinctEntries;
    var src := Get(fs, srcPaths);
    if src.Failure? {
      return Rejected(src.error);
    }
    var dst := Get(fs, dstPaths);
    if dst.Failure? {
      return Rejected(dst.error);
    }
    assert src.value[..] == ListOf(fs, srcPaths) && dst.value[..] == ListOf(fs, dstPaths);
    assert src.value[0] == src.value[..][0] && dst.value[0] == dst.value[..][0];
    ListingDistinct(fs, dstPaths);
    r := Move(fs, mounts, check, putPolicy, src.value, dst.value, pick);
  }

  /** Both lists from Get, then Copy. */
  method CopyPaths(fs: FileSystem, mounts: Mounts, check: bool, putPolicy: Policy, spread: Spread,
                   srcPaths: seq<string>, dstPaths: seq<string>, pick: Pick)
    returns (r: Outcome)
    requires Picks(pick)
    ensures if Resolves(fs, srcPaths) && Resolves(fs, dstPaths)
            then CopyOutcome(mounts, putPolicy, spread, Selected(fs, check, ListOf(fs, srcPaths), Policy.All),
                             Selected(fs, check, ListOf(fs, dstPaths), putPolicy), r)
            else r == Rejected(ObjectNotFound)
  {
    hide Picks, Reordered, CopyOutcome, Listing, DistinctEntries;
    var src := Get(fs, srcPaths);
    if src.Failure? {
      return Rejected(src.error);
    }
    var dst := Get(fs, dstPaths);
    if dst.Failure? {
      return Rejected(dst.error);
    }
    assert src.value[..] == ListOf(fs, srcPaths) && dst.value[..] == ListOf(fs, dstPaths);
    assert src.value[0] == src.value[..][0] && dst.value[0] == dst.value[..][0];
    ListingDistinct(fs, dstPaths);
    r := Copy(fs, mounts, check, putPolicy, spread, src.value, dst.value, pick);
  }

  /** The guard of getMoveObjs counts selected sources, but one whose storage does not resolve is dropped later:
      here it passes for lists built by Get, the destination has a storage, and no source is left for it. */
  lemma CountGuardIsNotEnough(check: bool) returns (fs: FileSystem, mounts: Mounts, src: Object, dst: Object)
    ensures Resolves(fs, ["/a"]) && Selected(fs, check, ListOf(fs, ["/a"]), Policy.All) == Success([src])
    ensures Resolves(fs, ["/b"]) && Selected(fs, check, ListOf(fs, ["/b"]), AllStrict) == Success([dst])
    ensures |[src]| >= |[dst]| && mounts(dst.path).Some?
    ensures |Reachable(mounts, [src], 1)| < |[dst]|
  {
    var dir := Stat(true, 0, map[]);
    fs := _ => Some(dir);
    mounts := path => if path == "/b" then Some("/b") else None;
    src, dst := Object(0, "/a", dir), Object(0, "/b", dir);
    OneEntry(fs, check, "/a", dir, Policy.All);
    OneEntry(fs, check, "/b", dir, AllStrict);
    assert Reachable(mounts, [src], 1) == Reachable(mounts, [src], 0);
  }

  lemma OneEntry(fs: FileSystem, check: bool, path: string, st: Stat, policy: Policy)
    requires fs(path) == Some(st) && (policy == Policy.All || policy == AllStrict)
    ensures Resolves(fs, [path]) && Selected(fs, check, ListOf(fs, [path]), policy) == Success([Object(0, path, st)])
  {
    var o := Object(0, path, st);
    assert FirstResolving(fs, [path]) == 0;
    assert ListOf(fs, [path]) == [Plain(o)];
    assert Survivors(fs, check, st, [Plain(o)], 0) == [];
    assert Survivors(fs, check, st, [Plain(o)], 1) == [o];
  }

  /** There, Move ends in the index failure. */
  method MovePanics(check: bool, pick: Pick) returns (r: Outcome)
    requires Picks(pick)
    ensures r.Panicked?
  {
    hide Picks, RunsOut, Selected, Reachable, ListOf, Resolves;
    var dir := Stat(true, 0, map[]);
    var fs: FileSystem := _ => Some(dir);
    var mounts: Mounts := path => if path == "/b" then Some("/b") else None;
    ghost var src, dst := Object(0, "/a", dir), Object(0, "/b", dir);
    OneEntry(fs, check, "/a", dir, Policy.All);
    OneEntry(fs, check, "/b", dir, AllStrict);
    NoneReachable(mounts, src);
    r := MovePaths(fs, mounts, check, AllStrict, ["/a"], ["/b"], pick);
  }

  lemma NoneReachable(mounts: Mounts, src: Object)
    requires mounts(src.path).None?
    ensures Reachable(mounts, [src], 1) == []
  {
    assert Reachable(mounts, [src], 0) == [];
  }
}
