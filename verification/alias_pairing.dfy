/** How Move and Copy pair the selected source replicas with the selected destinations. */
module AliasPairing {

  import opened Wrappers
  import opened AliasSelection

  /** The mount path of the storage that serves a path, or None when no storage does. */
  type Mounts = string -> Option<string>

  // ----- mounts of a list, as a bag -----

  function Located(mounts: Mounts, o: Object): multiset<string> {
    match mounts(o.path)
    case None => multiset{}
    case Some(mp) => multiset{mp}
  }

  /** The mounts of the first `n` objects, with multiplicity; unresolvable objects have none. */
  function MountBag(mounts: Mounts, objs: seq<Object>, n: nat): multiset<string>
    requires n <= |objs|
  {
    if n == 0 then multiset{} else MountBag(mounts, objs, n - 1) + Located(mounts, objs[n - 1])
  }

  function Bag(mounts: Mounts, objs: seq<Object>): multiset<string> {
    MountBag(mounts, objs, |objs|)
  }

  predicate SameMount(mounts: Mounts, a: Object, b: Object) {
    mounts(a.path).Some? && mounts(a.path) == mounts(b.path)
  }

  /** How many of the first `n` pairs stay on one mount. */
  function SamePairs(mounts: Mounts, srcs: seq<Object>, dsts: seq<Object>, n: nat): (k: nat)
    requires n <= |srcs| && n <= |dsts|
    ensures k <= n
  {
    if n == 0 then 0
    else SamePairs(mounts, srcs, dsts, n - 1) + if SameMount(mounts, srcs[n - 1], dsts[n - 1]) then 1 else 0
  }

  // ----- the best any pairing can do -----

  lemma {:induction false} BagOfPrefix(mounts: Mounts, a: seq<Object>, b: seq<Object>, n: nat)
    requires n <= |a| && n <= |b| && forall i | 0 <= i < n :: a[i] == b[i]
    ensures MountBag(mounts, a, n) == MountBag(mounts, b, n)
  {
    if n > 0 {
      BagOfPrefix(mounts, a, b, n - 1);
    }
  }

  lemma BagAppend(mounts: Mounts, a: seq<Object>, x: Object)
    ensures Bag(mounts, a + [x]) == Bag(mounts, a) + Located(mounts, x)
  {
    BagOfPrefix(mounts, a + [x], a, |a|);
  }

  function Without(a: seq<Object>, j: nat): seq<Object>
    requires j < |a|
  {
    a[..j] + a[j + 1..]
  }

  lemma WithoutLast(a: seq<Object>, j: nat)
    requires j < |a|
    ensures var front, last := a[..|a| - 1], a[|a| - 1];
            && front + [last] == a
            && Without(a, j) == if j == |a| - 1 then front else Without(front, j) + [last]
  {
  }

  lemma {:induction false} BagRemove(mounts: Mounts, a: seq<Object>, j: nat)
    requires j < |a|
    ensures Bag(mounts, a) == Bag(mounts, Without(a, j)) + Located(mounts, a[j])
    decreases |a|
  {
    var front, last := a[..|a| - 1], a[|a| - 1];
    WithoutLast(a, j);
    BagAppend(mounts, front, last);
    if j < |a| - 1 {
      BagRemove(mounts, front, j);
      BagAppend(mounts, Without(front, j), last);
      hide Without, Bag, Located;
      assert front[j] == a[j];
    }
  }

  lemma BagTake(a: seq<Object>, x: Object) returns (j: nat)
    requires x in multiset(a)
    ensures j < |a| && a[j] == x && multiset(a) == multiset(Without(a, j)) + multiset{x}
  {
    assert x in a;
    j :| 0 <= j < |a| && a[j] == x;
    assert a == a[..j] + [x] + a[j + 1..];
  }

  lemma CancelOne<T>(a: multiset<T>, b: multiset<T>, x: T)
    requires a + multiset{x} <= b + multiset{x}
    ensures a <= b
  {
    forall y ensures a[y] <= b[y] {
      assert (a + multiset{x})[y] <= (b + multiset{x})[y];
    }
  }

  lemma {:induction false} BagMonotone(mounts: Mounts, a: seq<Object>, b: seq<Object>)
    requires multiset(a) <= multiset(b)
    ensures Bag(mounts, a) <= Bag(mounts, b)
    decreases |a|
  {
    if a != [] {
      var front, x := a[..|a| - 1], a[|a| - 1];
      assert front + [x] == a;
      assert multiset(a) == multiset(front) + multiset{x};
      var j := BagTake(b, x);
      CancelOne(multiset(front), multiset(Without(b, j)), x);
      BagMonotone(mounts, front, Without(b, j));
      BagAppend(mounts, front, x);
      BagRemove(mounts, b, j);
    }
  }

  /** The mounts of the pairs that stay on one mount occur in both lists. */
  lemma {:induction false} SamePairsWithinBags(mounts: Mounts, srcs: seq<Object>, dsts: seq<Object>, n: nat)
      returns (common: multiset<string>)
    requires n <= |srcs| && n <= |dsts|
    ensures |common| == SamePairs(mounts, srcs, dsts, n)
    ensures common <= MountBag(mounts, srcs, n) && common <= MountBag(mounts, dsts, n)
  {
    if n == 0 {
      common := multiset{};
    } else {
      var front := SamePairsWithinBags(mounts, srcs, dsts, n - 1);
      var src, dst := srcs[n - 1], dsts[n - 1];
      common := front + if SameMount(mounts, src, dst) then Located(mounts, src) else multiset{};
      SumMonotone(front, MountBag(mounts, srcs, n - 1), common - front, Located(mounts, src));
      SumMonotone(front, MountBag(mounts, dsts, n - 1), common - front, Located(mounts, dst));
    }
  }

  lemma SumMonotone(a: multiset<string>, b: multiset<string>, x: multiset<string>, y: multiset<string>)
    requires a <= b && x <= y
    ensures a + x <= b + y
  {
  }

  lemma CardinalityMonotone(a: multiset<string>, b: multiset<string>)
    requires a <= b
    ensures |a| <= |b|
  {
    assert b == a + (b - a);
  }

  /** No pairing of objects taken from `allSrcs` and `allDsts` keeps more pairs on one mount than
      the sum over the mounts of the smaller of the two counts. */
  lemma PairingBound(mounts: Mounts, allSrcs: seq<Object>, allDsts: seq<Object>,
                     srcs: seq<Object>, dsts: seq<Object>, n: nat)
    requires n <= |srcs| && n <= |dsts|
    requires multiset(srcs) <= multiset(allSrcs) && multiset(dsts) <= multiset(allDsts)
    ensures SamePairs(mounts, srcs, dsts, n) <= |Bag(mounts, allSrcs) * Bag(mounts, allDsts)|
  {
    hide MountBag, SamePairs;
    var common := SamePairsWithinBags(mounts, srcs, dsts, n);
    assert srcs == srcs[..n] + srcs[n..] && dsts == dsts[..n] + dsts[n..];
    assert multiset(srcs[..n]) <= multiset(srcs) && multiset(dsts[..n]) <= multiset(dsts);
    BagMonotone(mounts, srcs[..n], allSrcs);
    BagMonotone(mounts, dsts[..n], allDsts);
    BagOfPrefix(mounts, srcs, srcs[..n], n);
    BagOfPrefix(mounts, dsts, dsts[..n], n);
    CardinalityMonotone(common, Bag(mounts, allSrcs) * Bag(mounts, allDsts));
  }

  // ----- the destinations not paired yet -----

  /** `groups` files every object of `allocating` under its mount, exactly once; `free` counts them. */
  ghost predicate Filed(mounts: Mounts, groups: map<string, seq<Object>>, allocating: set<Object>, free: multiset<string>) {
    && (forall mp | mp in groups :: groups[mp] != [] && Distinct(groups[mp]) && |groups[mp]| == free[mp])
    && (forall mp, k | mp in groups && 0 <= k < |groups[mp]| ::
          groups[mp][k] in allocating && mounts(groups[mp][k].path) == Some(mp))
    && (forall o | o in allocating ::
          mounts(o.path).Some? && mounts(o.path).value in groups && o in groups[mounts(o.path).value])
    && (forall mp | mp in free :: mp in groups)
  }

  lemma FiledAdd(mounts: Mounts, groups: map<string, seq<Object>>, allocating: set<Object>, free: multiset<string>,
                 o: Object, mp: string)
    requires Filed(mounts, groups, allocating, free)
    requires mounts(o.path) == Some(mp) && forall p | p in allocating :: p.addr != o.addr
    ensures var group := if mp in groups then groups[mp] else [];
            Filed(mounts, groups[mp := group + [o]], allocating + {o}, free + Located(mounts, o))
    ensures multiset(allocating + {o}) == multiset(allocating) + multiset{o}
  {
    var group := if mp in groups then groups[mp] else [];
    var groups' := groups[mp := group + [o]];
    assert mp !in groups ==> free[mp] == 0;
    forall p | p in allocating + {o}
      ensures mounts(p.path).Some? && mounts(p.path).value in groups' && p in groups'[mounts(p.path).value]
    {
      if p == o {
        assert groups'[mp][|group|] == o;
      }
    }
  }

  // ----- which destination comes first -----

  /** The first of the first `k` objects that lives on mount `mp`. */
  function FirstOn(mounts: Mounts, objs: seq<Object>, k: nat, mp: string): Option<Object>
    requires k <= |objs|
  {
    if k == 0 then None
    else if FirstOn(mounts, objs, k - 1, mp).Some? then FirstOn(mounts, objs, k - 1, mp)
    else if mounts(objs[k - 1].path) == Some(mp) then Some(objs[k - 1])
    else None
  }

  /** The mount of the first of the first `k` sources that shares its mount with a destination. */
  function FirstShared(mounts: Mounts, srcs: seq<Object>, dsts: seq<Object>, k: nat): (r: Option<string>)
    requires k <= |srcs|
    ensures r.Some? ==> FirstOn(mounts, dsts, |dsts|, r.value).Some?
  {
    if k == 0 then None
    else if FirstShared(mounts, srcs, dsts, k - 1).Some? then FirstShared(mounts, srcs, dsts, k - 1)
    else
      var mp := mounts(srcs[k - 1].path);
      if mp.Some? && FirstOn(mounts, dsts, |dsts|, mp.value).Some? then mp else None
  }

  /** The order in which a map hands out its keys: which one comes next when these are left. */
  type Pick = set<Object> -> Object

  ghost predicate Picks(pick: Pick) {
    forall rest: set<Object> | rest != {} :: pick(rest) in rest
  }

  lemma PickedNext(pick: Pick, rest: set<Object>)
    requires Picks(pick) && rest != {}
    ensures pick(rest) in rest
  {
  }

  /** The destination that both pairings write first. */
  function Leader(mounts: Mounts, srcs: seq<Object>, dsts: seq<Object>, pick: Pick): Object {
    match FirstShared(mounts, srcs, dsts, |srcs|)
    case Some(mp) => FirstOn(mounts, dsts, |dsts|, mp).value
    case None => pick(set o | o in dsts)
  }

  lemma {:induction false} FirstOnHead(mounts: Mounts, objs: seq<Object>, k: nat, mp: string)
    requires k <= |objs| && Distinct(objs)
    ensures match FirstOn(mounts, objs, k, mp)
            case Some(o) => mounts(o.path) == Some(mp) && o in objs && (o == objs[0] <==> mounts(objs[0].path) == Some(mp))
            case None => k > 0 ==> mounts(objs[0].path) != Some(mp)
  {
    if k > 0 {
      FirstOnHead(mounts, objs, k - 1, mp);
    }
  }

  /** The first destination of a list stays in its place, whatever the order of the map, exactly when the first
      source that shares its mount with any destination shares it with that one, or, when no source does, when it
      is the only destination. */
  lemma LeaderStaysExactly(mounts: Mounts, srcs: seq<Object>, dsts: seq<Object>)
    requires dsts != [] && Distinct(dsts)
    ensures (forall pick | Picks(pick) :: Leader(mounts, srcs, dsts, pick) == dsts[0])
            <==> match FirstShared(mounts, srcs, dsts, |srcs|)
                 case Some(mp) => mounts(dsts[0].path) == Some(mp)
                 case None => |dsts| == 1
  {
    hide FirstOn, FirstShared, Distinct, Picks;
    var all, last := (set o | o in dsts), dsts[|dsts| - 1];
    match FirstShared(mounts, srcs, dsts, |srcs|)
    case Some(mp) =>
      FirstOnHead(mounts, dsts, |dsts|, mp);
      var pick := Preferring(last);
      assert Leader(mounts, srcs, dsts, pick) == FirstOn(mounts, dsts, |dsts|, mp).value;
    case None =>
      if |dsts| == 1 {
        forall pick | Picks(pick) ensures Leader(mounts, srcs, dsts, pick) == dsts[0] {
          assert dsts[0] in all;
          PickedNext(pick, all);
        }
      } else {
        var pick := Preferring(last);
        assert last in all && Leader(mounts, srcs, dsts, pick) == last;
        FirstAndLast(dsts);
      }
  }

  lemma FirstAndLast(objs: seq<Object>)
    requires |objs| > 1 && Distinct(objs)
    ensures objs[0] != objs[|objs| - 1]
  {
  }

  lemma Preferring(o: Object) returns (pick: Pick)
    ensures Picks(pick) && forall rest | o in rest :: pick(rest) == o
  {
    pick := rest => if o in rest then o else if rest != {} then (var p :| p in rest; p) else o;
  }

  /** The groups begin with the first destination on each mount. */
  ghost predicate Headed(mounts: Mounts, dsts: seq<Object>, k: nat, groups: map<string, seq<Object>>)
    requires k <= |dsts|
  {
    && (forall mp :: mp in groups <==> FirstOn(mounts, dsts, k, mp).Some?)
    && forall mp | mp in groups :: groups[mp] != [] && FirstOn(mounts, dsts, k, mp) == Some(groups[mp][0])
  }

  lemma HeadedAdd(mounts: Mounts, dsts: seq<Object>, k: nat, groups: map<string, seq<Object>>, mp: string)
    requires k < |dsts| && Headed(mounts, dsts, k, groups) && mounts(dsts[k].path) == Some(mp)
    ensures Headed(mounts, dsts, k + 1, groups[mp := (if mp in groups then groups[mp] else []) + [dsts[k]]])
  {
  }

  lemma HeadedEmpty(mounts: Mounts, dsts: seq<Object>)
    ensures Headed(mounts, dsts, 0, map[])
  {
  }

  method GroupByMount(mounts: Mounts, dstObjs: seq<Object>)
    returns (r: Result<(map<string, seq<Object>>, set<Object>), Error>)
    requires Distinct(dstObjs)
    ensures r.Failure? <==> exists k | 0 <= k < |dstObjs| :: mounts(dstObjs[k].path).None?
    ensures r.Failure? ==> r.error == VirtualPath
    ensures r.Success? ==>
      && Filed(mounts, r.value.0, r.value.1, Bag(mounts, dstObjs))
      && multiset(r.value.1) == multiset(dstObjs)
      && Headed(mounts, dstObjs, |dstObjs|, r.value.0)
  {
    hide Headed, Filed, MountBag, Located;
    var groups: map<string, seq<Object>> := map[];
    var allocating: set<Object> := {};
    FiledEmpty(mounts, dstObjs);
    HeadedEmpty(mounts, dstObjs);
    var i := 0;
    while i < |dstObjs|
      invariant i <= |dstObjs|
      invariant forall k | 0 <= k < i :: mounts(dstObjs[k].path).Some?
      invariant forall o | o in allocating :: o in dstObjs[..i]
      invariant multiset(allocating) == multiset(dstObjs[..i])
      invariant Filed(mounts, groups, allocating, MountBag(mounts, dstObjs, i))
      invariant Headed(mounts, dstObjs, i, groups)
    {
      var o := dstObjs[i];
      var storage := mounts(o.path);
      if storage.None? {
        return Failure(VirtualPath);
      }
      var mp := storage.value;
      FiledAdd(mounts, groups, allocating, MountBag(mounts, dstObjs, i), o, mp);
      BagStep(mounts, dstObjs, i);
      HeadedAdd(mounts, dstObjs, i, groups, mp);
      groups := groups[mp := (if mp in groups then groups[mp] else []) + [o]];
      allocating := allocating + {o};
      assert dstObjs[..i + 1] == dstObjs[..i] + [o];
      i := i + 1;
    }
    assert dstObjs[..i] == dstObjs;
    return Success((groups, allocating));
  }

  lemma FiledEmpty(mounts: Mounts, objs: seq<Object>)
    ensures Filed(mounts, map[], {}, MountBag(mounts, objs, 0))
  {
  }

  lemma BagStep(mounts: Mounts, objs: seq<Object>, i: nat)
    requires i < |objs|
    ensures MountBag(mounts, objs, i + 1) == MountBag(mounts, objs, i) + Located(mounts, objs[i])
  {
  }

  // ----- getMoveObjs -----

  /** The objects among the first `n` whose storage resolves, in order. */
  function Reachable(mounts: Mounts, objs: seq<Object>, n: nat): seq<Object>
    requires n <= |objs|
  {
    if n == 0 then []
    else
      var front := Reachable(mounts, objs, n - 1);
      if mounts(objs[n - 1].path).Some? then front + [objs[n - 1]] else front
  }

  lemma FiledTake(mounts: Mounts, groups: map<string, seq<Object>>, allocating: set<Object>, free: multiset<string>,
                  mp: string)
    requires Filed(mounts, groups, allocating, free) && mp in groups
    ensures groups[mp] != [] && groups[mp][0] in allocating && mounts(groups[mp][0].path) == Some(mp)
    ensures var tmp := groups[mp];
            var groups' := if |tmp| == 1 then groups - {mp} else groups[mp := tmp[1..]];
            Filed(mounts, groups', allocating - {tmp[0]}, free - multiset{mp})
    ensures multiset(allocating) == multiset(allocating - {groups[mp][0]}) + multiset{groups[mp][0]}
  {
    var tmp := groups[mp];
    var groups' := if |tmp| == 1 then groups - {mp} else groups[mp := tmp[1..]];
    forall p | p in allocating - {tmp[0]}
      ensures mounts(p.path).Some? && mounts(p.path).value in groups' && p in groups'[mounts(p.path).value]
    {
      if mounts(p.path).value == mp {
        var k :| 0 <= k < |tmp| && tmp[k] == p;
        assert tmp[1..][k - 1] == p;
      }
    }
    assert free[mp] == |tmp|;
  }

  /** `n` matches are the most that sources on `srcs` and destinations on `dsts` allow; `free` is left over. */
  ghost predicate Greedy(srcs: multiset<string>, dsts: multiset<string>, free: multiset<string>, n: nat) {
    free + srcs * dsts == dsts && |srcs * dsts| == n
  }

  /** The greedy choice: one more source on `mp` raises the possible matches iff a destination there is free. */
  lemma GreedyStep(srcs: multiset<string>, dsts: multiset<string>, free: multiset<string>, n: nat, mp: string)
    requires Greedy(srcs, dsts, free, n)
    ensures if mp in free then Greedy(srcs + multiset{mp}, dsts, free - multiset{mp}, n + 1)
            else Greedy(srcs + multiset{mp}, dsts, free, n)
  {
    assert dsts[mp] == free[mp] + (srcs * dsts)[mp];
    if mp in free {
      assert (srcs + multiset{mp}) * dsts == srcs * dsts + multiset{mp};
    } else {
      assert (srcs + multiset{mp}) * dsts == srcs * dsts;
    }
  }

  lemma {:induction false} SamePairsAtLeast(mounts: Mounts, srcs: seq<Object>, dsts: seq<Object>, m: nat, n: nat)
    requires m <= n <= |srcs| && n <= |dsts|
    requires forall i | 0 <= i < m :: SameMount(mounts, srcs[i], dsts[i])
    ensures m <= SamePairs(mounts, srcs, dsts, n)
  {
    if n > m {
      SamePairsAtLeast(mounts, srcs, dsts, m, n - 1);
    } else if n > 0 {
      SamePairsAtLeast(mounts, srcs, dsts, m - 1, n - 1);
    }
  }

  function Min(a: nat, b: nat): nat {
    if a <= b then a else b
  }

  lemma {:induction false} ReachableBags(mounts: Mounts, objs: seq<Object>, n: nat)
    requires n <= |objs|
    ensures Bag(mounts, Reachable(mounts, objs, n)) == MountBag(mounts, objs, n)
  {
    hide Located, Bag;
    if n == 0 {
      EmptyBag(mounts);
    } else {
      ReachableBags(mounts, objs, n - 1);
      BagAppend(mounts, Reachable(mounts, objs, n - 1), objs[n - 1]);
      NowhereLocated(mounts, objs[n - 1]);
    }
  }

  lemma EmptyBag(mounts: Mounts)
    ensures Bag(mounts, []) == multiset{}
  {
  }

  /** The reachable sources are the sources with a storage, as often as they are selected. */
  lemma {:induction false} ReachableCount(mounts: Mounts, objs: seq<Object>, n: nat, o: Object)
    requires n <= |objs|
    ensures multiset(Reachable(mounts, objs, n))[o] == if mounts(o.path).Some? then multiset(objs[..n])[o] else 0
  {
    hide Reachable;
    ReachableNext(mounts, objs, n);
    if n > 0 {
      ReachableCount(mounts, objs, n - 1, o);
      assert objs[..n] == objs[..n - 1] + [objs[n - 1]];
      CountNext(objs[..n - 1], objs[n - 1], o);
      CountNext(Reachable(mounts, objs, n - 1), objs[n - 1], o);
    }
  }

  lemma ReachableNext(mounts: Mounts, objs: seq<Object>, n: nat)
    requires n <= |objs|
    ensures Reachable(mounts, objs, n) ==
            if n == 0 then []
            else if mounts(objs[n - 1].path).Some? then Reachable(mounts, objs, n - 1) + [objs[n - 1]]
            else Reachable(mounts, objs, n - 1)
  {
  }

  lemma CountNext(objs: seq<Object>, x: Object, o: Object)
    ensures multiset(objs + [x])[o] == multiset(objs)[o] + if x == o then 1 else 0
  {
  }

  lemma NowhereLocated(mounts: Mounts, o: Object)
    ensures mounts(o.path).None? ==> Located(mounts, o) == multiset{}
  {
  }

  ghost predicate AllSame(mounts: Mounts, srcs: seq<Object>, dsts: seq<Object>)
    requires |srcs| == |dsts|
  {
    forall i | 0 <= i < |srcs| :: SameMount(mounts, srcs[i], dsts[i])
  }

  lemma AllSameExtends(mounts: Mounts, srcs: seq<Object>, dsts: seq<Object>, src: Object, dst: Object)
    requires |srcs| == |dsts| && AllSame(mounts, srcs, dsts)
    requires mounts(src.path).Some? && mounts(src.path) == mounts(dst.path)
    ensures AllSame(mounts, srcs + [src], dsts + [dst])
  {
  }

  lemma ReachableStep(mounts: Mounts, objs: seq<Object>, k: nat, a: seq<Object>, b: seq<Object>)
    requires k < |objs| && multiset(a) + multiset(b) == multiset(Reachable(mounts, objs, k))
    requires mounts(objs[k].path).Some?
    ensures multiset(a + [objs[k]]) + multiset(b) == multiset(Reachable(mounts, objs, k + 1))
    ensures multiset(a) + multiset(b + [objs[k]]) == multiset(Reachable(mounts, objs, k + 1))
  {
  }

  /** What the matching loop knows after `k` sources. `paired` are the destinations written so far. */
  ghost predicate Matching(mounts: Mounts, tmpSrcObjs: seq<Object>, k: nat, dsts: seq<Object>,
                           srcObjs: seq<Object>, restSrcObjs: seq<Object>, paired: seq<Object>,
                           groups: map<string, seq<Object>>, allocating: set<Object>, free: multiset<string>)
  {
    && k <= |tmpSrcObjs|
    && |srcObjs| == |paired|
    && AllSame(mounts, srcObjs, paired)
    && multiset(paired) + multiset(allocating) == multiset(dsts)
    && multiset(srcObjs) + multiset(restSrcObjs) == multiset(Reachable(mounts, tmpSrcObjs, k))
    && Filed(mounts, groups, allocating, free)
    && Greedy(MountBag(mounts, tmpSrcObjs, k), Bag(mounts, dsts), free, |paired|)
  }

  lemma MatchingSkips(mounts: Mounts, tmpSrcObjs: seq<Object>, k: nat, dsts: seq<Object>,
                      srcObjs: seq<Object>, restSrcObjs: seq<Object>, paired: seq<Object>,
                      groups: map<string, seq<Object>>, allocating: set<Object>, free: multiset<string>)
    requires Matching(mounts, tmpSrcObjs, k, dsts, srcObjs, restSrcObjs, paired, groups, allocating, free)
    requires k < |tmpSrcObjs|
    ensures var src := tmpSrcObjs[k];
            match mounts(src.path)
            case None =>
              Matching(mounts, tmpSrcObjs, k + 1, dsts, srcObjs, restSrcObjs, paired, groups, allocating, free)
            case Some(mp) => mp !in groups ==>
              Matching(mounts, tmpSrcObjs, k + 1, dsts, srcObjs, restSrcObjs + [src], paired, groups, allocating, free)
  {
    var src := tmpSrcObjs[k];
    BagNext(mounts, tmpSrcObjs, k);
    if mounts(src.path).Some? {
      FiledHas(mounts, groups, allocating, free, mounts(src.path).value);
      GreedyStep(MountBag(mounts, tmpSrcObjs, k), Bag(mounts, dsts), free, |paired|, mounts(src.path).value);
      assert multiset(restSrcObjs + [src]) == multiset(restSrcObjs) + multiset{src};
    }
    hide Filed, MountBag, Bag, Greedy;
  }

  lemma MatchingTakes(mounts: Mounts, tmpSrcObjs: seq<Object>, k: nat, dsts: seq<Object>,
                      srcObjs: seq<Object>, restSrcObjs: seq<Object>, paired: seq<Object>,
                      groups: map<string, seq<Object>>, allocating: set<Object>, free: multiset<string>, mp: string)
    requires Matching(mounts, tmpSrcObjs, k, dsts, srcObjs, restSrcObjs, paired, groups, allocating, free)
    requires k < |tmpSrcObjs| && mounts(tmpSrcObjs[k].path) == Some(mp) && mp in groups
    ensures groups[mp] != [] && groups[mp][0] in allocating && |paired| < |dsts|
    ensures var tmp := groups[mp];
            var groups' := if |tmp| == 1 then groups - {mp} else groups[mp := tmp[1..]];
            Matching(mounts, tmpSrcObjs, k + 1, dsts, srcObjs + [tmpSrcObjs[k]], restSrcObjs, paired + [tmp[0]],
                     groups', allocating - {tmp[0]}, free - multiset{mp})
  {
    hide Filed, MountBag, Bag, Greedy, AllSame, SameMount, Reachable;
    FiledHas(mounts, groups, allocating, free, mp);
    FiledTake(mounts, groups, allocating, free, mp);
    var src, dst := tmpSrcObjs[k], groups[mp][0];
    BagNext(mounts, tmpSrcObjs, k);
    GreedyStep(MountBag(mounts, tmpSrcObjs, k), Bag(mounts, dsts), free, |paired|, mp);
    RoomLeft(paired, allocating, dst, dsts);
    AllSameExtends(mounts, srcObjs, paired, src, dst);
    ReachableStep(mounts, tmpSrcObjs, k, srcObjs, restSrcObjs);
  }

  /** After `k` sources: nothing is written and nothing taken until one shares its mount with a destination, and that
      destination, the first on the mount, is written first. */
  ghost predicate Led(mounts: Mounts, srcs: seq<Object>, k: nat, dsts: seq<Object>, paired: seq<Object>,
                      groups: map<string, seq<Object>>, leftover: set<Object>, allocating: set<Object>)
    requires k <= |srcs|
  {
    match FirstShared(mounts, srcs, dsts, k)
    case None => paired == [] && leftover == allocating && Headed(mounts, dsts, |dsts|, groups)
    case Some(mp) => paired != [] && Some(paired[0]) == FirstOn(mounts, dsts, |dsts|, mp)
  }

  /** One more source that writes `tmp`, the group of its mount or the head of it, or nothing. */
  lemma LedStep(mounts: Mounts, srcs: seq<Object>, k: nat, dsts: seq<Object>, paired: seq<Object>,
                groups: map<string, seq<Object>>, leftover: set<Object>, allocating: set<Object>,
                tmp: seq<Object>, groups': map<string, seq<Object>>, leftover': set<Object>)
    requires k < |srcs| && Led(mounts, srcs, k, dsts, paired, groups, leftover, allocating)
    requires var mp := mounts(srcs[k].path);
             if mp.Some? && mp.value in groups then groups[mp.value] != [] && tmp != [] && tmp[0] == groups[mp.value][0]
             else tmp == [] && groups' == groups && leftover' == leftover
    ensures Led(mounts, srcs, k + 1, dsts, paired + tmp, groups', leftover', allocating)
  {
    hide FirstOn;
  }

  lemma LedStarts(mounts: Mounts, srcs: seq<Object>, dsts: seq<Object>, groups: map<string, seq<Object>>, allocating: set<Object>)
    requires Headed(mounts, dsts, |dsts|, groups)
    ensures Led(mounts, srcs, 0, dsts, [], groups, allocating, allocating)
  {
  }

  /** What the matching loops leave for the rest: the leader is written, or nothing is. */
  ghost predicate Leads(mounts: Mounts, srcs: seq<Object>, dsts: seq<Object>, paired: seq<Object>,
                        leftover: set<Object>, allocating: set<Object>)
  {
    match FirstShared(mounts, srcs, dsts, |srcs|)
    case None => paired == [] && leftover == allocating
    case Some(mp) => paired != [] && Some(paired[0]) == FirstOn(mounts, dsts, |dsts|, mp)
  }

  lemma LeaderWritten(mounts: Mounts, srcs: seq<Object>, dsts: seq<Object>, front: seq<Object>, written: seq<Object>,
                      leftover: set<Object>, allocating: set<Object>, pick: Pick)
    requires Leads(mounts, srcs, dsts, front, leftover, allocating) && front <= written
    requires multiset(allocating) == multiset(dsts)
    requires front == [] && leftover != {} ==> written != [] && written[0] == pick(leftover)
    ensures dsts != [] ==> written != [] && written[0] == Leader(mounts, srcs, dsts, pick)
  {
    hide FirstOn, FirstShared;
    if dsts != [] && front == [] {
      SameElements(allocating, dsts);
      assert dsts[0] in allocating;
    }
  }

  lemma SameElements(all: set<Object>, objs: seq<Object>)
    requires multiset(all) == multiset(objs)
    ensures all == set o | o in objs
  {
    forall o ensures o in all <==> o in objs {
      assert o in multiset(all) <==> o in multiset(objs);
    }
  }

  /** The matching loop of getMoveObjs: a source takes the first free destination on its own mount. */
  method MatchByMount(mounts: Mounts, tmpSrcObjs: seq<Object>, dstObjs: array<Object>,
                      groups: map<string, seq<Object>>, allocating: set<Object>)
    returns (srcObjs: seq<Object>, restSrcObjs: seq<Object>, leftover: set<Object>)
    requires multiset(allocating) == multiset(dstObjs[..])
    requires Filed(mounts, groups, allocating, Bag(mounts, dstObjs[..]))
    requires Headed(mounts, dstObjs[..], dstObjs.Length, groups)
    modifies dstObjs
    ensures |srcObjs| <= dstObjs.Length
    ensures Leads(mounts, tmpSrcObjs, old(dstObjs[..]), dstObjs[..|srcObjs|], leftover, allocating)
    ensures var dsts := old(dstObjs[..]);
            var n := |srcObjs|;
            && n <= |dsts|
            && (forall i | 0 <= i < n :: SameMount(mounts, srcObjs[i], dstObjs[i]))
            && n == |Bag(mounts, tmpSrcObjs) * Bag(mounts, dsts)|
            && multiset(dstObjs[..n]) + multiset(leftover) == multiset(dsts)
            && multiset(srcObjs) + multiset(restSrcObjs) == multiset(Reachable(mounts, tmpSrcObjs, |tmpSrcObjs|))
  {
    hide Led, Leads, Headed, Matching, Filed, MountBag, Bag, SameMount, Reachable;
    ghost var dsts := dstObjs[..];
    ghost var paired: seq<Object>, free := [], Bag(mounts, dsts);
    var groups := groups;
    srcObjs, restSrcObjs, leftover := [], [], allocating;
    var k := 0;
    MatchingStarts(mounts, tmpSrcObjs, dsts, groups, allocating, free);
    LedStarts(mounts, tmpSrcObjs, dsts, groups, allocating);
    while k < |tmpSrcObjs|
      invariant k <= |tmpSrcObjs| && |srcObjs| == |paired| <= dstObjs.Length
      invariant forall i | 0 <= i < |paired| :: dstObjs[i] == paired[i]
      invariant Matching(mounts, tmpSrcObjs, k, dsts, srcObjs, restSrcObjs, paired, groups, leftover, free)
      invariant Led(mounts, tmpSrcObjs, k, dsts, paired, groups, leftover, allocating)
    {
      var src := tmpSrcObjs[k];
      var storage := mounts(src.path);
      ghost var was := (paired, groups, leftover);
      MatchingSkips(mounts, tmpSrcObjs, k, dsts, srcObjs, restSrcObjs, paired, groups, leftover, free);
      if storage.Some? && storage.value in groups {
        var mp := storage.value;
        MatchingTakes(mounts, tmpSrcObjs, k, dsts, srcObjs, restSrcObjs, paired, groups, leftover, free, mp);
        var tmp := groups[mp];
        var dst := tmp[0];
        groups := if |tmp| == 1 then groups - {mp} else groups[mp := tmp[1..]];
        dstObjs[|srcObjs|] := dst;
        srcObjs := srcObjs + [src];
        leftover := leftover - {dst};
        paired, free := paired + [dst], free - multiset{mp};
      } else if storage.Some? {
        restSrcObjs := restSrcObjs + [src];
      }
      LedStep(mounts, tmpSrcObjs, k, dsts, was.0, was.1, was.2, allocating, paired[|was.0|..], groups, leftover);
      assert was.0 + paired[|was.0|..] == paired;
      k := k + 1;
    }
    LedEnds(mounts, tmpSrcObjs, dsts, paired, groups, leftover, allocating);
    MatchingEnds(mounts, tmpSrcObjs, dsts, srcObjs, restSrcObjs, paired, groups, leftover, free);
    assert dstObjs[..|paired|] == paired;
  }

  lemma LedEnds(mounts: Mounts, srcs: seq<Object>, dsts: seq<Object>, paired: seq<Object>,
                groups: map<string, seq<Object>>, leftover: set<Object>, allocating: set<Object>)
    requires Led(mounts, srcs, |srcs|, dsts, paired, groups, leftover, allocating)
    ensures Leads(mounts, srcs, dsts, paired, leftover, allocating)
  {
  }

  lemma MatchingStarts(mounts: Mounts, tmpSrcObjs: seq<Object>, dsts: seq<Object>,
                       groups: map<string, seq<Object>>, allocating: set<Object>, free: multiset<string>)
    requires free == Bag(mounts, dsts) && Filed(mounts, groups, allocating, free)
    requires multiset(allocating) == multiset(dsts)
    ensures Matching(mounts, tmpSrcObjs, 0, dsts, [], [], [], groups, allocating, free)
  {
  }

  lemma MatchingEnds(mounts: Mounts, tmpSrcObjs: seq<Object>, dsts: seq<Object>,
                     srcObjs: seq<Object>, restSrcObjs: seq<Object>, paired: seq<Object>,
                     groups: map<string, seq<Object>>, leftover: set<Object>, free: multiset<string>)
    requires Matching(mounts, tmpSrcObjs, |tmpSrcObjs|, dsts, srcObjs, restSrcObjs, paired, groups, leftover, free)
    ensures |srcObjs| == |paired| == |Bag(mounts, tmpSrcObjs) * Bag(mounts, dsts)|
    ensures forall i | 0 <= i < |paired| :: SameMount(mounts, srcObjs[i], paired[i])
    ensures multiset(paired) + multiset(leftover) == multiset(dsts)
    ensures multiset(srcObjs) + multiset(restSrcObjs) == multiset(Reachable(mounts, tmpSrcObjs, |tmpSrcObjs|))
  {
  }

  /** The map of unpaired destinations is being emptied: `written` starts with `front`, then its first choice. */
  ghost predicate Emptying(dsts: seq<Object>, front: seq<Object>, leftover: set<Object>, pick: Pick,
                           written: seq<Object>, rest: set<Object>)
  {
    && multiset(written) + multiset(rest) == multiset(dsts)
    && front <= written
    && (|written| == |front| ==> rest == leftover)
    && (|written| > |front| ==> written[|front|] == pick(leftover))
  }

  lemma EmptyingStarts(dsts: seq<Object>, front: seq<Object>, leftover: set<Object>, pick: Pick)
    requires multiset(front) + multiset(leftover) == multiset(dsts)
    ensures Emptying(dsts, front, leftover, pick, front, leftover)
  {
  }

  lemma EmptyingStep(dsts: seq<Object>, front: seq<Object>, leftover: set<Object>, pick: Pick,
                     written: seq<Object>, rest: set<Object>)
    requires Emptying(dsts, front, leftover, pick, written, rest) && Picks(pick) && rest != {}
    ensures pick(rest) in rest && |written| < |dsts|
    ensures Emptying(dsts, front, leftover, pick, written + [pick(rest)], rest - {pick(rest)})
  {
    PickedNext(pick, rest);
    hide Picks;
    RoomLeft(written, rest, pick(rest), dsts);
  }

  lemma Emptied(dsts: seq<Object>, front: seq<Object>, leftover: set<Object>, pick: Pick, written: seq<Object>)
    requires Emptying(dsts, front, leftover, pick, written, {})
    ensures front <= written && multiset(written) == multiset(dsts) && |written| == |dsts|
    ensures leftover != {} ==> |front| < |dsts| && written[|front|] == pick(leftover)
  {
    RoomFilled(written, dsts);
  }

  /** Writes the destinations without a partner behind the first `n`, in the order of the map. */
  method AppendLeftover(dstObjs: array<Object>, n: nat, leftover: set<Object>, pick: Pick, ghost dsts: seq<Object>)
    requires n <= dstObjs.Length == |dsts| && Picks(pick)
    requires multiset(dstObjs[..n]) + multiset(leftover) == multiset(dsts)
    modifies dstObjs
    ensures old(dstObjs[..n]) <= dstObjs[..]
    ensures multiset(dstObjs[..]) == multiset(dsts)
    ensures leftover != {} ==> n < dstObjs.Length && dstObjs[n] == pick(leftover)
  {
    hide Picks, Emptying;
    ghost var front := dstObjs[..n];
    ghost var written := front;
    var rest, k := leftover, n;
    EmptyingStarts(dsts, front, leftover, pick);
    while rest != {}
      invariant k == |written| <= dstObjs.Length && dstObjs[..k] == written
      invariant Emptying(dsts, front, leftover, pick, written, rest)
      decreases rest
    {
      EmptyingStep(dsts, front, leftover, pick, written, rest);
      var dst := pick(rest);
      dstObjs[k] := dst;
      written := written + [dst];
      k := k + 1;
      rest := rest - {dst};
    }
    Emptied(dsts, front, leftover, pick, written);
    assert written == dstObjs[..];
  }

  /** getMoveObjs after both selections; `dstObjs` is overwritten in place. */
  method GetMoveObjs(mounts: Mounts, tmpSrcObjs: seq<Object>, dstObjs: array<Object>, pick: Pick)
    returns (r: Result<seq<Object>, Error>)
    requires Distinct(dstObjs[..]) && Picks(pick)
    modifies dstObjs
    ensures var dsts := old(dstObjs[..]);
            var lost := exists k | 0 <= k < |dsts| :: mounts(dsts[k].path).None?;
            match r
            case Failure(e) => e == (if |tmpSrcObjs| < |dsts| then NotEnoughSrcObjs else VirtualPath)
                               && (|tmpSrcObjs| < |dsts| || lost) && dstObjs[..] == dsts
            case Success(srcs) =>
              && |tmpSrcObjs| >= |dsts| && !lost
              && multiset(dstObjs[..]) == multiset(dsts)
              && multiset(srcs) == multiset(Reachable(mounts, tmpSrcObjs, |tmpSrcObjs|))
              && |srcs| == |Reachable(mounts, tmpSrcObjs, |tmpSrcObjs|)|
              && SamePairs(mounts, srcs, dstObjs[..], Min(|srcs|, |dsts|)) == |Bag(mounts, tmpSrcObjs) * Bag(mounts, dsts)|
              && (dsts != [] ==> dstObjs[0] == Leader(mounts, tmpSrcObjs, dsts, pick))
  {
    hide Leads, Leader, Headed, Filed, MountBag, Bag, SamePairs, SameMount, Reachable;
    if |tmpSrcObjs| < dstObjs.Length {
      return Failure(NotEnoughSrcObjs);
    }
    ghost var dsts := dstObjs[..];
    var grouped := GroupByMount(mounts, dstObjs[..]);
    if grouped.Failure? {
      return Failure(VirtualPath);
    }
    var srcObjs, restSrcObjs, leftover := MatchByMount(mounts, tmpSrcObjs, dstObjs, grouped.value.0, grouped.value.1);
    ghost var front := dstObjs[..|srcObjs|];
    AppendLeftover(dstObjs, |srcObjs|, leftover, pick, dsts);
    LeaderWritten(mounts, tmpSrcObjs, dsts, front, dstObjs[..], leftover, grouped.value.1, pick);
    RoomFilled(srcObjs + restSrcObjs, Reachable(mounts, tmpSrcObjs, |tmpSrcObjs|));
    ReachableIsBest(mounts, tmpSrcObjs, srcObjs, srcObjs + restSrcObjs, dstObjs[..], dsts);
    return Success(srcObjs + restSrcObjs);
  }

  /** A pairing that begins with as many same-mount pairs as the bound allows has exactly that many. */
  lemma ReachableIsBest(mounts: Mounts, tmpSrcObjs: seq<Object>, matched: seq<Object>, srcs: seq<Object>,
                        paired: seq<Object>, dsts: seq<Object>)
    requires matched <= srcs && |matched| <= |paired| == |dsts| && multiset(paired) == multiset(dsts)
    requires multiset(srcs) == multiset(Reachable(mounts, tmpSrcObjs, |tmpSrcObjs|))
    requires forall i | 0 <= i < |matched| :: SameMount(mounts, matched[i], paired[i])
    requires |matched| == |Bag(mounts, tmpSrcObjs) * Bag(mounts, dsts)|
    ensures SamePairs(mounts, srcs, paired, Min(|srcs|, |dsts|)) == |matched|
  {
    ReachableBags(mounts, tmpSrcObjs, |tmpSrcObjs|);
    var both := Min(|srcs|, |dsts|);
    SamePairsAtLeast(mounts, srcs, paired, |matched|, both);
    PairingBound(mounts, Reachable(mounts, tmpSrcObjs, |tmpSrcObjs|), dsts, srcs, paired, both);
  }

  lemma BagNext(mounts: Mounts, objs: seq<Object>, k: nat)
    requires k < |objs|
    ensures match mounts(objs[k].path)
            case None => MountBag(mounts, objs, k + 1) == MountBag(mounts, objs, k)
            case Some(mp) => MountBag(mounts, objs, k + 1) == MountBag(mounts, objs, k) + multiset{mp}
  {
  }

  lemma FiledHas(mounts: Mounts, groups: map<string, seq<Object>>, allocating: set<Object>, free: multiset<string>, mp: string)
    requires Filed(mounts, groups, allocating, free)
    ensures mp in groups <==> mp in free
  {
  }

  lemma RoomLeft(paired: seq<Object>, allocating: set<Object>, dst: Object, dsts: seq<Object>)
    requires multiset(paired) + multiset(allocating) == multiset(dsts) && dst in allocating
    ensures |paired| < |dsts|
    ensures multiset(paired + [dst]) + multiset(allocating - {dst}) == multiset(dsts)
  {
    assert multiset(allocating) == multiset(allocating - {dst}) + multiset{dst};
    assert |multiset(dsts)| == |dsts| && |multiset(paired)| == |paired|;
    assert |multiset(allocating)| >= 1;
  }

  lemma RoomFilled(paired: seq<Object>, dsts: seq<Object>)
    requires multiset(paired) == multiset(dsts)
    ensures |paired| == |dsts|
  {
    assert |multiset(dsts)| == |dsts| && |multiset(paired)| == |paired|;
  }

  // ----- getCopyObjs -----

  /** Which source serves a destination whose mount has none: the first one, or one drawn at random, as the read policies
      random and all want. */
  datatype Spread = Never | Random(draw: Object -> nat)

  /** Every destination written so far has the first source on its own mount. */
  ghost predicate Served(mounts: Mounts, tmpSrcObjs: seq<Object>, k: nat, srcs: seq<Object>, paired: seq<Object>)
    requires k <= |tmpSrcObjs| && |srcs| == |paired|
  {
    forall i | 0 <= i < |paired| ::
      mounts(paired[i].path).Some? && FirstOn(mounts, tmpSrcObjs, k, mounts(paired[i].path).value) == Some(srcs[i])
  }

  ghost predicate NoneYet(mounts: Mounts, tmpSrcObjs: seq<Object>, k: nat, groups: map<string, seq<Object>>)
    requires k <= |tmpSrcObjs|
  {
    forall mp | mp in groups :: FirstOn(mounts, tmpSrcObjs, k, mp) == None
  }

  lemma ServedSteps(mounts: Mounts, tmpSrcObjs: seq<Object>, k: nat, srcs: seq<Object>, paired: seq<Object>,
                    groups: map<string, seq<Object>>)
    requires k < |tmpSrcObjs| && |srcs| == |paired|
    requires Served(mounts, tmpSrcObjs, k, srcs, paired) && NoneYet(mounts, tmpSrcObjs, k, groups)
    ensures Served(mounts, tmpSrcObjs, k + 1, srcs, paired)
    ensures match mounts(tmpSrcObjs[k].path)
            case None => NoneYet(mounts, tmpSrcObjs, k + 1, groups)
            case Some(mp) =>
              && NoneYet(mounts, tmpSrcObjs, k + 1, groups - {mp})
              && (mp in groups ==> FirstOn(mounts, tmpSrcObjs, k + 1, mp) == Some(tmpSrcObjs[k]))
  {
  }

  lemma FiledDrop(mounts: Mounts, groups: map<string, seq<Object>>, allocating: set<Object>, free: multiset<string>,
                  mp: string)
    requires Filed(mounts, groups, allocating, free) && mp in groups
    ensures groups[mp] != []
    ensures forall k | 0 <= k < |groups[mp]| :: groups[mp][k] in allocating && mounts(groups[mp][k].path) == Some(mp)
    ensures Distinct(groups[mp])
    ensures Filed(mounts, groups - {mp}, Minus(allocating, groups[mp], |groups[mp]|), free[mp := 0])
  {
    MinusAll(allocating, groups[mp], |groups[mp]|);
    assert groups[mp][..|groups[mp]|] == groups[mp];
  }

  /** Pairs all the destinations of one mount with `src`, behind those already written. */
  method ServeGroup(src: Object, tmp: seq<Object>, dstObjs: array<Object>, srcObjs: seq<Object>,
                    allocating: set<Object>, ghost paired: seq<Object>, ghost dsts: seq<Object>)
    returns (srcs: seq<Object>, rest: set<Object>)
    requires Distinct(tmp) && forall k | 0 <= k < |tmp| :: tmp[k] in allocating
    requires |srcObjs| == |paired| <= dstObjs.Length == |dsts|
    requires forall i | 0 <= i < |paired| :: dstObjs[i] == paired[i]
    requires multiset(paired) + multiset(allocating) == multiset(dsts)
    modifies dstObjs
    ensures |paired + tmp| <= dstObjs.Length && srcs == srcObjs + seq(|tmp|, _ => src)
    ensures forall i | 0 <= i < |paired + tmp| :: dstObjs[i] == (paired + tmp)[i]
    ensures rest == Minus(allocating, tmp, |tmp|)
    ensures multiset(paired + tmp) + multiset(rest) == multiset(dsts)
  {
    srcs, rest := srcObjs, allocating;
    ghost var written := paired;
    var j := 0;
    while j < |tmp|
      invariant j <= |tmp| && |written| == |paired| + j <= dstObjs.Length
      invariant written == paired + tmp[..j] && |srcs| == |written| && srcs == srcObjs + seq(j, _ => src)
      invariant forall i | 0 <= i < |written| :: dstObjs[i] == written[i]
      invariant rest == Minus(allocating, tmp, j)
      invariant multiset(written) + multiset(rest) == multiset(dsts)
    {
      var dst := tmp[j];
      MinusNext(allocating, tmp, j);
      RoomLeft(written, rest, dst, dsts);
      dstObjs[|srcs|] := dst;
      written := written + [dst];
      srcs := srcs + [src];
      rest := rest - {dst};
      j := j + 1;
    }
    assert tmp[..j] == tmp;
  }

  /** `all` without the first `j` elements of `tmp`. */
  ghost function Minus(all: set<Object>, tmp: seq<Object>, j: nat): set<Object>
    requires j <= |tmp|
  {
    if j == 0 then all else Minus(all, tmp, j - 1) - {tmp[j - 1]}
  }

  lemma MinusNext(all: set<Object>, tmp: seq<Object>, j: nat)
    requires j < |tmp| && Distinct(tmp) && forall k | 0 <= k < |tmp| :: tmp[k] in all
    ensures tmp[j] in Minus(all, tmp, j)
    ensures forall k | j <= k < |tmp| :: tmp[k] in Minus(all, tmp, j)
  {
    if j > 0 {
      MinusNext(all, tmp, j - 1);
    }
  }

  lemma MinusAll(all: set<Object>, tmp: seq<Object>, j: nat)
    requires j <= |tmp|
    ensures forall o :: o in Minus(all, tmp, j) <==> o in all && o !in tmp[..j]
  {
    if j > 0 {
      MinusAll(all, tmp, j - 1);
      assert tmp[..j] == tmp[..j - 1] + [tmp[j - 1]];
    }
  }

  /** What the read policy allows as the source of `dst`: the first source on its mount if there is one,
      otherwise any selected source when reads are spread, and the first one when they are not. */
  ghost predicate GoodSource(mounts: Mounts, tmpSrcObjs: seq<Object>, spread: Spread, src: Object, dst: Object)
    requires tmpSrcObjs != []
  {
    && mounts(dst.path).Some?
    && match FirstOn(mounts, tmpSrcObjs, |tmpSrcObjs|, mounts(dst.path).value)
       case Some(s) => src == s
       case None =>
         match spread
         case Never => src == tmpSrcObjs[0]
         case Random(draw) => src == tmpSrcObjs[draw(dst) % |tmpSrcObjs|]
  }

  /** The same, source by source: the first one on the destination's mount; where there is none, the first of all or the
      one the destination's draw falls on. */
  lemma GoodSourceExactly(mounts: Mounts, srcs: seq<Object>, spread: Spread, src: Object, dst: Object)
    requires srcs != [] && mounts(dst.path).Some?
    ensures GoodSource(mounts, srcs, spread, src, dst) <==>
            if exists k | 0 <= k < |srcs| :: mounts(srcs[k].path) == mounts(dst.path)
            then exists k | 0 <= k < |srcs| ::
                   && srcs[k] == src && mounts(srcs[k].path) == mounts(dst.path)
                   && forall j | 0 <= j < k :: mounts(srcs[j].path) != mounts(dst.path)
            else src == srcs[if spread.Never? then 0 else spread.draw(dst) % |srcs|]
  {
    FirstOnExactly(mounts, srcs, |srcs|, mounts(dst.path).value);
  }

  lemma {:induction false} FirstOnExactly(mounts: Mounts, objs: seq<Object>, n: nat, mp: string)
    requires n <= |objs|
    ensures match FirstOn(mounts, objs, n, mp)
            case None => forall k | 0 <= k < n :: mounts(objs[k].path) != Some(mp)
            case Some(o) => exists k | 0 <= k < n ::
                              && objs[k] == o && mounts(objs[k].path) == Some(mp)
                              && forall j | 0 <= j < k :: mounts(objs[j].path) != Some(mp)
  {
    if n > 0 {
      FirstOnExactly(mounts, objs, n - 1, mp);
    }
  }

  ghost predicate Unserved(mounts: Mounts, tmpSrcObjs: seq<Object>, leftover: set<Object>) {
    forall o | o in leftover ::
      mounts(o.path).Some? && FirstOn(mounts, tmpSrcObjs, |tmpSrcObjs|, mounts(o.path).value) == None
  }

  lemma ServingEnds(mounts: Mounts, tmpSrcObjs: seq<Object>, srcs: seq<Object>, paired: seq<Object>, spread: Spread,
                    groups: map<string, seq<Object>>, leftover: set<Object>, free: multiset<string>)
    requires tmpSrcObjs != [] && |srcs| == |paired|
    requires Served(mounts, tmpSrcObjs, |tmpSrcObjs|, srcs, paired)
    requires NoneYet(mounts, tmpSrcObjs, |tmpSrcObjs|, groups) && Filed(mounts, groups, leftover, free)
    ensures forall i | 0 <= i < |paired| :: GoodSource(mounts, tmpSrcObjs, spread, srcs[i], paired[i])
    ensures Unserved(mounts, tmpSrcObjs, leftover)
  {
  }

  lemma ServedGrows(mounts: Mounts, tmpSrcObjs: seq<Object>, k: nat, srcs: seq<Object>, paired: seq<Object>,
                    src: Object, tmp: seq<Object>, mp: string)
    requires k <= |tmpSrcObjs| && |srcs| == |paired| && Served(mounts, tmpSrcObjs, k, srcs, paired)
    requires FirstOn(mounts, tmpSrcObjs, k, mp) == Some(src)
    requires forall i | 0 <= i < |tmp| :: mounts(tmp[i].path) == Some(mp)
    ensures Served(mounts, tmpSrcObjs, k, srcs + seq(|tmp|, _ => src), paired + tmp)
  {
  }

  lemma ServedStarts(mounts: Mounts, tmpSrcObjs: seq<Object>, groups: map<string, seq<Object>>)
    ensures Served(mounts, tmpSrcObjs, 0, [], []) && NoneYet(mounts, tmpSrcObjs, 0, groups)
  {
  }

  /** The loop of getCopyObjs that serves the mounts some source lives on. */
  method ServeByMount(mounts: Mounts, tmpSrcObjs: seq<Object>, dstObjs: array<Object>, ghost spread: Spread,
                      groups: map<string, seq<Object>>, allocating: set<Object>)
    returns (srcObjs: seq<Object>, leftover: set<Object>)
    requires tmpSrcObjs != [] && multiset(allocating) == multiset(dstObjs[..])
    requires Filed(mounts, groups, allocating, Bag(mounts, dstObjs[..]))
    requires Headed(mounts, dstObjs[..], dstObjs.Length, groups)
    modifies dstObjs
    ensures |srcObjs| <= dstObjs.Length
    ensures Leads(mounts, tmpSrcObjs, old(dstObjs[..]), dstObjs[..|srcObjs|], leftover, allocating)
    ensures var n, dsts := |srcObjs|, old(dstObjs[..]);
            && n <= |dsts|
            && multiset(dstObjs[..n]) + multiset(leftover) == multiset(dsts)
            && (forall i | 0 <= i < n :: GoodSource(mounts, tmpSrcObjs, spread, srcObjs[i], dstObjs[i]))
            && Unserved(mounts, tmpSrcObjs, leftover)
  {
    hide Led, Leads, Headed, Filed, MountBag, Bag, Served, NoneYet, FirstOn, GoodSource, Unserved, Minus, Distinct;
    ghost var dsts := dstObjs[..];
    ghost var paired: seq<Object>, free := [], Bag(mounts, dsts);
    var groups := groups;
    srcObjs, leftover := [], allocating;
    var k := 0;
    ServedStarts(mounts, tmpSrcObjs, groups);
    LedStarts(mounts, tmpSrcObjs, dsts, groups, allocating);
    while k < |tmpSrcObjs|
      invariant k <= |tmpSrcObjs| && |srcObjs| == |paired| <= dstObjs.Length
      invariant forall i | 0 <= i < |paired| :: dstObjs[i] == paired[i]
      invariant multiset(paired) + multiset(leftover) == multiset(dsts)
      invariant Filed(mounts, groups, leftover, free)
      invariant Served(mounts, tmpSrcObjs, k, srcObjs, paired) && NoneYet(mounts, tmpSrcObjs, k, groups)
      invariant Led(mounts, tmpSrcObjs, k, dsts, paired, groups, leftover, allocating)
    {
      var src := tmpSrcObjs[k];
      var storage := mounts(src.path);
      ghost var was := (paired, groups, leftover);
      ServedSteps(mounts, tmpSrcObjs, k, srcObjs, paired, groups);
      if storage.Some? && storage.value in groups {
        var mp := storage.value;
        var tmp := groups[mp];
        FiledDrop(mounts, groups, leftover, free, mp);
        ServedGrows(mounts, tmpSrcObjs, k + 1, srcObjs, paired, src, tmp, mp);
        srcObjs, leftover := ServeGroup(src, tmp, dstObjs, srcObjs, leftover, paired, dsts);
        groups := groups - {mp};
        paired, free := paired + tmp, free[mp := 0];
      } else if storage.Some? {
        assert groups - {storage.value} == groups;
      }
      LedStep(mounts, tmpSrcObjs, k, dsts, was.0, was.1, was.2, allocating, paired[|was.0|..], groups, leftover);
      assert was.0 + paired[|was.0|..] == paired;
      k := k + 1;
    }
    LedEnds(mounts, tmpSrcObjs, dsts, paired, groups, leftover, allocating);
    ServingEnds(mounts, tmpSrcObjs, srcObjs, paired, spread, groups, leftover, free);
    assert dstObjs[..|paired|] == paired;
  }

  /** getCopyObjs, given both selections. */
  method GetCopyObjs(mounts: Mounts, selected: Result<seq<Object>, Error>, dstObjs: array<Object>, spread: Spread, pick: Pick)
    returns (r: Result<seq<Object>, Error>)
    requires (selected.Success? ==> selected.value != []) && Distinct(dstObjs[..]) && Picks(pick)
    modifies dstObjs
    ensures var dsts := old(dstObjs[..]);
            var lost := exists k | 0 <= k < |dsts| :: mounts(dsts[k].path).None?;
            match r
            case Failure(e) => dstObjs[..] == dsts && if lost then e == VirtualPath else selected == Failure(e)
            case Success(srcs) =>
              && !lost && selected.Success?
              && |srcs| == |dsts|
              && multiset(dstObjs[..]) == multiset(dsts)
              && (dsts != [] ==> dstObjs[0] == Leader(mounts, selected.value, dsts, pick))
              && forall i | 0 <= i < |srcs| :: GoodSource(mounts, selected.value, spread, srcs[i], dstObjs[i])
  {
    hide Leads, Leader, Headed, Filed, MountBag, Bag, FirstOn, GoodSource, Unserved, Distinct;
    ghost var dsts := dstObjs[..];
    var grouped := GroupByMount(mounts, dstObjs[..]);
    if grouped.Failure? {
      return Failure(VirtualPath);
    }
    if selected.Failure? {
      return Failure(selected.error);
    }
    var tmpSrcObjs := selected.value;
    var srcObjs, leftover := ServeByMount(mounts, tmpSrcObjs, dstObjs, spread, grouped.value.0, grouped.value.1);
    ghost var front := dstObjs[..|srcObjs|];
    ghost var paired;
    EmptyingStarts(dsts, front, leftover, pick);
    GoodSoFar(mounts, tmpSrcObjs, spread, srcObjs, front);
    srcObjs, paired := ServeLeftover(mounts, tmpSrcObjs, dstObjs, spread, srcObjs, leftover, pick, front, dsts);
    Emptied(dsts, front, leftover, pick, paired);
    GoodSoFar(mounts, tmpSrcObjs, spread, srcObjs, paired);
    LeaderWritten(mounts, tmpSrcObjs, dsts, front, paired, leftover, grouped.value.1, pick);
    assert dstObjs[..] == paired;
    return Success(srcObjs);
  }

  /** The last loop of getCopyObjs: destinations on mounts without a source, in the order of the map. */
  method ServeLeftover(mounts: Mounts, tmpSrcObjs: seq<Object>, dstObjs: array<Object>, spread: Spread, served: seq<Object>,
                       unserved: set<Object>, pick: Pick, ghost front: seq<Object>, ghost dsts: seq<Object>)
    returns (srcObjs: seq<Object>, ghost paired: seq<Object>)
    requires tmpSrcObjs != [] && |served| == |front| <= dstObjs.Length == |dsts| && Picks(pick)
    requires dstObjs[..|front|] == front && Emptying(dsts, front, unserved, pick, front, unserved)
    requires Unserved(mounts, tmpSrcObjs, unserved) && GoodPairs(mounts, tmpSrcObjs, spread, served, front)
    modifies dstObjs
    ensures |srcObjs| == |paired| <= dstObjs.Length && dstObjs[..|paired|] == paired
    ensures Emptying(dsts, front, unserved, pick, paired, {}) && GoodPairs(mounts, tmpSrcObjs, spread, srcObjs, paired)
  {
    hide Picks, Emptying, FirstOn, GoodSource, Unserved, GoodPairs;
    var leftover := unserved;
    srcObjs, paired := served, front;
    while leftover != {}
      invariant |srcObjs| == |paired| <= dstObjs.Length && dstObjs[..|paired|] == paired
      invariant Unserved(mounts, tmpSrcObjs, leftover) && GoodPairs(mounts, tmpSrcObjs, spread, srcObjs, paired)
      invariant Emptying(dsts, front, unserved, pick, paired, leftover)
      decreases leftover
    {
      EmptyingStep(dsts, front, unserved, pick, paired, leftover);
      var dst := pick(leftover);
      var src := DrawSource(tmpSrcObjs, spread, dst);
      UnservedGood(mounts, tmpSrcObjs, leftover, spread, src, dst);
      GoodMore(mounts, tmpSrcObjs, spread, srcObjs, paired, src, dst);
      dstObjs[|srcObjs|] := dst;
      srcObjs, paired := srcObjs + [src], paired + [dst];
      leftover := leftover - {dst};
    }
  }

  ghost predicate GoodPairs(mounts: Mounts, tmpSrcObjs: seq<Object>, spread: Spread, srcs: seq<Object>, dsts: seq<Object>)
    requires tmpSrcObjs != [] && |srcs| == |dsts|
  {
    forall i | 0 <= i < |srcs| :: GoodSource(mounts, tmpSrcObjs, spread, srcs[i], dsts[i])
  }

  lemma GoodSoFar(mounts: Mounts, tmpSrcObjs: seq<Object>, spread: Spread, srcs: seq<Object>, dsts: seq<Object>)
    requires tmpSrcObjs != [] && |srcs| == |dsts|
    ensures GoodPairs(mounts, tmpSrcObjs, spread, srcs, dsts)
            <==> forall i | 0 <= i < |srcs| :: GoodSource(mounts, tmpSrcObjs, spread, srcs[i], dsts[i])
  {
    hide GoodSource;
  }

  lemma GoodMore(mounts: Mounts, tmpSrcObjs: seq<Object>, spread: Spread, srcs: seq<Object>, dsts: seq<Object>,
                 src: Object, dst: Object)
    requires tmpSrcObjs != [] && |srcs| == |dsts|
    requires GoodPairs(mounts, tmpSrcObjs, spread, srcs, dsts) && GoodSource(mounts, tmpSrcObjs, spread, src, dst)
    ensures GoodPairs(mounts, tmpSrcObjs, spread, srcs + [src], dsts + [dst])
  {
    hide GoodSource;
  }

  /** The first source, or the one drawn for this destination. */
  method DrawSource(tmpSrcObjs: seq<Object>, spread: Spread, dst: Object) returns (src: Object)
    requires tmpSrcObjs != []
    ensures src == tmpSrcObjs[if spread.Never? then 0 else spread.draw(dst) % |tmpSrcObjs|]
  {
    src := tmpSrcObjs[0];
    match spread {
      case Never =>
      case Random(draw) => src := tmpSrcObjs[draw(dst) % |tmpSrcObjs|];
    }
  }

  lemma UnservedGood(mounts: Mounts, tmpSrcObjs: seq<Object>, leftover: set<Object>, spread: Spread, src: Object, dst: Object)
    requires tmpSrcObjs != [] && Unserved(mounts, tmpSrcObjs, leftover) && dst in leftover
    requires src == tmpSrcObjs[if spread.Never? then 0 else spread.draw(dst) % |tmpSrcObjs|]
    ensures GoodSource(mounts, tmpSrcObjs, spread, src, dst)
    ensures Unserved(mounts, tmpSrcObjs, leftover - {dst})
  {
  }
}
