/** Which replicas of an alias path an operation touches.

    `Get` turns the backend roots of one alias path into a list: the first root that resolves,
    a nil marker when earlier roots did not, and unresolved placeholders for the later ones.
    `GetAllObjs` walks that list with a stateful filter and compacts the survivors in place.
 */
module AliasSelection {

  import opened Wrappers

  datatype Policy =
    | Disabled | First | Deterministic | DeterministicOrAll | All | AllStrict
    | RandomBalanced | Quota | QuotaStrict

  datatype Error =
    | ObjectNotFound | NotFile | NotFolder | SamePathLeak | PathConflict
    | PermissionDenied | NotEnoughSrcObjs | NoEnoughSpace | VirtualPath

  /** What the file system reports for a path. A missing hash and an empty one are the same. */
  datatype Stat = Stat(isDir: bool, size: int, hashes: map<string, string>)

  /** `addr` stands for the pointer: two objects are the same object iff their addresses agree. */
  datatype Object = Object(addr: nat, path: string, stat: Stat)

  datatype Entry =
    | Nil
    | Temp(obj: Object)
    | Plain(obj: Object)

  /** The answers of the file system while one operation runs. */
  type FileSystem = string -> Option<Stat>

  // ----- one entry -----

  predicate IsConsistent(a: Stat, b: Stat) {
    && a.size == b.size
    && forall ht | ht in a.hashes :: ht in b.hashes && b.hashes[ht] != "" ==> b.hashes[ht] == a.hashes[ht]
  }

  /** Why entry `e` of a list headed by `head` is not usable; None when it is. */
  function Fault(fs: FileSystem, check: bool, head: Stat, e: Entry): (fault: Option<Error>)
    ensures e.Nil? ==> fault.Some?
  {
    match e
    case Nil => Some(ObjectNotFound)
    case Plain(_) => None
    case Temp(o) =>
      match fs(o.path)
      case None => Some(ObjectNotFound)
      case Some(st) =>
        if !head.isDir then
          if st.isDir then Some(NotFile)
          else if check && !IsConsistent(head, st) then Some(ObjectNotFound)
          else None
        else if !st.isDir then Some(NotFolder)
        else None
  }

  // ----- the filter closure -----

  /** The captured variables after one call, and what that call returns. */
  datatype Turn = Turn(all: bool, l: nat, cont: bool, err: Option<Error>)

  function FilterTurn(policy: Policy, all: bool, l: nat, fault: Option<Error>): Turn {
    if policy == Policy.All then Turn(all, l, true, fault)
    else if fault.Some? then
      if policy.AllStrict? || (policy.DeterministicOrAll? && l >= 2) then Turn(all, l, false, Some(SamePathLeak))
      else Turn(false, l, true, fault)
    else if policy.First? then Turn(all, l, false, None)
    else if policy.Deterministic? && l > 0 then Turn(all, l, false, Some(PathConflict))
    else if policy.DeterministicOrAll? && l > 0 && !all then Turn(all, l, false, Some(SamePathLeak))
    else Turn(all, l + 1, true, None)
  }

  /** The two closures of getWriteAndPutFilterFunc: `all` and `l` are the captured variables. */
  class Filter {
    const policy: Policy
    var all: bool
    var l: nat

    constructor (policy: Policy)
      ensures this.policy == policy && all && l == 0
    {
      this.policy := policy;
      all, l := true, 0;
    }

    method Step(fault: Option<Error>) returns (cont: bool, err: Option<Error>)
      modifies this
      ensures Turn(all, l, cont, err) == FilterTurn(policy, old(all), old(l), fault)
    {
      if policy == Policy.All {
        return true, fault;
      }
      if fault.Some? {
        if policy.AllStrict? {
          return false, Some(SamePathLeak);
        }
        if policy.DeterministicOrAll? && l >= 2 {
          return false, Some(SamePathLeak);
        }
        all := false;
      } else {
        if policy.First? {
          return false, None;
        }
        if policy.Deterministic? && l > 0 {
          return false, Some(PathConflict);
        }
        if policy.DeterministicOrAll? && l > 0 && !all {
          return false, Some(SamePathLeak);
        }
        l := l + 1;
      }
      return true, fault;
    }
  }

  // ----- the reference definition -----

  /** The usable objects among the first `k` entries, in order. */
  function Survivors(fs: FileSystem, check: bool, head: Stat, es: seq<Entry>, k: nat): (r: seq<Object>)
    requires k <= |es|
    ensures |r| <= k
  {
    if k == 0 then []
    else
      var front := Survivors(fs, check, head, es, k - 1);
      if Fault(fs, check, head, es[k - 1]).Some? then front else front + [es[k - 1].obj]
  }

  /** What each policy promises, stated without the filter: a count of the usable entries decides. */
  function Expected(policy: Policy, usable: seq<Object>, total: nat): Result<seq<Object>, Error> {
    if usable == [] then Failure(ObjectNotFound)
    else
      match policy
      case First => Success(usable[..1])
      case Deterministic => if |usable| == 1 then Success(usable) else Failure(PathConflict)
      case DeterministicOrAll =>
        if |usable| == 1 || |usable| == total then Success(usable) else Failure(SamePathLeak)
      case AllStrict => if |usable| == total then Success(usable) else Failure(SamePathLeak)
      case _ => Success(usable)
  }

  /** What the captured variables know after `i` entries, `seen` of them usable, none of them fatal. */
  ghost predicate Tracks(policy: Policy, seen: nat, i: nat, all: bool, l: nat, length: nat, stopped: bool) {
    if policy.First? then
      && l == 0
      && length == (if stopped then 1 else 0)
      && (stopped <==> seen > 0)
    else
      && !stopped
      && length == seen
      && (policy != Policy.All ==> l == seen && (all <==> seen == i))
      && (policy.Deterministic? ==> seen <= 1)
      && (policy.AllStrict? ==> seen == i)
      && (policy.DeterministicOrAll? ==> seen <= 1 || seen == i)
  }

  function Plains(objs: seq<Object>): (r: seq<Entry>)
    ensures |r| == |objs|
    ensures forall i | 0 <= i < |objs| :: r[i] == Plain(objs[i])
  {
    seq(|objs|, i requires 0 <= i < |objs| => Plain(objs[i]))
  }

  lemma SurvivorsMonotone(fs: FileSystem, check: bool, head: Stat, es: seq<Entry>, k: nat, n: nat)
    requires k <= n <= |es|
    ensures var front := Survivors(fs, check, head, es, k);
            var whole := Survivors(fs, check, head, es, n);
            front <= whole && |whole| - |front| <= n - k
  {
    if k < n {
      SurvivorsMonotone(fs, check, head, es, k, n - 1);
    }
  }

  /** The bookkeeping of the walk after `i` entries. */
  ghost predicate Walking(fs: FileSystem, check: bool, es: seq<Entry>, policy: Policy, seen: seq<Object>,
                          i: nat, all: bool, l: nat, length: nat, stopped: bool)
    requires es != [] && es[0].Plain?
  {
    && i <= |es|
    && seen == Survivors(fs, check, es[0].obj.stat, es, i)
    && Tracks(policy, |seen|, i, all, l, length, stopped)
    && length <= |seen| <= i
    && (i > 0 ==> length > 0 && seen[0] == es[0].obj)
  }

  lemma WalkStarts(fs: FileSystem, check: bool, es: seq<Entry>, policy: Policy)
    requires es != [] && es[0].Plain?
    ensures Walking(fs, check, es, policy, [], 0, true, 0, 0, false)
  {
  }

  /** One turn of the filter keeps the bookkeeping, or ends the walk with the promised error. */
  lemma TurnKeepsWalking(fs: FileSystem, check: bool, es: seq<Entry>, policy: Policy, seen: seq<Object>,
                         i: nat, all: bool, l: nat, length: nat)
    requires es != [] && es[0].Plain?
    requires i < |es| && Walking(fs, check, es, policy, seen, i, all, l, length, false)
    ensures var head := es[0].obj.stat;
            var fault := Fault(fs, check, head, es[i]);
            var t := FilterTurn(policy, all, l, fault);
            && (t.err.None? ==>
                  && !es[i].Nil?
                  && Walking(fs, check, es, policy, seen + [es[i].obj], i + 1, t.all, t.l, length + 1, !t.cont)
                  && length == |seen|)
            && (t.err.Some? && t.cont ==> Walking(fs, check, es, policy, seen, i + 1, t.all, t.l, length, false))
            && (t.err.Some? && !t.cont ==>
                  Expected(policy, Survivors(fs, check, head, es, |es|), |es|) == Failure(t.err.value))
  {
    var head := es[0].obj.stat;
    SurvivorsMonotone(fs, check, head, es, i + 1, |es|);
    if i > 0 {
      SurvivorsMonotone(fs, check, head, es, 1, i);
    }
  }

  /** When the walk ends without an error, the tracked prefix is what the policy promises. */
  lemma WalkVerdict(fs: FileSystem, check: bool, es: seq<Entry>, policy: Policy, seen: seq<Object>,
                    i: nat, all: bool, l: nat, length: nat, stopped: bool)
    requires es != [] && es[0].Plain?
    requires Walking(fs, check, es, policy, seen, i, all, l, length, stopped)
    requires stopped || i == |es|
    ensures Expected(policy, Survivors(fs, check, es[0].obj.stat, es, |es|), |es|)
            == if length == 0 then Failure(ObjectNotFound) else Success(seen[..length])
  {
    var usable := Survivors(fs, check, es[0].obj.stat, es, |es|);
    SurvivorsMonotone(fs, check, es[0].obj.stat, es, i, |es|);
    if policy.First? {
      assert seen[..1] == usable[..1];
    } else {
      assert seen[..length] == usable;
    }
  }

  /** getAllObjs. The head is re-read through the list on every turn, so it must survive the compaction. */
  method GetAllObjs(fs: FileSystem, check: bool, objs: array<Entry>, policy: Policy)
    returns (r: Result<nat, Error>)
    requires objs.Length > 0 && objs[0].Plain?
    modifies objs
    ensures var before := old(objs[..]);
            var usable := Survivors(fs, check, before[0].obj.stat, before, |before|);
            var expected := Expected(policy, usable, |before|);
            match r
            case Failure(e) => expected == Failure(e)
            case Success(n) =>
              && n <= objs.Length
              && expected.Success?
              && objs[..n] == Plains(expected.value)
              && objs[n..] == before[n..]
  {
    hide FilterTurn, Expected, Fault, Survivors, Tracks;
    ghost var before := objs[..];
    ghost var seen: seq<Object> := [];
    var filter := new Filter(policy);
    var length, i, stopped := 0, 0, false;
    WalkStarts(fs, check, before, policy);
    while i < objs.Length && !stopped
      invariant i <= objs.Length && fresh(filter) && filter.policy == policy
      invariant Walking(fs, check, before, policy, seen, i, filter.all, filter.l, length, stopped)
      invariant forall k | 0 <= k < length :: objs[k] == Plain(seen[k])
      invariant forall k | length <= k < objs.Length :: objs[k] == before[k]
      decreases objs.Length - i, if stopped then 0 else 1
    {
      var o := objs[i];
      var fault := Fault(fs, check, objs[0].obj.stat, o);
      TurnKeepsWalking(fs, check, before, policy, seen, i, filter.all, filter.l, length);
      var cont, err := filter.Step(fault);
      i := i + 1;
      if err.Some? {
        if cont {
          continue;
        }
        return Failure(err.value);
      }
      objs[length] := Plain(o.obj);
      length := length + 1;
      seen := seen + [o.obj];
      if !cont {
        stopped := true;
      }
    }
    WalkVerdict(fs, check, before, policy, seen, i, filter.all, filter.l, length, stopped);
    if length == 0 {
      return Failure(ObjectNotFound);
    }
    return Success(length);
  }

  // ----- the list that Get builds -----

  /** The first of `paths` at or after `k` that resolves, or |paths|. */
  function FirstResolving(fs: FileSystem, paths: seq<string>, k: nat := 0): (idx: nat)
    requires k <= |paths|
    ensures k <= idx <= |paths|
    ensures idx < |paths| ==> fs(paths[idx]).Some?
    ensures forall j | k <= j < idx :: fs(paths[j]).None?
    decreases |paths| - k
  {
    if k == |paths| || fs(paths[k]).Some? then k else FirstResolving(fs, paths, k + 1)
  }

  /** The list for the roots `paths`, the first resolving one of which is `idx`. */
  function Listing(fs: FileSystem, paths: seq<string>, idx: nat): (es: seq<Entry>)
    requires idx < |paths| && fs(paths[idx]).Some?
  {
    [Plain(Object(idx, paths[idx], fs(paths[idx]).value))]
    + (if idx > 0 then [Nil] else [])
    + seq(|paths| - idx - 1, j requires 0 <= j < |paths| - idx - 1 => Placeholder(paths, idx + 1 + j))
  }

  function Placeholder(paths: seq<string>, k: nat): Entry
    requires k < |paths|
  {
    Temp(Object(k, paths[k], Stat(false, 0, map[])))
  }

  /** Alias.Get over the raw paths of the roots. */
  method Get(fs: FileSystem, paths: seq<string>) returns (r: Result<array<Entry>, Error>)
    ensures r.Failure? <==> forall k | 0 <= k < |paths| :: fs(paths[k]).None?
    ensures r.Failure? ==> r.error == ObjectNotFound
    ensures r.Success? ==>
      && fresh(r.value)
      && FirstResolving(fs, paths) < |paths|
      && r.value[..] == Listing(fs, paths, FirstResolving(fs, paths))
  {
    var idx := 0;
    while idx < |paths|
      invariant idx <= |paths|
      invariant forall k | 0 <= k < idx :: fs(paths[k]).None?
    {
      var found := fs(paths[idx]);
      if found.None? {
        idx := idx + 1;
        continue;
      }
      assert FirstResolving(fs, paths) == idx;
      var objs := [Plain(Object(idx, paths[idx], found.value))];
      if idx > 0 {
        objs := objs + [Nil];
      }
      ghost var all := Listing(fs, paths, idx);
      var k := idx + 1;
      while k < |paths|
        invariant idx + 1 <= k <= |paths| && |objs| == |all| - (|paths| - k)
        invariant objs == all[..|objs|]
      {
        assert all[|objs|] == Placeholder(paths, k);
        OneMore(all, |objs|);
        objs := objs + [Placeholder(paths, k)];
        k := k + 1;
      }
      var list := new Entry[|objs|](i requires 0 <= i < |objs| => objs[i]);
      return Success(list);
    }
    return Failure(ObjectNotFound);
  }

  lemma OneMore<T>(s: seq<T>, n: nat)
    requires n < |s|
    ensures s[..n + 1] == s[..n] + [s[n]]
  {
  }

  // ----- what the policies mean for the roots -----

  predicate Matches(check: bool, head: Stat, st: Stat) {
    head.isDir == st.isDir && (!head.isDir && check ==> IsConsistent(head, st))
  }

  /** Root `k` resolves to an object of the same kind as `head`, the first root that resolves. */
  predicate RootUsable(fs: FileSystem, check: bool, head: Stat, path: string) {
    fs(path).Some? && Matches(check, head, fs(path).value)
  }

  /** The usable roots below `n`, in configuration order. */
  function UsableRoots(fs: FileSystem, check: bool, head: Stat, paths: seq<string>, n: nat): seq<nat>
    requires n <= |paths|
  {
    if n == 0 then []
    else
      var front := UsableRoots(fs, check, head, paths, n - 1);
      if RootUsable(fs, check, head, paths[n - 1]) then front + [n - 1] else front
  }

  lemma {:induction false} UsableRootsExactly(fs: FileSystem, check: bool, head: Stat, paths: seq<string>, n: nat)
    requires n <= |paths|
    ensures var roots := UsableRoots(fs, check, head, paths, n);
            && |roots| <= n
            && (forall k | 0 <= k < n :: k in roots <==> RootUsable(fs, check, head, paths[k]))
            && (forall j | 0 <= j < |roots| :: roots[j] < n)
            && (forall i, j | 0 <= i < j < |roots| :: roots[i] < roots[j])
            && (|roots| == n <==> forall k | 0 <= k < n :: RootUsable(fs, check, head, paths[k]))
  {
    hide RootUsable;
    if n > 0 {
      UsableRootsExactly(fs, check, head, paths, n - 1);
    }
  }

  /** No two elements are the same object. */
  ghost predicate Distinct(objs: seq<Object>) {
    forall i, j | 0 <= i < j < |objs| :: objs[i].addr != objs[j].addr
  }

  /** `objs` are the objects of the roots `roots`, in that order. */
  ghost predicate ObjectsOf(paths: seq<string>, objs: seq<Object>, roots: seq<nat>) {
    && |objs| == |roots|
    && forall j | 0 <= j < |roots| ::
         objs[j].addr == roots[j] && roots[j] < |paths| && objs[j].path == paths[roots[j]]
  }

  lemma {:induction false} NoneUsableBefore(fs: FileSystem, check: bool, head: Stat, paths: seq<string>, n: nat)
    requires n <= FirstResolving(fs, paths)
    ensures UsableRoots(fs, check, head, paths, n) == []
  {
    if n > 0 {
      NoneUsableBefore(fs, check, head, paths, n - 1);
    }
  }

  /** Where the entries of the list come from, and when the placeholder of root `n` is usable. */
  lemma ListingAt(fs: FileSystem, check: bool, paths: seq<string>, idx: nat, n: nat)
    requires idx <= n < |paths| && fs(paths[idx]).Some?
    ensures var es := Listing(fs, paths, idx);
            var k := n - idx + (if idx > 0 && n > idx then 1 else 0);
            && |es| == |paths| - idx + (if idx > 0 then 1 else 0)
            && k < |es|
            && es[0] == Plain(Object(idx, paths[idx], fs(paths[idx]).value))
            && (idx > 0 ==> es[1] == Nil)
            && (n > idx ==>
                  && es[k] == Placeholder(paths, n)
                  && (Fault(fs, check, es[0].obj.stat, es[k]).None? <==>
                        RootUsable(fs, check, es[0].obj.stat, paths[n])))
  {
  }

  /** The placeholder of root n - 1 survives exactly when the root is usable. */
  lemma SurvivorsStep(fs: FileSystem, check: bool, paths: seq<string>, es: seq<Entry>, head: Stat, n: nat, k: nat)
    requires 0 < n <= |paths| && 0 < k <= |es| && es[k - 1] == Placeholder(paths, n - 1)
    requires Fault(fs, check, head, es[k - 1]).None? <==> RootUsable(fs, check, head, paths[n - 1])
    requires ObjectsOf(paths, Survivors(fs, check, head, es, k - 1), UsableRoots(fs, check, head, paths, n - 1))
    ensures ObjectsOf(paths, Survivors(fs, check, head, es, k), UsableRoots(fs, check, head, paths, n))
    ensures Survivors(fs, check, head, es, k - 1) <= Survivors(fs, check, head, es, k)
    ensures |Survivors(fs, check, head, es, k)| <= |Survivors(fs, check, head, es, k - 1)| + 1
  {
    hide Fault, RootUsable;
  }

  /** The survivors of the list are the usable roots, in configuration order. */
  lemma {:induction false} SurvivorsAreUsableRoots(
      fs: FileSystem, check: bool, paths: seq<string>, idx: nat, es: seq<Entry>, head: Stat, n: nat, k: nat)
    requires idx == FirstResolving(fs, paths) < n <= |paths|
    requires es == Listing(fs, paths, idx) && head == es[0].obj.stat
    requires k == n - idx + (if idx > 0 then 1 else 0)
    ensures k <= |es|
    ensures ObjectsOf(paths, Survivors(fs, check, head, es, k), UsableRoots(fs, check, head, paths, n))
    ensures Survivors(fs, check, head, es, k) != [] && Survivors(fs, check, head, es, k)[0].addr == idx
    ensures idx > 0 ==> |Survivors(fs, check, head, es, k)| < k
    decreases n
  {
    ListingAt(fs, check, paths, idx, n - 1);
    hide Listing, Fault, RootUsable, FirstResolving, ObjectsOf, UsableRoots, Survivors;
    if n == idx + 1 {
      NoneUsableBefore(fs, check, head, paths, idx);
      HeadUsable(fs, check, paths, idx, es);
      HeadOnly(fs, check, head, paths, idx, es[0].obj);
    } else {
      SurvivorsAreUsableRoots(fs, check, paths, idx, es, head, n - 1, k - 1);
      SurvivorsStep(fs, check, paths, es, head, n, k);
    }
  }

  lemma HeadOnly(fs: FileSystem, check: bool, head: Stat, paths: seq<string>, idx: nat, obj: Object)
    requires idx < |paths| && obj.addr == idx && obj.path == paths[idx]
    requires UsableRoots(fs, check, head, paths, idx) == [] && RootUsable(fs, check, head, paths[idx])
    ensures ObjectsOf(paths, [obj], UsableRoots(fs, check, head, paths, idx + 1))
  {
    hide RootUsable;
  }

  lemma HeadUsable(fs: FileSystem, check: bool, paths: seq<string>, idx: nat, es: seq<Entry>)
    requires idx < |paths| && fs(paths[idx]).Some? && es == Listing(fs, paths, idx)
    ensures RootUsable(fs, check, es[0].obj.stat, paths[idx])
    ensures Survivors(fs, check, es[0].obj.stat, es, 1) == [es[0].obj]
    ensures idx > 0 ==> Survivors(fs, check, es[0].obj.stat, es, 2) == [es[0].obj]
  {
    assert Survivors(fs, check, es[0].obj.stat, es, 0) == [];
    assert Survivors(fs, check, es[0].obj.stat, es, 1) == [es[0].obj];
  }

  /** Which runs succeed, and with what, in terms of the configured roots alone. */
  lemma SelectionOverRoots(fs: FileSystem, check: bool, paths: seq<string>, policy: Policy, es: seq<Entry>)
    requires FirstResolving(fs, paths) < |paths|
    requires es == Listing(fs, paths, FirstResolving(fs, paths))
    ensures var head := es[0].obj.stat;
            var roots := UsableRoots(fs, check, head, paths, |paths|);
            var r := Expected(policy, Survivors(fs, check, head, es, |es|), |es|);
            && (policy.AllStrict? ==>
                  (r.Success? <==> forall k | 0 <= k < |paths| :: RootUsable(fs, check, head, paths[k])))
            && (policy.Deterministic? ==> (r.Success? <==> |roots| == 1))
            && (policy.DeterministicOrAll? ==> (r.Success? <==> |roots| == 1 || |roots| == |paths|))
            && (!(policy.AllStrict? || policy.Deterministic? || policy.DeterministicOrAll?) ==> r.Success?)
            && (r.Success? && policy.First? ==>
                  roots != [] && roots[0] == FirstResolving(fs, paths) && ObjectsOf(paths, r.value, roots[..1]))
            && (r.Success? && !policy.First? ==> ObjectsOf(paths, r.value, roots))
            && (r.Success? ==> Distinct(r.value))
            && (r.Failure? ==> r.error == if policy.Deterministic? then PathConflict else SamePathLeak)
  {
    var idx, head := FirstResolving(fs, paths), es[0].obj.stat;
    SurvivorsAreUsableRoots(fs, check, paths, idx, es, head, |paths|, |es|);
    UsableRootsExactly(fs, check, head, paths, |paths|);
  }

  // ----- which replicas agree -----

  /** A later root takes part exactly when it resolves to an object of the head's kind and, for a file under the
      consistency check, to one of the head's size that reports no other value for a hash of the head; a hash it does
      not report, or reports as empty, is not compared. */
  lemma ReplicaTakesPart(fs: FileSystem, check: bool, paths: seq<string>, k: nat)
    requires FirstResolving(fs, paths) < k < |paths|
    ensures var head := fs(paths[FirstResolving(fs, paths)]).value;
            var es := Listing(fs, paths, FirstResolving(fs, paths));
            (exists o | o in Survivors(fs, check, head, es, |es|) :: o.addr == k) <==>
              match fs(paths[k])
              case None => false
              case Some(st) =>
                && st.isDir == head.isDir
                && (check && !head.isDir ==>
                      && st.size == head.size
                      && forall kind | kind in head.hashes && kind in st.hashes ::
                           st.hashes[kind] == "" || st.hashes[kind] == head.hashes[kind])
  {
    var idx := FirstResolving(fs, paths);
    var es, head := Listing(fs, paths, idx), fs(paths[idx]).value;
    var objs, roots := Survivors(fs, check, head, es, |es|), UsableRoots(fs, check, head, paths, |paths|);
    ListingAt(fs, check, paths, idx, k);
    UsableRootsExactly(fs, check, head, paths, |paths|);
    SurvivorsAreUsableRoots(fs, check, paths, idx, es, head, |paths|, |es|);
    hide Listing, Survivors, UsableRoots, FirstResolving;
    if k in roots {
      var j :| 0 <= j < |roots| && roots[j] == k;
      assert objs[j] in objs;
    }
    if o :| o in objs && o.addr == k {
      var j :| 0 <= j < |objs| && objs[j] == o;
    }
  }

  /** Two files asked for under the strictest policy: both are kept, or the selection fails. */
  method TwoReplicas(a: Stat, b: Stat) returns (r: Result<nat, Error>)
    requires !a.isDir && !b.isDir
    ensures r == if a.size == b.size && (forall kind | kind in a.hashes && kind in b.hashes ::
                                           b.hashes[kind] == "" || b.hashes[kind] == a.hashes[kind])
                 then Success(2) else Failure(SamePathLeak)
  {
    hide Survivors, Expected, Listing;
    var fs: FileSystem := path => if path == "/a" then Some(a) else Some(b);
    TwoListed(fs, "/a", "/b", a, b);
    var list := Get(fs, ["/a", "/b"]);
    assert list.value[0] == list.value[..][0];
    r := GetAllObjs(fs, true, list.value, AllStrict);
  }

  lemma TwoListed(fs: FileSystem, first: string, second: string, a: Stat, b: Stat)
    requires fs(first) == Some(a) && fs(second) == Some(b) && !a.isDir && !b.isDir
    ensures FirstResolving(fs, [first, second]) == 0
    ensures var es := Listing(fs, [first, second], 0);
            var kept := Expected(AllStrict, Survivors(fs, true, a, es, |es|), |es|);
            && es != [] && es[0] == Plain(Object(0, first, a))
            && if a.size == b.size && (forall kind | kind in a.hashes && kind in b.hashes ::
                                         b.hashes[kind] == "" || b.hashes[kind] == a.hashes[kind])
               then kept.Success? && |kept.value| == 2 else kept == Failure(SamePathLeak)
  {
    var paths := [first, second];
    var es := Listing(fs, paths, 0);
    assert es == [Plain(Object(0, first, a)), Placeholder(paths, 1)];
    assert Survivors(fs, true, a, es, 0) == [];
    assert Survivors(fs, true, a, es, 1) == [Object(0, first, a)];
  }

  /** Same size, other digest: no write. */
  method DigestsDiffer() returns (r: Result<nat, Error>)
    ensures r == Failure(SamePathLeak)
  {
    var a, b := Stat(false, 5, map["md5" := "x"]), Stat(false, 5, map["md5" := "y"]);
    assert "md5" in a.hashes && "md5" in b.hashes && b.hashes["md5"] != a.hashes["md5"];
    r := TwoReplicas(a, b);
  }

  /** Same size, digests of different kinds: nothing contradicts, so both are written. */
  method DigestKindsDiffer() returns (r: Result<nat, Error>)
    ensures r == Success(2)
  {
    r := TwoReplicas(Stat(false, 5, map["md5" := "x"]), Stat(false, 5, map["sha1" := "y"]));
  }

  // ----- no object twice -----

  /** No two entries hold the same object. */
  ghost predicate DistinctEntries(es: seq<Entry>) {
    forall i, j | 0 <= i < j < |es| && !es[i].Nil? && !es[j].Nil? :: es[i].obj.addr != es[j].obj.addr
  }

  lemma {:induction false} SurvivorsFrom(fs: FileSystem, check: bool, head: Stat, es: seq<Entry>, k: nat)
    requires k <= |es| && DistinctEntries(es)
    ensures Distinct(Survivors(fs, check, head, es, k))
    ensures forall j | 0 <= j < |Survivors(fs, check, head, es, k)| ::
              exists i | 0 <= i < k :: !es[i].Nil? && es[i].obj == Survivors(fs, check, head, es, k)[j]
  {
    if k > 0 {
      SurvivorsFrom(fs, check, head, es, k - 1);
      var front, e := Survivors(fs, check, head, es, k - 1), es[k - 1];
      if Fault(fs, check, head, e).None? {
        assert Survivors(fs, check, head, es, k) == front + [e.obj] && !e.Nil?;
        forall j | 0 <= j < |front|
          ensures front[j].addr != e.obj.addr && exists i | 0 <= i < k :: !es[i].Nil? && es[i].obj == front[j]
        {
          var i :| 0 <= i < k - 1 && !es[i].Nil? && es[i].obj == front[j];
        }
      } else {
        assert Survivors(fs, check, head, es, k) == front;
        forall j | 0 <= j < |front| ensures exists i | 0 <= i < k :: !es[i].Nil? && es[i].obj == front[j] {
          var i :| 0 <= i < k - 1 && !es[i].Nil? && es[i].obj == front[j];
        }
      }
    }
  }

  /** A list without repetition selects no object twice, under every policy. */
  lemma SelectionDistinct(fs: FileSystem, check: bool, es: seq<Entry>, policy: Policy)
    requires es != [] && es[0].Plain? && DistinctEntries(es)
    ensures var r := Expected(policy, Survivors(fs, check, es[0].obj.stat, es, |es|), |es|);
            r.Success? ==> Distinct(r.value)
  {
    SurvivorsFrom(fs, check, es[0].obj.stat, es, |es|);
  }

  lemma ListingDistinct(fs: FileSystem, paths: seq<string>)
    requires FirstResolving(fs, paths) < |paths|
    ensures DistinctEntries(Listing(fs, paths, FirstResolving(fs, paths)))
  {
    hide Listing, FirstResolving;
    var idx := FirstResolving(fs, paths);
    var es := Listing(fs, paths, idx);
    forall i, j | 0 <= i < j < |es| && !es[i].Nil? && !es[j].Nil? ensures es[i].obj.addr != es[j].obj.addr {
      AddressAt(fs, paths, idx, i);
      AddressAt(fs, paths, idx, j);
    }
  }

  /** Entries stand for their roots. */
  lemma AddressAt(fs: FileSystem, paths: seq<string>, idx: nat, i: nat)
    requires idx < |paths| && fs(paths[idx]).Some? && i < |Listing(fs, paths, idx)|
    ensures var e := Listing(fs, paths, idx)[i];
            !e.Nil? ==> e.obj.addr == if i == 0 then idx else if idx > 0 then idx + i - 1 else i
    ensures idx > 0 && i == 1 ==> Listing(fs, paths, idx)[i].Nil?
  {
    var k := i - if idx > 0 then 2 else 1;
    if k >= 0 {
      assert Listing(fs, paths, idx)[i] == Placeholder(paths, idx + 1 + k);
    }
  }
}
