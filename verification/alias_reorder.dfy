/** What a move or copy into the root of an alias does to the root itself. The list handed out for the only root
    directory is the driver's own, and the pairing reorders it for good. */
module AliasReorder {

  import opened Wrappers
  import opened AliasSelection
  import opened AliasPairing
  import opened AliasDriver
  import opened AliasRoots

  /** The objects of the list of the only root directory. */
  function RootObjects(paths: seq<string>): (objs: seq<Object>)
    ensures RootList(paths) == Plains(objs)
  {
    seq(|paths|, i requires 0 <= i < |paths| => Object(i, paths[i], Stat(i == 0, 0, map[])))
  }

  /** The whole list of the root is selected under every policy except the two that look for one destination, and under
      those when there is only one. */
  lemma RootSelected(fs: FileSystem, check: bool, paths: seq<string>, policy: Policy)
    requires paths != [] && !policy.Disabled?
    ensures RootList(paths)[0].Plain?
    ensures Selected(fs, check, RootList(paths), policy) == Success(RootObjects(paths))
            <==> (policy.First? || policy.Deterministic? ==> |paths| == 1)
    ensures Distinct(RootObjects(paths))
  {
    var es, objs := RootList(paths), RootObjects(paths);
    var usable := Survivors(fs, check, es[0].obj.stat, es, |es|);
    RootIsUnchecked(fs, check, paths, |paths|);
    assert es[..|es|] == es;
    assert forall i | 0 <= i < |objs| :: Plains(usable)[i] == Plains(objs)[i];
    assert usable == objs;
    assert |objs| == 1 ==> usable[..1] == usable;
  }

  lemma LeaderSelected(mounts: Mounts, srcs: seq<Object>, dsts: seq<Object>, pick: Pick)
    requires dsts != [] && Picks(pick) && Distinct(dsts)
    ensures Leader(mounts, srcs, dsts, pick) in dsts
  {
    hide FirstOn, FirstShared, Distinct, Picks;
    match FirstShared(mounts, srcs, dsts, |srcs|)
    case Some(mp) => FirstOnHead(mounts, dsts, |dsts|, mp);
    case None =>
      var all := set o | o in dsts;
      assert dsts[0] in all;
      PickedNext(pick, all);
  }

  /** A move or copy into the root leaves an object at its head that is a directory, whatever the order of the map,
      exactly when the first source that shares its mount with any configured path shares it with the first one,
      or, when no source does, when only one path is configured. */
  lemma RootStaysExactly(mounts: Mounts, srcs: seq<Object>, paths: seq<string>)
    requires paths != []
    ensures (forall pick | Picks(pick) :: Leader(mounts, srcs, RootObjects(paths), pick).stat.isDir)
            <==> match FirstShared(mounts, srcs, RootObjects(paths), |srcs|)
                 case Some(mp) => mounts(paths[0]) == Some(mp)
                 case None => |paths| == 1
  {
    var objs := RootObjects(paths);
    assert Distinct(objs);
    LeaderStaysExactly(mounts, srcs, objs);
    forall pick | Picks(pick)
      ensures Leader(mounts, srcs, objs, pick).stat.isDir <==> Leader(mounts, srcs, objs, pick) == objs[0]
    {
      LeaderSelected(mounts, srcs, objs, pick);
    }
  }

  /** Two configured paths on mounts of their own and a file under the second only: copying it to the root of the
      alias swaps the two, and the root is no directory any more. */
  method RootReordered(check: bool, spread: Spread, pick: Pick) returns (root: array<Entry>)
    requires Picks(pick)
    ensures root.Length == 2 && root[..] == [RootList(["/s1/d", "/s2/d"])[1], RootList(["/s1/d", "/s2/d"])[0]]
    ensures root[0].Plain? && !root[0].obj.stat.isDir
  {
    hide Picks, Selected, CopyOutcome, Reordered, Leader, Listing, DistinctEntries;
    var paths, dir := ["/s1/d", "/s2/d"], Stat(true, 0, map[]);
    var file := Stat(false, 1, map[]);
    var fs: FileSystem := path => if path == "/s2/d/x/f" then Some(file) else if path == "/s1/d/x/f" then None else Some(dir);
    var mounts: Mounts := path =>
      if path == "/s1/d" then Some("/s1") else if path == "/s2/d" || path == "/s2/d/x/f" then Some("/s2") else None;
    var list := RootList(paths);
    root := new Entry[2](i requires 0 <= i < 2 => list[i]);
    assert root[..] == list;
    RootListDistinct(paths);
    RootSelected(fs, check, paths, AllStrict);
    var src := Get(fs, ["/s1/d/x/f", "/s2/d/x/f"]);
    UnderSecondOnly(fs, check, "/s1/d/x/f", "/s2/d/x/f", file);
    assert src.value[..] == ListOf(fs, ["/s1/d/x/f", "/s2/d/x/f"]) by {
      assert FirstResolving(fs, ["/s1/d/x/f", "/s2/d/x/f"]) == 1;
    }
    assert src.value[0] == src.value[..][0] && root[0] == list[0];
    var r := Copy(fs, mounts, check, AllStrict, spread, src.value, root, pick);
    CopySwaps(mounts, AllStrict, spread, Object(1, "/s2/d/x/f", file), RootObjects(paths), pick, r, list, root[..]);
  }

  /** A single source on the mount of the second of two destinations. */
  lemma CopySwaps(mounts: Mounts, policy: Policy, spread: Spread, src: Object, dsts: seq<Object>, pick: Pick, r: Outcome,
                  before: seq<Entry>, after: seq<Entry>)
    requires CopyOutcome(mounts, policy, spread, Success([src]), Success(dsts), r) && !policy.Disabled?
    requires !r.Rejected? ==> Reordered(mounts, [src], dsts, pick, Issued(r), before, after)
    requires |dsts| == 2 == |after| && mounts(src.path).Some?
    requires mounts(src.path) == mounts(dsts[1].path) != mounts(dsts[0].path) && mounts(dsts[0].path).Some?
    ensures after == [Plain(dsts[1]), Plain(dsts[0])]
  {
    hide GoodSource, Leader, FirstOn, FirstShared;
    OnlySecondShared(mounts, src, dsts, pick);
    assert dsts == [dsts[0], dsts[1]] && after[..2] == after && dsts[0] != dsts[1];
    Swapped(after, dsts[0], dsts[1]);
  }

  lemma OnlySecondShared(mounts: Mounts, src: Object, dsts: seq<Object>, pick: Pick)
    requires |dsts| == 2 && mounts(src.path).Some?
    requires mounts(src.path) == mounts(dsts[1].path) != mounts(dsts[0].path)
    ensures Leader(mounts, [src], dsts, pick) == dsts[1]
  {
    var mp := mounts(src.path).value;
    assert FirstOn(mounts, dsts, 0, mp) == None;
    assert FirstOn(mounts, dsts, 1, mp) == None;
    assert FirstOn(mounts, dsts, 2, mp) == Some(dsts[1]);
    assert FirstShared(mounts, [src], dsts, 0) == None && FirstShared(mounts, [src], dsts, 1) == Some(mp);
  }

  lemma Swapped(after: seq<Entry>, a: Object, b: Object)
    requires a != b && |after| == 2 && multiset(after) == multiset(Plains([a, b])) && after[0] == Plain(b)
    ensures after == [Plain(b), Plain(a)]
  {
    assert Plains([a, b])[0] == Plain(a) && Plain(a) in multiset(after);
  }

  lemma UnderSecondOnly(fs: FileSystem, check: bool, a: string, b: string, st: Stat)
    requires fs(a).None? && fs(b) == Some(st)
    ensures Resolves(fs, [a, b]) && FirstResolving(fs, [a, b]) == 1
    ensures Selected(fs, check, ListOf(fs, [a, b]), Policy.All) == Success([Object(1, b, st)])
  {
    var o, es := Object(1, b, st), [Plain(Object(1, b, st)), Nil];
    assert FirstResolving(fs, [a, b]) == 1;
    assert ListOf(fs, [a, b]) == es;
    assert Survivors(fs, check, st, es, 0) == [];
    assert Survivors(fs, check, st, es, 1) == [o];
    assert Survivors(fs, check, st, es, 2) == [o];
  }
}
