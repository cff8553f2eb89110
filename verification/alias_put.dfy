/** Which replica of a directory receives an upload. */
module AliasPut {

  import opened Arithmetic
  import opened Wrappers
  import opened AliasSelection
  import AliasDriver
  import opened WeightedDraw

  /** Free space of the storage behind a path; None when the storage gives no details. */
  type Details = string -> Option<int>

  /** The weight of a replica: its free space, or nothing when `size` does not fit. */
  function Weight(details: Details, size: int, o: Object): uint64 {
    match details(o.path)
    case None => 0
    case Some(free) => if free < size then 0 else free % UINT64_RANGE
  }

  function Weights(details: Details, size: int, objs: seq<Object>): (r: seq<uint64>)
    ensures |r| == |objs| && forall i | 0 <= i < |objs| :: r[i] == Weight(details, size, objs[i])
  {
    seq(|objs|, i requires 0 <= i < |objs| => Weight(details, size, objs[i]))
  }

  predicate Opaque(details: Details, o: Object) {
    details(o.path).None?
  }

  /** The objects without details among the first `n`, in order. */
  function Opaques(details: Details, objs: seq<Object>, n: nat): seq<Object>
    requires n <= |objs|
  {
    if n == 0 then []
    else if Opaque(details, objs[n - 1]) then Opaques(details, objs, n - 1) + [objs[n - 1]]
    else Opaques(details, objs, n - 1)
  }

  /** The draw falls to object `i`. */
  predicate DrawnAt(details: Details, size: int, objs: seq<Object>, draw: uint64, i: nat)
    requires i < |objs| && Total(Weights(details, size, objs)) != 0
  {
    Owns(Weights(details, size, objs), i, draw % Total(Weights(details, size, objs)))
  }

  ghost predicate Drawn(details: Details, size: int, objs: seq<Object>, draw: uint64, o: Object)
    requires Total(Weights(details, size, objs)) != 0
  {
    exists i: nat | i < |objs| :: objs[i] == o && DrawnAt(details, size, objs, draw, i)
  }

  /** The least free space that gives any weight when `size` is asked for. */
  function LeastFree(size: int): (least: int)
    ensures 0 <= size < UINT64_RANGE ==> least == if size > 1 then size else 1
  {
    if size % UINT64_RANGE == 0 then size + 1 else size
  }

  /** Whoever is drawn has at least that much. */
  lemma DrawnHasRoom(details: Details, size: int, objs: seq<Object>, draw: uint64, i: nat)
    requires i < |objs| && Total(Weights(details, size, objs)) != 0 && DrawnAt(details, size, objs, draw, i)
    ensures details(objs[i].path).Some? && details(objs[i].path).value >= LeastFree(size)
  {
    var weights := Weights(details, size, objs);
    assert Prefix(weights, i + 1) == Prefix(weights, i) + weights[i];
    assert weights[i] == Weight(details, size, objs[i]) > 0;
  }

  /** getRandomObjByQuotaBalanced. `draw` and `pick` are the two random numbers. */
  method GetRandomObjByQuotaBalanced(details: Details, objs: seq<Object>, strict: bool, size: int, draw: uint64, pick: nat)
    returns (r: Option<Object>)
    ensures var total := Total(Weights(details, size, objs));
            match r
            case None => total == 0 && (strict || forall i | 0 <= i < |objs| :: !Opaque(details, objs[i]))
            case Some(o) =>
              && o in objs
              && if total != 0 then Drawn(details, size, objs, draw, o)
                 else
                   var opaques := Opaques(details, objs, |objs|);
                   !strict && opaques != [] && o == opaques[pick % |opaques|] && Opaque(details, o)
  {
    var weights := Weights(details, size, objs);
    var selected, ok := SelectRandom(weights, draw);
    if ok {
      assert DrawnAt(details, size, objs, draw, selected);
      return Some(objs[selected]);
    }
    if strict {
      return None;
    }
    hide Prefix, Weight;
    var noDetails: seq<nat> := [];
    var i := 0;
    while i < |objs|
      invariant i <= |objs|
      invariant forall k | 0 <= k < |noDetails| :: noDetails[k] < i && Opaque(details, objs[noDetails[k]])
      invariant forall j: nat | j < i && Opaque(details, objs[j]) :: j in noDetails
      invariant Opaques(details, objs, i) == seq(|noDetails|, k requires 0 <= k < |noDetails| => objs[noDetails[k]])
    {
      if Opaque(details, objs[i]) {
        noDetails := noDetails + [i];
      }
      i := i + 1;
    }
    if noDetails == [] {
      return None;
    }
    return Some(objs[noDetails[pick % |noDetails|]]);
  }

  // ----- how often a replica is drawn -----

  /** The free space that counts: what is reported, if it is enough for `size`. */
  function Room(details: Details, size: int, o: Object): int {
    match details(o.path)
    case None => 0
    case Some(free) => if free >= size then free else 0
  }

  function AllRoom(details: Details, size: int, objs: seq<Object>, n: nat): int
    requires n <= |objs|
  {
    if n == 0 then 0 else AllRoom(details, size, objs, n - 1) + Room(details, size, objs[n - 1])
  }

  lemma {:induction false} RoomIsWeight(details: Details, size: int, objs: seq<Object>, n: nat)
    requires n <= |objs| && size >= 0
    requires forall k | 0 <= k < |objs| && details(objs[k].path).Some? :: details(objs[k].path).value < UINT64_RANGE
    ensures Prefix(Weights(details, size, objs), n) == AllRoom(details, size, objs, n)
  {
    if n > 0 {
      RoomIsWeight(details, size, objs, n - 1);
    }
  }

  /** As long as all free space together can be counted in 64 bits, a replica is drawn in proportion to its free space:
      by as many of the random numbers below the total as it has free bytes, or never when the size does not fit. */
  lemma DrawnByFreeSpace(details: Details, size: int, objs: seq<Object>, i: nat)
    requires size >= 0 && i < |objs| && AllRoom(details, size, objs, |objs|) < UINT64_RANGE
    requires forall k | 0 <= k < |objs| && details(objs[k].path).Some? :: details(objs[k].path).value < UINT64_RANGE
    ensures Total(Weights(details, size, objs)) == AllRoom(details, size, objs, |objs|)
    ensures |Draws(Weights(details, size, objs), i)| == Room(details, size, objs[i])
  {
    hide Prefix, AllRoom, Draws, Weights;
    RoomIsWeight(details, size, objs, |objs|);
    TotalWithin(Weights(details, size, objs));
    FairExactly(Weights(details, size, objs));
    assert Weights(details, size, objs)[i] == Weight(details, size, objs[i]);
  }

  // ----- does the file fit? -----

  /** Some storage reports and some draw lead to a replica without room for the file. */
  ghost predicate MayOverflow(size: int, fileSize: int) {
    exists details: Details, objs: seq<Object>, draw: uint64, i: nat | i < |objs| && Total(Weights(details, size, objs)) != 0 ::
      DrawnAt(details, size, objs, draw, i) && details(objs[i].path).Some? && details(objs[i].path).value < fileSize
  }

  /** One replica whose storage has the least free space that still gets drawn. */
  lemma TightReplica(size: int, path: string) returns (details: Details, o: Object)
    ensures details(o.path) == Some(LeastFree(size)) && o.path == path && o.stat == Stat(true, size, map[])
    ensures Total(Weights(details, size, [o])) != 0 && DrawnAt(details, size, [o], 0, 0)
  {
    var least := LeastFree(size);
    details := _ => Some(least);
    o := Object(0, path, Stat(true, size, map[]));
    var weights := Weights(details, size, [o]);
    assert least % UINT64_RANGE != 0 by {
      if size % UINT64_RANGE == 0 {
        DivUnique(size + 1, UINT64_RANGE, size / UINT64_RANGE, 1);
      }
    }
    assert Prefix(weights, 0) == 0 && Prefix(weights, 1) == weights[0] == Weight(details, size, o) == least % UINT64_RANGE;
  }

  /** Asking for `size` while uploading a file of `fileSize`: every drawn replica has room for the file, for all
      storages and draws, exactly when the file is no larger than the least free space that gets drawn. */
  lemma RoomForFileExactly(size: int, fileSize: int)
    ensures !MayOverflow(size, fileSize) <==> fileSize <= LeastFree(size)
  {
    if fileSize <= LeastFree(size) {
      if MayOverflow(size, fileSize) {
        var details: Details, objs: seq<Object>, draw: uint64, i: nat :|
          i < |objs| && Total(Weights(details, size, objs)) != 0 && DrawnAt(details, size, objs, draw, i)
          && details(objs[i].path).Some? && details(objs[i].path).value < fileSize;
        DrawnHasRoom(details, size, objs, draw, i);
        assert false;
      }
    } else {
      var details, o := TightReplica(size, "/a");
      assert DrawnAt(details, size, [o], 0, 0) && details([o][0].path).value < fileSize;
    }
  }

  lemma DrawnFits(details: Details, size: int, objs: seq<Object>, draw: uint64, o: Object)
    ensures Total(Weights(details, size, objs)) != 0 && Drawn(details, size, objs, draw, o) ==>
      details(o.path).Some? && details(o.path).value >= LeastFree(size)
  {
    hide LeastFree, DrawnAt, Total, Weights;
    if Total(Weights(details, size, objs)) != 0 && Drawn(details, size, objs, draw, o) {
      var i: nat :| i < |objs| && objs[i] == o && DrawnAt(details, size, objs, draw, i);
      DrawnHasRoom(details, size, objs, draw, i);
    }
  }

  /** getPutObjs. The size it compares with the free space is that of the directory entry at the head of the
      list; that of the file being uploaded does not reach it. */
  method GetPutObjs(fs: FileSystem, check: bool, policy: Policy, list: array<Entry>, details: Details, draw: uint64, pick: nat,
                    ghost fileSize: int)
    returns (r: Result<seq<Object>, Error>)
    requires list.Length > 0 && list[0].Plain?
    modifies list
    ensures var before := old(list[..]);
            var size := before[0].obj.stat.size;
            var selected := AliasDriver.Selected(fs, check, before, policy);
            var total := Total(Weights(details, size, if selected.Success? then selected.value else []));
            if policy.Disabled? then r == Failure(PermissionDenied)
            else if selected.Failure? then r == selected
            else if !(policy.RandomBalanced? || policy.Quota? || policy.QuotaStrict?) then r == selected
            else
              match r
              case Success(one) =>
                && |one| == 1 && one[0] in selected.value
                && (policy.RandomBalanced? ==> one[0] == selected.value[pick % |selected.value|])
                && (policy.QuotaStrict? ==> total != 0)
                && (!policy.RandomBalanced? && total != 0 ==>
                      && Drawn(details, size, selected.value, draw, one[0])
                      && details(one[0].path).Some? && details(one[0].path).value >= LeastFree(size)
                      && (fileSize <= LeastFree(size) ==> details(one[0].path).value >= fileSize))
                && (policy.Quota? && total == 0 ==>
                      && Opaque(details, one[0])
                      && var opaques := Opaques(details, selected.value, |selected.value|);
                         opaques != [] && one[0] == opaques[pick % |opaques|])
              case Failure(e) =>
                && e == NoEnoughSpace && total == 0 && !policy.RandomBalanced?
                && (policy.Quota? ==> forall i | 0 <= i < |selected.value| :: !Opaque(details, selected.value[i]))
  {
    if policy.Disabled? {
      return Failure(PermissionDenied);
    }
    var size := list[0].obj.stat.size;
    hide AliasDriver.Selected, LeastFree, Drawn, Total, Weights;
    var objs := AliasDriver.Select(fs, check, list, policy);
    if objs.Failure? {
      return objs;
    }
    match policy {
      case RandomBalanced =>
        var ri := pick % |objs.value|;
        assert objs.value[ri..ri + 1] == [objs.value[ri]];
        return Success(objs.value[ri..ri + 1]);
      case Quota | QuotaStrict =>
        var one := GetRandomObjByQuotaBalanced(details, objs.value, policy.QuotaStrict?, size, draw, pick);
        if one.None? {
          return Failure(NoEnoughSpace);
        }
        DrawnFits(details, size, objs.value, draw, one.value);
        return Success([one.value]);
      case _ =>
        return objs;
    }
  }

  /** A directory entry of size zero and one storage with a single free byte: any file of two bytes or more is
      sent to it, even when quota is enforced strictly. */
  method OneByteIsEnough(fileSize: int) returns (r: Result<seq<Object>, Error>, details: Details)
    requires fileSize > 1
    ensures r.Success? && |r.value| == 1
    ensures details(r.value[0].path) == Some(1)
  {
    details := _ => Some(1);
    var o := Object(0, "/a", Stat(true, 0, map[]));
    var list := new Entry[1](_ => Plain(o));
    var fs: FileSystem := _ => Some(o.stat);
    assert list[..] == [Plain(o)];
    OneByte(fs, details, o);
    r := GetPutObjs(fs, true, QuotaStrict, list, details, 0, 0, fileSize);
  }

  lemma OneByte(fs: FileSystem, details: Details, o: Object)
    requires details(o.path) == Some(1) && o.stat.size == 0
    ensures AliasDriver.Selected(fs, true, [Plain(o)], QuotaStrict) == Success([o])
    ensures Total(Weights(details, 0, [o])) == 1
  {
    var es := [Plain(o)];
    assert Survivors(fs, true, o.stat, es, 0) == [];
    assert Survivors(fs, true, o.stat, es, 1) == [o];
    var weights := Weights(details, 0, [o]);
    assert Prefix(weights, 0) == 0 && Prefix(weights, 1) == weights[0] == Weight(details, 0, o) == 1;
  }
}
