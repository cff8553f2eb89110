/** Deleting a directory of an Azure container: files first, then directory markers from the deepest up. */
module FolderDeletion {

  const MAX_BATCH: nat := 128

  /** A listed blob, and whether its metadata or its content type mark it as a directory. */
  datatype Blob = Blob(name: string, marked: bool)

  datatype Reply = Done | NotFound | Failed

  // ----- names -----

  predicate EndsInSlash(name: string) {
    name != [] && name[|name| - 1] == '/'
  }

  /** isDirectory. */
  predicate IsDirectory(blob: Blob) {
    EndsInSlash(blob.name) || blob.marked
  }

  function TrimSlash(name: string): string {
    if EndsInSlash(name) then name[..|name| - 1] else name
  }

  function EnsureSlash(path: string): (r: string)
    ensures EndsInSlash(r) && TrimSlash(r) + "/" == r
  {
    if EndsInSlash(path) then path else path + "/"
  }

  /** The number of slashes. */
  function Depth(name: string): nat {
    if name == [] then 0 else (if name[0] == '/' then 1 else 0) + Depth(name[1..])
  }

  /** `inner` lies somewhere below directory `outer`. */
  predicate Below(inner: string, outer: string) {
    outer + "/" <= inner
  }

  lemma {:induction false} DepthConcat(a: string, b: string)
    ensures Depth(a + b) == Depth(a) + Depth(b)
  {
    if a == [] {
      assert a + b == b;
    } else {
      DepthConcat(a[1..], b);
      assert (a + b)[1..] == a[1..] + b;
    }
  }

  lemma BelowIsDeeper(inner: string, outer: string)
    requires Below(inner, outer)
    ensures Depth(inner) > Depth(outer)
  {
    var rest := inner[|outer| + 1..];
    assert inner == outer + ("/" + rest);
    DepthConcat(outer, "/" + rest);
  }

  // ----- the plan -----

  function Files(blobs: seq<Blob>, n: nat): seq<string>
    requires n <= |blobs|
  {
    if n == 0 then []
    else if IsDirectory(blobs[n - 1]) then Files(blobs, n - 1)
    else Files(blobs, n - 1) + [blobs[n - 1].name]
  }

  function Dirs(blobs: seq<Blob>, n: nat): seq<string>
    requires n <= |blobs|
  {
    if n == 0 then []
    else if IsDirectory(blobs[n - 1]) then Dirs(blobs, n - 1) + [TrimSlash(blobs[n - 1].name)]
    else Dirs(blobs, n - 1)
  }

  /** The names of depth `d`, in listing order. */
  function AtDepth(dirs: seq<string>, n: nat, d: nat): seq<string>
    requires n <= |dirs|
  {
    if n == 0 then []
    else if Depth(dirs[n - 1]) == d then AtDepth(dirs, n - 1, d) + [dirs[n - 1]]
    else AtDepth(dirs, n - 1, d)
  }

  /** The names of depth below `bound`, the deepest first. */
  function DeepestFirst(dirs: seq<string>, bound: nat): seq<string> {
    if bound == 0 then [] else AtDepth(dirs, |dirs|, bound - 1) + DeepestFirst(dirs, bound - 1)
  }

  function MaxDepth(dirs: seq<string>, n: nat): (bound: nat)
    requires n <= |dirs|
    ensures forall i | 0 <= i < n :: Depth(dirs[i]) < bound
  {
    if n == 0 then 0
    else if Depth(dirs[n - 1]) < MaxDepth(dirs, n - 1) then MaxDepth(dirs, n - 1)
    else Depth(dirs[n - 1]) + 1
  }

  function Plan(blobs: seq<Blob>): seq<string> {
    var dirs := Dirs(blobs, |blobs|);
    Files(blobs, |blobs|) + DeepestFirst(dirs, MaxDepth(dirs, |dirs|))
  }

  // ----- what the plan guarantees -----

  /** How many of the first `n` names are less deep than `bound`. */
  function Shallow(dirs: seq<string>, n: nat, bound: nat): multiset<string>
    requires n <= |dirs|
  {
    if n == 0 then multiset{}
    else if Depth(dirs[n - 1]) < bound then Shallow(dirs, n - 1, bound) + multiset{dirs[n - 1]}
    else Shallow(dirs, n - 1, bound)
  }

  lemma {:induction false} ShallowStep(dirs: seq<string>, n: nat, bound: nat)
    requires n <= |dirs|
    ensures Shallow(dirs, n, bound + 1) == multiset(AtDepth(dirs, n, bound)) + Shallow(dirs, n, bound)
  {
    if n > 0 {
      ShallowStep(dirs, n - 1, bound);
    }
  }

  lemma {:induction false} ShallowNone(dirs: seq<string>, n: nat)
    requires n <= |dirs|
    ensures Shallow(dirs, n, 0) == multiset{}
  {
    if n > 0 {
      ShallowNone(dirs, n - 1);
    }
  }

  lemma {:induction false} ShallowAll(dirs: seq<string>, n: nat, bound: nat)
    requires n <= |dirs| && forall i | 0 <= i < n :: Depth(dirs[i]) < bound
    ensures Shallow(dirs, n, bound) == multiset(dirs[..n])
  {
    hide Depth;
    if n > 0 {
      ShallowAll(dirs, n - 1, bound);
      assert dirs[..n] == dirs[..n - 1] + [dirs[n - 1]];
    }
  }

  lemma DeepestFirstUnfold(dirs: seq<string>, bound: nat)
    ensures DeepestFirst(dirs, 0) == []
    ensures bound > 0 ==> DeepestFirst(dirs, bound) == AtDepth(dirs, |dirs|, bound - 1) + DeepestFirst(dirs, bound - 1)
  {
  }

  lemma {:induction false} DeepestFirstHasAll(dirs: seq<string>, bound: nat)
    ensures multiset(DeepestFirst(dirs, bound)) == Shallow(dirs, |dirs|, bound)
  {
    hide AtDepth, Shallow, DeepestFirst;
    DeepestFirstUnfold(dirs, bound);
    if bound == 0 {
      ShallowNone(dirs, |dirs|);
    } else {
      DeepestFirstHasAll(dirs, bound - 1);
      ShallowStep(dirs, |dirs|, bound - 1);
    }
  }

  lemma {:induction false} AtDepthDepth(dirs: seq<string>, n: nat, d: nat)
    requires n <= |dirs|
    ensures forall i | 0 <= i < |AtDepth(dirs, n, d)| :: Depth(AtDepth(dirs, n, d)[i]) == d
  {
    if n > 0 {
      AtDepthDepth(dirs, n - 1, d);
    }
  }

  /** The names are less deep than `bound` and never get deeper. */
  ghost predicate Descending(s: seq<string>, bound: nat) {
    && (forall i | 0 <= i < |s| :: Depth(s[i]) < bound)
    && forall i, j | 0 <= i < j < |s| :: Depth(s[i]) >= Depth(s[j])
  }

  lemma DescendingConcat(a: seq<string>, b: seq<string>, d: nat)
    requires (forall i | 0 <= i < |a| :: Depth(a[i]) == d) && Descending(b, d)
    ensures Descending(a + b, d + 1)
  {
    hide Depth;
  }

  lemma {:induction false} DeepestFirstSorted(dirs: seq<string>, bound: nat)
    ensures Descending(DeepestFirst(dirs, bound), bound)
  {
    if bound > 0 {
      AtDepthDepth(dirs, |dirs|, bound - 1);
      DeepestFirstSorted(dirs, bound - 1);
      DescendingConcat(AtDepth(dirs, |dirs|, bound - 1), DeepestFirst(dirs, bound - 1), bound - 1);
    }
  }

  /** All files first; then every directory marker once, each after everything below it. */
  lemma PlanIsSafe(blobs: seq<Blob>)
    ensures var files, dirs, plan := Files(blobs, |blobs|), Dirs(blobs, |blobs|), Plan(blobs);
            && files <= plan
            && multiset(plan) == multiset(files) + multiset(dirs)
            && forall i, j | |files| <= i < |plan| && |files| <= j < |plan| && Below(plan[i], plan[j]) :: i < j
  {
    var files, dirs := Files(blobs, |blobs|), Dirs(blobs, |blobs|);
    var bound := MaxDepth(dirs, |dirs|);
    var deep := DeepestFirst(dirs, bound);
    DeepHasAll(dirs);
    DeepestFirstSorted(dirs, bound);
    forall i, j | |files| <= i < |Plan(blobs)| && |files| <= j < |Plan(blobs)| && Below(Plan(blobs)[i], Plan(blobs)[j])
      ensures i < j
    {
      BelowIsDeeper(Plan(blobs)[i], Plan(blobs)[j]);
      assert Plan(blobs)[i] == deep[i - |files|] && Plan(blobs)[j] == deep[j - |files|];
    }
  }

  /** A blob that is marked or whose name ends in a slash is submitted, without the slash, after everything that lies
      below it. */
  lemma DirectoryAfterContent(blobs: seq<Blob>, k: nat) returns (j: nat)
    requires k < |blobs| && (blobs[k].marked || EndsInSlash(blobs[k].name))
    ensures j < |Plan(blobs)| && Plan(blobs)[j] == TrimSlash(blobs[k].name)
    ensures forall i | 0 <= i < |Plan(blobs)| && Below(Plan(blobs)[i], Plan(blobs)[j]) :: i < j
  {
    var files, dirs := Files(blobs, |blobs|), Dirs(blobs, |blobs|);
    var deep := DeepestFirst(dirs, MaxDepth(dirs, |dirs|));
    assert Plan(blobs) == files + deep;
    DirListed(blobs, |blobs|, k);
    PlanIsSafe(blobs);
    DeepHasAll(dirs);
    hide Files, Dirs, Plan, DeepestFirst, TrimSlash, Below;
    assert TrimSlash(blobs[k].name) in multiset(deep);
    var i :| 0 <= i < |deep| && deep[i] == TrimSlash(blobs[k].name);
    j := |files| + i;
  }

  lemma DeepHasAll(dirs: seq<string>)
    ensures multiset(DeepestFirst(dirs, MaxDepth(dirs, |dirs|))) == multiset(dirs)
  {
    DeepestFirstHasAll(dirs, MaxDepth(dirs, |dirs|));
    ShallowAll(dirs, |dirs|, MaxDepth(dirs, |dirs|));
    assert dirs[..|dirs|] == dirs;
  }

  lemma {:induction false} DirListed(blobs: seq<Blob>, n: nat, k: nat)
    requires k < n <= |blobs| && (blobs[k].marked || EndsInSlash(blobs[k].name))
    ensures TrimSlash(blobs[k].name) in Dirs(blobs, n)
  {
    hide TrimSlash, EndsInSlash;
    if k < n - 1 {
      DirListed(blobs, n - 1, k);
    }
  }

  /** A blob that is neither is submitted under its name, and so are all the names submitted before it. */
  lemma FileAmongFiles(blobs: seq<Blob>, k: nat) returns (j: nat)
    requires k < |blobs| && !blobs[k].marked && !EndsInSlash(blobs[k].name)
    ensures j < |Plan(blobs)| && Plan(blobs)[j] == blobs[k].name
    ensures forall i | 0 <= i <= j ::
              Unmarked(blobs, |blobs|, Plan(blobs)[i])
  {
    var files := Files(blobs, |blobs|);
    j := FileListed(blobs, |blobs|, k);
    FilesUnmarked(blobs, |blobs|);
    assert files <= Plan(blobs);
    hide Plan, Files, EndsInSlash;
  }

  lemma {:induction false} FileListed(blobs: seq<Blob>, n: nat, k: nat) returns (j: nat)
    requires k < n <= |blobs| && !blobs[k].marked && !EndsInSlash(blobs[k].name)
    ensures j < |Files(blobs, n)| && Files(blobs, n)[j] == blobs[k].name
  {
    hide EndsInSlash;
    if k < n - 1 {
      j := FileListed(blobs, n - 1, k);
    } else {
      j := |Files(blobs, n - 1)|;
    }
  }

  /** One of the first `n` blobs has this name, no mark and no slash at the end. */
  predicate Unmarked(blobs: seq<Blob>, n: nat, name: string)
    requires n <= |blobs|
  {
    !EndsInSlash(name) && exists h | 0 <= h < n :: blobs[h] == Blob(name, false)
  }

  lemma {:induction false} FilesUnmarked(blobs: seq<Blob>, n: nat)
    requires n <= |blobs|
    ensures forall i | 0 <= i < |Files(blobs, n)| :: Unmarked(blobs, n, Files(blobs, n)[i])
  {
    hide EndsInSlash;
    if n > 0 {
      FilesUnmarked(blobs, n - 1);
      forall i | 0 <= i < |Files(blobs, n)| ensures Unmarked(blobs, n, Files(blobs, n)[i]) {
        if i < |Files(blobs, n - 1)| {
          assert Unmarked(blobs, n - 1, Files(blobs, n - 1)[i]);
        } else {
          assert blobs[n - 1] == Blob(Files(blobs, n)[i], false);
        }
      }
    }
  }

  // ----- which listed blobs the plan names -----

  function Names(blobs: seq<Blob>, n: nat): seq<string>
    requires n <= |blobs|
  {
    if n == 0 then [] else Names(blobs, n - 1) + [blobs[n - 1].name]
  }

  /** The name a blob is submitted under. */
  function RequestFor(blob: Blob): string {
    if IsDirectory(blob) then TrimSlash(blob.name) else blob.name
  }

  function Requests(blobs: seq<Blob>, n: nat): seq<string>
    requires n <= |blobs|
  {
    if n == 0 then [] else Requests(blobs, n - 1) + [RequestFor(blobs[n - 1])]
  }

  lemma RequestIs(blob: Blob, s: string)
    ensures RequestFor(blob) == s <==> blob.name == s + "/" || (blob.name == s && !EndsInSlash(s))
    ensures blob.name != s || blob.name != s + "/"
  {
    if RequestFor(blob) == s && EndsInSlash(blob.name) {
      assert blob.name == s + "/";
    }
    assert |s + "/"| == |s| + 1;
  }

  lemma {:induction false} RequestsAreAll(blobs: seq<Blob>, n: nat)
    requires n <= |blobs|
    ensures multiset(Files(blobs, n)) + multiset(Dirs(blobs, n)) == multiset(Requests(blobs, n))
  {
    hide IsDirectory, TrimSlash;
    if n > 0 {
      RequestsAreAll(blobs, n - 1);
    }
  }

  lemma CountOne<T>(a: seq<T>, x: T, y: T)
    ensures multiset(a + [x])[y] == multiset(a)[y] + if x == y then 1 else 0
  {
  }

  lemma NextRequest(blobs: seq<Blob>, n: nat)
    requires n <= |blobs|
    ensures n == 0 ==> Requests(blobs, n) == Names(blobs, n) == []
    ensures n > 0 ==> Requests(blobs, n) == Requests(blobs, n - 1) + [RequestFor(blobs[n - 1])]
    ensures n > 0 ==> Names(blobs, n) == Names(blobs, n - 1) + [blobs[n - 1].name]
  {
    hide RequestFor;
  }

  lemma {:induction false} RequestedCount(blobs: seq<Blob>, n: nat, s: string, slashed: string)
    requires n <= |blobs| && slashed == s + "/"
    ensures multiset(Requests(blobs, n))[s]
            == multiset(Names(blobs, n))[slashed] + if EndsInSlash(s) then 0 else multiset(Names(blobs, n))[s]
  {
    hide EndsInSlash, RequestFor, Requests, Names;
    NextRequest(blobs, n);
    if n > 0 {
      RequestedCount(blobs, n - 1, s, slashed);
      RequestIs(blobs[n - 1], s);
      CountOne(Requests(blobs, n - 1), RequestFor(blobs[n - 1]), s);
      CountOne(Names(blobs, n - 1), blobs[n - 1].name, s);
      CountOne(Names(blobs, n - 1), blobs[n - 1].name, slashed);
    }
  }

  /** How often the plan names `s`: once for every listed `s/`, and once for every listed `s` unless it ends in a
      slash itself. */
  lemma SubmittedCount(blobs: seq<Blob>, s: string)
    ensures multiset(Plan(blobs))[s]
            == multiset(Names(blobs, |blobs|))[s + "/"] + if EndsInSlash(s) then 0 else multiset(Names(blobs, |blobs|))[s]
  {
    hide EndsInSlash, Plan, Files, Dirs, Requests, Names;
    PlanIsSafe(blobs);
    RequestsAreAll(blobs, |blobs|);
    RequestedCount(blobs, |blobs|, s, s + "/");
  }

  /** The longest of the names that end in a slash. */
  lemma {:induction false} LongestMarker(names: seq<string>, n: nat) returns (k: nat)
    requires n <= |names| && exists i | 0 <= i < n :: EndsInSlash(names[i])
    ensures k < n && EndsInSlash(names[k])
    ensures forall i | 0 <= i < n && EndsInSlash(names[i]) :: |names[i]| <= |names[k]|
  {
    hide EndsInSlash;
    if forall i | 0 <= i < n - 1 :: !EndsInSlash(names[i]) {
      k := n - 1;
    } else {
      k := LongestMarker(names, n - 1);
      if EndsInSlash(names[n - 1]) && |names[n - 1]| > |names[k]| {
        k := n - 1;
      }
    }
  }

  /** Of the names that end in a slash, the longest is never submitted. */
  lemma SomeMarkerStays(blobs: seq<Blob>) returns (name: string)
    requires exists s | s in Names(blobs, |blobs|) :: EndsInSlash(s)
    ensures name in Names(blobs, |blobs|) && EndsInSlash(name) && name !in Plan(blobs)
  {
    hide Plan;
    var names := Names(blobs, |blobs|);
    var s :| s in names && EndsInSlash(s);
    var i :| 0 <= i < |names| && names[i] == s;
    var k := LongestMarker(names, |names|);
    name := names[k];
    assert EndsInSlash(name + "/") && |name + "/"| > |name|;
    assert name + "/" !in names;
    SubmittedCount(blobs, name);
  }

  /** Every listed blob is submitted exactly once, exactly when no listed name ends in a slash. */
  lemma ListingExactly(blobs: seq<Blob>)
    ensures multiset(Plan(blobs)) == multiset(Names(blobs, |blobs|))
            <==> forall s | s in Names(blobs, |blobs|) :: !EndsInSlash(s)
    ensures (forall s | s in Names(blobs, |blobs|) :: s in Plan(blobs))
            <==> forall s | s in Names(blobs, |blobs|) :: !EndsInSlash(s)
  {
    hide Plan, Names;
    var names := Names(blobs, |blobs|);
    if forall s | s in names :: !EndsInSlash(s) {
      forall s: string ensures multiset(Plan(blobs))[s] == multiset(names)[s] {
        SubmittedCount(blobs, s);
        assert EndsInSlash(s + "/");
      }
      assert multiset(Plan(blobs)) == multiset(names);
      forall s | s in names ensures s in Plan(blobs) {
        assert s in multiset(names);
      }
    } else {
      var name := SomeMarkerStays(blobs);
      assert name in multiset(names) && name !in multiset(Plan(blobs));
    }
  }

  /** A directory with one directory in it, both with the markers mkDir makes. */
  function TwoMarkers(): seq<Blob> {
    [Blob("p/", true), Blob("p/a/", true)]
  }

  lemma TwoNames()
    ensures Names(TwoMarkers(), 2) == ["p/", "p/a/"]
  {
    assert Names(TwoMarkers(), 0) == [] && Names(TwoMarkers(), 1) == ["p/"];
  }

  /** Neither marker is submitted. */
  lemma NestedMarkers()
    ensures "p/" !in Plan(TwoMarkers()) && "p/a/" !in Plan(TwoMarkers())
  {
    hide Plan, Names;
    TwoNames();
    SubmittedCount(TwoMarkers(), "p/");
    SubmittedCount(TwoMarkers(), "p/a/");
    assert |"p//"| == 3 && |"p/a//"| == 5;
    assert "p/" + "/" == "p//" && "p/a/" + "/" == "p/a//";
    assert "p//" !in ["p/", "p/a/"] && "p/a//" !in ["p/", "p/a/"];
  }

  /** A file beside the marker of a directory of its name is submitted twice. */
  lemma FileTwice(blobs: seq<Blob>, s: string)
    requires s in Names(blobs, |blobs|) && s + "/" in Names(blobs, |blobs|) && !EndsInSlash(s)
    ensures multiset(Plan(blobs))[s] >= 2
  {
    hide Plan;
    SubmittedCount(blobs, s);
    assert s in multiset(Names(blobs, |blobs|)) && s + "/" in multiset(Names(blobs, |blobs|));
  }

  // ----- the requests -----

  function Flatten(batches: seq<seq<string>>, n: nat): seq<string>
    requires n <= |batches|
  {
    if n == 0 then [] else Flatten(batches, n - 1) + batches[n - 1]
  }

  function All(names: seq<string>): (r: set<string>)
    ensures forall s :: s in r <==> s in names
  {
    set s | s in names
  }

  lemma AllConcat(a: seq<string>, b: seq<string>)
    ensures All(a + b) == All(a) + All(b)
  {
  }

  lemma {:induction false} FlattenPrefix(a: seq<seq<string>>, b: seq<seq<string>>, n: nat)
    requires n <= |a| && a <= b
    ensures Flatten(a, n) == Flatten(b, n)
  {
    if n > 0 {
      FlattenPrefix(a, b, n - 1);
    }
  }

  lemma FlattenAppend(batches: seq<seq<string>>, batch: seq<string>)
    ensures Flatten(batches + [batch], |batches| + 1) == Flatten(batches, |batches|) + batch
  {
    FlattenPrefix(batches, batches + [batch], |batches|);
  }

  // ----- batches -----

  function Min(a: nat, b: nat): nat {
    if a <= b then a else b
  }

  /** The batches that a list of names is cut into. */
  function Chunks(paths: seq<string>): (r: seq<seq<string>>)
    ensures forall i | 0 <= i < |r| :: 0 < |r[i]| <= MAX_BATCH
  {
    if paths == [] then []
    else [paths[..Min(MAX_BATCH, |paths|)]] + Chunks(paths[Min(MAX_BATCH, |paths|)..])
  }

  /** The batches of the directories of depth below `bound`, each depth on its own. */
  function DirBatches(dirs: seq<string>, bound: nat): seq<seq<string>> {
    if bound == 0 then [] else Chunks(AtDepth(dirs, |dirs|, bound - 1)) + DirBatches(dirs, bound - 1)
  }

  function FolderBatches(blobs: seq<Blob>): seq<seq<string>> {
    var dirs := Dirs(blobs, |blobs|);
    Chunks(Files(blobs, |blobs|)) + DirBatches(dirs, MaxDepth(dirs, |dirs|))
  }

  // ----- the service -----

  /** Which requests fail, by number, and what is deleted all the same. A batch fails when the request does or when
      any reply in it is an error other than not-found. */
  datatype Faults = Faults(batch: nat -> bool, batchDeletes: nat -> set<string>, single: nat -> bool, singleDeletes: nat -> bool)

  /** How many of `n` requests, the first of which is number `from`, precede the first that fails. */
  function FirstFault(fails: nat -> bool, from: nat, n: nat): (k: nat)
    ensures k <= n && (k < n ==> fails(from + k))
    ensures forall i | from <= i < from + k :: !fails(i)
    decreases n
  {
    if n == 0 || fails(from) then 0 else 1 + FirstFault(fails, from + 1, n - 1)
  }

  /** The batches of `plan` are requested in order up to the first failure, which decides the outcome. */
  ghost predicate Issued(fails: nat -> bool, before: seq<seq<string>>, plan: seq<seq<string>>, after: seq<seq<string>>, ok: bool) {
    var k := FirstFault(fails, |before|, |plan|);
    && (ok <==> k == |plan|)
    && after == before + plan[..if ok then k else k + 1]
  }

  lemma {:induction false} FaultIs(fails: nat -> bool, from: nat, n: nat, k: nat)
    requires k <= n && (k < n ==> fails(from + k)) && forall i | from <= i < from + k :: !fails(i)
    ensures FirstFault(fails, from, n) == k
    decreases n
  {
    if k > 0 {
      FaultIs(fails, from + 1, n - 1, k - 1);
    }
  }

  lemma NothingIssued(fails: nat -> bool, before: seq<seq<string>>)
    ensures Issued(fails, before, [], before, true)
  {
  }

  lemma IssuedThen(fails: nat -> bool, before: seq<seq<string>>, a: seq<seq<string>>, mid: seq<seq<string>>,
                   b: seq<seq<string>>, after: seq<seq<string>>, ok: bool)
    requires Issued(fails, before, a, mid, true) && Issued(fails, mid, b, after, ok)
    ensures Issued(fails, before, a + b, after, ok)
  {
    var k := FirstFault(fails, |mid|, |b|);
    assert mid == before + a;
    FaultIs(fails, |before|, |a + b|, |a| + k);
    assert (a + b)[..|a| + if ok then k else k + 1] == a + b[..if ok then k else k + 1];
  }

  lemma IssuedStops(fails: nat -> bool, before: seq<seq<string>>, a: seq<seq<string>>, mid: seq<seq<string>>, b: seq<seq<string>>)
    requires Issued(fails, before, a, mid, false)
    ensures Issued(fails, before, a + b, mid, false)
  {
    var k := FirstFault(fails, |before|, |a|);
    FaultIs(fails, |before|, |a + b|, k);
    assert (a + b)[..k + 1] == a[..k + 1];
  }

  function Flat(batches: seq<seq<string>>): seq<string> {
    Flatten(batches, |batches|)
  }

  lemma {:induction false} FlatConcat(a: seq<seq<string>>, b: seq<seq<string>>)
    ensures Flat(a + b) == Flat(a) + Flat(b)
  {
    hide Flatten;
    if b == [] {
      assert a + b == a;
      NothingFlat();
    } else {
      var front, last := b[..|b| - 1], b[|b| - 1];
      assert b == front + [last] && a + b == (a + front) + [last];
      FlatConcat(a, front);
      FlattenAppend(front, last);
      FlattenAppend(a + front, last);
    }
  }

  lemma NothingFlat()
    ensures Flat([]) == []
  {
  }

  /** The batches hold the names, in order. */
  lemma {:induction false} ChunksFlat(paths: seq<string>)
    ensures Flat(Chunks(paths)) == paths
  {
    hide Flat;
    if paths == [] {
      NothingFlat();
    } else {
      var n := Min(MAX_BATCH, |paths|);
      ChunksFlat(paths[n..]);
      FlatConcat([paths[..n]], Chunks(paths[n..]));
      FlatOne(paths[..n]);
      assert paths == paths[..n] + paths[n..];
    }
  }

  lemma FlatOne(batch: seq<string>)
    ensures Flat([batch]) == batch
  {
    assert Flatten([batch], 0) == [];
  }

  lemma {:induction false} DirBatchesFlat(dirs: seq<string>, bound: nat)
    ensures Flat(DirBatches(dirs, bound)) == DeepestFirst(dirs, bound)
  {
    hide Flat, Chunks, AtDepth;
    if bound == 0 {
      NothingFlat();
    } else {
      DirBatchesFlat(dirs, bound - 1);
      ChunksFlat(AtDepth(dirs, |dirs|, bound - 1));
      FlatConcat(Chunks(AtDepth(dirs, |dirs|, bound - 1)), DirBatches(dirs, bound - 1));
    }
  }

  lemma FolderBatchesFlat(blobs: seq<Blob>)
    ensures Flat(FolderBatches(blobs)) == Plan(blobs)
  {
    hide Flat, Chunks, DirBatches, DeepestFirst;
    var dirs := Dirs(blobs, |blobs|);
    ChunksFlat(Files(blobs, |blobs|));
    DirBatchesFlat(dirs, MaxDepth(dirs, |dirs|));
    FlatConcat(Chunks(Files(blobs, |blobs|)), DirBatches(dirs, MaxDepth(dirs, |dirs|)));
  }

  /** What is submitted while a plan is issued. */
  lemma IssuedFlat(fails: nat -> bool, before: seq<seq<string>>, plan: seq<seq<string>>, after: seq<seq<string>>, ok: bool)
    requires Issued(fails, before, plan, after, ok)
    ensures Flat(before) <= Flat(after) <= Flat(before) + Flat(plan)
    ensures ok ==> Flat(after) == Flat(before) + Flat(plan)
  {
    hide Flat;
    var k := FirstFault(fails, |before|, |plan|);
    var n := if ok then k else k + 1;
    assert plan == plan[..n] + plan[n..];
    FlatConcat(plan[..n], plan[n..]);
    FlatConcat(before, plan[..n]);
    if ok {
      assert plan[..n] == plan;
    }
  }

  ghost predicate Small(batches: seq<seq<string>>) {
    forall i | 0 <= i < |batches| :: 0 < |batches[i]| <= MAX_BATCH
  }

  lemma Regroup<T>(a: seq<T>, b: seq<T>, c: seq<T>)
    ensures a + (b + c) == (a + b) + c
  {
  }

  /** The container keeps what was asked of it and the names of its blobs. */
  class Container {
    const faults: Faults
    var batches: seq<seq<string>>
    var singles: seq<string>
    var stored: set<string>

    constructor (stored: set<string>, faults: Faults)
      ensures batches == [] && singles == [] && this.stored == stored && this.faults == faults
    {
      batches, singles, this.stored, this.faults := [], [], stored, faults;
    }

    ghost function Submitted(): seq<string>
      reads this`batches
    {
      Flat(batches)
    }

    ghost predicate SmallBatches()
      reads this`batches
    {
      Small(batches)
    }

    method SubmitBatch(batch: seq<string>) returns (ok: bool)
      requires SmallBatches() && 0 < |batch| <= MAX_BATCH
      modifies this`batches, this`stored
      ensures SmallBatches() && Submitted() == old(Submitted()) + batch
      ensures Issued(faults.batch, old(batches), [batch], batches, ok)
      ensures old(stored) - All(batch) <= stored <= old(stored)
      ensures ok ==> stored == old(stored) - All(batch)
    {
      FlattenAppend(batches, batch);
      var number := |batches|;
      FaultIs(faults.batch, number, 1, if faults.batch(number) then 0 else 1);
      batches := batches + [batch];
      ok := !faults.batch(number);
      stored := stored - if ok then All(batch) else All(batch) * faults.batchDeletes(number);
    }

    method Delete(path: string) returns (reply: Reply)
      modifies this`singles, this`stored
      ensures singles == old(singles) + [path]
      ensures old(stored) - {path} <= stored <= old(stored)
      ensures reply.Failed? <==> faults.single(|old(singles)|)
      ensures reply.Done? ==> path in old(stored) && path !in stored
      ensures reply.NotFound? ==> path !in old(stored)
    {
      var number := |singles|;
      singles := singles + [path];
      if faults.single(number) {
        reply := Failed;
        stored := if faults.singleDeletes(number) then stored - {path} else stored;
      } else if path in stored {
        reply := Done;
        stored := stored - {path};
      } else {
        reply := NotFound;
      }
    }

    method BatchDeleteBlobs(paths: seq<string>) returns (ok: bool)
      requires SmallBatches()
      modifies this`batches, this`stored
      ensures SmallBatches() && old(Submitted()) <= Submitted() <= old(Submitted()) + paths
      ensures Issued(faults.batch, old(batches), Chunks(paths), batches, ok)
      ensures old(stored) - All(paths) <= stored <= old(stored)
      ensures ok ==> Submitted() == old(Submitted()) + paths && stored == old(stored) - All(paths)
    {
      hide Small, Issued, Chunks, Flat, All;
      ghost var before, first := stored, batches;
      ghost var done: seq<seq<string>> := [];
      NothingIssued(faults.batch, batches);
      ChunksFlat(paths);
      ChunksSmall(paths);
      var i := 0;
      assert paths[..0] == [] && paths[0..] == paths;
      NoneAll();
      while i < |paths|
        invariant i <= |paths| && SmallBatches()
        invariant Chunks(paths) == done + Chunks(paths[i..])
        invariant Issued(faults.batch, first, done, batches, true)
        invariant stored == before - All(paths[..i]) && All(paths[..i]) <= All(paths)
      {
        var end := Min(i + MAX_BATCH, |paths|);
        ghost var mid, batch, rest := batches, paths[i..end], Chunks(paths[end..]);
        NextChunk(paths, i, end);
        assert paths[..end] == paths[..i] + paths[i..end] && paths == paths[..end] + paths[end..];
        AllConcat(paths[..i], paths[i..end]);
        AllConcat(paths[..end], paths[end..]);
        Regroup(done, [batch], rest);
        var sent := SubmitBatch(paths[i..end]);
        IssuedThen(faults.batch, first, done, mid, [batch], batches, sent);
        done := done + [batch];
        i := end;
        if !sent {
          IssuedStops(faults.batch, first, done, batches, rest);
          IssuedFlat(faults.batch, first, Chunks(paths), batches, false);
          return false;
        }
      }
      assert paths[..i] == paths;
      NoChunks(paths[i..]);
      assert done + [] == done;
      IssuedFlat(faults.batch, first, Chunks(paths), batches, true);
      return true;
    }
  }

  lemma NoneAll()
    ensures All([]) == {}
  {
  }

  lemma ChunksSmall(paths: seq<string>)
    ensures Small(Chunks(paths))
  {
  }

  lemma NextChunk(paths: seq<string>, i: nat, end: nat)
    requires i < |paths| && end == Min(i + MAX_BATCH, |paths|)
    ensures Chunks(paths[i..]) == [paths[i..end]] + Chunks(paths[end..])
  {
    var rest := paths[i..];
    assert rest[..end - i] == paths[i..end] && rest[end - i..] == paths[end..];
  }

  lemma NoChunks(paths: seq<string>)
    ensures Chunks(paths) == [] <==> paths == []
  {
  }

  /** The groups of the depth map. */
  ghost predicate Grouped(dirs: seq<string>, n: nat, groups: map<nat, seq<string>>)
    requires n <= |dirs|
  {
    forall d: nat :: AtDepth(dirs, n, d) == if d in groups then groups[d] else []
  }

  method GroupByDepth(dirs: seq<string>) returns (groups: map<nat, seq<string>>)
    ensures Grouped(dirs, |dirs|, groups) && forall d | d in groups :: d < MaxDepth(dirs, |dirs|)
  {
    groups := map[];
    var i := 0;
    while i < |dirs|
      invariant i <= |dirs| && Grouped(dirs, i, groups)
      invariant forall d | d in groups :: d < MaxDepth(dirs, i)
    {
      var depth := Depth(dirs[i]);
      groups := groups[depth := (if depth in groups then groups[depth] else []) + [dirs[i]]];
      i := i + 1;
    }
  }

  /** The keys from the largest down, as the sorted slice gives them. */
  method SortedDown(keys: set<nat>) returns (r: seq<nat>)
    ensures forall k :: k in r <==> k in keys
    ensures forall i, j | 0 <= i < j < |r| :: r[i] > r[j]
  {
    r := [];
    var rest := keys;
    while rest != {}
      invariant rest <= keys && forall k :: k in keys <==> k in rest || k in r
      invariant forall i, j | 0 <= i < j < |r| :: r[i] > r[j]
      invariant forall i, k | 0 <= i < |r| && k in rest :: r[i] > k
      decreases rest
    {
      LargestExists(rest);
      var k :| k in rest && forall j | j in rest :: j <= k;
      r := r + [k];
      rest := rest - {k};
    }
  }

  lemma {:induction false} LargestExists(s: set<nat>)
    requires s != {}
    ensures exists k :: k in s && forall j | j in s :: j <= k
    decreases s
  {
    var k :| k in s;
    var rest := s - {k};
    if rest == {} {
      assert s == {k};
    } else {
      LargestExists(rest);
      var m :| m in rest && forall j | j in rest :: j <= m;
      var top := if m <= k then k else m;
      forall j | j in s ensures j <= top {
        assert j == k || j in rest;
      }
    }
  }

  /** Depths without names add nothing to the plan. */
  lemma {:induction false} SkipEmpty(dirs: seq<string>, from: nat, to: nat)
    requires to <= from && forall d: nat | to <= d < from :: AtDepth(dirs, |dirs|, d) == []
    ensures DeepestFirst(dirs, from) == DeepestFirst(dirs, to) && DirBatches(dirs, from) == DirBatches(dirs, to)
  {
    hide AtDepth;
    if to < from {
      SkipEmpty(dirs, from - 1, to);
      assert AtDepth(dirs, |dirs|, from - 1) == [];
    }
  }

  lemma GroupAt(dirs: seq<string>, groups: map<nat, seq<string>>, d: nat)
    requires Grouped(dirs, |dirs|, groups)
    ensures AtDepth(dirs, |dirs|, d) == if d in groups then groups[d] else []
  {
  }

  /** The depths between two groups hold nothing. */
  lemma BetweenGroups(dirs: seq<string>, groups: map<nat, seq<string>>, from: nat, to: nat)
    requires Grouped(dirs, |dirs|, groups) && to <= from && forall e | e in groups :: e < to || e >= from
    ensures DeepestFirst(dirs, from) == DeepestFirst(dirs, to) && DirBatches(dirs, from) == DirBatches(dirs, to)
  {
    hide AtDepth, DeepestFirst, DirBatches;
    forall e: nat | to <= e < from ensures AtDepth(dirs, |dirs|, e) == [] {
      GroupAt(dirs, groups, e);
    }
    SkipEmpty(dirs, from, to);
  }

  /** The next group to delete, and what comes after it. */
  lemma NextGroup(dirs: seq<string>, groups: map<nat, seq<string>>, from: nat, d: nat)
    requires Grouped(dirs, |dirs|, groups) && d < from && d in groups
    requires forall e | e in groups :: e <= d || e >= from
    ensures DeepestFirst(dirs, from) == groups[d] + DeepestFirst(dirs, d)
    ensures DirBatches(dirs, from) == Chunks(groups[d]) + DirBatches(dirs, d)
  {
    hide AtDepth, Grouped, DeepestFirst, DirBatches, Chunks;
    GroupAt(dirs, groups, d);
    DeepestStep(dirs, d);
    assert forall e | e in groups :: e < d + 1 || e >= from;
    BetweenGroups(dirs, groups, from, d + 1);
  }

  lemma DeepestStep(dirs: seq<string>, d: nat)
    ensures DeepestFirst(dirs, d + 1) == AtDepth(dirs, |dirs|, d) + DeepestFirst(dirs, d)
    ensures DirBatches(dirs, d + 1) == Chunks(AtDepth(dirs, |dirs|, d)) + DirBatches(dirs, d)
  {
    hide AtDepth, Chunks;
  }

  lemma NoMoreGroups(dirs: seq<string>, groups: map<nat, seq<string>>, from: nat)
    requires Grouped(dirs, |dirs|, groups) && forall e | e in groups :: e >= from
    ensures DeepestFirst(dirs, from) == [] && DirBatches(dirs, from) == []
  {
    hide AtDepth, Grouped;
    BetweenGroups(dirs, groups, from, 0);
  }

  /** The directory part of deleteFolder. */
  method DeleteDirs(c: Container, dirs: seq<string>) returns (ok: bool)
    requires c.SmallBatches()
    modifies c`batches, c`stored
    ensures var plan := DeepestFirst(dirs, MaxDepth(dirs, |dirs|));
            && c.SmallBatches()
            && old(c.Submitted()) <= c.Submitted() <= old(c.Submitted()) + plan
            && old(c.stored) - All(plan) <= c.stored <= old(c.stored)
            && (ok ==> c.Submitted() == old(c.Submitted()) + plan && c.stored == old(c.stored) - All(plan))
    ensures Issued(c.faults.batch, old(c.batches), DirBatches(dirs, MaxDepth(dirs, |dirs|)), c.batches, ok)
  {
    hide Grouped, AtDepth, DeepestFirst, DirBatches, Chunks, Issued, Flat, All, Small;
    var groups := GroupByDepth(dirs);
    var depths := SortedDown(groups.Keys);
    ghost var bound := MaxDepth(dirs, |dirs|);
    ghost var before, plan, next := c.stored, DeepestFirst(dirs, bound), bound;
    ghost var first, batchPlan := c.batches, DirBatches(dirs, bound);
    ghost var done: seq<string>, doneBatches: seq<seq<string>> := [], [];
    NothingIssued(c.faults.batch, first);
    DirBatchesFlat(dirs, bound);
    NoneAll();
    var i := 0;
    while i < |depths|
      invariant i <= |depths| && c.SmallBatches()
      invariant next == if i == 0 then bound else depths[i - 1]
      invariant plan == done + DeepestFirst(dirs, next) && c.stored == before - All(done) && All(done) <= All(plan)
      invariant batchPlan == doneBatches + DirBatches(dirs, next) && Issued(c.faults.batch, first, doneBatches, c.batches, true)
    {
      var depth := depths[i];
      assert depth in depths;
      forall e | e in groups ensures e <= depth || e >= next {
        assert e in depths;
      }
      NextGroup(dirs, groups, next, depth);
      var batch := groups[depth];
      ghost var rest, mid, chunks, restBatches := DeepestFirst(dirs, depth), c.batches, Chunks(batch), DirBatches(dirs, depth);
      var sent := c.BatchDeleteBlobs(batch);
      AllConcat(done, batch);
      Regroup(done, batch, rest);
      AllConcat(done + batch, rest);
      Regroup(doneBatches, chunks, restBatches);
      IssuedThen(c.faults.batch, first, doneBatches, mid, chunks, c.batches, sent);
      if !sent {
        IssuedStops(c.faults.batch, first, doneBatches + chunks, c.batches, restBatches);
        IssuedFlat(c.faults.batch, first, batchPlan, c.batches, false);
        return false;
      }
      done, doneBatches, next := done + batch, doneBatches + chunks, depth;
      i := i + 1;
    }
    forall e | e in groups ensures e >= next {
      assert e in depths;
    }
    NoMoreGroups(dirs, groups, next);
    assert doneBatches + [] == doneBatches && done + [] == done;
    IssuedFlat(c.faults.batch, first, batchPlan, c.batches, true);
    return true;
  }

  /** What is left of the stored blobs when all of `plan` and then the directory's own marker have been asked for. */
  ghost function Left(stored: set<string>, own: string, plan: seq<string>): set<string> {
    var rest := stored - All(plan);
    if TrimSlash(own) in rest then rest - {TrimSlash(own)} else rest - {own}
  }

  /** deleteFolder on a listing. A success has submitted the whole plan and tried the directory itself last. */
  method DeleteFolder(c: Container, prefix: string, blobs: seq<Blob>) returns (ok: bool)
    requires c.SmallBatches()
    modifies c
    ensures c.SmallBatches()
    ensures old(c.Submitted()) <= c.Submitted() <= old(c.Submitted()) + Plan(blobs)
    ensures old(c.stored) - All(Plan(blobs)) - {TrimSlash(EnsureSlash(prefix)), EnsureSlash(prefix)} <= c.stored <= old(c.stored)
    ensures ok ==>
      && c.Submitted() == old(c.Submitted()) + Plan(blobs)
      && c.stored == Left(old(c.stored), EnsureSlash(prefix), Plan(blobs))
    ensures var own, n := EnsureSlash(prefix), |old(c.singles)|;
            var sent := FirstFault(c.faults.batch, |old(c.batches)|, |FolderBatches(blobs)|) == |FolderBatches(blobs)|;
            var twice := !c.faults.single(n) && TrimSlash(own) !in old(c.stored) - All(Plan(blobs));
            && Issued(c.faults.batch, old(c.batches), FolderBatches(blobs), c.batches, sent)
            && (ok <==> sent && !c.faults.single(n) && (twice ==> !c.faults.single(n + 1)))
            && c.singles == old(c.singles) + if !sent then [] else if twice then [TrimSlash(own), own] else [TrimSlash(own)]
  {
    hide FirstFault, Issued, Chunks, DirBatches, DeepestFirst, Flat, All, EnsureSlash, TrimSlash, IsDirectory, Small;
    var own := EnsureSlash(prefix);
    FolderBatchesFlat(blobs);
    var filePaths, dirPaths: seq<string> := [], [];
    var i := 0;
    while i < |blobs|
      invariant i <= |blobs| && filePaths == Files(blobs, i) && dirPaths == Dirs(blobs, i)
    {
      if IsDirectory(blobs[i]) {
        dirPaths := dirPaths + [TrimSlash(blobs[i].name)];
      } else {
        filePaths := filePaths + [blobs[i].name];
      }
      i := i + 1;
    }
    ghost var plan, dirPlan := Plan(blobs), DeepestFirst(dirPaths, MaxDepth(dirPaths, |dirPaths|));
    ghost var first, fileBatches, dirBatches := c.batches, Chunks(filePaths), DirBatches(dirPaths, MaxDepth(dirPaths, |dirPaths|));
    assert plan == filePaths + dirPlan && FolderBatches(blobs) == fileBatches + dirBatches;
    AllConcat(filePaths, dirPlan);
    ok := c.BatchDeleteBlobs(filePaths);
    if !ok {
      IssuedStops(c.faults.batch, first, fileBatches, c.batches, dirBatches);
      IssuedDecides(c.faults.batch, first, FolderBatches(blobs), c.batches, false);
      IssuedFlat(c.faults.batch, first, FolderBatches(blobs), c.batches, false);
      return;
    }
    ghost var mid := c.batches;
    ok := DeleteDirs(c, dirPaths);
    IssuedThen(c.faults.batch, first, fileBatches, mid, dirBatches, c.batches, ok);
    IssuedDecides(c.faults.batch, first, FolderBatches(blobs), c.batches, ok);
    IssuedFlat(c.faults.batch, first, FolderBatches(blobs), c.batches, ok);
    if !ok {
      return;
    }
    var reply := c.Delete(TrimSlash(own));
    if reply.NotFound? {
      reply := c.Delete(own);
    }
    ok := !reply.Failed?;
  }

  lemma IssuedDecides(fails: nat -> bool, before: seq<seq<string>>, plan: seq<seq<string>>, after: seq<seq<string>>, ok: bool)
    requires Issued(fails, before, plan, after, ok)
    ensures ok <==> FirstFault(fails, |before|, |plan|) == |plan|
  {
  }

  /** What a successful deleteFolder leaves in the container, when it has listed the whole directory: below the
      directory, exactly the markers that end in a slash and have no further slash after them; elsewhere everything
      but a blob with the directory's own name. */
  lemma LeftExactly(stored: set<string>, prefix: string, blobs: seq<Blob>)
    requires forall s :: s in Names(blobs, |blobs|) <==> s in stored && EnsureSlash(prefix) <= s
    ensures var own := EnsureSlash(prefix);
            var left := Left(stored, own, Plan(blobs));
            && (forall s | own <= s ::
                  s in left <==> s in stored && s != own && EndsInSlash(s) && s + "/" !in stored)
            && (forall s | !(own <= s) :: s in left <==> s in stored && s != TrimSlash(own))
  {
    hide Plan, Names, EnsureSlash;
    var own, names := EnsureSlash(prefix), Names(blobs, |blobs|);
    var left, t := Left(stored, own, Plan(blobs)), TrimSlash(own);
    forall s: string ensures s in Plan(blobs) <==> s + "/" in names || (!EndsInSlash(s) && s in names) {
      SubmittedCount(blobs, s);
      assert s in Plan(blobs) <==> s in multiset(Plan(blobs));
      assert s in names <==> s in multiset(names);
      assert s + "/" in names <==> s + "/" in multiset(names);
    }
    assert t + "/" == own;
    forall s: string | !(own <= s) && s in Plan(blobs) ensures s == t {
      assert own <= s + "/";
      assert |own| == |s + "/"|;
      assert own == s + "/";
    }
    assert own in stored ==> t in Plan(blobs);
    forall s: string | own <= s ensures s in left <==> s in stored && s != own && EndsInSlash(s) && s + "/" !in stored {
      assert own <= s + "/";
    }
  }

  /** A nested marker with no further slash after it, if there is any nested marker. */
  lemma LastNested(stored: set<string>, own: string, names: seq<string>) returns (name: string)
    requires forall s :: s in names <==> s in stored && own <= s
    requires exists s :: s in stored && own <= s && s != own && EndsInSlash(s)
    ensures name in stored && own <= name && name != own && EndsInSlash(name) && name + "/" !in stored
  {
    var s :| s in stored && own <= s && s != own && EndsInSlash(s);
    assert |s| > |own|;
    var i :| 0 <= i < |names| && names[i] == s;
    var k := LongestMarker(names, |names|);
    name := names[k];
    assert name in names;
    Longer(own, name);
    assert name + "/" !in names;
  }

  lemma Longer(own: string, name: string)
    requires own <= name
    ensures EndsInSlash(name + "/") && |name + "/"| == |name| + 1 && own <= name + "/"
  {
  }

  /** A successful deleteFolder empties the directory exactly when it holds no nested marker that ends in a slash. */
  lemma FolderGoneExactly(stored: set<string>, prefix: string, blobs: seq<Blob>)
    requires forall s :: s in Names(blobs, |blobs|) <==> s in stored && EnsureSlash(prefix) <= s
    ensures var own := EnsureSlash(prefix);
            (forall s | s in Left(stored, own, Plan(blobs)) :: !(own <= s))
            <==> forall s | s in stored && own <= s && s != own :: !EndsInSlash(s)
  {
    hide Plan, EnsureSlash, Left, EndsInSlash, Names;
    LeftExactly(stored, prefix, blobs);
    var own := EnsureSlash(prefix);
    if s :| s in stored && own <= s && s != own && EndsInSlash(s) {
      var name := LastNested(stored, own, Names(blobs, |blobs|));
      assert name in Left(stored, own, Plan(blobs));
    }
  }

  lemma NoFaults(fails: nat -> bool, from: nat, n: nat)
    requires forall i :: !fails(i)
    ensures FirstFault(fails, from, n) == n
  {
    FaultIs(fails, from, n, n);
  }

  /** On a service without failures, deleting that directory succeeds, and the inner marker is still there. */
  method NestedMarkerStays() returns (ok: bool, left: set<string>)
    ensures ok && left == {"p/a/"}
  {
    hide Plan, Names, Left, FirstFault, FolderBatches;
    TwoNames();
    var c := new Container({"p/", "p/a/"}, Faults(_ => false, _ => {}, _ => false, _ => false));
    assert EnsureSlash("p") == "p/" && "p/" <= "p/a/" && "p/a/" + "/" != "p/a/" && |"p/a/" + "/"| == 5;
    LeftExactly(c.stored, "p", TwoMarkers());
    ghost var after := Left(c.stored, "p/", Plan(TwoMarkers()));
    assert forall s: string :: s in after <==> s == "p/a/";
    NoFaults(c.faults.batch, 0, |FolderBatches(TwoMarkers())|);
    ok := DeleteFolder(c, "p", TwoMarkers());
    left := c.stored;
  }
}
