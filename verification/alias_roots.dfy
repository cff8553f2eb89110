/** How the configured paths of an alias become its root directories, and how a request finds its roots. */
module AliasRoots {

  import opened Wrappers
  import opened Strings
  import opened AliasSelection

  // ----- names -----

  function TrimSlashes(s: string): (r: string)
    ensures r == [] || r[|r| - 1] != '/'
  {
    if s == [] || s[|s| - 1] != '/' then s else TrimSlashes(s[..|s| - 1])
  }

  function LastElement(s: string): (r: string)
    ensures '/' !in r
    ensures s != [] && s[|s| - 1] != '/' ==> r != []
  {
    if s == [] || s[|s| - 1] == '/' then [] else LastElement(s[..|s| - 1]) + [s[|s| - 1]]
  }

  /** path.Base. */
  function Base(path: string): (r: string)
    ensures '/' in r <==> r == "/"
  {
    if path == [] then "."
    else if TrimSlashes(path) == [] then "/"
    else LastElement(TrimSlashes(path))
  }

  /** A configured line: a name of its own in front of a colon, or the last element of the path. */
  function GetPair(path: string): (r: (string, string))
    ensures '/' in r.0 <==> r.0 == "/"
  {
    match Cut(path, ':')
    case Some((name, rest)) => if '/' !in name then (name, rest) else (Base(path), path)
    case None => (Base(path), path)
  }

  /** A line with a name in front of its first colon is that name and the rest; a slash in front of the colon, as in a
      path that holds one, makes the whole line the path. */
  lemma NamedLine(front: string, rest: string)
    requires ':' !in front
    ensures GetPair(front + ":" + rest) ==
            if '/' in front then (Base(front + ":" + rest), front + ":" + rest) else (front, rest)
  {
    assert front + ":" + rest == front + [':'] + rest;
    CutFirst(front, rest, ':');
  }

  /** A line without a colon is a path, named after its last element, slashes at the end not counted. */
  lemma PlainLine(dir: string, element: string, slashes: nat)
    requires element != "" && '/' !in element && ':' !in dir && ':' !in element
    ensures var path := dir + "/" + element + seq(slashes, _ => '/'); GetPair(path) == (element, path)
  {
    var path := dir + "/" + element + seq(slashes, _ => '/');
    CutNone(path, ':');
    TrimSlashesOff(dir + "/" + element, slashes);
    LastIs(dir, element);
  }

  lemma {:induction false} TrimSlashesOff(s: string, n: nat)
    requires s != [] && s[|s| - 1] != '/'
    ensures TrimSlashes(s + seq(n, _ => '/')) == s
  {
    var t := s + seq(n, _ => '/');
    if n == 0 {
      assert t == s;
    } else {
      TrimSlashesOff(s, n - 1);
      assert t[..|t| - 1] == s + seq(n - 1, _ => '/');
    }
  }

  lemma {:induction false} LastIs(dir: string, element: string)
    requires '/' !in element
    ensures LastElement(dir + "/" + element) == element
  {
    var s := dir + "/" + element;
    if element == [] {
      assert s == dir + "/";
    } else {
      LastIs(dir, element[..|element| - 1]);
      assert s[..|s| - 1] == dir + "/" + element[..|element| - 1];
      assert element == element[..|element| - 1] + [s[|s| - 1]];
    }
  }

  // ----- what the configuration says -----

  type Root = (string, string)

  function Configured(raws: seq<string>, n: nat): seq<Root>
    requires n <= |raws|
  {
    if n == 0 then []
    else
      var path := TrimSpace(raws[n - 1]);
      Configured(raws, n - 1) + if path == [] then [] else [GetPair(path)]
  }

  /** White space around a line does not matter, and lines of nothing else count for nothing. */
  lemma PaddedLine(raws: seq<string>, front: string, line: string, back: string)
    requires AllSpace(front) && AllSpace(back) && (line != [] ==> !IsSpace(line[0]) && !IsSpace(line[|line| - 1]))
    ensures var raws' := raws + [front + line + back];
            Configured(raws', |raws'|) == Configured(raws, |raws|) + if line == [] then [] else [GetPair(line)]
  {
    hide GetPair, TrimSpace;
    TrimPadded(front, line, back);
    ConfiguredPrefix(raws + [front + line + back], raws, |raws|);
  }

  lemma {:induction false} ConfiguredPrefix(a: seq<string>, b: seq<string>, n: nat)
    requires n <= |a| && n <= |b| && forall i | 0 <= i < n :: a[i] == b[i]
    ensures Configured(a, n) == Configured(b, n)
  {
    hide GetPair, TrimSpace;
    if n > 0 {
      ConfiguredPrefix(a, b, n - 1);
    }
  }

  /** The paths configured under a name, in order. */
  function Named(roots: seq<Root>, n: nat, name: string): seq<string>
    requires n <= |roots|
  {
    if n == 0 then []
    else if roots[n - 1].0 == name then Named(roots, n - 1, name) + [roots[n - 1].1]
    else Named(roots, n - 1, name)
  }

  /** The names, in order of first appearance. */
  function Order(roots: seq<Root>, n: nat): seq<string>
    requires n <= |roots|
  {
    if n == 0 then []
    else
      var front := Order(roots, n - 1);
      if roots[n - 1].0 in front then front else front + [roots[n - 1].0]
  }

  function Paths(roots: seq<Root>, n: nat): seq<string>
    requires n <= |roots|
  {
    if n == 0 then [] else Paths(roots, n - 1) + [roots[n - 1].1]
  }

  /** All paths, root directory after root directory. */
  function Spread(roots: seq<Root>, n: nat, names: seq<string>): seq<string>
    requires n <= |roots|
  {
    if names == [] then []
    else Spread(roots, n, names[..|names| - 1]) + Named(roots, n, names[|names| - 1])
  }

  lemma {:induction false} OrderDistinct(roots: seq<Root>, n: nat)
    requires n <= |roots|
    ensures forall i, j | 0 <= i < j < |Order(roots, n)| :: Order(roots, n)[i] != Order(roots, n)[j]
  {
    if n > 0 {
      OrderDistinct(roots, n - 1);
    }
  }

  lemma {:induction false} OrderNames(roots: seq<Root>, n: nat, name: string)
    requires n <= |roots|
    ensures name in Order(roots, n) <==> Named(roots, n, name) != []
  {
    if n > 0 {
      OrderNames(roots, n - 1, name);
    }
  }

  /** One more line adds its path to the root directory of its name and to no other. */
  lemma {:induction false} SpreadStep(roots: seq<Root>, n: nat, names: seq<string>)
    requires n < |roots| && forall i, j | 0 <= i < j < |names| :: names[i] != names[j]
    ensures multiset(Spread(roots, n + 1, names))
            == multiset(Spread(roots, n, names)) + if roots[n].0 in names then multiset{roots[n].1} else multiset{}
  {
    hide Named;
    if names != [] {
      var front := names[..|names| - 1];
      SpreadStep(roots, n, front);
      NamedNext(roots, n, names[|names| - 1]);
      assert names == front + [names[|names| - 1]];
    }
  }

  lemma NamedNext(roots: seq<Root>, n: nat, name: string)
    requires n < |roots|
    ensures Named(roots, n + 1, name) == Named(roots, n, name) + if roots[n].0 == name then [roots[n].1] else []
  {
  }

  /** Every configured path is under exactly one root directory, as often as it is configured. */
  lemma {:induction false} EveryPathOnce(roots: seq<Root>, n: nat)
    requires n <= |roots|
    ensures multiset(Spread(roots, n, Order(roots, n))) == multiset(Paths(roots, n))
  {
    hide Spread, Named, Order, Paths;
    NextRoot(roots, n);
    if n > 0 {
      var front, name := Order(roots, n - 1), roots[n - 1].0;
      OrderDistinct(roots, n - 1);
      EveryPathOnce(roots, n - 1);
      SpreadStep(roots, n - 1, front);
      if name !in front {
        OrderNames(roots, n - 1, name);
        SpreadNew(roots, n - 1, front);
      }
    }
  }

  lemma NextRoot(roots: seq<Root>, n: nat)
    requires n <= |roots|
    ensures n == 0 ==> Paths(roots, n) == [] && Spread(roots, n, Order(roots, n)) == []
    ensures n > 0 ==>
      && multiset(Paths(roots, n)) == multiset(Paths(roots, n - 1)) + multiset{roots[n - 1].1}
      && var front := Order(roots, n - 1);
         Order(roots, n) == if roots[n - 1].0 in front then front else front + [roots[n - 1].0]
  {
    hide Named;
  }

  lemma SpreadNew(roots: seq<Root>, n: nat, names: seq<string>)
    requires n < |roots| && Named(roots, n, roots[n].0) == []
    ensures multiset(Spread(roots, n + 1, names + [roots[n].0])) == multiset(Spread(roots, n + 1, names)) + multiset{roots[n].1}
  {
    assert (names + [roots[n].0])[..|names|] == names;
    assert Named(roots, n + 1, roots[n].0) == [roots[n].1];
    hide Named;
  }

  // ----- the driver -----

  /** What GetRoot returns: nothing yet, the list of the only root directory, or a directory of root directories. */
  datatype Top = NotInit | Only(list: seq<Entry>) | Virtual

  /** The list of the only root directory. Nothing in it is marked as still to be looked up. */
  function RootList(paths: seq<string>): (es: seq<Entry>)
    ensures |es| == |paths|
  {
    seq(|paths|, i requires 0 <= i < |paths| => Plain(Object(i, paths[i], Stat(i == 0, 0, map[]))))
  }

  /** The groups of the configured roots: each name once, in order of first appearance, with its paths in order. */
  ghost predicate Grouped(order: seq<string>, groups: map<string, seq<string>>, roots: seq<Root>) {
    && order == Order(roots, |roots|)
    && (forall name :: name in groups <==> name in order)
    && forall name | name in groups :: groups[name] == Named(roots, |roots|, name)
  }

  lemma GroupedStep(order: seq<string>, groups: map<string, seq<string>>, roots: seq<Root>, k: string, v: string)
    requires Grouped(order, groups, roots)
    ensures Grouped(if k in groups then order else order + [k],
                    groups[k := (if k in groups then groups[k] else []) + [v]], roots + [(k, v)])
  {
    var n, next := |roots|, roots + [(k, v)];
    SamePrefix(roots, next, n);
    OrderNames(roots, n, k);
    assert next[n] == (k, v) && next[..n] == roots;
    assert Order(next, n + 1) == if k in Order(roots, n) then Order(roots, n) else Order(roots, n) + [k];
    assert forall name :: Named(next, n + 1, name) == Named(roots, n, name) + if name == k then [v] else [];
    hide Order, Named;
  }

  class Alias {
    var rootOrder: seq<string>
    var pathMap: map<string, seq<string>>
    var root: Top

    constructor ()
      ensures root == NotInit && Grouped(rootOrder, pathMap, [])
    {
      rootOrder, pathMap, root := [], map[], NotInit;
    }

    method Init(paths: string) returns (ok: bool)
      modifies this
      ensures var raws := SplitLines(paths);
              var roots := Configured(raws, |raws|);
              && Grouped(rootOrder, pathMap, roots)
              && (ok <==> roots != [])
              && root == match |rootOrder|
                         case 0 => old(root)
                         case 1 => Only(RootList(Named(roots, |roots|, rootOrder[0])))
                         case _ => Virtual
    {
      hide Order, Named, TrimSpace, GetPair;
      var raws := SplitLines(paths);
      ghost var roots: seq<Root> := [];
      rootOrder, pathMap := [], map[];
      NothingConfigured();
      var i := 0;
      while i < |raws|
        invariant i <= |raws| && root == old(root)
        invariant roots == Configured(raws, i) && Grouped(rootOrder, pathMap, roots)
      {
        var path := TrimSpace(raws[i]);
        i := i + 1;
        if path == [] {
          continue;
        }
        var (k, v) := GetPair(path);
        GroupedStep(rootOrder, pathMap, roots, k, v);
        hide Grouped;
        var temp := [];
        if k in pathMap {
          temp := pathMap[k];
        } else {
          rootOrder := rootOrder + [k];
        }
        pathMap := pathMap[k := temp + [v]];
        roots := roots + [(k, v)];
      }
      OrderEmpty(roots);
      if |rootOrder| == 0 {
        return false;
      }
      assert rootOrder[0] in pathMap;
      if |rootOrder| == 1 {
        root := Only(RootList(pathMap[rootOrder[0]]));
      } else {
        root := Virtual;
      }
      return true;
    }

    /** getRootsAndPath. A name that is not configured has no roots. */
    function RootsAndPath(path: string): (seq<string>, string)
      reads this
      requires |rootOrder| == 1 ==> rootOrder[0] in pathMap
    {
      if |rootOrder| == 1 then (pathMap[rootOrder[0]], path)
      else
        var (name, sub) := Asked(path);
        (if name in pathMap then pathMap[name] else [], sub)
    }
  }

  /** With a single root directory every path is looked up, as it is, in all configured paths, in order. */
  lemma OnlyRootServesAll(a: Alias, roots: seq<Root>, path: string)
    requires Grouped(a.rootOrder, a.pathMap, roots) && |a.rootOrder| == 1
    ensures a.rootOrder[0] in a.pathMap && a.RootsAndPath(path) == (Paths(roots, |roots|), path)
  {
    hide Order, Named, Paths;
    OneName(roots, |roots|, a.rootOrder[0]);
  }

  lemma {:induction false} OneName(roots: seq<Root>, n: nat, name: string)
    requires n <= |roots| && forall i | 0 <= i < |Order(roots, n)| :: Order(roots, n)[i] == name
    ensures Named(roots, n, name) == Paths(roots, n)
  {
    if n > 0 {
      var front := Order(roots, n - 1);
      assert roots[n - 1].0 in Order(roots, n);
      assert forall i | 0 <= i < |front| :: front[i] == Order(roots, n)[i];
      OneName(roots, n - 1, name);
    }
  }

  /** The root directory that a path names, and the path below it. */
  function Asked(path: string): (string, string) {
    var rest := if path != [] && path[0] == '/' then path[1..] else path;
    match Cut(rest, '/')
    case None => (rest, [])
    case Some((before, after)) => (before, after)
  }

  lemma OrderEmpty(roots: seq<Root>)
    ensures Order(roots, |roots|) == [] <==> roots == []
  {
    if roots != [] {
      var name := roots[|roots| - 1].0;
      OrderNames(roots, |roots|, name);
    }
  }

  lemma NothingConfigured()
    ensures Grouped([], map[], []) && Order([], 0) == []
  {
  }

  lemma {:induction false} SamePrefix(a: seq<Root>, b: seq<Root>, n: nat)
    requires n <= |a| && a <= b
    ensures Order(a, n) == Order(b, n) && forall name :: Named(a, n, name) == Named(b, n, name)
  {
    if n > 0 {
      SamePrefix(a, b, n - 1);
    }
  }

  // ----- finding the roots of a request -----

  /** What path.Clean leaves of the first `n` elements of a rooted path. */
  function Resolved(parts: seq<string>, n: nat): seq<string>
    requires n <= |parts|
  {
    if n == 0 then []
    else
      var front := Resolved(parts, n - 1);
      if parts[n - 1] == "" || parts[n - 1] == "." then front
      else if parts[n - 1] != ".." then front + [parts[n - 1]]
      else if front == [] then []
      else front[..|front| - 1]
  }

  /** Going up undoes going down, and stays at the top. */
  lemma UpUndoesDown(parts: seq<string>, name: string)
    requires name != "" && name != "." && name != ".."
    ensures Resolved(parts + [name, ".."], |parts| + 2) == Resolved(parts, |parts|)
    ensures Resolved([".."], 1) == []
  {
    hide Resolved;
    var all := parts + [name, ".."];
    ResolvedPrefix(all, parts, |parts|);
    NextElement(all, |parts|);
    NextElement(all, |parts| + 1);
    NextElement([".."], 0);
  }

  lemma NextElement(parts: seq<string>, n: nat)
    requires n < |parts|
    ensures Resolved(parts, 0) == []
    ensures var front := Resolved(parts, n);
            Resolved(parts, n + 1) == if parts[n] == "" || parts[n] == "." then front
                                      else if parts[n] != ".." then front + [parts[n]]
                                      else if front == [] then [] else front[..|front| - 1]
  {
  }

  lemma {:induction false} ResolvedPrefix(a: seq<string>, b: seq<string>, n: nat)
    requires n <= |a| && n <= |b| && forall i | 0 <= i < n :: a[i] == b[i]
    ensures Resolved(a, n) == Resolved(b, n)
  {
    if n > 0 {
      ResolvedPrefix(a, b, n - 1);
    }
  }

  /** utils.FixAndCleanPath, which every path goes through on its way to the driver. */
  function FixAndCleanPath(path: string): string {
    var parts := Split(Replace(path, '\\', '/'), '/');
    ['/'] + Join(Resolved(parts, |parts|), '/')
  }

  /** A name that cleaning leaves alone. */
  predicate CleanName(name: string) {
    name != "" && name != "." && name != ".." && '/' !in name && '\\' !in name
  }

  /** The path of something below a root directory, element by element. */
  function Below(name: string, subs: seq<string>): string {
    Join(["", name] + subs, '/')
  }

  lemma {:induction false} ResolvedClean(parts: seq<string>, n: nat)
    requires n <= |parts| && forall i | 0 <= i < |parts| :: '/' !in parts[i] && '\\' !in parts[i]
    ensures forall i | 0 <= i < |Resolved(parts, n)| :: CleanName(Resolved(parts, n)[i])
  {
    if n > 0 {
      ResolvedClean(parts, n - 1);
    }
  }

  lemma {:induction false} ResolvedKeeps(parts: seq<string>, k: nat, n: nat)
    requires k <= n <= |parts| && forall i | k <= i < n :: CleanName(parts[i])
    ensures Resolved(parts, n) == Resolved(parts, k) + parts[k..n]
  {
    if k < n {
      ResolvedKeeps(parts, k, n - 1);
      assert parts[k..n] == parts[k..n - 1] + [parts[n - 1]];
    }
  }

  lemma {:induction false} NoBackslash(parts: seq<string>)
    requires forall i | 0 <= i < |parts| :: '\\' !in parts[i]
    ensures '\\' !in Join(parts, '/')
  {
    if |parts| > 1 {
      NoBackslash(parts[1..]);
    }
  }

  /** A cleaned path asks for its first element. */
  lemma AskedFirst(elements: seq<string>)
    requires forall i | 0 <= i < |elements| :: CleanName(elements[i])
    ensures Asked(['/'] + Join(elements, '/'))
            == if elements == [] then ([], []) else (elements[0], Join(elements[1..], '/'))
  {
    var path := ['/'] + Join(elements, '/');
    assert path[1..] == Join(elements, '/');
    if |elements| > 1 {
      CutFirst(elements[0], Join(elements[1..], '/'), '/');
    } else if |elements| == 1 {
      CutNone(elements[0], '/');
      assert Join(elements[1..], '/') == [];
    }
  }

  /** Whatever path comes in, the driver is never asked for a name that cleaning changes. */
  lemma AskedClean(path: string)
    ensures var name := Asked(FixAndCleanPath(path)).0; name == "" || CleanName(name)
  {
    var text := Replace(path, '\\', '/');
    var parts := Split(text, '/');
    SplitParts(text, '/');
    ResolvedClean(parts, |parts|);
    AskedFirst(Resolved(parts, |parts|));
  }

  ghost predicate NoSeparators(parts: seq<string>) {
    forall i | 0 <= i < |parts| :: '/' !in parts[i] && '\\' !in parts[i]
  }

  /** Elements without separators are found again in the path they make. */
  lemma PathParts(parts: seq<string>)
    requires parts != [] && NoSeparators(parts)
    ensures Split(Replace(Join(parts, '/'), '\\', '/'), '/') == parts
  {
    hide Join, Split;
    NoBackslash(parts);
    assert Replace(Join(parts, '/'), '\\', '/') == Join(parts, '/');
    SplitJoin(parts, '/');
  }

  /** Cleaning a path drops an empty name and keeps plain elements. */
  lemma CleanedBelow(name: string, subs: seq<string>)
    requires (name == "" || CleanName(name)) && forall i | 0 <= i < |subs| :: CleanName(subs[i])
    ensures FixAndCleanPath(Below(name, subs)) == ['/'] + Join((if name == "" then [] else [name]) + subs, '/')
  {
    hide Join, Split, Replace, Resolved, CleanName, NoSeparators;
    var parts := ["", name] + subs;
    ElementsBelow(name, subs, parts);
    PathParts(parts);
  }

  lemma ElementsBelow(name: string, subs: seq<string>, parts: seq<string>)
    requires (name == "" || CleanName(name)) && forall i | 0 <= i < |subs| :: CleanName(subs[i])
    requires parts == ["", name] + subs
    ensures NoSeparators(parts) && Resolved(parts, |parts|) == (if name == "" then [] else [name]) + subs
  {
    hide Resolved;
    FirstElements(parts);
    ResolvedKeeps(parts, 2, |parts|);
    AfterTwo("", name, subs);
  }

  lemma AfterTwo<T>(a: T, b: T, rest: seq<T>)
    ensures ([a, b] + rest)[2..|rest| + 2] == rest
  {
  }

  lemma FirstElements(parts: seq<string>)
    requires |parts| >= 2 && parts[0] == "" && (parts[1] == "" || CleanName(parts[1]))
    ensures Resolved(parts, 2) == if parts[1] == "" then [] else [parts[1]]
  {
    assert Resolved(parts, 0) == [] && Resolved(parts, 1) == [];
  }

  /** With several root directories, every path below one of them is looked up under its name, with the right
      remainder, exactly when cleaning leaves the name alone. */
  lemma ReachableExactly(name: string)
    ensures (forall subs: seq<string> | (forall i | 0 <= i < |subs| :: CleanName(subs[i])) ::
               Asked(FixAndCleanPath(Below(name, subs))) == (name, Join(subs, '/')))
            <==> CleanName(name)
  {
    if CleanName(name) {
      forall subs: seq<string> | forall i | 0 <= i < |subs| :: CleanName(subs[i])
        ensures Asked(FixAndCleanPath(Below(name, subs))) == (name, Join(subs, '/'))
      {
        CleanedBelow(name, subs);
        AskedFirst([name] + subs);
        assert ([name] + subs)[1..] == subs;
      }
    } else {
      NameLost(name);
    }
  }

  /** A name that cleaning changes is not what a request for something below it asks for. */
  lemma NameLost(name: string)
    requires !CleanName(name)
    ensures Asked(FixAndCleanPath(Below(name, ["f"]))).0 != name
  {
    if name == "" {
      CleanedBelow("", ["f"]);
      assert [] + ["f"] == ["f"];
      AskedFirst(["f"]);
    } else {
      AskedClean(Below(name, ["f"]));
    }
  }

  /** For a driver with several root directories: reachable names get their configured paths, in order. */
  lemma RootsBelow(a: Alias, roots: seq<Root>, name: string, subs: seq<string>)
    requires Grouped(a.rootOrder, a.pathMap, roots) && |a.rootOrder| > 1 && name in a.rootOrder
    requires CleanName(name) && forall i | 0 <= i < |subs| :: CleanName(subs[i])
    ensures a.RootsAndPath(FixAndCleanPath(Below(name, subs))) == (Named(roots, |roots|, name), Join(subs, '/'))
  {
    ReachableExactly(name);
    hide Order, Named, CleanName, FixAndCleanPath, Asked, Below;
  }

  /** A line that begins with a colon is listed under the empty name and looked up under its children's. */
  lemma ColonNameIsLost()
    ensures GetPair(":/y") == ("", "/y")
    ensures Asked(FixAndCleanPath(Below("", ["f"]))) == ("f", "")
  {
    assert ":/y" == [] + [':'] + "/y";
    CutFirst([], "/y", ':');
    CleanedBelow("", ["f"]);
    assert [] + ["f"] == ["f"];
    AskedFirst(["f"]);
  }

  ghost predicate Elements(roots: seq<Root>) {
    forall i | 0 <= i < |roots| :: '/' in roots[i].0 <==> roots[i].0 == "/"
  }

  lemma {:induction false} NamesAreElements(raws: seq<string>, n: nat)
    requires n <= |raws|
    ensures Elements(Configured(raws, n))
  {
    hide TrimSpace, GetPair;
    if n > 0 {
      NamesAreElements(raws, n - 1);
    }
  }

  lemma {:induction false} SlashIn(roots: seq<Root>, n: nat, name: string)
    requires n <= |roots| && Elements(roots) && name in Order(roots, n)
    ensures '/' in name <==> name == "/"
  {
    if name !in Order(roots, n - 1) {
      assert name == roots[n - 1].0;
    } else {
      SlashIn(roots, n - 1, name);
    }
  }

  /** Which configured names are lost: a slash only comes from the path "/" itself. */
  lemma LostNames(raws: seq<string>, name: string)
    requires name in Order(Configured(raws, |raws|), |Configured(raws, |raws|)|)
    ensures !CleanName(name) <==> name == "" || name == "/" || name == "." || name == ".." || '\\' in name
  {
    var roots := Configured(raws, |raws|);
    NamesAreElements(raws, |raws|);
    SlashIn(roots, |roots|, name);
    hide Configured, Order, Elements;
  }

  // ----- the root directory itself -----

  /** On the only root directory itself no configured path is looked up: whatever the file system answers, the
      selection treats every one of them as usable. */
  lemma {:induction false} RootIsUnchecked(fs: FileSystem, check: bool, paths: seq<string>, n: nat)
    requires paths != [] && n <= |paths|
    ensures var es := RootList(paths);
            Plains(Survivors(fs, check, es[0].obj.stat, es, n)) == es[..n]
  {
    var es := RootList(paths);
    if n > 0 {
      RootIsUnchecked(fs, check, paths, n - 1);
      assert es[..n] == es[..n - 1] + [es[n - 1]];
    }
  }

  lemma RootListDistinct(paths: seq<string>)
    ensures DistinctEntries(RootList(paths))
  {
  }
}
