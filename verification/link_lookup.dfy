/** Finding nodes by path in the built tree, and the sizes of its folders. */
module LinkLookup {

  import opened Arithmetic
  import opened Wrappers
  import opened LinkTree
  import opened Strings
  import opened LinkForest

  // ----- lookup -----

  function NameOf(t: Tree): string {
    match t
    case Leaf(_, info) => info.name
    case Dir(_, name, _) => name
  }

  function ChildrenOf(t: Tree): seq<Tree> {
    if t.Dir? then t.children else []
  }

  /** The path is spelled, name by name, going down from `t` to the children with these numbers. */
  ghost predicate Spells(t: Tree, chain: seq<nat>, paths: seq<string>)
    decreases |paths|
  {
    && |paths| == |chain| + 1 && NameOf(t) == paths[0]
    && (chain != [] ==>
          chain[0] < |ChildrenOf(t)| && Spells(ChildrenOf(t)[chain[0]], chain[1..], paths[1..]))
  }

  /** `r` is the node reached from `node` by going down to these children. */
  ghost predicate Leads(node: Node, t: Tree, chain: seq<nat>, r: Node, universe: set<Node>)
    requires Shows(node, t, universe)
    reads universe`level, universe`name, universe`file, universe`children
    decreases |chain|
  {
    if chain == [] then r == node
    else
      && chain[0] < |ChildrenOf(t)|
      && Leads(node.children[chain[0]], ChildrenOf(t)[chain[0]], chain[1..], r, universe)
  }

  /** Lexicographic order, which is line order. */
  ghost predicate NotAfter(a: seq<nat>, b: seq<nat>)
    decreases |a|
  {
    a == [] || (b != [] && (a[0] < b[0] || (a[0] == b[0] && NotAfter(a[1..], b[1..]))))
  }

  /** getByPath: the first of the places a path leads to, a file or a folder, siblings of the same name included. It
      backtracks out of siblings that only share a name. */
  method GetByPath(node: Node, paths: seq<string>, ghost t: Tree, ghost universe: set<Node>)
    returns (r: Node?, ghost chain: seq<nat>)
    requires Shows(node, t, universe)
    ensures r == null ==> forall c :: !Spells(t, c, paths)
    ensures r != null ==>
      && Spells(t, chain, paths) && Leads(node, t, chain, r, universe)
      && forall c | Spells(t, c, paths) :: NotAfter(chain, c)
    decreases |paths|
  {
    chain := [];
    if |paths| == 0 {
      return null, chain;
    }
    if node.name != paths[0] {
      return null, chain;
    }
    if |paths| == 1 {
      return node, chain;
    }
    ghost var ts := ChildrenOf(t);
    var i := 0;
    while i < |node.children|
      invariant i <= |node.children| == |ts|
      invariant forall j, c | 0 <= j < i :: !Spells(ts[j], c, paths[1..])
    {
      var tmp, below := GetByPath(node.children[i], paths[1..], ts[i], universe);
      if tmp != null {
        chain := [i] + below;
        return tmp, chain;
      }
      i := i + 1;
    }
    return null, chain;
  }

  // ----- sizes -----

  /** 64-bit two's complement. */
  function Wrap(x: int): int {
    (x + 0x8000_0000_0000_0000) % 0x1_0000_0000_0000_0000 - 0x8000_0000_0000_0000
  }

  lemma WrapSum(a: int, b: int)
    ensures Wrap(Wrap(a) + Wrap(b)) == Wrap(a + b) == Wrap(Wrap(a) + b)
  {
    var i := WrapTurns(a);
    var j := WrapTurns(b);
    hide Wrap;
    TurnsVanish(a + b, i);
    TurnsVanish(a + b, i + j);
  }

  const TURN: int := 0x1_0000_0000_0000_0000

  lemma WrapTurns(x: int) returns (k: int)
    ensures Wrap(x) == x - TURN * k
  {
    k := (x + TURN / 2) / TURN;
  }

  lemma TurnsVanish(x: int, k: int)
    ensures Wrap(x - TURN * k) == Wrap(x)
  {
    var q, r := (x + TURN / 2) / TURN, (x + TURN / 2) % TURN;
    DivUnique(x - TURN * k + TURN / 2, TURN, q - k, r);
  }

  /** The sizes of all files of a tree, added up. */
  function Total(t: Tree): int
    decreases t, 0
  {
    match t
    case Leaf(_, info) => info.size
    case Dir(_, _, children) => TotalOf(children, |children|)
  }

  function TotalOf(ts: seq<Tree>, n: nat): int
    requires n <= |ts|
    decreases ts, n
  {
    if n == 0 then 0 else TotalOf(ts, n - 1) + Total(ts[n - 1])
  }

  /** The sizes of all file lines of a range, added up. */
  function SizeOfLines(lines: seq<Line>, lo: nat, hi: nat): int
    requires lo <= hi <= |lines|
    decreases hi - lo
  {
    if lo == hi then 0
    else (if lines[lo].FileLine? then lines[lo].info.size else 0) + SizeOfLines(lines, lo + 1, hi)
  }

  lemma {:induction false} SizeOfRange(lines: seq<Line>, lo: nat, mid: nat, hi: nat)
    requires lo <= mid <= hi <= |lines|
    ensures SizeOfLines(lines, lo, hi) == SizeOfLines(lines, lo, mid) + SizeOfLines(lines, mid, hi)
    decreases mid - lo
  {
    if lo < mid {
      SizeOfRange(lines, lo + 1, mid, hi);
    }
  }

  lemma {:induction false} TotalOfRest(t: Tree, ts: seq<Tree>, n: nat)
    requires n <= |ts|
    ensures TotalOf([t] + ts, n + 1) == Total(t) + TotalOf(ts, n)
    decreases n
  {
    if n > 0 {
      TotalOfRest(t, ts, n - 1);
    } else {
      assert TotalOf([t] + ts, 0) == 0;
    }
  }

  /** No line is counted twice or left out: the total of the forest is that of its lines. */
  lemma {:induction false} TotalOfForest(lines: seq<Line>, lo: nat, hi: nat)
    requires lo <= hi <= |lines|
    ensures var ts := Forest(lines, lo, hi); TotalOf(ts, |ts|) == SizeOfLines(lines, lo, hi)
    decreases hi - lo
  {
    if lo < hi {
      var e := After(lines, lo, hi);
      TotalOfForest(lines, e, hi);
      if lines[lo].FolderLine? {
        TotalOfForest(lines, lo + 1, e);
      }
      SizeOfRange(lines, lo, e, hi);
      var ts, rest := Forest(lines, lo, hi), Forest(lines, e, hi);
      assert ts == [ts[0]] + rest;
      TotalOfRest(ts[0], rest, |rest|);
    }
  }

  /** A node shows one tree at most. */
  lemma {:induction false} OneTree(node: Node, a: Tree, b: Tree, universe: set<Node>)
    requires Shows(node, a, universe) && Shows(node, b, universe)
    ensures a == b
    decreases a
  {
    if a.Dir? {
      forall i | 0 <= i < |a.children| ensures a.children[i] == b.children[i] {
        OneTree(node.children[i], a.children[i], b.children[i], universe);
      }
      assert a.children == b.children;
    }
  }

  // The predicates below speak of sizes as a map, so that they depend on the shape of the tree only.

  ghost function Sizes(universe: set<Node>): (r: map<Node, int>)
    reads universe`size
    ensures r.Keys == universe
  {
    map n | n in universe :: n.size
  }

  /** The total of the files below the node, in 64 bits. */
  ghost predicate RightSize(size: int, node: Node, universe: set<Node>)
    reads universe`level, universe`name, universe`file, universe`children
  {
    forall t: Tree | Shows(node, t, universe) :: size == Wrap(Total(t))
  }

  /** Every file has the size its line gives, which fits 64 bits. */
  ghost predicate FilesKept(sizes: map<Node, int>, universe: set<Node>)
    requires sizes.Keys == universe
    reads universe`file
  {
    forall n | n in universe && n.file.Some? :: sizes[n] == n.file.value.size == Wrap(n.file.value.size)
  }

  /** Only folders have changed size, and to the right one. */
  ghost predicate OnlyRightSizes(before: map<Node, int>, sizes: map<Node, int>, universe: set<Node>)
    requires before.Keys == sizes.Keys == universe
    reads universe`level, universe`name, universe`file, universe`children
  {
    forall n | n in universe :: sizes[n] == before[n] || (n.file == None && RightSize(sizes[n], n, universe))
  }

  /** Every node of the tree has the right size. */
  ghost predicate Sized(sizes: map<Node, int>, node: Node, t: Tree, universe: set<Node>)
    requires Shows(node, t, universe) && sizes.Keys == universe
    reads universe`level, universe`name, universe`file, universe`children
    decreases t
  {
    && sizes[node] == Wrap(Total(t))
    && (t.Dir? ==> forall i | 0 <= i < |t.children| :: Sized(sizes, node.children[i], t.children[i], universe))
  }

  ghost predicate AllSized(sizes: map<Node, int>, nodes: seq<Node>, ts: seq<Tree>, n: nat, universe: set<Node>)
    requires ShowAll(nodes, ts, universe) && n <= |ts| && sizes.Keys == universe
    reads universe`level, universe`name, universe`file, universe`children
  {
    forall i | 0 <= i < n :: Sized(sizes, nodes[i], ts[i], universe)
  }

  lemma RightsAdd(a: map<Node, int>, b: map<Node, int>, c: map<Node, int>, universe: set<Node>)
    requires a.Keys == b.Keys == c.Keys == universe
    requires OnlyRightSizes(a, b, universe) && OnlyRightSizes(b, c, universe)
    ensures OnlyRightSizes(a, c, universe)
    ensures FilesKept(a, universe) ==> FilesKept(c, universe)
  {
    hide RightSize, Wrap;
  }

  lemma {:induction false} SizedStays(a: map<Node, int>, b: map<Node, int>, node: Node, t: Tree, universe: set<Node>)
    requires a.Keys == b.Keys == universe && OnlyRightSizes(a, b, universe)
    requires Shows(node, t, universe) && Sized(a, node, t, universe)
    ensures Sized(b, node, t, universe)
    decreases t
  {
    hide Wrap;
    if t.Dir? {
      forall i | 0 <= i < |t.children| ensures Sized(b, node.children[i], t.children[i], universe) {
        SizedStays(a, b, node.children[i], t.children[i], universe);
      }
    }
  }

  lemma AllSizedStay(a: map<Node, int>, b: map<Node, int>, nodes: seq<Node>, ts: seq<Tree>, n: nat, universe: set<Node>)
    requires a.Keys == b.Keys == universe && OnlyRightSizes(a, b, universe)
    requires ShowAll(nodes, ts, universe) && n <= |ts| && AllSized(a, nodes, ts, n, universe)
    ensures AllSized(b, nodes, ts, n, universe)
  {
    hide Sized, OnlyRightSizes, Shows;
    forall i | 0 <= i < n ensures Sized(b, nodes[i], ts[i], universe) {
      SizedStays(a, b, nodes[i], ts[i], universe);
    }
  }

  /** A file is sized as it is; a folder is, once its children are and it has their sum. */
  lemma NodeSized(before: map<Node, int>, sizes: map<Node, int>, node: Node, t: Tree, universe: set<Node>)
    requires before.Keys == sizes.Keys == universe && Shows(node, t, universe) && FilesKept(sizes, universe)
    requires t.Leaf? ==> sizes == before
    requires t.Dir? ==> sizes == before[node := Wrap(Total(t))] && AllSized(before, node.children, t.children, |t.children|, universe)
    ensures OnlyRightSizes(before, sizes, universe) && Sized(sizes, node, t, universe)
  {
    assert RightSize(Wrap(Total(t)), node, universe) by {
      forall u: Tree | Shows(node, u, universe) ensures u == t {
        OneTree(node, u, t, universe);
      }
    }
    assert OnlyRightSizes(before, sizes, universe);
    hide RightSize, Wrap, OnlyRightSizes;
    if t.Dir? {
      AllSizedStay(before, sizes, node.children, t.children, |t.children|, universe);
    }
  }

  lemma OneMoreSized(sizes: map<Node, int>, nodes: seq<Node>, ts: seq<Tree>, i: nat, universe: set<Node>)
    requires sizes.Keys == universe && ShowAll(nodes, ts, universe) && i < |ts|
    requires AllSized(sizes, nodes, ts, i, universe) && Sized(sizes, nodes[i], ts[i], universe)
    ensures AllSized(sizes, nodes, ts, i + 1, universe)
    ensures Wrap(Wrap(TotalOf(ts, i)) + Wrap(Total(ts[i]))) == Wrap(TotalOf(ts, i + 1))
  {
    hide Sized, Shows;
    WrapSum(TotalOf(ts, i), Total(ts[i]));
  }

  lemma Children(node: Node, t: Tree, universe: set<Node>)
    requires Shows(node, t, universe)
    ensures node in universe && (node.file.Some? <==> t.Leaf?)
    ensures t.Dir? ==> ShowAll(node.children, t.children, universe) && Total(t) == TotalOf(t.children, |t.children|)
    ensures t.Leaf? ==> node.file.value.size == Total(t)
  {
  }

  /** calSize: every folder below gets the size of the files below it, and nothing else changes. */
  method CalSize(node: Node, ghost t: Tree, ghost universe: set<Node>) returns (size: int)
    requires Shows(node, t, universe) && FilesKept(Sizes(universe), universe)
    modifies universe`size
    ensures Sized(Sizes(universe), node, t, universe) && OnlyRightSizes(old(Sizes(universe)), Sizes(universe), universe)
    ensures size == Wrap(Total(t)) && FilesKept(Sizes(universe), universe)
    decreases t
  {
    hide Shows, Sized, AllSized, OnlyRightSizes, RightSize, FilesKept, Wrap, Total, TotalOf, ShowAll;
    ghost var start := Sizes(universe);
    Children(node, t, universe);
    if node.file.Some? {
      NodeSized(start, start, node, t, universe);
      FileSize(start, node, universe);
      return node.size;
    }
    size := 0;
    var i := 0;
    NoneSized(start, node.children, t.children, universe);
    while i < |node.children|
      invariant i <= |node.children| == |t.children| && size == Wrap(TotalOf(t.children, i))
      invariant FilesKept(Sizes(universe), universe) && OnlyRightSizes(start, Sizes(universe), universe)
      invariant AllSized(Sizes(universe), node.children, t.children, i, universe)
    {
      ghost var before := Sizes(universe);
      OneOfAll(node.children, t.children, i, universe);
      var part := CalSize(node.children[i], t.children[i], universe);
      AllSizedStay(before, Sizes(universe), node.children, t.children, i, universe);
      RightsAdd(start, before, Sizes(universe), universe);
      OneMoreSized(Sizes(universe), node.children, t.children, i, universe);
      size := Wrap(size + part);
      i := i + 1;
    }
    ghost var before := Sizes(universe);
    node.size := size;
    assert Sizes(universe) == before[node := size];
    StillKept(before, node, size, universe);
    NodeSized(before, Sizes(universe), node, t, universe);
    RightsAdd(start, before, Sizes(universe), universe);
  }

  lemma FileSize(sizes: map<Node, int>, node: Node, universe: set<Node>)
    requires node in universe && node.file.Some? && sizes.Keys == universe && FilesKept(sizes, universe)
    ensures sizes[node] == node.file.value.size == Wrap(node.file.value.size)
  {
  }

  lemma NoneSized(sizes: map<Node, int>, nodes: seq<Node>, ts: seq<Tree>, universe: set<Node>)
    requires sizes.Keys == universe && ShowAll(nodes, ts, universe)
    ensures |nodes| == |ts| && AllSized(sizes, nodes, ts, 0, universe) && Wrap(TotalOf(ts, 0)) == 0
    ensures OnlyRightSizes(sizes, sizes, universe)
  {
  }

  lemma OneOfAll(nodes: seq<Node>, ts: seq<Tree>, i: nat, universe: set<Node>)
    requires ShowAll(nodes, ts, universe) && i < |ts|
    ensures Shows(nodes[i], ts[i], universe)
  {
  }

  lemma StillKept(before: map<Node, int>, node: Node, size: int, universe: set<Node>)
    requires before.Keys == universe && node in universe && node.file == None && FilesKept(before, universe)
    ensures FilesKept(before[node := size], universe)
  {
  }

  /** The root that BuildTree returns shows the lines it was built from, and their files are its files. */
  lemma RootShows(root: Node, nodes: seq<Node>, lines: seq<Line>)
    requires Linked(root, nodes, lines) && forall n | n in [root] + nodes :: KeepsFileSize(n)
    requires forall i | 0 <= i < |lines| && lines[i].FileLine? :: Wrap(lines[i].info.size) == lines[i].info.size
    ensures var t, universe := Dir(-1, "root", Forest(lines, 0, |lines|)), Universe(root, nodes);
            Shows(root, t, universe) && Total(t) == SizeOfLines(lines, 0, |lines|) && FilesKept(Sizes(universe), universe)
  {
    BuiltTree(root, nodes, lines);
    TotalOfForest(lines, 0, |lines|);
    var universe := Universe(root, nodes);
    hide Wrap, Forest, SizeOfLines, Total, Shows;
    forall n | n in universe && n.file.Some?
      ensures Sizes(universe)[n] == n.file.value.size == Wrap(n.file.value.size)
    {
      assert n in [root] + nodes && KeepsFileSize(n);
      var i :| 0 <= i < |nodes| && nodes[i] == n;
      assert NodeFor(nodes[i], lines[i]);
    }
  }

  lemma {:induction false} ReadFiles(parse: FileParser, raws: seq<string>, n: nat)
    requires n <= |raws| && ReadAll(parse, raws, n).Some?
    requires forall line | parse(line).Some? :: Wrap(parse(line).value.size) == parse(line).value.size
    ensures var lines := ReadAll(parse, raws, n).value;
            forall i | 0 <= i < |lines| && lines[i].FileLine? :: Wrap(lines[i].info.size) == lines[i].info.size
  {
    hide Wrap;
    if n > 0 {
      ReadFiles(parse, raws, n - 1);
    }
  }

  /** Pan123Link.Init: the tree of the text, every folder with the size of its files. A parser reads 64-bit sizes. */
  method Init(parse: FileParser, text: string) returns (r: Node?, ghost universe: set<Node>)
    requires forall line | parse(line).Some? :: Wrap(parse(line).value.size) == parse(line).value.size
    ensures var raws := SplitLines(text);
            match ReadAll(parse, raws, |raws|)
            case None => r == null
            case Some(lines) =>
              var t := Dir(-1, "root", Forest(lines, 0, |lines|));
              && r != null && Shows(r, t, universe) && Sized(Sizes(universe), r, t, universe)
              && r.size == Wrap(SizeOfLines(lines, 0, |lines|))
  {
    hide Wrap, Linked, Shows, Sized, Forest, SizeOfLines, Total, FilesKept, KeepsFileSize;
    var raws := SplitLines(text);
    var built, nodes := BuildTree(parse, text);
    universe := {};
    if built.None? {
      return null, universe;
    }
    ghost var lines := ReadAll(parse, raws, |raws|).value;
    ReadFiles(parse, raws, |raws|);
    RootShows(built.value, nodes, lines);
    universe := Universe(built.value, nodes);
    var size := CalSize(built.value, Dir(-1, "root", Forest(lines, 0, |lines|)), universe);
    RootSized(Sizes(universe), built.value, Dir(-1, "root", Forest(lines, 0, |lines|)), universe);
    return built.value, universe;
  }

  lemma RootSized(sizes: map<Node, int>, node: Node, t: Tree, universe: set<Node>)
    requires sizes.Keys == universe && Shows(node, t, universe) && Sized(sizes, node, t, universe)
    ensures node in sizes && sizes[node] == Wrap(Total(t))
  {
  }
}
