/** The tree that the nodes form: a recursive reading of the indentation, and the round trip through text. */
module LinkForest {

  import opened Wrappers
  import opened LinkTree

  datatype Tree =
    | Leaf(level: int, info: FileInfo)
    | Dir(level: int, name: string, children: seq<Tree>)

  // ----- the recursive reading -----

  /** Where the lines deeper than `level`, starting at `k`, end. */
  function End(lines: seq<Line>, k: nat, hi: nat, level: int): (e: nat)
    requires k <= hi <= |lines|
    ensures k <= e <= hi
    ensures forall i | k <= i < e :: lines[i].level > level
    ensures e < hi ==> lines[e].level <= level
    decreases hi - k
  {
    if k == hi || lines[k].level <= level then k else End(lines, k + 1, hi, level)
  }

  /** Where the block of line `k` ends. */
  function After(lines: seq<Line>, k: nat, hi: nat): (e: nat)
    requires k < hi <= |lines|
    ensures k < e <= hi
  {
    if lines[k].FolderLine? then End(lines, k + 1, hi, lines[k].level) else k + 1
  }

  /** A folder contains the deeper lines right below it; everything else follows it. */
  function Forest(lines: seq<Line>, lo: nat, hi: nat): (r: seq<Tree>)
    requires lo <= hi <= |lines|
    decreases hi - lo
  {
    if lo == hi then []
    else
      var e := After(lines, lo, hi);
      [match lines[lo]
       case FileLine(level, info) => Leaf(level, info)
       case FolderLine(level, name) => Dir(level, name, Forest(lines, lo + 1, e))]
      + Forest(lines, e, hi)
  }

  /** The lines that are not inside another folder of the range. */
  function Tops(lines: seq<Line>, lo: nat, hi: nat): (r: seq<nat>)
    requires lo <= hi <= |lines|
    ensures |r| == |Forest(lines, lo, hi)|
    ensures forall i | 0 <= i < |r| :: lo <= r[i] < hi
    decreases hi - lo
  {
    if lo == hi then [] else [lo] + Tops(lines, After(lines, lo, hi), hi)
  }

  // ----- attachment and the recursive reading agree -----

  /** Some folder from `lo` on takes the last of the first `n` lines. */
  ghost predicate OpenWithin(lines: seq<Line>, lo: nat, n: nat)
    requires 0 < n <= |lines|
  {
    exists k | lo <= k < n - 1 :: Open(lines, k, n)
  }

  /** One more line is a new top of the range unless a folder of the range takes it. */
  lemma {:induction false} TopsExtend(lines: seq<Line>, lo: nat, i: nat)
    requires lo <= i < |lines|
    ensures Tops(lines, lo, i + 1) == if OpenWithin(lines, lo, i + 1) then Tops(lines, lo, i) else Tops(lines, lo, i) + [i]
    decreases i - lo
  {
    if lo == i {
      assert Tops(lines, i, i) == [];
      assert Tops(lines, i + 1, i + 1) == [];
      assert After(lines, i, i + 1) == i + 1;
    } else {
      AfterExtend(lines, lo, i);
      var e := After(lines, lo, i);
      OpenBeyond(lines, lo, e, i);
      if lines[lo].FolderLine? && e == i && lines[i].level > lines[lo].level {
        assert Open(lines, lo, i + 1);
        assert Tops(lines, i, i) == [] && Tops(lines, i + 1, i + 1) == [];
      } else {
        TopsExtend(lines, e, i);
        assert [lo] + (Tops(lines, e, i) + [i]) == ([lo] + Tops(lines, e, i)) + [i];
      }
    }
  }

  lemma EndExtend(lines: seq<Line>, k: nat, i: nat, level: int)
    requires k <= i < |lines|
    ensures End(lines, k, i + 1, level) ==
              if End(lines, k, i, level) == i && lines[i].level > level then i + 1 else End(lines, k, i, level)
    decreases i - k
  {
  }

  lemma AfterExtend(lines: seq<Line>, lo: nat, i: nat)
    requires lo < i < |lines|
    ensures After(lines, lo, i + 1) ==
              if lines[lo].FolderLine? && After(lines, lo, i) == i && lines[i].level > lines[lo].level then i + 1
              else After(lines, lo, i)
  {
    EndExtend(lines, lo + 1, i, lines[lo].level);
  }

  /** Unless it takes line `i` itself, a block that ends at or before `i` hides no folder that does. */
  lemma OpenBeyond(lines: seq<Line>, lo: nat, e: nat, i: nat)
    requires lo < i < |lines| && e == After(lines, lo, i)
    ensures !(lines[lo].FolderLine? && e == i && lines[i].level > lines[lo].level) ==>
              (OpenWithin(lines, lo, i + 1) <==> OpenWithin(lines, e, i + 1))
  {
    if !(lines[lo].FolderLine? && e == i && lines[i].level > lines[lo].level) {
      var n := i + 1;
      forall k | lo <= k < e ensures !Open(lines, k, n) {
        if lines[lo].FolderLine? {
          assert lines[e].level <= lines[k].level;
        }
      }
    }
  }

  /** The children of the root are the tops of the text. */
  lemma {:induction false} RootKidsAreTops(lines: seq<Line>, n: nat)
    requires n <= |lines|
    ensures Kids(lines, n, None) == Tops(lines, 0, n)
  {
    if n > 0 {
      RootKidsAreTops(lines, n - 1);
      TopsExtend(lines, 0, n - 1);
      hide Tops, Open;
    }
  }

  /** The children of a folder are the tops of its block. */
  lemma {:induction false} FolderKidsAreTops(lines: seq<Line>, n: nat, j: nat)
    requires j < n <= |lines| && lines[j].FolderLine?
    ensures Kids(lines, n, Some(j)) == Tops(lines, j + 1, After(lines, j, n))
  {
    hide Kids, Tops, After, Open;
    if j == n - 1 {
      NewFolder(lines, n);
    } else {
      FolderKidsAreTops(lines, n - 1, j);
      FolderKidsStep(lines, n - 1, j);
    }
  }

  lemma NewFolder(lines: seq<Line>, n: nat)
    requires 0 < n <= |lines| && lines[n - 1].FolderLine?
    ensures Kids(lines, n, Some(n - 1)) == Tops(lines, n, After(lines, n - 1, n))
  {
    NoKids(lines, n, n - 1);
    hide Kids;
  }

  lemma FolderKidsStep(lines: seq<Line>, i: nat, j: nat)
    requires j < i < |lines| && lines[j].FolderLine?
    requires Kids(lines, i, Some(j)) == Tops(lines, j + 1, After(lines, j, i))
    ensures Kids(lines, i + 1, Some(j)) == Tops(lines, j + 1, After(lines, j, i + 1))
  {
    hide Open, OpenWithin, Tops, After, ParentOf;
    AfterExtend(lines, j, i);
    ParentInBlock(lines, i, j);
    if After(lines, j, i) == i {
      TopsExtend(lines, j + 1, i);
    }
  }

  /** Line `i` belongs to folder `j` itself exactly when the block of `j` reaches it and no inner folder does. */
  lemma ParentInBlock(lines: seq<Line>, i: nat, j: nat)
    requires j < i < |lines| && lines[j].FolderLine?
    ensures ParentOf(lines, i) == Some(j) <==>
              After(lines, j, i) == i && lines[i].level > lines[j].level && !OpenWithin(lines, j + 1, i + 1)
  {
    var e := After(lines, j, i);
    if e == i && lines[i].level > lines[j].level {
      assert Open(lines, j, i + 1);
    } else {
      assert !Open(lines, j, i + 1) by {
        assert lines[e].level <= lines[j].level;
      }
    }
  }

  // ----- the heap shows the tree -----

  ghost predicate Shows(node: Node, tree: Tree, universe: set<Node>)
    reads universe`level, universe`name, universe`file, universe`children
    decreases tree
  {
    && node in universe
    && node.level == tree.level
    && match tree
       case Leaf(_, info) => node.file == Some(info) && node.name == info.name && node.children == []
       case Dir(_, name, children) =>
         && node.file == None && node.name == name
         && |node.children| == |children|
         && forall i | 0 <= i < |children| :: Shows(node.children[i], children[i], universe)
  }

  ghost predicate ShowAll(nodes: seq<Node>, trees: seq<Tree>, universe: set<Node>)
    reads universe`level, universe`name, universe`file, universe`children
  {
    |nodes| == |trees| && forall i | 0 <= i < |trees| :: Shows(nodes[i], trees[i], universe)
  }

  ghost function Universe(root: Node, nodes: seq<Node>): set<Node> {
    {root} + set n | n in nodes
  }

  /** A range whose blocks do not reach beyond it. */
  ghost predicate Bounded(lines: seq<Line>, lo: nat, hi: nat)
    requires lo <= hi <= |lines|
  {
    hi < |lines| ==> forall k | lo <= k < hi :: lines[hi].level <= lines[k].level
  }

  lemma BoundedBlocks(lines: seq<Line>, lo: nat, hi: nat)
    requires lo < hi <= |lines| && Bounded(lines, lo, hi)
    ensures After(lines, lo, hi) == After(lines, lo, |lines|)
    ensures lines[lo].FolderLine? ==> Bounded(lines, lo + 1, After(lines, lo, hi))
    ensures Bounded(lines, After(lines, lo, hi), hi)
  {
    if lines[lo].FolderLine? {
      EndBounded(lines, lo + 1, hi, lines[lo].level);
    }
  }

  lemma {:induction false} EndBounded(lines: seq<Line>, k: nat, hi: nat, level: int)
    requires k <= hi <= |lines| && (hi < |lines| ==> lines[hi].level <= level)
    ensures End(lines, k, hi, level) == End(lines, k, |lines|, level)
    decreases hi - k
  {
    if k < hi {
      EndBounded(lines, k + 1, hi, level);
    }
  }

  /** The nodes of the tops of a range show the forest of the range. */
  lemma {:induction false} NodesShowForest(root: Node, nodes: seq<Node>, lines: seq<Line>, lo: nat, hi: nat)
    requires Linked(root, nodes, lines) && lo <= hi <= |lines| && Bounded(lines, lo, hi)
    ensures ShowAll(Pick(nodes, Tops(lines, lo, hi)), Forest(lines, lo, hi), Universe(root, nodes))
    decreases hi - lo
  {
    hide Linked, After, Bounded, Universe, Shows, Tops, Forest, ShowAll;
    if lo == hi {
      NothingShown(root, nodes, lines, lo);
    } else {
      var e := After(lines, lo, hi);
      BoundedBlocks(lines, lo, hi);
      NodesShowForest(root, nodes, lines, e, hi);
      if lines[lo].FolderLine? {
        NodesShowForest(root, nodes, lines, lo + 1, e);
      }
      TopShown(root, nodes, lines, lo, hi);
      FirstAndRest(root, nodes, lines, lo, hi);
    }
  }

  lemma NothingShown(root: Node, nodes: seq<Node>, lines: seq<Line>, lo: nat)
    requires Linked(root, nodes, lines) && lo <= |lines|
    ensures ShowAll(Pick(nodes, Tops(lines, lo, lo)), Forest(lines, lo, lo), Universe(root, nodes))
  {
  }

  lemma FirstAndRest(root: Node, nodes: seq<Node>, lines: seq<Line>, lo: nat, hi: nat)
    requires Linked(root, nodes, lines) && lo < hi <= |lines|
    requires Shows(nodes[lo], Forest(lines, lo, hi)[0], Universe(root, nodes))
    requires var e := After(lines, lo, hi);
             ShowAll(Pick(nodes, Tops(lines, e, hi)), Forest(lines, e, hi), Universe(root, nodes))
    ensures ShowAll(Pick(nodes, Tops(lines, lo, hi)), Forest(lines, lo, hi), Universe(root, nodes))
  {
    var e := After(lines, lo, hi);
    assert Tops(lines, lo, hi) == [lo] + Tops(lines, e, hi);
    assert Forest(lines, lo, hi) == [Forest(lines, lo, hi)[0]] + Forest(lines, e, hi);
    hide Shows, Linked, After, Tops, Forest, Universe, ShowAll;
    PickMore(nodes, lo, Tops(lines, e, hi));
    ShowMore(nodes[lo], Pick(nodes, Tops(lines, e, hi)), Forest(lines, lo, hi)[0], Forest(lines, e, hi), Universe(root, nodes));
  }

  lemma PickMore(nodes: seq<Node>, k: nat, ks: seq<nat>)
    requires k < |nodes| && forall i | 0 <= i < |ks| :: ks[i] < |nodes|
    ensures Pick(nodes, [k] + ks) == [nodes[k]] + Pick(nodes, ks)
  {
  }

  lemma ShowMore(node: Node, nodes: seq<Node>, tree: Tree, trees: seq<Tree>, universe: set<Node>)
    requires Shows(node, tree, universe) && ShowAll(nodes, trees, universe)
    ensures ShowAll([node] + nodes, [tree] + trees, universe)
  {
    hide Shows;
  }

  lemma TopShown(root: Node, nodes: seq<Node>, lines: seq<Line>, lo: nat, hi: nat)
    requires Linked(root, nodes, lines) && lo < hi <= |lines| && Bounded(lines, lo, hi)
    requires var e := After(lines, lo, hi);
             lines[lo].FolderLine? ==>
               ShowAll(Pick(nodes, Tops(lines, lo + 1, e)), Forest(lines, lo + 1, e), Universe(root, nodes))
    ensures Shows(nodes[lo], Forest(lines, lo, hi)[0], Universe(root, nodes))
  {
    assert NodeFor(nodes[lo], lines[lo]);
    BoundedBlocks(lines, lo, hi);
    if lines[lo].FolderLine? {
      FolderKidsAreTops(lines, |lines|, lo);
    } else {
      FileHasNoKids(lines, |lines|, lo);
    }
    hide Tops, After, Kids, Bounded, NodeFor;
  }

  lemma {:induction false} FileHasNoKids(lines: seq<Line>, n: nat, j: nat)
    requires n <= |lines| && j < |lines| && lines[j].FileLine?
    ensures Kids(lines, n, Some(j)) == []
  {
    if n > 0 {
      FileHasNoKids(lines, n - 1, j);
    }
  }

  /** The root that BuildTree returns shows the recursive reading of its lines. */
  lemma BuiltTree(root: Node, nodes: seq<Node>, lines: seq<Line>)
    requires Linked(root, nodes, lines)
    ensures Shows(root, Dir(-1, "root", Forest(lines, 0, |lines|)), Universe(root, nodes))
  {
    NodesShowForest(root, nodes, lines, 0, |lines|);
    RootKidsAreTops(lines, |lines|);
  }
}
