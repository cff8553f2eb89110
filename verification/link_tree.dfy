/** The indented text of the 123 link driver and the tree of nodes built from it. */
module LinkTree {

  import opened Wrappers
  import opened Strings

  /** What a file line says. The line's inner format is left to a parameter of the parser. */
  datatype FileInfo = FileInfo(name: string, url: string, size: int, modified: int)

  /** A line that is not blank. */
  datatype Line =
    | FolderLine(level: nat, name: string)
    | FileLine(level: nat, info: FileInfo)

  type FileParser = string -> Option<FileInfo>

  // ----- which folder a line belongs to -----

  /** Folder `j` still takes lines when line `i` is about to be read: everything since is deeper. */
  predicate Open(lines: seq<Line>, j: nat, i: nat)
    requires i <= |lines|
  {
    j < i && lines[j].FolderLine? && forall k | j < k < i :: lines[k].level > lines[j].level
  }

  /** The last of the first `j` lines that is a folder open at `i`. */
  function LastOpen(lines: seq<Line>, j: nat, i: nat): (p: Option<nat>)
    requires j <= i <= |lines|
    ensures p.Some? ==> p.value < j && Open(lines, p.value, i)
    ensures forall k | (if p.Some? then p.value < k else true) && 0 <= k < j :: !Open(lines, k, i)
  {
    if j == 0 then None
    else if Open(lines, j - 1, i) then Some(j - 1)
    else LastOpen(lines, j - 1, i)
  }

  /** The folder that line `i` is attached to; None is the root. */
  function ParentOf(lines: seq<Line>, i: nat): Option<nat>
    requires i < |lines|
  {
    LastOpen(lines, i, i + 1)
  }

  /** The lines among the first `n` attached to `p`, in line order. */
  function Kids(lines: seq<Line>, n: nat, p: Option<nat>): (r: seq<nat>)
    requires n <= |lines|
    ensures forall i | 0 <= i < |r| :: r[i] < n && (p.Some? ==> p.value < r[i])
  {
    if n == 0 then []
    else if ParentOf(lines, n - 1) == p then Kids(lines, n - 1, p) + [n - 1]
    else Kids(lines, n - 1, p)
  }

  lemma {:induction false} LastOpenPrefix(a: seq<Line>, b: seq<Line>, j: nat, i: nat)
    requires j <= i <= |a| && a <= b
    ensures LastOpen(a, j, i) == LastOpen(b, j, i)
  {
    if j > 0 {
      LastOpenPrefix(a, b, j - 1, i);
      assert Open(a, j - 1, i) == Open(b, j - 1, i);
    }
  }

  lemma {:induction false} KidsPrefix(a: seq<Line>, b: seq<Line>, n: nat, p: Option<nat>)
    requires n <= |a| && a <= b
    ensures Kids(a, n, p) == Kids(b, n, p)
  {
    if n > 0 {
      LastOpenPrefix(a, b, n - 1, n);
      KidsPrefix(a, b, n - 1, p);
    }
  }

  // ----- the text -----

  /** The number of leading blanks. */
  function Indent(s: string): (n: nat)
    ensures n <= |s|
  {
    if s == [] || s[0] != ' ' then 0 else 1 + Indent(s[1..])
  }

  predicate IsFolder(line: string) {
    line != [] && line[|line| - 1] == ':'
  }

  datatype ReadLine = Blank | Bad | Good(line: Line)

  function Read(parse: FileParser, raw: string): ReadLine {
    var indent := Indent(raw);
    if indent % 2 != 0 then Bad
    else
      var line := TrimSpace(raw[indent..]);
      if line == [] then Blank
      else if IsFolder(line) then Good(FolderLine(indent / 2, line[..|line| - 1]))
      else
        match parse(line)
        case None => Bad
        case Some(info) => Good(FileLine(indent / 2, info))
  }

  function Blanks(n: nat): string {
    seq(n, _ => ' ')
  }

  lemma {:induction false} IndentOf(n: nat, body: string)
    requires body != [] ==> body[0] != ' '
    ensures Indent(Blanks(n) + body) == n && (Blanks(n) + body)[n..] == body
  {
    var s := Blanks(n) + body;
    if n > 0 {
      IndentOf(n - 1, body);
      assert s[1..] == Blanks(n - 1) + body;
    }
  }

  /** What a line with `n` blanks in front is: bad when they are odd, even if nothing follows; skipped when only white
      space follows; a folder of level n / 2 when it ends in a colon; a file of that level otherwise. */
  lemma LineExactly(parse: FileParser, n: nat, front: string, text: string, back: string)
    requires AllSpace(front) && AllSpace(back) && (text != [] ==> !IsSpace(text[0]) && !IsSpace(text[|text| - 1]))
    requires front != [] ==> front[0] != ' '
    requires front == [] && text == [] && back != [] ==> back[0] != ' '
    ensures Read(parse, Blanks(n) + (front + text + back)) ==
            if n % 2 == 1 then Bad
            else if text == [] then Blank
            else if text[|text| - 1] == ':' then Good(FolderLine(n / 2, text[..|text| - 1]))
            else if parse(text) == None then Bad
            else Good(FileLine(n / 2, parse(text).value))
  {
    hide TrimSpace;
    IndentOf(n, front + text + back);
    TrimPadded(front, text, back);
  }

  /** The text is bad exactly when one of its lines is. */
  lemma {:induction false} BadExactly(parse: FileParser, raws: seq<string>, n: nat)
    requires n <= |raws|
    ensures ReadAll(parse, raws, n).None? <==> exists i | 0 <= i < n :: Read(parse, raws[i]).Bad?
  {
    hide Read;
    if n > 0 {
      BadExactly(parse, raws, n - 1);
    }
  }

  /** The lines of the first `n` raw lines, or None when one of them is bad. */
  function ReadAll(parse: FileParser, raws: seq<string>, n: nat): Option<seq<Line>>
    requires n <= |raws|
  {
    if n == 0 then Some([])
    else
      match (ReadAll(parse, raws, n - 1), Read(parse, raws[n - 1]))
      case (None, _) => None
      case (_, Bad) => None
      case (Some(front), Blank) => Some(front)
      case (Some(front), Good(line)) => Some(front + [line])
  }

  // ----- the nodes -----

  class Node {
    var level: int
    var name: string
    var file: Option<FileInfo>
    var size: int
    var children: seq<Node>

    constructor (level: int, name: string, file: Option<FileInfo>)
      ensures this.level == level && this.name == name && this.file == file && children == [] && KeepsFileSize(this)
    {
      this.level, this.name, this.file, children := level, name, file, [];
      size := if file.Some? then file.value.size else 0;
    }
  }

  /** A file has the size its line gives. */
  predicate KeepsFileSize(node: Node)
    reads node`file, node`size
  {
    node.file.Some? ==> node.size == node.file.value.size
  }

  function Pick(nodes: seq<Node>, ks: seq<nat>): (r: seq<Node>)
    requires forall i | 0 <= i < |ks| :: ks[i] < |nodes|
    ensures |r| == |ks|
  {
    seq(|ks|, i requires 0 <= i < |ks| => nodes[ks[i]])
  }

  predicate NodeFor(node: Node, line: Line)
    reads node`level, node`name, node`file
  {
    && node.level == line.level
    && match line
       case FolderLine(_, name) => node.name == name && node.file == None
       case FileLine(_, info) => node.name == info.name && node.file == Some(info)
  }

  /** `nodes[i]` is the node of line `i`, and every node's children are its lines, in line order. */
  ghost predicate Linked(root: Node, nodes: seq<Node>, lines: seq<Line>)
    reads root, nodes
  {
    Labelled(root, nodes, lines) && Connected(root, nodes, lines)
  }

  ghost predicate Labelled(root: Node, nodes: seq<Node>, lines: seq<Line>)
    reads root`level, root`name, root`file, nodes`level, nodes`name, nodes`file
  {
    && |nodes| == |lines|
    && root.level == -1 && root.name == "root" && root.file == None
    && root !in nodes && (forall i, j | 0 <= i < j < |nodes| :: nodes[i] != nodes[j])
    && (forall i | 0 <= i < |nodes| :: NodeFor(nodes[i], lines[i]))
  }

  ghost predicate Connected(root: Node, nodes: seq<Node>, lines: seq<Line>)
    requires |nodes| == |lines|
    reads root`children, nodes`children
  {
    && Children(root, nodes, lines, None)
    && forall i | 0 <= i < |nodes| :: Children(nodes[i], nodes, lines, Some(i))
  }

  /** The children of the node are those of line `p`, or of the root, in line order. */
  ghost predicate Children(o: Node, nodes: seq<Node>, lines: seq<Line>, p: Option<nat>)
    requires |nodes| == |lines|
    reads o`children
  {
    o.children == Pick(nodes, Kids(lines, |lines|, p))
  }

  function NodeAt(root: Node, nodes: seq<Node>, p: Option<nat>): Node
    requires p.Some? ==> p.value < |nodes|
  {
    if p.Some? then nodes[p.value] else root
  }

  /** The children of any node after one more line. */
  lemma ChildrenStep(o: Node, nodes: seq<Node>, node: Node, lines: seq<Line>, line: Line, p: Option<nat>, before: seq<Node>)
    requires |nodes| == |lines| && before == Pick(nodes, Kids(lines, |lines|, p))
    requires o.children == if ParentOf(lines + [line], |lines|) == p then before + [node] else before
    ensures Children(o, nodes + [node], lines + [line], p)
  {
    KidsPrefix(lines, lines + [line], |lines|, p);
    PickStep(nodes, node, Kids(lines, |lines|, p));
    hide ParentOf, Pick;
  }

  lemma PickStep(nodes: seq<Node>, node: Node, ks: seq<nat>)
    requires forall i | 0 <= i < |ks| :: ks[i] < |nodes|
    ensures Pick(nodes + [node], ks) == Pick(nodes, ks)
    ensures Pick(nodes + [node], ks + [|nodes|]) == Pick(nodes, ks) + [node]
  {
  }

  /** A new line is never a parent yet. */
  lemma {:induction false} NoKids(lines: seq<Line>, n: nat, p: nat)
    requires n <= |lines| && n <= p + 1
    ensures Kids(lines, n, Some(p)) == []
  {
    if n > 0 {
      NoKids(lines, n - 1, p);
    }
  }

  lemma LabelledStep(root: Node, nodes: seq<Node>, lines: seq<Line>, node: Node, line: Line)
    requires Labelled(root, nodes, lines)
    requires node != root && node !in nodes && NodeFor(node, line)
    ensures Labelled(root, nodes + [node], lines + [line])
  {
    hide NodeFor;
  }

  /** The children fields after one append, from what they were before it. */
  lemma ConnectedStep(root: Node, nodes: seq<Node>, lines: seq<Line>, node: Node, line: Line,
                      rootBefore: seq<Node>, before: seq<seq<Node>>)
    requires |nodes| == |lines| == |before|
    requires rootBefore == Pick(nodes, Kids(lines, |lines|, None))
    requires forall i | 0 <= i < |nodes| :: before[i] == Pick(nodes, Kids(lines, |lines|, Some(i)))
    requires var p := ParentOf(lines + [line], |lines|);
             && root.children == (if p == None then rootBefore + [node] else rootBefore)
             && forall i | 0 <= i < |nodes| :: nodes[i].children == (if p == Some(i) then before[i] + [node] else before[i])
    requires node.children == []
    ensures Connected(root, nodes + [node], lines + [line])
  {
    hide Kids, Pick, ParentOf, Children;
    ChildrenStep(root, nodes, node, lines, line, None, rootBefore);
    forall i | 0 <= i <= |nodes| ensures Children((nodes + [node])[i], nodes + [node], lines + [line], Some(i)) {
      if i < |nodes| {
        ChildrenStep(nodes[i], nodes, node, lines, line, Some(i), before[i]);
      } else {
        NewLeaf(node, nodes + [node], lines + [line]);
      }
    }
  }

  lemma NewLeaf(node: Node, nodes: seq<Node>, lines: seq<Line>)
    requires |nodes| == |lines| > 0 && node.children == []
    ensures Children(node, nodes, lines, Some(|lines| - 1))
  {
    NoKids(lines, |lines|, |lines| - 1);
    hide Kids;
  }

  /** Appends the node of the next line to the children of the node it belongs to. */
  method Attach(root: Node, ghost nodes: seq<Node>, ghost lines: seq<Line>, parent: Node, node: Node, ghost line: Line)
    requires Linked(root, nodes, lines)
    requires parent == NodeAt(root, nodes, ParentOf(lines + [line], |lines|))
    requires node != root && node !in nodes && NodeFor(node, line) && node.children == []
    modifies parent`children
    ensures Linked(root, nodes + [node], lines + [line])
  {
    ghost var p := ParentOf(lines + [line], |lines|);
    assert p.Some? ==> p.value < |nodes|;
    hide Kids, Pick, ParentOf, NodeFor;
    ghost var rootBefore, before := root.children, seq(|nodes|, i requires 0 <= i < |nodes| reads nodes => nodes[i].children);
    parent.children := parent.children + [node];
    LabelledStep(root, nodes, lines, node, line);
    ConnectedStep(root, nodes, lines, node, line, rootBefore, before);
  }

  // ----- the stack -----

  /** The folders on the stack, as line numbers: exactly the open ones, from the outside in. */
  ghost predicate OpenFolders(lines: seq<Line>, idx: seq<nat>) {
    && (forall a, b | 0 <= a < b < |idx| :: idx[a] < idx[b])
    && (forall j | 0 <= j < |lines| :: j in idx <==> Open(lines, j, |lines|))
    && (forall a | 0 <= a < |idx| :: idx[a] < |lines|)
  }

  /** The levels on the stack increase strictly. */
  lemma StackIncreases(lines: seq<Line>, idx: seq<nat>)
    requires OpenFolders(lines, idx)
    ensures forall a, b | 0 <= a < b < |idx| :: lines[idx[a]].level < lines[idx[b]].level
  {
    forall a, b | 0 <= a < b < |idx| ensures lines[idx[a]].level < lines[idx[b]].level {
      assert idx[a] in idx && Open(lines, idx[a], |lines|);
    }
  }

  lemma OpenNext(lines: seq<Line>, line: Line, j: nat)
    requires j < |lines|
    ensures Open(lines + [line], j, |lines| + 1) <==> Open(lines, j, |lines|) && line.level > lines[j].level
  {
    var lines' := lines + [line];
    if Open(lines', j, |lines| + 1) {
      forall k | j < k < |lines| ensures lines[k].level > lines[j].level {
        assert lines'[k].level > lines'[j].level;
      }
      assert lines'[|lines|].level > lines'[j].level;
    }
  }

  /** Which folders stay open after popping. */
  lemma PoppedAt(lines: seq<Line>, idx: seq<nat>, m: nat, line: Line, j: nat)
    requires OpenFolders(lines, idx) && m <= |idx| && j < |lines|
    requires forall a | m <= a < |idx| :: lines[idx[a]].level >= line.level
    requires m > 0 ==> lines[idx[m - 1]].level < line.level
    ensures Open(lines + [line], j, |lines| + 1) <==> j in idx[..m]
  {
    OpenNext(lines, line, j);
    if j in idx {
      StackIncreases(lines, idx);
      var a :| 0 <= a < |idx| && idx[a] == j;
      hide Open;
      assert a < m <==> lines[j].level < line.level;
      if a < m {
        assert idx[..m][a] == j;
      }
    }
  }

  /** The kept line numbers are sorted and exactly the lines before the last that are open. */
  ghost predicate Kept(lines: seq<Line>, kept: seq<nat>) {
    && lines != []
    && (forall a, b | 0 <= a < b < |kept| :: kept[a] < kept[b])
    && (forall j | 0 <= j < |lines| - 1 :: j in kept <==> Open(lines, j, |lines|))
    && (forall a | 0 <= a < |kept| :: kept[a] < |lines| - 1)
  }

  /** Popping to the first folder of a smaller level leaves the folders open for the new line. */
  lemma PoppedStack(lines: seq<Line>, idx: seq<nat>, m: nat, line: Line)
    requires OpenFolders(lines, idx) && m <= |idx|
    requires forall a | m <= a < |idx| :: lines[idx[a]].level >= line.level
    requires m > 0 ==> lines[idx[m - 1]].level < line.level
    ensures ParentOf(lines + [line], |lines|) == if m == 0 then None else Some(idx[m - 1])
    ensures OpenFolders(lines + [line], idx[..m] + if line.FolderLine? then [|lines|] else [])
  {
    hide Open, OpenFolders, Kept, LastOpen;
    PoppedKept(lines, idx, m, line);
    LastOfStack(lines + [line], idx[..m]);
    OpenLast(lines, line);
    PushedFolder(lines + [line], idx[..m]);
  }

  lemma PoppedKept(lines: seq<Line>, idx: seq<nat>, m: nat, line: Line)
    requires OpenFolders(lines, idx) && m <= |idx|
    requires forall a | m <= a < |idx| :: lines[idx[a]].level >= line.level
    requires m > 0 ==> lines[idx[m - 1]].level < line.level
    ensures Kept(lines + [line], idx[..m])
  {
    hide Open;
    forall j | 0 <= j < |lines| ensures Open(lines + [line], j, |lines| + 1) <==> j in idx[..m] {
      PoppedAt(lines, idx, m, line, j);
    }
  }

  lemma PushedFolder(lines: seq<Line>, kept: seq<nat>)
    requires Kept(lines, kept)
    ensures var last := |lines| - 1;
            OpenFolders(lines, kept + if Open(lines, last, |lines|) then [last] else [])
  {
    hide Open;
  }

  lemma OpenLast(lines: seq<Line>, line: Line)
    ensures Open(lines + [line], |lines|, |lines| + 1) <==> line.FolderLine?
  {
  }

  lemma LastOfStack(lines: seq<Line>, kept: seq<nat>)
    requires Kept(lines, kept)
    ensures LastOpen(lines, |lines| - 1, |lines|) == if kept == [] then None else Some(kept[|kept| - 1])
  {
    hide Open;
    var p := LastOpen(lines, |lines| - 1, |lines|);
    assert p.Some? ==> p.value in kept;
    if kept != [] {
      var last := kept[|kept| - 1];
      assert last in kept && Open(lines, last, |lines|);
      if p.Some? {
        var a :| 0 <= a < |kept| && kept[a] == p.value;
      }
    }
  }

  /** The levels on the stack, that of the root first. */
  ghost function Levels(lines: seq<Line>, idx: seq<nat>): (r: seq<int>)
    requires forall a | 0 <= a < |idx| :: idx[a] < |lines|
  {
    [-1] + seq(|idx|, a requires 0 <= a < |idx| => lines[idx[a]].level)
  }

  /** Pops until the top of the stack is shallower than `level`; the root, of level -1, always stays. */
  method PopTo(stack: seq<Node>, ghost levels: seq<int>, level: nat) returns (rest: seq<Node>)
    requires |stack| == |levels| > 0 && levels[0] == -1
    requires forall a | 0 <= a < |stack| :: stack[a].level == levels[a]
    ensures 0 < |rest| <= |stack| && rest == stack[..|rest|]
    ensures levels[|rest| - 1] < level && forall a | |rest| <= a < |levels| :: levels[a] >= level
  {
    rest := stack;
    while level <= rest[|rest| - 1].level
      invariant 0 < |rest| <= |stack| && rest == stack[..|rest|]
      invariant forall a | |rest| <= a < |levels| :: levels[a] >= level
      decreases |rest|
    {
      assert rest[|rest| - 1] == stack[|rest| - 1];
      rest := rest[..|rest| - 1];
    }
    assert rest[|rest| - 1] == stack[|rest| - 1];
  }

  /** What the popped levels say about the folders behind them. */
  lemma PoppedLevels(lines: seq<Line>, idx: seq<nat>, m: nat, level: int)
    requires m <= |idx| && forall a | 0 <= a < |idx| :: idx[a] < |lines|
    requires Levels(lines, idx)[m] < level && forall a | m < a <= |idx| :: Levels(lines, idx)[a] >= level
    ensures m > 0 ==> lines[idx[m - 1]].level < level
    ensures forall a | m <= a < |idx| :: lines[idx[a]].level >= level
  {
    forall a | m <= a < |idx| ensures lines[idx[a]].level >= level {
      assert Levels(lines, idx)[a + 1] == lines[idx[a]].level;
    }
  }

  lemma PickFirst(root: Node, nodes: seq<Node>, idx: seq<nat>, m: nat, stack: seq<Node>)
    requires m <= |idx| && (forall a | 0 <= a < |idx| :: idx[a] < |nodes|) && stack == [root] + Pick(nodes, idx)
    ensures |stack| == |idx| + 1 && stack[..m + 1] == [root] + Pick(nodes, idx[..m])
    ensures stack[m] == if m == 0 then root else nodes[idx[m - 1]]
  {
    assert Pick(nodes, idx)[..m] == Pick(nodes, idx[..m]);
  }

  lemma {:induction false} FailedPrefix(parse: FileParser, raws: seq<string>, i: nat, n: nat)
    requires i <= n <= |raws| && ReadAll(parse, raws, i) == None
    ensures ReadAll(parse, raws, n) == None
  {
    hide Read;
    if i < n {
      FailedPrefix(parse, raws, i, n - 1);
    }
  }

  lemma NothingRead(root: Node)
    requires root.level == -1 && root.name == "root" && root.file == None && root.children == []
    ensures Linked(root, [], []) && OpenFolders([], [])
  {
  }

  /** What one good line does: the node is attached to the top of the popped stack, and a folder is pushed. */
  method AddLine(root: Node, ghost nodes: seq<Node>, ghost lines: seq<Line>, ghost idx: seq<nat>, stack: seq<Node>, line: Line)
    returns (node: Node, stack': seq<Node>, ghost idx': seq<nat>)
    requires Linked(root, nodes, lines) && OpenFolders(lines, idx) && stack == [root] + Pick(nodes, idx)
    modifies root`children, nodes`children
    ensures fresh(node) && KeepsFileSize(node) && Linked(root, nodes + [node], lines + [line])
    ensures (forall a | 0 <= a < |idx'| :: idx'[a] < |nodes| + 1)
    ensures OpenFolders(lines + [line], idx') && stack' == [root] + Pick(nodes + [node], idx')
  {
    hide OpenFolders, Kids, Pick, NodeFor, Labelled, Connected;
    LevelsOnStack(root, nodes, lines, idx, stack);
    var rest := PopTo(stack, Levels(lines, idx), line.level);
    ghost var m := |rest| - 1;
    PickFirst(root, nodes, idx, m, stack);
    PoppedLevels(lines, idx, m, line.level);
    PoppedStack(lines, idx, m, line);
    node := NewNode(line);
    Attach(root, nodes, lines, rest[|rest| - 1], node, line);
    PickStep(nodes, node, idx[..m]);
    stack', idx' := rest, idx[..m];
    if line.FolderLine? {
      stack', idx' := stack' + [node], idx' + [|lines|];
    } else {
      assert idx[..m] + [] == idx[..m];
    }
  }

  lemma LevelsOnStack(root: Node, nodes: seq<Node>, lines: seq<Line>, idx: seq<nat>, stack: seq<Node>)
    requires Labelled(root, nodes, lines) && OpenFolders(lines, idx) && stack == [root] + Pick(nodes, idx)
    ensures |nodes| == |lines| && root !in nodes && forall a | 0 <= a < |idx| :: idx[a] < |lines|
    ensures |stack| == |Levels(lines, idx)|
    ensures forall a | 0 <= a < |stack| :: stack[a].level == Levels(lines, idx)[a]
  {
    forall a | 0 < a < |stack| ensures stack[a].level == Levels(lines, idx)[a] {
      var k := idx[a - 1];
      assert stack[a] == nodes[k] && NodeFor(nodes[k], lines[k]);
    }
  }

  method NewNode(line: Line) returns (node: Node)
    ensures fresh(node) && NodeFor(node, line) && node.children == [] && KeepsFileSize(node)
  {
    match line {
      case FolderLine(level, name) => node := new Node(level, name, None);
      case FileLine(level, info) => node := new Node(level, info.name, Some(info));
    }
  }

  /** BuildTree. A bad line ends it; blank lines are skipped. */
  method BuildTree(parse: FileParser, text: string) returns (r: Option<Node>, ghost nodes: seq<Node>)
    ensures var raws := SplitLines(text);
            match ReadAll(parse, raws, |raws|)
            case None => r == None
            case Some(lines) =>
              && r.Some? && fresh(r.value) && fresh(nodes) && Linked(r.value, nodes, lines)
              && forall n | n in [r.value] + nodes :: KeepsFileSize(n)
  {
    hide Read, OpenFolders, Linked;
    var raws := SplitLines(text);
    var root := new Node(-1, "root", None);
    var stack := [root];
    nodes := [];
    ghost var lines: seq<Line>, idx: seq<nat> := [], [];
    NothingRead(root);
    var i := 0;
    while i < |raws|
      invariant i <= |raws| && ReadAll(parse, raws, i) == Some(lines)
      invariant fresh(root) && fresh(nodes) && forall n | n in [root] + nodes :: KeepsFileSize(n)
      invariant Linked(root, nodes, lines) && OpenFolders(lines, idx)
      invariant (forall a | 0 <= a < |idx| :: idx[a] < |nodes|) && stack == [root] + Pick(nodes, idx)
    {
      var read := Read(parse, raws[i]);
      i := i + 1;
      if read.Bad? {
        FailedPrefix(parse, raws, i, |raws|);
        return None, nodes;
      }
      if read.Good? {
        var node, stack', idx' := AddLine(root, nodes, lines, idx, stack, read.line);
        nodes, lines := nodes + [node], lines + [read.line];
        stack, idx := stack', idx';
      }
    }
    return Some(root), nodes;
  }
}
