/** Writing a tree as indented text, and reading it back. */
module LinkRender {

  import opened Wrappers
  import opened LinkTree
  import opened Strings
  import opened LinkForest

  // ----- lines of a tree -----

  function FlattenTree(t: Tree): seq<Line>
    requires WellFormed(t)
    decreases t, 1
  {
    match t
    case Leaf(level, info) => [FileLine(level, info)]
    case Dir(level, name, children) => [FolderLine(level, name)] + FlattenForest(children)
  }

  function FlattenForest(ts: seq<Tree>): seq<Line>
    requires forall i | 0 <= i < |ts| :: WellFormed(ts[i])
    decreases ts, 0
  {
    if ts == [] then [] else FlattenTree(ts[0]) + FlattenForest(ts[1..])
  }

  /** Levels are depths, from that of `t` on. */
  predicate WellFormed(t: Tree)
    decreases t
  {
    t.level >= 0 && (t.Dir? ==> forall i | 0 <= i < |t.children| :: t.children[i].level == t.level + 1 && WellFormed(t.children[i]))
  }

  predicate AllAt(ts: seq<Tree>, level: int) {
    forall i | 0 <= i < |ts| :: ts[i].level == level && WellFormed(ts[i])
  }

  lemma {:induction false} FlattenLevels(ts: seq<Tree>, level: int)
    requires AllAt(ts, level)
    ensures forall i | 0 <= i < |FlattenForest(ts)| :: FlattenForest(ts)[i].level >= level
    ensures ts != [] ==> FlattenForest(ts) != [] && FlattenForest(ts)[0].level == level
    decreases ts
  {
    if ts != [] {
      if ts[0].Dir? {
        FlattenLevels(ts[0].children, level + 1);
      }
      FlattenLevels(ts[1..], level);
    }
  }

  ghost predicate Stands(lines: seq<Line>, lo: nat, flat: seq<Line>) {
    lo + |flat| <= |lines| && lines[lo..lo + |flat|] == flat
  }

  lemma StandsApart(lines: seq<Line>, lo: nat, a: seq<Line>, b: seq<Line>)
    requires Stands(lines, lo, a + b)
    ensures Stands(lines, lo, a) && Stands(lines, lo + |a|, b)
  {
    var s := lines[lo..lo + |a + b|];
    assert lines[lo..lo + |a|] == s[..|a|] == a;
    assert lines[lo + |a|..lo + |a + b|] == s[|a|..] == b;
  }

  /** The levels of a forest's lines, where they stand. */
  lemma StandingLevels(lines: seq<Line>, lo: nat, ts: seq<Tree>, level: int)
    requires AllAt(ts, level) && Stands(lines, lo, FlattenForest(ts))
    ensures var mid := lo + |FlattenForest(ts)|;
            && mid <= |lines|
            && (forall i | lo <= i < mid :: lines[i].level >= level)
            && (ts != [] ==> lo < mid && lines[lo].level == level)
  {
    var flat := FlattenForest(ts);
    FlattenLevels(ts, level);
    hide FlattenForest, WellFormed;
    forall i | lo <= i < lo + |flat| ensures lines[i].level >= level && lines[i] == flat[i - lo] {
      assert lines[i] == lines[lo..lo + |flat|][i - lo];
    }
  }

  lemma ChildrenStand(lines: seq<Line>, lo: nat, t: Tree, level: int)
    requires WellFormed(t) && t.Dir? && t.level == level && Stands(lines, lo, FlattenTree(t))
    ensures AllAt(t.children, level + 1) && Stands(lines, lo + 1, FlattenForest(t.children))
    ensures |FlattenTree(t)| == 1 + |FlattenForest(t.children)|
  {
    StandsApart(lines, lo, [FlattenTree(t)[0]], FlattenForest(t.children));
  }

  /** The block of a folder of level `level` ends where its deeper lines end. */
  lemma {:induction false} EndOfBody(lines: seq<Line>, k: nat, mid: nat, hi: nat, level: int)
    requires k <= mid <= hi <= |lines|
    requires forall i | k <= i < mid :: lines[i].level > level
    requires mid < hi ==> lines[mid].level <= level
    ensures End(lines, k, hi, level) == mid
    decreases mid - k
  {
    if k < mid {
      EndOfBody(lines, k + 1, mid, hi, level);
    }
  }

  /** Where the block of the first tree of a forest ends. */
  lemma FirstBlock(lines: seq<Line>, lo: nat, ts: seq<Tree>, level: int)
    requires AllAt(ts, level) && ts != []
    requires Stands(lines, lo, FlattenTree(ts[0])) && Stands(lines, lo + |FlattenTree(ts[0])|, FlattenForest(ts[1..]))
    ensures FlattenTree(ts[0]) != [] && lines[lo] == FlattenTree(ts[0])[0]
    ensures var mid := lo + |FlattenTree(ts[0])|;
            After(lines, lo, mid + |FlattenForest(ts[1..])|) == mid
  {
    hide Stands, FlattenForest, FlattenTree, WellFormed;
    var mid := lo + |FlattenTree(ts[0])|;
    FirstLine(lines, lo, ts[0]);
    StandingLevels(lines, mid, ts[1..], level);
    if ts[0].Dir? {
      ChildrenStand(lines, lo, ts[0], level);
      StandingLevels(lines, lo + 1, ts[0].children, level + 1);
      NothingFlat();
      EndOfBody(lines, lo + 1, mid, mid + |FlattenForest(ts[1..])|, level);
    }
  }

  lemma NothingFlat()
    ensures FlattenForest([]) == []
  {
  }

  lemma FirstLine(lines: seq<Line>, lo: nat, t: Tree)
    requires WellFormed(t) && Stands(lines, lo, FlattenTree(t))
    ensures FlattenTree(t) != [] && lo < |lines| && lines[lo] == FlattenTree(t)[0]
    ensures t.Dir? ==> lines[lo] == FolderLine(t.level, t.name)
    ensures t.Leaf? ==> lines[lo].FileLine? && |FlattenTree(t)| == 1
  {
    hide FlattenForest;
    assert lines[lo..lo + |FlattenTree(t)|][0] == FlattenTree(t)[0];
  }

  /** Reading the lines of a forest, wherever they stand, gives the forest. */
  lemma {:induction false} ForestOfFlattened(lines: seq<Line>, lo: nat, ts: seq<Tree>, level: int)
    requires AllAt(ts, level) && Stands(lines, lo, FlattenForest(ts))
    ensures Forest(lines, lo, lo + |FlattenForest(ts)|) == ts
    decreases ts
  {
    hide Stands, After, Open, Forest, WellFormed, FlattenTree;
    if ts == [] {
      ForestOfNothing(lines, lo);
    } else {
      var head, rest := FlattenTree(ts[0]), FlattenForest(ts[1..]);
      assert FlattenForest(ts) == head + rest;
      StandsApart(lines, lo, head, rest);
      FirstBlock(lines, lo, ts, level);
      ForestOfFlattened(lines, lo + |head|, ts[1..], level);
      var mid, hi := lo + |head|, lo + |head| + |rest|;
      if ts[0].Dir? {
        ChildrenStand(lines, lo, ts[0], level);
        ForestOfFlattened(lines, lo + 1, ts[0].children, level + 1);
      }
      FirstTree(lines, lo, hi, ts, level);
    }
  }

  lemma ForestOfNothing(lines: seq<Line>, lo: nat)
    requires Stands(lines, lo, FlattenForest([]))
    ensures Forest(lines, lo, lo + |FlattenForest([])|) == []
  {
  }

  lemma FirstTree(lines: seq<Line>, lo: nat, hi: nat, ts: seq<Tree>, level: int)
    requires AllAt(ts, level) && ts != [] && lo < hi <= |lines|
    requires FlattenTree(ts[0]) != [] && lines[lo] == FlattenTree(ts[0])[0]
    requires After(lines, lo, hi) == lo + |FlattenTree(ts[0])|
    requires Forest(lines, After(lines, lo, hi), hi) == ts[1..]
    requires ts[0].Dir? ==> Forest(lines, lo + 1, After(lines, lo, hi)) == ts[0].children
    ensures Forest(lines, lo, hi) == ts
  {
    hide After, Open;
    assert ts == [ts[0]] + ts[1..];
  }

  // ----- text -----

  /** Text that survives on a line of its own behind an indentation. */
  predicate Content(s: string) {
    s != [] && '\n' !in s && !IsSpace(s[0]) && !IsSpace(s[|s| - 1])
  }

  function LineText(show: FileInfo -> string, line: Line): string {
    match line
    case FolderLine(level, name) => Blanks(2 * level) + (name + ":")
    case FileLine(level, info) => Blanks(2 * level) + show(info)
  }

  /** The line can be written: a folder name without leading space, or a file the parser reads back. */
  predicate Writable(parse: FileParser, show: FileInfo -> string, line: Line) {
    match line
    case FolderLine(_, name) => Content(name + ":")
    case FileLine(_, info) => Content(show(info)) && !IsFolder(show(info)) && parse(show(info)) == Some(info)
  }

  /** A written line is read back as itself. */
  lemma ReadWritten(parse: FileParser, show: FileInfo -> string, line: Line)
    requires Writable(parse, show, line)
    ensures Read(parse, LineText(show, line)) == Good(line)
    ensures '\n' !in LineText(show, line)
  {
    hide IsSpace, TrimLeft, TrimRight, Indent, TrimSpace, Read;
    var text := if line.FolderLine? then line.name + ":" else show(line.info);
    assert LineText(show, line) == Blanks(2 * line.level) + text && [] + text + [] == text;
    NoSpace();
    LineExactly(parse, 2 * line.level, [], text, []);
    BlanksOnly(2 * line.level, text);
    assert line.FolderLine? ==> text[..|text| - 1] == line.name;
  }

  lemma NoSpace()
    ensures AllSpace([])
  {
  }

  lemma BlanksOnly(n: nat, text: string)
    requires '\n' !in text
    ensures '\n' !in Blanks(n) + text
  {
  }

  function Texts(show: FileInfo -> string, lines: seq<Line>): (r: seq<string>)
    ensures |r| == |lines|
  {
    seq(|lines|, i requires 0 <= i < |lines| => LineText(show, lines[i]))
  }

  lemma {:induction false} ReadTexts(parse: FileParser, show: FileInfo -> string, lines: seq<Line>, n: nat)
    requires n <= |lines| && forall i | 0 <= i < |lines| :: Writable(parse, show, lines[i])
    ensures ReadAll(parse, Texts(show, lines), n) == Some(lines[..n])
  {
    hide Read, LineText, Writable;
    if n > 0 {
      ReadTexts(parse, show, lines, n - 1);
      ReadWritten(parse, show, lines[n - 1]);
      assert lines[..n] == lines[..n - 1] + [lines[n - 1]];
    }
  }

  lemma LinesJoined(raws: seq<string>)
    requires raws != [] && forall i | 0 <= i < |raws| :: '\n' !in raws[i]
    ensures SplitLines(Join(raws, '\n')) == raws
  {
    SplitJoin(raws, '\n');
  }

  /** The two-space rendering of a forest. */
  function Render(show: FileInfo -> string, ts: seq<Tree>): string
    requires AllAt(ts, 0)
  {
    Join(Texts(show, FlattenForest(ts)), '\n')
  }

  /** Parsing the rendering of a well-formed forest reads exactly its lines, and they form that forest. */
  lemma RenderRoundTrip(parse: FileParser, show: FileInfo -> string, ts: seq<Tree>)
    requires AllAt(ts, 0)
    requires forall i | 0 <= i < |FlattenForest(ts)| :: Writable(parse, show, FlattenForest(ts)[i])
    ensures var raws := SplitLines(Render(show, ts));
            var lines := ReadAll(parse, raws, |raws|);
            lines == Some(FlattenForest(ts)) && Forest(lines.value, 0, |lines.value|) == ts
  {
    hide Writable, Forest, ReadAll, SplitLines, Join, LineText, FlattenForest, WellFormed;
    var lines := FlattenForest(ts);
    var texts := Texts(show, lines);
    assert lines[0..0 + |lines|] == lines;
    ForestOfFlattened(lines, 0, ts, 0);
    if ts == [] {
      EmptyText(parse);
      NoTexts(show);
    } else {
      FlattenLevels(ts, 0);
      forall i | 0 <= i < |texts| ensures '\n' !in texts[i] {
        ReadWritten(parse, show, lines[i]);
      }
      LinesJoined(texts);
      ReadTexts(parse, show, lines, |lines|);
      assert lines[..|lines|] == lines;
    }
  }

  lemma NoTexts(show: FileInfo -> string)
    ensures FlattenForest([]) == [] && Texts(show, []) == []
  {
  }

  lemma EmptyText(parse: FileParser)
    ensures ReadAll(parse, SplitLines(Join([], '\n')), |SplitLines(Join([], '\n'))|) == Some([])
  {
    assert SplitLines([]) == [""];
    assert Read(parse, "") == Blank;
    assert ReadAll(parse, [""], 0) == Some([]);
    assert ReadAll(parse, [""], 1) == Some([]);
  }

  /** Building the tree of a rendered forest gives nodes that show the forest. */
  method BuildRendered(parse: FileParser, show: FileInfo -> string, ts: seq<Tree>)
    returns (r: Option<Node>, ghost nodes: seq<Node>)
    requires AllAt(ts, 0)
    requires forall i | 0 <= i < |FlattenForest(ts)| :: Writable(parse, show, FlattenForest(ts)[i])
    ensures r.Some? && Shows(r.value, Dir(-1, "root", ts), Universe(r.value, nodes))
  {
    RenderRoundTrip(parse, show, ts);
    r, nodes := BuildTree(parse, Render(show, ts));
    BuiltTree(r.value, nodes, FlattenForest(ts));
  }

  // ----- nearest shallower folder -----

  /** The nearest folder above line `i` that is shallower than it. */
  function NearestShallower(lines: seq<Line>, j: nat, i: nat): (p: Option<nat>)
    requires j <= i < |lines|
    ensures p.Some? ==> p.value < j && lines[p.value].FolderLine? && lines[p.value].level < lines[i].level
    ensures forall k | (if p.Some? then p.value < k else true) && 0 <= k < j ::
              !(lines[k].FolderLine? && lines[k].level < lines[i].level)
  {
    if j == 0 then None
    else if lines[j - 1].FolderLine? && lines[j - 1].level < lines[i].level then Some(j - 1)
    else NearestShallower(lines, j - 1, i)
  }

  /** A line goes to the nearest shallower folder exactly when nothing between them closed that folder. */
  lemma ParentIsNearestExactly(lines: seq<Line>, i: nat)
    requires i < |lines|
    ensures var p := NearestShallower(lines, i, i);
            ParentOf(lines, i) == p <==>
              (p.Some? ==> forall k | p.value < k < i :: lines[k].level > lines[p.value].level)
  {
    var p, q := NearestShallower(lines, i, i), ParentOf(lines, i);
    if q.Some? {
      assert Open(lines, q.value, i + 1) && lines[i].level > lines[q.value].level;
    }
    if p.Some? && forall k | p.value < k < i :: lines[k].level > lines[p.value].level {
      assert Open(lines, p.value, i + 1);
    }
  }

  /** A file line on the folder's own level closes it: the deeper line after it goes to the root. */
  lemma FileClosesFolder(info: FileInfo) returns (lines: seq<Line>)
    ensures |lines| == 3 && NearestShallower(lines, 2, 2) == Some(0) && ParentOf(lines, 2) == None
  {
    lines := [FolderLine(0, "folder"), FileLine(0, info), FileLine(1, info)];
    assert NearestShallower(lines, 1, 2) == Some(0);
    assert lines[1].level <= lines[0].level;
    assert !Open(lines, 0, 3) && !Open(lines, 1, 3);
    assert LastOpen(lines, 0, 3) == None;
    assert LastOpen(lines, 1, 3) == None;
  }
}
