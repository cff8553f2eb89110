/** Several shares merged into one directory tree.

    A directory of the merged tree is a list of share references, carried from one path segment to the
    next inside the object id. The overlay below states what the tree is without ids.
 */
module ShareOverlay {

  import opened Wrappers
  import opened Base64
  import opened ShareCodec

  datatype Error = ServerError | ObjectNotFound

  /** One answer of the share service: the folders and the files of a node, as (id, name) pairs. */
  datatype Page = Page(catalogs: seq<(Text, string)>, contents: seq<(Text, string)>)

  /** The share service, asked for link, password and node. */
  type Server = (Text, Text, Text) -> Option<Page>

  /** One line of a listing before its reference is packed into an id. */
  datatype Listed = Listed(ref: ShareRef, name: string, isDir: bool)

  datatype Item = Item(id: Text, name: string, isDir: bool)

  function Lines(ref: ShareRef, entries: seq<(Text, string)>, isDir: bool): (r: seq<Listed>)
    ensures |r| == |entries|
  {
    seq(|entries|, i requires 0 <= i < |entries| =>
      Listed(ShareRef(ref.link, ref.password, entries[i].0), entries[i].1, isDir))
  }

  /** shareGetFilesWithRef: folders first; an empty node means the root of the share. */
  function ListShare(server: Server, ref: ShareRef): Option<seq<Listed>> {
    match server(ref.link, ref.password, if ref.node == [] then "root" else ref.node)
    case None => None
    case Some(page) => Some(Lines(ref, page.catalogs, true) + Lines(ref, page.contents, false))
  }

  // ----- the overlay -----

  datatype Node =
    | Dir(refs: seq<ShareRef>)
    | File(ref: ShareRef)

  /** The listings of the first `n` references that answer, one after the other. */
  function Listings(server: Server, refs: seq<ShareRef>, n: nat): seq<Listed>
    requires n <= |refs|
  {
    if n == 0 then []
    else
      Listings(server, refs, n - 1)
      + (match ListShare(server, refs[n - 1]) case None => [] case Some(lines) => lines)
  }

  predicate SomeFail(server: Server, refs: seq<ShareRef>, n: nat)
    requires n <= |refs|
  {
    exists i | 0 <= i < n :: ListShare(server, refs[i]).None?
  }

  /** The first of the first `n` lines called `name`. */
  function First(lines: seq<Listed>, n: nat, name: string): (k: Option<nat>)
    requires n <= |lines|
    ensures k.Some? ==> k.value < n && lines[k.value].name == name
  {
    if n == 0 then None
    else if First(lines, n - 1, name).Some? then First(lines, n - 1, name)
    else if lines[n - 1].name == name then Some(n - 1)
    else None
  }

  /** The references of all folders called `name`, in listing order. */
  function DirRefs(lines: seq<Listed>, n: nat, name: string): seq<ShareRef>
    requires n <= |lines|
  {
    if n == 0 then []
    else
      var front := DirRefs(lines, n - 1, name);
      if lines[n - 1].name == name && lines[n - 1].isDir then front + [lines[n - 1].ref] else front
  }

  /** The names in order of first appearance. */
  function FirstNames(lines: seq<Listed>, n: nat): seq<string>
    requires n <= |lines|
  {
    if n == 0 then []
    else
      var front := FirstNames(lines, n - 1);
      if First(lines, n - 1, lines[n - 1].name).None? then front + [lines[n - 1].name] else front
  }

  /** The first line of a name decides its kind; all folders of that name are merged. */
  function Lookup(lines: seq<Listed>, n: nat, name: string): Option<Node>
    requires n <= |lines|
  {
    match First(lines, n, name)
    case None => None
    case Some(k) => Some(if lines[k].isDir then Dir(DirRefs(lines, n, name)) else File(lines[k].ref))
  }

  function Resolve(server: Server, refs: seq<ShareRef>, parts: seq<string>): Result<Node, Error>
    requires parts != []
    decreases |parts|
  {
    var lines := Listings(server, refs, |refs|);
    if lines == [] && SomeFail(server, refs, |refs|) then Failure(ServerError)
    else
      match Lookup(lines, |lines|, parts[0])
      case None => Failure(ObjectNotFound)
      case Some(node) =>
        if |parts| == 1 then Success(node)
        else if node.Dir? then Resolve(server, node.refs, parts[1..])
        else Failure(ObjectNotFound)
  }

  // ----- the overlay, on the pages the service answers -----

  /** The page of a reference; an empty node asks for the root of the share. */
  function Asked(server: Server, ref: ShareRef): Option<Page> {
    server(ref.link, ref.password, if |ref.node| == 0 then "root" else ref.node)
  }

  predicate Named(entries: seq<(Text, string)>, name: string) {
    exists j | 0 <= j < |entries| :: entries[j].1 == name
  }

  predicate ListsFolder(server: Server, ref: ShareRef, name: string) {
    Asked(server, ref).Some? && Named(Asked(server, ref).value.catalogs, name)
  }

  predicate ListsFile(server: Server, ref: ShareRef, name: string) {
    Asked(server, ref).Some? && Named(Asked(server, ref).value.contents, name)
  }

  /** Reference `i` is the first of them whose page has an entry of this name. */
  predicate FirstToList(server: Server, refs: seq<ShareRef>, i: nat, name: string) {
    && i < |refs| && (ListsFolder(server, refs[i], name) || ListsFile(server, refs[i], name))
    && forall h | 0 <= h < i :: !ListsFolder(server, refs[h], name) && !ListsFile(server, refs[h], name)
  }

  /** `ref` leads to the first file of this name on the page. */
  ghost predicate FirstFile(page: Page, share: ShareRef, name: string, ref: ShareRef) {
    exists j: nat | j < |page.contents| && page.contents[j].1 == name ::
      ref == ShareRef(share.link, share.password, page.contents[j].0) && !Named(page.contents[..j], name)
  }

  /** The folders of this name among the first `m` entries, under the link and password of their share. */
  function FoldersNamed(share: ShareRef, catalogs: seq<(Text, string)>, m: nat, name: string): seq<ShareRef>
    requires m <= |catalogs|
  {
    if m == 0 then []
    else
      FoldersNamed(share, catalogs, m - 1, name)
      + if catalogs[m - 1].1 == name then [ShareRef(share.link, share.password, catalogs[m - 1].0)] else []
  }

  /** Those of the first `n` references, one page after the other. */
  function AllFolders(server: Server, refs: seq<ShareRef>, n: nat, name: string): seq<ShareRef>
    requires n <= |refs|
  {
    if n == 0 then []
    else
      AllFolders(server, refs, n - 1, name)
      + match Asked(server, refs[n - 1])
        case None => []
        case Some(page) => FoldersNamed(refs[n - 1], page.catalogs, |page.catalogs|, name)
  }

  /** What one path segment leads to: the first answering share that lists the name decides, and a folder before a
      file; a folder is all the folders of that name, of every share, in order. */
  ghost predicate OnPages(server: Server, refs: seq<ShareRef>, n: nat, name: string, node: Option<Node>)
    requires n <= |refs|
  {
    match node
    case None => forall i | 0 <= i < n :: !ListsFolder(server, refs[i], name) && !ListsFile(server, refs[i], name)
    case Some(Dir(found)) =>
      && found == AllFolders(server, refs, n, name)
      && exists i: nat | i < n :: FirstToList(server, refs, i, name) && ListsFolder(server, refs[i], name)
    case Some(File(ref)) =>
      exists i: nat | i < n :: FirstToList(server, refs, i, name) && !ListsFolder(server, refs[i], name)
                               && FirstFile(Asked(server, refs[i]).value, refs[i], name, ref)
  }

  lemma {:induction false} FirstConcat(a: seq<Listed>, b: seq<Listed>, k: nat, name: string)
    requires k <= |b|
    ensures First(a + b, |a| + k, name) ==
            if First(a, |a|, name).Some? then First(a, |a|, name)
            else match First(b, k, name) case None => None case Some(j) => Some(|a| + j)
  {
    if k == 0 {
      FirstPrefix(a + b, a, |a|, name);
    } else {
      FirstConcat(a, b, k - 1, name);
      assert (a + b)[|a| + k - 1] == b[k - 1];
    }
  }

  lemma {:induction false} FirstPrefix(a: seq<Listed>, b: seq<Listed>, n: nat, name: string)
    requires n <= |a| && n <= |b| && forall i | 0 <= i < n :: a[i] == b[i]
    ensures First(a, n, name) == First(b, n, name) && DirRefs(a, n, name) == DirRefs(b, n, name)
  {
    if n > 0 {
      FirstPrefix(a, b, n - 1, name);
    }
  }

  lemma {:induction false} DirRefsConcat(a: seq<Listed>, b: seq<Listed>, k: nat, name: string)
    requires k <= |b|
    ensures DirRefs(a + b, |a| + k, name) == DirRefs(a, |a|, name) + DirRefs(b, k, name)
  {
    if k == 0 {
      FirstPrefix(a + b, a, |a|, name);
    } else {
      DirRefsConcat(a, b, k - 1, name);
      assert (a + b)[|a| + k - 1] == b[k - 1];
    }
  }

  /** The lines of one half of a page. */
  lemma {:induction false} LinesLookup(share: ShareRef, entries: seq<(Text, string)>, isDir: bool, m: nat, name: string)
    requires m <= |entries|
    ensures var lines := Lines(share, entries, isDir);
            && DirRefs(lines, m, name) == (if isDir then FoldersNamed(share, entries, m, name) else [])
            && match First(lines, m, name)
               case None => forall j | 0 <= j < m :: entries[j].1 != name
               case Some(j) =>
                 && entries[j].1 == name
                 && lines[j] == Listed(ShareRef(share.link, share.password, entries[j].0), name, isDir)
                 && forall h | 0 <= h < j :: entries[h].1 != name
  {
    if m > 0 {
      LinesLookup(share, entries, isDir, m - 1, name);
    }
  }

  lemma HalfLookup(share: ShareRef, entries: seq<(Text, string)>, isDir: bool, name: string)
    ensures var lines := Lines(share, entries, isDir);
            && DirRefs(lines, |lines|, name) == (if isDir then FoldersNamed(share, entries, |entries|, name) else [])
            && (First(lines, |lines|, name).Some? <==> Named(entries, name))
            && (First(lines, |lines|, name).Some? ==>
                  var line := lines[First(lines, |lines|, name).value];
                  line.isDir == isDir && FirstFile(Page([], entries), share, name, line.ref))
  {
    hide DirRefs, FoldersNamed, Lines;
    LinesLookup(share, entries, isDir, |entries|, name);
    var lines := Lines(share, entries, isDir);
    if First(lines, |lines|, name).Some? {
      var j := First(lines, |lines|, name).value;
      assert !Named(entries[..j], name);
    }
  }

  /** What one page lists under the name. */
  lemma PageLookup(server: Server, share: ShareRef, name: string)
    ensures ListShare(server, share).Some? <==> Asked(server, share).Some?
    ensures ListShare(server, share).Some? ==>
      var page, lines := Asked(server, share).value, ListShare(server, share).value;
      && |lines| == |page.catalogs| + |page.contents|
      && DirRefs(lines, |lines|, name) == FoldersNamed(share, page.catalogs, |page.catalogs|, name)
      && match First(lines, |lines|, name)
         case None => !ListsFolder(server, share, name) && !ListsFile(server, share, name)
         case Some(k) =>
           && (lines[k].isDir <==> ListsFolder(server, share, name))
           && (!lines[k].isDir ==> ListsFile(server, share, name) && FirstFile(page, share, name, lines[k].ref))
  {
    if Asked(server, share).Some? {
      var page := Asked(server, share).value;
      var folders, files := Lines(share, page.catalogs, true), Lines(share, page.contents, false);
      assert ListShare(server, share) == Some(folders + files);
      hide First, DirRefs, FoldersNamed, Lines, ListShare, Asked, Named;
      HalfLookup(share, page.catalogs, true, name);
      HalfLookup(share, page.contents, false, name);
      FirstConcat(folders, files, |files|, name);
      DirRefsConcat(folders, files, |files|, name);
    }
  }

  lemma {:induction false} ListingsOnPages(server: Server, refs: seq<ShareRef>, n: nat, name: string)
    requires n <= |refs|
    ensures ShownOnPages(server, refs, n, name, Listings(server, refs, n))
  {
    hide ListShare, ShownOnPages;
    if n == 0 {
      NoListings(server, refs, name);
    } else {
      ListingsOnPages(server, refs, n - 1, name);
      var before := Listings(server, refs, n - 1);
      match ListShare(server, refs[n - 1])
      case None =>
        assert Listings(server, refs, n) == before;
        PageMissing(server, refs, n - 1, name, before);
      case Some(lines) =>
        assert Listings(server, refs, n) == before + lines;
        PageAdded(server, refs, n - 1, name, before, lines);
    }
  }

  /** These lines show the name as the first `n` pages do. */
  ghost predicate ShownOnPages(server: Server, refs: seq<ShareRef>, n: nat, name: string, lines: seq<Listed>)
    requires n <= |refs|
  {
    && DirRefs(lines, |lines|, name) == AllFolders(server, refs, n, name)
    && OnPages(server, refs, n, name, Lookup(lines, |lines|, name))
  }

  lemma PageMissing(server: Server, refs: seq<ShareRef>, n: nat, name: string, lines: seq<Listed>)
    requires n < |refs| && ShownOnPages(server, refs, n, name, lines) && ListShare(server, refs[n]).None?
    ensures ShownOnPages(server, refs, n + 1, name, lines)
  {
    PageLookup(server, refs[n], name);
    NotListed(server, refs[n], name);
    hide First, DirRefs, FoldersNamed, ListsFolder, ListsFile, FirstFile, Asked, ListShare;
  }

  lemma PageAdded(server: Server, refs: seq<ShareRef>, n: nat, name: string, lines: seq<Listed>, more: seq<Listed>)
    requires n < |refs| && ShownOnPages(server, refs, n, name, lines) && ListShare(server, refs[n]) == Some(more)
    ensures ShownOnPages(server, refs, n + 1, name, lines + more)
  {
    hide First, DirRefs, FoldersNamed, ListsFolder, ListsFile, FirstFile, Asked, ListShare;
    PageLookup(server, refs[n], name);
    FirstConcat(lines, more, |more|, name);
    DirRefsConcat(lines, more, |more|, name);
  }

  lemma NotListed(server: Server, share: ShareRef, name: string)
    requires Asked(server, share).None?
    ensures !ListsFolder(server, share, name) && !ListsFile(server, share, name)
  {
  }

  lemma NoListings(server: Server, refs: seq<ShareRef>, name: string)
    ensures ShownOnPages(server, refs, 0, name, [])
  {
  }

  // ----- the merge, on ids -----

  function ToItem(line: Listed): Item {
    Item(EncodeShareRef(line.ref), line.name, line.isDir)
  }

  function Find(files: seq<Item>, n: nat, name: string): (k: Option<nat>)
    requires n <= |files|
    ensures k.Some? ==> k.value < n && files[k.value].name == name
    ensures k.None? ==> forall i | 0 <= i < n :: files[i].name != name
  {
    if n == 0 then None
    else if Find(files, n - 1, name).Some? then Find(files, n - 1, name)
    else if files[n - 1].name == name then Some(n - 1)
    else None
  }

  function MergeOne(json: Json, files: seq<Item>, item: Item): seq<Item> {
    match Find(files, |files|, item.name)
    case None => files + [item]
    case Some(k) =>
      if !files[k].isDir || !item.isDir then files
      else
        match (DecodeShareRefs(json, files[k].id), DecodeShareRefs(json, item.id))
        case (Some(existing), Some(added)) =>
          files[k := Item(EncodeShareRefs(json, existing + added), item.name, true)]
        case _ => files
  }

  function MergeOnto(json: Json, files: seq<Item>, lines: seq<Listed>, n: nat): seq<Item>
    requires n <= |lines|
  {
    if n == 0 then files else MergeOne(json, MergeOnto(json, files, lines, n - 1), ToItem(lines[n - 1]))
  }

  function Merge(json: Json, lines: seq<Listed>, n: nat): seq<Item>
    requires n <= |lines|
  {
    MergeOnto(json, [], lines, n)
  }

  function MergedFiles(json: Json, server: Server, refs: seq<ShareRef>): Result<seq<Item>, Error> {
    var lines := Listings(server, refs, |refs|);
    var files := Merge(json, lines, |lines|);
    if files == [] && SomeFail(server, refs, |refs|) then Failure(ServerError) else Success(files)
  }

  /** The entry called `part`, and the references to carry on with; a file only serves as the last part. */
  function Enter(json: Json, files: seq<Item>, part: string, last: bool): Result<(Item, seq<ShareRef>), Error> {
    match Find(files, |files|, part)
    case None => Failure(ObjectNotFound)
    case Some(k) =>
      if files[k].isDir then
        match DecodeShareRefs(json, files[k].id)
        case None => Failure(ObjectNotFound)
        case Some(next) => Success((files[k], next))
      else if last then Success((files[k], []))
      else Failure(ObjectNotFound)
  }

  function GetObj(json: Json, server: Server, refs: seq<ShareRef>, parts: seq<string>): Result<Item, Error>
    requires parts != []
    decreases |parts|
  {
    match MergedFiles(json, server, refs)
    case Failure(e) => Failure(e)
    case Success(files) =>
      match Enter(json, files, parts[0], |parts| == 1)
      case Failure(e) => Failure(e)
      case Success((item, next)) =>
        if |parts| == 1 then Success(item) else GetObj(json, server, next, parts[1..])
  }

  // ----- the merge agrees with the overlay -----

  predicate GoodRef(json: Json, ref: ShareRef) {
    GoodLink(ref.link) && json.IsText(ref)
  }

  /** Item `item` is how the program carries `node`. */
  predicate Shows(json: Json, item: Item, node: Node) {
    match node
    case Dir(refs) => item.isDir && DecodeShareRefs(json, item.id) == Some(refs)
    case File(ref) => !item.isDir && item.id == EncodeShareRef(ref)
  }

  function Names(files: seq<Item>): (r: seq<string>)
    ensures |r| == |files|
  {
    seq(|files|, i requires 0 <= i < |files| => files[i].name)
  }

  /** The merged files are the entries of the overlay directory, one per name, in order of appearance. */
  ghost predicate Represents(json: Json, files: seq<Item>, lines: seq<Listed>, n: nat)
    requires n <= |lines|
  {
    Names(files) == FirstNames(lines, n) && forall name: string :: EntryShown(json, files, lines, n, name)
  }

  ghost predicate EntryShown(json: Json, files: seq<Item>, lines: seq<Listed>, n: nat, name: string)
    requires n <= |lines|
  {
    match (Find(files, |files|, name), Lookup(lines, n, name))
    case (None, None) => true
    case (Some(k), Some(node)) => Shows(json, files[k], node)
    case _ => false
  }

  predicate GoodLines(json: Json, lines: seq<Listed>) {
    forall i | 0 <= i < |lines| :: GoodRef(json, lines[i].ref)
  }

  lemma FindAppend(files: seq<Item>, item: Item, name: string)
    requires Find(files, |files|, item.name) == None
    ensures Find(files + [item], |files| + 1, name)
            == if name == item.name then Some(|files|) else Find(files, |files|, name)
  {
    FindPrefix(files + [item], files, |files|, name);
  }

  lemma {:induction false} FindPrefix(a: seq<Item>, b: seq<Item>, n: nat, name: string)
    requires n <= |a| && n <= |b| && forall i | 0 <= i < n :: a[i].name == b[i].name
    ensures Find(a, n, name) == Find(b, n, name)
  {
    if n > 0 {
      FindPrefix(a, b, n - 1, name);
    }
  }

  lemma {:induction false} DirRefsGood(json: Json, lines: seq<Listed>, n: nat, name: string)
    requires n <= |lines| && GoodLines(json, lines)
    ensures forall i | 0 <= i < |DirRefs(lines, n, name)| :: GoodRef(json, DirRefs(lines, n, name)[i])
    ensures First(lines, n, name).None? ==> DirRefs(lines, n, name) == []
    ensures First(lines, n, name).Some? && lines[First(lines, n, name).value].isDir ==> DirRefs(lines, n, name) != []
  {
    if n > 0 {
      DirRefsGood(json, lines, n - 1, name);
    }
  }

  /** What one more line does to the overlay entry of `name`. */
  lemma LookupStep(json: Json, lines: seq<Listed>, n: nat, name: string)
    requires n < |lines| && GoodLines(json, lines)
    ensures var line := lines[n];
            var before := Lookup(lines, n, name);
            Lookup(lines, n + 1, name) ==
              if name != line.name then before
              else
                match before
                case None => Some(if line.isDir then Dir([line.ref]) else File(line.ref))
                case Some(Dir(refs)) => Some(if line.isDir then Dir(refs + [line.ref]) else Dir(refs))
                case Some(File(ref)) => before
    ensures Lookup(lines, n, name).Some? && Lookup(lines, n, name).value.Dir? ==>
              var refs := Lookup(lines, n, name).value.refs;
              refs != [] && forall i | 0 <= i < |refs| :: GoodRef(json, refs[i])
  {
    DirRefsGood(json, lines, n, name);
    var before, after := First(lines, n, name), First(lines, n + 1, name);
    if before.Some? {
      assert after == before;
    } else {
      assert after == if name == lines[n].name then Some(n) else None;
      if name == lines[n].name && lines[n].isDir {
        assert DirRefs(lines, n + 1, name) == [lines[n].ref];
      }
    }
  }

  /** A merged id carries both lists, in order. */
  lemma MergedId(json: Json, existing: seq<ShareRef>, ref: ShareRef)
    requires json.Faithful() && existing != [] && GoodRef(json, ref)
    requires forall i | 0 <= i < |existing| :: GoodRef(json, existing[i])
    ensures DecodeShareRefs(json, EncodeShareRef(ref)) == Some([ref])
    ensures DecodeShareRefs(json, EncodeShareRefs(json, existing + [ref])) == Some(existing + [ref])
  {
    LoneRoundTrip(json, ref);
    RefsRoundTrip(json, existing + [ref]);
  }

  /** What the merge makes of the item it finds under the line's name. */
  lemma MergeMeets(json: Json, files: seq<Item>, line: Listed, node: Node, k: nat)
    requires json.Faithful() && GoodRef(json, line.ref)
    requires Find(files, |files|, line.name) == Some(k) && Shows(json, files[k], node)
    requires node.Dir? ==> node.refs != [] && forall i | 0 <= i < |node.refs| :: GoodRef(json, node.refs[i])
    ensures var files' := MergeOne(json, files, ToItem(line));
            && |files'| == |files| && (forall i | 0 <= i < |files| :: files'[i].name == files[i].name)
            && Shows(json, files'[k], if node.Dir? && line.isDir then Dir(node.refs + [line.ref]) else node)
  {
    hide Find, EncodeShareRef, DecodeShareRefs, EncodeShareRefs, GoodRef;
    if node.Dir? && line.isDir {
      MergedId(json, node.refs, line.ref);
    }
  }

  /** What it makes of a line whose name is new. */
  lemma MergeAdds(json: Json, files: seq<Item>, line: Listed)
    requires json.Faithful() && GoodRef(json, line.ref) && Find(files, |files|, line.name) == None
    ensures var files' := MergeOne(json, files, ToItem(line));
            && Find(files', |files'|, line.name) == Some(|files|)
            && Shows(json, files'[|files|], if line.isDir then Dir([line.ref]) else File(line.ref))
  {
    hide Find, EncodeShareRef, DecodeShareRefs, EncodeShareRefs;
    FindAppend(files, ToItem(line), line.name);
    LoneRoundTrip(json, line.ref);
  }

  /** The entry of the merged line itself. */
  lemma MergeOneOwn(json: Json, files: seq<Item>, lines: seq<Listed>, n: nat)
    requires n < |lines| && GoodLines(json, lines) && json.Faithful()
    requires EntryShown(json, files, lines, n, lines[n].name)
    ensures EntryShown(json, MergeOne(json, files, ToItem(lines[n])), lines, n + 1, lines[n].name)
  {
    var line, files' := lines[n], MergeOne(json, files, ToItem(lines[n]));
    assert GoodRef(json, line.ref);
    hide Lookup, GoodRef, GoodLines, Find, Shows, MergeOne, ToItem;
    LookupStep(json, lines, n, line.name);
    match Find(files, |files|, line.name) {
      case None =>
        MergeAdds(json, files, line);
      case Some(k) =>
        MergeMeets(json, files, line, Lookup(lines, n, line.name).value, k);
        FindPrefix(files', files, |files|, line.name);
    }
  }

  /** Every other entry is untouched. */
  lemma MergeOneOther(json: Json, files: seq<Item>, lines: seq<Listed>, n: nat, name: string)
    requires n < |lines| && GoodLines(json, lines) && name != lines[n].name
    requires EntryShown(json, files, lines, n, name)
    ensures EntryShown(json, MergeOne(json, files, ToItem(lines[n])), lines, n + 1, name)
  {
    var item := ToItem(lines[n]);
    LookupStep(json, lines, n, name);
    hide Lookup, EncodeShareRef, DecodeShareRefs, EncodeShareRefs;
    match Find(files, |files|, item.name) {
      case None =>
        FindAppend(files, item, name);
      case Some(k) =>
        FindPrefix(MergeOne(json, files, item), files, |files|, name);
    }
  }

  lemma MergeOneRepresents(json: Json, files: seq<Item>, lines: seq<Listed>, n: nat)
    requires n < |lines| && GoodLines(json, lines) && json.Faithful()
    requires Represents(json, files, lines, n)
    ensures Represents(json, MergeOne(json, files, ToItem(lines[n])), lines, n + 1)
  {
    var files' := MergeOne(json, files, ToItem(lines[n]));
    var m, own := n + 1, lines[n].name;
    assert EntryShown(json, files, lines, n, own);
    MergeOneNames(json, files, lines, n);
    hide EntryShown, MergeOne, FirstNames, GoodLines;
    forall name: string ensures EntryShown(json, files', lines, m, name) {
      assert EntryShown(json, files, lines, n, name);
      if name == own {
        MergeOneOwn(json, files, lines, n);
      } else {
        MergeOneOther(json, files, lines, n, name);
      }
    }
  }

  lemma MergeOneNames(json: Json, files: seq<Item>, lines: seq<Listed>, n: nat)
    requires n < |lines| && Names(files) == FirstNames(lines, n)
    requires EntryShown(json, files, lines, n, lines[n].name)
    ensures Names(MergeOne(json, files, ToItem(lines[n]))) == FirstNames(lines, n + 1)
  {
    hide DecodeShareRefs, EncodeShareRefs, EncodeShareRef;
    var files' := MergeOne(json, files, ToItem(lines[n]));
    if Find(files, |files|, lines[n].name).None? {
      assert Names(files') == Names(files) + [lines[n].name];
    } else {
      assert Names(files') == Names(files);
    }
  }

  lemma MergeStep(json: Json, lines: seq<Listed>, n: nat)
    requires n < |lines|
    ensures Merge(json, lines, n + 1) == MergeOne(json, Merge(json, lines, n), ToItem(lines[n]))
  {
  }

  lemma NothingMerged(json: Json, lines: seq<Listed>)
    ensures Merge(json, lines, 0) == [] && Represents(json, [], lines, 0)
  {
  }

  lemma {:induction false} MergeRepresents(json: Json, lines: seq<Listed>, n: nat)
    requires n <= |lines| && GoodLines(json, lines) && json.Faithful()
    ensures Represents(json, Merge(json, lines, n), lines, n)
  {
    hide Merge, MergeOne, Represents, GoodLines;
    if n == 0 {
      NothingMerged(json, lines);
    } else {
      MergeRepresents(json, lines, n - 1);
      MergeOneRepresents(json, Merge(json, lines, n - 1), lines, n - 1);
      MergeStep(json, lines, n - 1);
    }
  }

  // ----- resolving a path -----

  /** Asked in text, the service lists text. */
  ghost predicate TextServer(json: Json, server: Server) {
    forall ref: ShareRef | json.IsText(ref) && Asked(server, ref).Some? :: TextPage(json, Asked(server, ref).value)
  }

  predicate TextPage(json: Json, page: Page) {
    && (forall j | 0 <= j < |page.catalogs| :: json.isUtf8(page.catalogs[j].0))
    && forall j | 0 <= j < |page.contents| :: json.isUtf8(page.contents[j].0)
  }

  lemma {:induction false} ListingsGood(json: Json, server: Server, refs: seq<ShareRef>, n: nat)
    requires n <= |refs| && TextServer(json, server)
    requires forall i | 0 <= i < |refs| :: GoodRef(json, refs[i])
    ensures GoodLines(json, Listings(server, refs, n))
  {
    hide ListShare, GoodRef, GoodLines, TextServer;
    if n == 0 {
      NoLines(json);
    } else {
      ListingsGood(json, server, refs, n - 1);
      ListingGood(json, server, refs[n - 1]);
      var front, lines := Listings(server, refs, n - 1), ListShare(server, refs[n - 1]);
      assert front + [] == front;
      if lines.Some? {
        MoreGood(json, front, lines.value);
      }
    }
  }

  lemma NoLines(json: Json)
    ensures GoodLines(json, [])
  {
  }

  lemma ListingGood(json: Json, server: Server, ref: ShareRef)
    requires TextServer(json, server) && GoodRef(json, ref)
    ensures ListShare(server, ref).Some? ==> GoodLines(json, ListShare(server, ref).value)
  {
    hide GoodLink;
    if ListShare(server, ref).Some? {
      assert TextPage(json, Asked(server, ref).value);
    }
  }

  lemma MoreGood(json: Json, a: seq<Listed>, b: seq<Listed>)
    requires GoodLines(json, a) && GoodLines(json, b)
    ensures GoodLines(json, a + b)
  {
    hide GoodRef;
  }

  /** The program and the overlay give the same answer. */
  predicate Agree(json: Json, r: Result<Item, Error>, s: Result<Node, Error>) {
    match (r, s)
    case (Success(item), Success(node)) => Shows(json, item, node)
    case (Failure(e), Failure(f)) => e == f
    case _ => false
  }

  lemma {:induction false} ResolvesLikeOverlay(json: Json, server: Server, refs: seq<ShareRef>, parts: seq<string>)
    requires parts != [] && json.Faithful() && TextServer(json, server)
    requires forall i | 0 <= i < |refs| :: GoodRef(json, refs[i])
    ensures Agree(json, GetObj(json, server, refs, parts), Resolve(server, refs, parts))
    decreases |parts|
  {
    hide Merge, Listings, GoodLines, Represents, DecodeShareRefs, SomeFail, GoodRef, TextServer, First, Find, DirRefs, Lookup;
    var lines := Listings(server, refs, |refs|);
    var files := Merge(json, lines, |lines|);
    ListingsGood(json, server, refs, |refs|);
    MergeRepresents(json, lines, |lines|);
    EmptyTogether(json, lines, |lines|);
    EntryFound(json, files, lines, |lines|, parts[0]);
    var node := Lookup(lines, |lines|, parts[0]);
    if node.Some? && node.value.Dir? && |parts| > 1 {
      ResolvesLikeOverlay(json, server, node.value.refs, parts[1..]);
    }
  }

  lemma EntryFound(json: Json, files: seq<Item>, lines: seq<Listed>, n: nat, name: string)
    requires n <= |lines| && GoodLines(json, lines) && Represents(json, files, lines, n)
    ensures EntryShown(json, files, lines, n, name)
    ensures var node := Lookup(lines, n, name);
            node.Some? && node.value.Dir? ==> forall i | 0 <= i < |node.value.refs| :: GoodRef(json, node.value.refs[i])
  {
    DirRefsGood(json, lines, n, name);
    hide GoodLines, GoodRef, EntryShown, DirRefs, First;
  }

  lemma EmptyTogether(json: Json, lines: seq<Listed>, n: nat)
    requires n <= |lines|
    ensures Merge(json, lines, n) == [] <==> n == 0
  {
  }

  /** No share lists anything, and one does not answer. */
  predicate NothingShown(server: Server, refs: seq<ShareRef>) {
    && (forall i | 0 <= i < |refs| && Asked(server, refs[i]).Some? :: Asked(server, refs[i]).value == Page([], []))
    && exists i | 0 <= i < |refs| :: Asked(server, refs[i]).None?
  }

  /** One path segment, as the pages decide it: what it leads to, and when it fails. */
  lemma SegmentExactly(server: Server, refs: seq<ShareRef>, name: string)
    ensures match Resolve(server, refs, [name])
            case Success(node) => OnPages(server, refs, |refs|, name, Some(node))
            case Failure(e) =>
              && OnPages(server, refs, |refs|, name, None)
              && e == if NothingShown(server, refs) then ServerError else ObjectNotFound
  {
    hide OnPages, Lookup, Listings, SomeFail, NothingShown;
    ListingsOnPages(server, refs, |refs|, name);
    NothingIsShown(server, refs);
    EmptyLookup(name);
  }

  lemma NothingIsShown(server: Server, refs: seq<ShareRef>)
    ensures Listings(server, refs, |refs|) == [] && SomeFail(server, refs, |refs|) <==> NothingShown(server, refs)
  {
    hide Asked, Listings, SomeFail;
    NothingListed(server, refs, |refs|);
  }

  lemma EmptyLookup(name: string)
    ensures Lookup([], 0, name) == None
  {
  }

  lemma {:induction false} NothingListed(server: Server, refs: seq<ShareRef>, n: nat)
    requires n <= |refs|
    ensures Listings(server, refs, n) == [] <==>
            forall i | 0 <= i < n && Asked(server, refs[i]).Some? :: Asked(server, refs[i]).value == Page([], [])
    ensures SomeFail(server, refs, n) <==> exists i | 0 <= i < n :: Asked(server, refs[i]).None?
  {
    hide ListShare, Asked;
    if n > 0 {
      NothingListed(server, refs, n - 1);
      EmptyPage(server, refs[n - 1]);
    }
  }

  lemma EmptyPage(server: Server, share: ShareRef)
    ensures ListShare(server, share).Some? <==> Asked(server, share).Some?
    ensures ListShare(server, share).Some? ==> (ListShare(server, share).value == [] <==> Asked(server, share).value == Page([], []))
  {
  }

  /** A longer path goes on inside the folder its first segment leads to. */
  lemma PathStep(server: Server, refs: seq<ShareRef>, parts: seq<string>)
    requires |parts| > 1
    ensures Resolve(server, refs, parts) ==
            match Resolve(server, refs, parts[..1])
            case Success(Dir(found)) => Resolve(server, found, parts[1..])
            case Success(File(_)) => Failure(ObjectNotFound)
            case Failure(e) => Failure(e)
  {
    hide Lookup, Listings;
  }

  /** The item is a folder exactly when the first share that lists the name has a folder of it; its id unpacks to all
      folders of that name, or leads to the first file. */
  ghost predicate ItemOnPages(json: Json, server: Server, refs: seq<ShareRef>, name: string, item: Item) {
    && item.name == name
    && exists i: nat | FirstToList(server, refs, i, name) ::
         && (item.isDir <==> ListsFolder(server, refs[i], name))
         && if item.isDir then DecodeShareRefs(json, item.id) == Some(AllFolders(server, refs, |refs|, name))
            else exists ref :: FirstFile(Asked(server, refs[i]).value, refs[i], name, ref) && item.id == EncodeShareRef(ref)
  }

  lemma ItemExactly(json: Json, server: Server, refs: seq<ShareRef>, name: string)
    requires json.Faithful() && TextServer(json, server)
    requires forall i | 0 <= i < |refs| :: GoodRef(json, refs[i])
    ensures var r := GetObj(json, server, refs, [name]);
            if r.Success? then ItemOnPages(json, server, refs, name, r.value)
            else
              && r.error == (if NothingShown(server, refs) then ServerError else ObjectNotFound)
              && forall i | 0 <= i < |refs| :: !ListsFolder(server, refs[i], name) && !ListsFile(server, refs[i], name)
  {
    hide NothingShown, Resolve, Merge, AllFolders, DecodeShareRefs, EncodeShareRef, TextServer, FirstFile, GoodRef, FirstToList, Listings;
    ResolvesLikeOverlay(json, server, refs, [name]);
    SegmentExactly(server, refs, name);
  }

  // ----- exactly which root shares are served correctly -----

  ghost predicate AlwaysAgrees(json: Json, refs: seq<ShareRef>) {
    forall server: Server, parts: seq<string> | parts != [] && TextServer(json, server) ::
      Agree(json, GetObj(json, server, refs, parts), Resolve(server, refs, parts))
  }

  /** A service on which `link` holds one folder "d" and every other share is empty. */
  function OneFolder(link: Text, node: Text): Server {
    (l: Text, p: Text, n: Text) => Some(Page(if l == link then [(node, "d")] else [], []))
  }

  predicate FoldersOf(lines: seq<Listed>, link: Text) {
    forall i | 0 <= i < |lines| :: lines[i].isDir && lines[i].name == "d" && lines[i].ref.link == link
  }

  lemma OneFolderLists(link: Text, node: Text, ref: ShareRef)
    ensures ListShare(OneFolder(link, node), ref)
            == Some(if ref.link == link then [Listed(ShareRef(link, ref.password, node), "d", true)] else [])
    ensures FoldersOf(ListShare(OneFolder(link, node), ref).value, link)
  {
    var entries: seq<(Text, string)> := if ref.link == link then [(node, "d")] else [];
    var line := Listed(ShareRef(ref.link, ref.password, node), "d", true);
    assert Lines(ref, entries, true) + Lines(ref, [], false) == if ref.link == link then [line] else [];
  }

  lemma OneFolderStep(link: Text, node: Text, ref: ShareRef)
    ensures var lines := ListShare(OneFolder(link, node), ref);
            lines.Some? && FoldersOf(lines.value, link) && (ref.link == link ==> lines.value != [])
  {
    hide ListShare, OneFolder, FoldersOf;
    OneFolderLists(link, node, ref);
  }

  lemma ListingsStep(server: Server, refs: seq<ShareRef>, n: nat)
    requires n <= |refs| && (n > 0 ==> ListShare(server, refs[n - 1]).Some?)
    ensures Listings(server, refs, n)
            == if n == 0 then [] else Listings(server, refs, n - 1) + ListShare(server, refs[n - 1]).value
  {
    hide ListShare;
  }

  lemma MoreFolders(a: seq<Listed>, b: seq<Listed>, link: Text)
    ensures FoldersOf([], link)
    ensures FoldersOf(a, link) && FoldersOf(b, link) ==> FoldersOf(a + b, link)
  {
  }

  lemma {:induction false} OneFolderListings(link: Text, node: Text, refs: seq<ShareRef>, n: nat, j: nat)
    requires n <= |refs|
    ensures var lines := Listings(OneFolder(link, node), refs, n);
            FoldersOf(lines, link) && (j < n && refs[j].link == link ==> lines != [])
  {
    hide ListShare, OneFolder, Listings, FoldersOf;
    var server := OneFolder(link, node);
    if n == 0 {
      ListingsStep(server, refs, 0);
      MoreFolders([], [], link);
    } else {
      OneFolderStep(link, node, refs[n - 1]);
      OneFolderListings(link, node, refs, n - 1, j);
      ListingsStep(server, refs, n);
      MoreFolders(Listings(server, refs, n - 1), ListShare(server, refs[n - 1]).value, link);
    }
  }

  lemma OneFolderIsText(json: Json, link: Text, node: Text)
    requires json.isUtf8(link) && json.isUtf8(node)
    ensures TextServer(json, OneFolder(link, node))
  {
  }

  /** Folders of a share whose ids cannot be unpacked never merge. */
  lemma {:induction false} BadFoldersStay(json: Json, lines: seq<Listed>, link: Text, n: nat)
    requires 0 < n <= |lines| && FoldersOf(lines, link) && !GoodLink(link)
    ensures Merge(json, lines, n) == [ToItem(lines[0])]
    ensures First(lines, n, "d") == Some(0)
  {
    LoneRoundTrip(json, lines[0].ref);
    hide EncodeShareRef, DecodeShareRefs, EncodeShareRefs;
    if n > 1 {
      BadFoldersStay(json, lines, link, n - 1);
    } else {
      assert Merge(json, lines, 0) == [];
    }
  }

  lemma BadLinkDisagrees(json: Json, refs: seq<ShareRef>, j: nat)
    requires j < |refs| && !GoodLink(refs[j].link)
    requires forall i | 0 <= i < |refs| :: json.IsText(refs[i])
    ensures !AlwaysAgrees(json, refs)
  {
    hide EncodeShareRef, DecodeShareRefs, Listings, OneFolder, Merge, GetObj, Resolve, TextServer, First;
    var link, node := refs[j].link, refs[j].node;
    assert json.IsText(refs[j]);
    var server := OneFolder(link, node);
    OneFolderIsText(json, link, node);
    var lines := Listings(server, refs, |refs|);
    OneFolderListings(link, node, refs, |refs|, j);
    BadFoldersStay(json, lines, link, |lines|);
    LoneRoundTrip(json, lines[0].ref);
    BadFolderHidden(json, server, refs, lines);
    assert !Agree(json, GetObj(json, server, refs, ["d"]), Resolve(server, refs, ["d"]));
  }

  lemma BadFolderHidden(json: Json, server: Server, refs: seq<ShareRef>, lines: seq<Listed>)
    requires lines == Listings(server, refs, |refs|) && lines != [] && lines[0].isDir && lines[0].name == "d"
    requires Merge(json, lines, |lines|) == [ToItem(lines[0])]
    requires First(lines, |lines|, "d") == Some(0)
    requires DecodeShareRefs(json, EncodeShareRef(lines[0].ref)) == None
    ensures Resolve(server, refs, ["d"]).Success? && GetObj(json, server, refs, ["d"]).Failure?
  {
    hide EncodeShareRef, DecodeShareRefs, Listings, Merge, First, DirRefs, SomeFail;
    var files := [ToItem(lines[0])];
    assert Find(files, 0, "d") == None;
    assert Find(files, 1, "d") == Some(0);
  }

  /** Path lookup is the overlay lookup, for every service and every path, exactly when no configured link
      id is empty or begins with the marker of a packed list. */
  lemma OverlayExactly(json: Json, refs: seq<ShareRef>)
    requires json.Faithful() && forall i | 0 <= i < |refs| :: json.IsText(refs[i])
    ensures AlwaysAgrees(json, refs) <==> forall i | 0 <= i < |refs| :: GoodLink(refs[i].link)
  {
    if j :| 0 <= j < |refs| && !GoodLink(refs[j].link) {
      BadLinkDisagrees(json, refs, j);
    } else {
      forall server: Server, parts: seq<string> | parts != [] && TextServer(json, server)
        ensures Agree(json, GetObj(json, server, refs, parts), Resolve(server, refs, parts))
      {
        ResolvesLikeOverlay(json, server, refs, parts);
      }
    }
  }

  // ----- the loops -----

  /** The outer loop of shareGetMergedFiles. `indices` remembers where each name was put. */
  method ShareGetMergedFiles(json: Json, server: Server, refs: seq<ShareRef>) returns (r: Result<seq<Item>, Error>)
    ensures r == MergedFiles(json, server, refs)
  {
    hide MergeOnto, ListShare, Indexed;
    var files: seq<Item> := [];
    var indices: map<string, nat> := map[];
    var failed := false;
    NothingIndexed(json);
    var i := 0;
    while i < |refs|
      invariant i <= |refs|
      invariant failed <==> SomeFail(server, refs, i)
      invariant files == Merge(json, Listings(server, refs, i), |Listings(server, refs, i)|)
      invariant Indexed(files, indices)
    {
      var items := ListShare(server, refs[i]);
      ghost var before := Listings(server, refs, i);
      i := i + 1;
      if items.None? {
        failed := true;
        assert Listings(server, refs, i) == before;
        continue;
      }
      MergeOntoConcat(json, [], before, items.value, |items.value|);
      files, indices := MergeItems(json, files, indices, items.value);
    }
    if files == [] && failed {
      return Failure(ServerError);
    }
    return Success(files);
  }

  /** The inner loop: one listing is merged into the files gathered so far. */
  method MergeItems(json: Json, files0: seq<Item>, indices0: map<string, nat>, items: seq<Listed>)
    returns (files: seq<Item>, indices: map<string, nat>)
    requires Indexed(files0, indices0)
    ensures files == MergeOnto(json, files0, items, |items|) && Indexed(files, indices)
  {
    hide DecodeShareRefs, EncodeShareRefs, ToItem, Indexed, Find;
    files, indices := files0, indices0;
    var k := 0;
    while k < |items|
      invariant k <= |items| && files == MergeOnto(json, files0, items, k) && Indexed(files, indices)
    {
      var item := ToItem(items[k]);
      IndexedStep(json, files, indices, item);
      if item.name !in indices {
        indices := indices[item.name := |files|];
        files := files + [item];
      } else {
        var idx := indices[item.name];
        if files[idx].isDir && item.isDir {
          var existing := DecodeShareRefs(json, files[idx].id);
          var added := DecodeShareRefs(json, item.id);
          if existing.Some? && added.Some? {
            files := files[idx := Item(EncodeShareRefs(json, existing.value + added.value), item.name, true)];
          }
        }
      }
      k := k + 1;
    }
  }

  /** `indices` maps every name to its place in `files`. */
  ghost predicate Indexed(files: seq<Item>, indices: map<string, nat>) {
    forall name: string :: IndexedAt(files, indices, name)
  }

  predicate IndexedAt(files: seq<Item>, indices: map<string, nat>, name: string) {
    (if name in indices then Some(indices[name]) else None) == Find(files, |files|, name)
  }

  lemma NothingIndexed(json: Json)
    ensures Indexed([], map[]) && Merge(json, [], 0) == []
  {
  }

  lemma IndexedStep(json: Json, files: seq<Item>, indices: map<string, nat>, item: Item)
    requires Indexed(files, indices)
    ensures (if item.name in indices then Some(indices[item.name]) else None) == Find(files, |files|, item.name)
    ensures Indexed(MergeOne(json, files, item),
                    if item.name in indices then indices else indices[item.name := |files|])
  {
    assert IndexedAt(files, indices, item.name);
    var files' := MergeOne(json, files, item);
    var indices' := if item.name in indices then indices else indices[item.name := |files|];
    hide IndexedAt, Find, MergeOne;
    forall name: string ensures IndexedAt(files', indices', name) {
      assert IndexedAt(files, indices, name) && IndexedAt(files, indices, item.name);
      IndexedStepAt(json, files, indices, item, name);
    }
  }

  lemma IndexedStepAt(json: Json, files: seq<Item>, indices: map<string, nat>, item: Item, name: string)
    requires IndexedAt(files, indices, item.name) && IndexedAt(files, indices, name)
    ensures IndexedAt(MergeOne(json, files, item),
                      if item.name in indices then indices else indices[item.name := |files|], name)
  {
    hide DecodeShareRefs, EncodeShareRefs;
    if Find(files, |files|, item.name).None? {
      FindAppend(files, item, name);
    } else {
      FindPrefix(MergeOne(json, files, item), files, |files|, name);
    }
  }

  lemma {:induction false} MergeOntoPrefix(json: Json, files: seq<Item>, a: seq<Listed>, b: seq<Listed>, n: nat)
    requires n <= |a| && n <= |b| && forall i | 0 <= i < n :: a[i] == b[i]
    ensures MergeOnto(json, files, a, n) == MergeOnto(json, files, b, n)
  {
    hide MergeOne, ToItem;
    if n > 0 {
      MergeOntoPrefix(json, files, a, b, n - 1);
    }
  }

  lemma {:induction false} MergeOntoConcat(json: Json, files: seq<Item>, a: seq<Listed>, b: seq<Listed>, k: nat)
    requires k <= |b|
    ensures MergeOnto(json, files, a + b, |a| + k) == MergeOnto(json, MergeOnto(json, files, a, |a|), b, k)
  {
    hide MergeOne;
    if k == 0 {
      MergeOntoPrefix(json, files, a + b, a, |a|);
    } else {
      MergeOntoConcat(json, files, a, b, k - 1);
      assert (a + b)[|a| + k - 1] == b[k - 1];
    }
  }

  ghost predicate UniqueNames(files: seq<Item>) {
    forall i, j | 0 <= i < j < |files| :: files[i].name != files[j].name
  }

  /** A merged listing never shows a name twice, whatever the ids. */
  lemma {:induction false} MergeUnique(json: Json, lines: seq<Listed>, n: nat)
    requires n <= |lines|
    ensures UniqueNames(Merge(json, lines, n))
  {
    hide DecodeShareRefs, EncodeShareRefs;
    if n > 0 {
      MergeUnique(json, lines, n - 1);
    }
  }

  lemma FindUnique(files: seq<Item>, n: nat, k: nat)
    requires k < n <= |files| && UniqueNames(files)
    ensures Find(files, n, files[k].name) == Some(k)
  {
  }

  /** The inner loop of shareGetObj, which looks for `part` among merged files. */
  method EnterPart(json: Json, items: seq<Item>, part: string, last: bool)
    returns (r: Result<(Item, seq<ShareRef>), Error>)
    requires UniqueNames(items)
    ensures r == Enter(json, items, part, last)
  {
    hide DecodeShareRefs, Find, UniqueNames;
    var matched: Option<Item> := None;
    var k := 0;
    FindNone(items, part);
    while k < |items|
      invariant k <= |items|
      invariant matched.None? ==> forall i | 0 <= i < k :: items[i].name != part
      invariant matched.Some? ==> last && exists i | 0 <= i < k ::
                  Find(items, |items|, part) == Some(i) && items[i] == matched.value && !items[i].isDir
    {
      var item := items[k];
      if item.name == part {
        FindUnique(items, |items|, k);
        matched := Some(item);
        if item.isDir {
          var itemRefs := DecodeShareRefs(json, item.id);
          if itemRefs.None? {
            return Failure(ObjectNotFound);
          }
          return Success((item, itemRefs.value));
        }
        if !last {
          return Failure(ObjectNotFound);
        }
      }
      k := k + 1;
    }
    if matched.None? {
      return Failure(ObjectNotFound);
    }
    return Success((matched.value, []));
  }

  /** shareGetObj; an empty list of parts stands for the path "/". */
  method ShareGetObj(json: Json, server: Server, roots: seq<ShareRef>, parts: seq<string>) returns (r: Result<Item, Error>)
    ensures r == if parts == [] then Success(Item("root", "root", true)) else GetObj(json, server, roots, parts)
  {
    if parts == [] {
      return Success(Item("root", "root", true));
    }
    hide MergedFiles, Enter, UniqueNames;
    var currentRefs, currentObj := roots, None;
    var idx := 0;
    while idx < |parts|
      invariant idx <= |parts|
      invariant if idx < |parts| then GetObj(json, server, roots, parts) == GetObj(json, server, currentRefs, parts[idx..])
                else currentObj.Some? && GetObj(json, server, roots, parts) == Success(currentObj.value)
    {
      var items := ShareGetMergedFiles(json, server, currentRefs);
      if items.Failure? {
        return Failure(items.error);
      }
      MergedFilesUnique(json, server, currentRefs, items.value);
      var entered := EnterPart(json, items.value, parts[idx], idx == |parts| - 1);
      if entered.Failure? {
        return Failure(entered.error);
      }
      currentObj, currentRefs := Some(entered.value.0), entered.value.1;
      assert parts[idx..][1..] == parts[idx + 1..];
      idx := idx + 1;
    }
    return Success(currentObj.value);
  }

  lemma FindNone(files: seq<Item>, name: string)
    ensures (forall i | 0 <= i < |files| :: files[i].name != name) ==> Find(files, |files|, name) == None
  {
  }

  lemma MergedFilesUnique(json: Json, server: Server, refs: seq<ShareRef>, files: seq<Item>)
    requires MergedFiles(json, server, refs) == Success(files)
    ensures UniqueNames(files)
  {
    var lines := Listings(server, refs, |refs|);
    MergeUnique(json, lines, |lines|);
  }

  /** shareRootEntries: the configured shares, each at its root. */
  function RootRefs(entries: seq<(Text, Text)>): (refs: seq<ShareRef>)
    ensures |refs| == |entries|
  {
    seq(|entries|, i requires 0 <= i < |entries| => ShareRef(entries[i].0, entries[i].1, "root"))
  }

  /** For shares with usable link ids, every path of the configured tree resolves as in the overlay. */
  lemma ConfiguredTree(json: Json, server: Server, entries: seq<(Text, Text)>, parts: seq<string>)
    requires json.Faithful() && TextServer(json, server) && json.isUtf8("root") && parts != []
    requires forall i | 0 <= i < |entries| ::
               GoodLink(entries[i].0) && json.isUtf8(entries[i].0) && json.isUtf8(entries[i].1)
    ensures Agree(json, GetObj(json, server, RootRefs(entries), parts), Resolve(server, RootRefs(entries), parts))
    ensures forall i | 0 <= i < |entries| :: Asked(server, RootRefs(entries)[i]) == server(entries[i].0, entries[i].1, "root")
  {
    ResolvesLikeOverlay(json, server, RootRefs(entries), parts);
  }
}
