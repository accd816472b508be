/**
  `readDocument` (src/config/internal/include.ts): files that name files, read
  into one tree. Cycles and chains of more than eight files are refused.
 */
module IncludeRead {
  import opened Prelude
  import opened JsoncText
  import opened JsoncSpec
  import JsoncGrammar
  import JsoncParser
  import opened Include

  const MAX_INCLUDE_DEPTH := 8
  const INCLUDE: Text := [0x69, 0x6E, 0x63, 0x6C, 0x75, 0x64, 0x65]

  type Path = string

  /** What a written path comes to: home expansion fails, nothing is left, or an absolute path. */
  datatype Resolved = HomeError | EmptyPath | At(path: Path)

  /**
    The file system and the resolution of a path written in a file: `files`
    holds the text of every file that exists, or `None` when it cannot be read.
   */
  datatype World = World(files: map<Path, Option<Text>>, resolve: (Path, Text) -> Resolved)

  datatype Refusal =
    | Cycle | TooDeepInclude | Unreadable | BadSyntax(error: ConfigError)
    | NoPaths | NotAString | BadCharacter | BadHome | NoPath | NotFound(path: Path)

  /** A refusal names the file being read, except that of a path names the place that wrote it. */
  datatype Loaded<T> = Got(value: T) | Refused(at: Place, why: Refusal)

  function InFile(path: Path): Place { Place(path, 0) }

  // ---- one file ------------------------------------------------------------

  function Parse(w: World, path: Path): Loaded<Node> {
    if path !in w.files || w.files[path].None? then Refused(InFile(path), Unreadable)
    else
      var s := Source(path, WithoutBom(w.files[path].value));
      match DocumentAt(s)
      case Ok(root, _) => Got(root)
      case Fail(problem, at) => Refused(InFile(path), BadSyntax(Report(s, problem, at)))
  }

  /** The absolute path one include item names. */
  function ItemPath(w: World, from: Path, item: Node): Loaded<Path> {
    if !item.Str? then Refused(item.at, NotAString)
    else if exists i :: 0 <= i < |item.value| && item.value[i] in {0, NEWLINE, RETURN} then Refused(item.at, BadCharacter)
    else
      match w.resolve(from, item.value)
      case HomeError => Refused(item.at, BadHome)
      case EmptyPath => Refused(item.at, NoPath)
      case At(path) => if path in w.files then Got(path) else Refused(item.at, NotFound(path))
  }

  function ItemPaths(w: World, from: Path, items: seq<Node>): (r: Loaded<seq<Path>>)
    ensures r.Got? ==> |r.value| == |items|
  {
    if items == [] then Got([])
    else
      var n := |items| - 1;
      var init := ItemPaths(w, from, items[..n]);
      if init.Refused? then init
      else
        var last := ItemPath(w, from, items[n]);
        if last.Refused? then Refused(last.at, last.why) else Got(init.value + [last.value])
  }

  function ItemsOf(node: Node): seq<Node> { if node.Array? then node.items else [node] }

  /** `includePaths`: the files an `include` value names, in order. */
  function IncludePaths(w: World, from: Path, node: Node): (r: Loaded<seq<Path>>)
    ensures r.Got? ==> |r.value| > 0
  {
    if ItemsOf(node) == [] then Refused(node.at, NoPaths) else ItemPaths(w, from, ItemsOf(node))
  }

  function Without(es: seq<Entry>, key: Text): seq<Entry> {
    var i := Find(es, key);
    if i < |es| then es[..i] + es[i + 1..] else es
  }

  /** One file by itself: the files it includes, and its document without the `include` key. */
  datatype Single = Single(includes: seq<Path>, own: Node)

  function ReadOne(w: World, path: Path): Loaded<Single> {
    var parsed := Parse(w, path);
    if parsed.Refused? then Refused(parsed.at, parsed.why)
    else
      var root := parsed.value;
      if !root.Object? || Get(root.entries, INCLUDE).None? then Got(Single([], root))
      else
        var paths := IncludePaths(w, path, Get(root.entries, INCLUDE).value);
        if paths.Refused? then Refused(paths.at, paths.why)
        else Got(Single(paths.value, Object(root.at, Without(root.entries, INCLUDE))))
  }

  // ---- the recursion -------------------------------------------------------

  function Room(stack: seq<Path>): nat {
    if |stack| < MAX_INCLUDE_DEPTH then MAX_INCLUDE_DEPTH - |stack| else 0
  }

  /** `stack` is the chain of files already being read. */
  function Read(w: World, path: Path, stack: seq<Path>): Loaded<Node>
    decreases Room(stack), 0, 0
  {
    if path in stack then Refused(InFile(path), Cycle)
    else if |stack| >= MAX_INCLUDE_DEPTH then Refused(InFile(path), TooDeepInclude)
    else
      var one := ReadOne(w, path);
      if one.Refused? then Refused(one.at, one.why)
      else if one.value.includes == [] then Got(one.value.own)
      else
        var docs := ReadAll(w, one.value.includes, |one.value.includes|, stack + [path]);
        if docs.Refused? then docs else Got(Merge(docs.value, one.value.own))
  }

  /** The first `n` of `paths`, merged from the left. */
  function ReadAll(w: World, paths: seq<Path>, n: nat, stack: seq<Path>): Loaded<Node>
    requires 0 < n <= |paths|
    decreases Room(stack), 1, n
  {
    if n == 1 then Read(w, paths[0], stack)
    else
      var init := ReadAll(w, paths, n - 1, stack);
      if init.Refused? then init
      else
        var last := Read(w, paths[n - 1], stack);
        if last.Refused? then last else Got(Merge(init.value, last.value))
  }

  lemma {:induction false} WithoutIsKeyed(n: Node, key: Text)
    requires n.Object? && Keyed(n)
    ensures Keyed(Object(n.at, Without(n.entries, key)))
  {
    hide Find;
  }

  // ---- every document has unique keys --------------------------------------

  lemma {:induction false} MeaningIsKeyed(s: Source, p: nat, c: Cst, depth: int)
    requires CstOk(c, depth)
    ensures Keyed(Meaning(s, p, c))
    decreases c, 0
  {
    hide PlaceAt, PrintNumber, Decode, MeaningOfMembers, MeaningOfElements;
    match c
    case FullObject(members) => MembersAreKeyed(s, p + 1, members, depth, {});
    case FullArray(elements) =>
      ElementsAreKeyed(s, p + 1, elements, depth);
      assert Meaning(s, p, c).items == MeaningOfElements(s, p + 1, elements);
    case EmptyObject(_) => assert Meaning(s, p, c).entries == [];
    case EmptyArray(_) => assert Meaning(s, p, c).items == [];
    case _ =>
  }

  lemma {:induction false} MembersAreKeyed(s: Source, p: nat, m: Members, depth: int, seen: set<Text>)
    requires MembersOk(m, depth, seen)
    ensures var es := MeaningOfMembers(s, p, m);
            Unique(es) && forall i :: 0 <= i < |es| ==> Keyed(es[i].node) && es[i].key !in seen
    decreases m, 1
  {
    hide PrintTrivia, PrintString, Print, Decode, Meaning, MeaningOfMembers, CstOk, Keyed, JsoncGrammar.ValueOf, JsoncGrammar.AfterOf;
    JsoncGrammar.FirstMeaning(s, p, m);
    var at := JsoncGrammar.ValueOf(p, m);
    MeaningIsKeyed(s, at, m.value, depth + 1);
    if m.rest.Next? {
      var next := JsoncGrammar.AfterOf(p, m) + 1;
      MembersAreKeyed(s, next, m.rest.more, depth, seen + {Decode(m.key)});
      StaysUnique(Entry(Decode(m.key), Meaning(s, at, m.value)), MeaningOfMembers(s, next, m.rest.more), seen);
    }
  }

  lemma {:induction false} StaysUnique(first: Entry, more: seq<Entry>, seen: set<Text>)
    requires first.key !in seen && Keyed(first.node) && Unique(more)
    requires forall i :: 0 <= i < |more| ==> Keyed(more[i].node) && more[i].key !in seen + {first.key}
    ensures var es := [first] + more; Unique(es) && forall i :: 0 <= i < |es| ==> Keyed(es[i].node) && es[i].key !in seen
  {
    hide Keyed;
  }

  lemma {:induction false} ElementsAreKeyed(s: Source, p: nat, m: Elements, depth: int)
    requires ElementsOk(m, depth)
    ensures var items := MeaningOfElements(s, p, m); forall i :: 0 <= i < |items| ==> Keyed(items[i])
    decreases m, 1
  {
    hide PrintTrivia, Print, Meaning, CstOk, Keyed;
    JsoncGrammar.FirstMeaningOfElements(s, p, m);
    var d := p + |PrintTrivia(m.lead)|;
    MeaningIsKeyed(s, d, m.value, depth + 1);
    if m.rest.Next? {
      ElementsAreKeyed(s, d + |Print(m.value)| + |PrintTrivia(m.after)| + 1, m.rest.more, depth);
    }
  }

  /** What the reader accepts repeats no key. */
  lemma {:induction false} DocumentIsKeyed(s: Source)
    requires DocumentAt(s).Ok?
    ensures Keyed(DocumentAt(s).value)
  {
    hide DocumentAt, Meaning, Keyed, PrintTrivia, PrintDocument;
    var d := JsoncGrammar.DocumentRead(s);
    JsoncGrammar.DocumentWritten(s, d);
    MeaningIsKeyed(s, |PrintTrivia(d.lead)|, d.value, 1);
  }

  lemma {:induction false} OneIsKeyed(w: World, path: Path)
    requires ReadOne(w, path).Got?
    ensures Keyed(ReadOne(w, path).value.own)
  {
    hide DocumentAt, Keyed, Find;
    DocumentIsKeyed(Source(path, WithoutBom(w.files[path].value)));
    var root := Parse(w, path).value;
    if root.Object? { WithoutIsKeyed(root, INCLUDE); }
  }

  lemma {:induction false} ReadIsKeyed(w: World, path: Path, stack: seq<Path>)
    requires Read(w, path, stack).Got?
    ensures Keyed(Read(w, path, stack).value)
    decreases Room(stack), 0, 0
  {
    hide Keyed, Merge, ReadOne;
    OneIsKeyed(w, path);
    var one := ReadOne(w, path).value;
    if one.includes != [] {
      AllAreKeyed(w, one.includes, |one.includes|, stack + [path]);
      MergeIsKeyed(ReadAll(w, one.includes, |one.includes|, stack + [path]).value, one.own);
    }
  }

  lemma {:induction false} AllAreKeyed(w: World, paths: seq<Path>, n: nat, stack: seq<Path>)
    requires 0 < n <= |paths| && ReadAll(w, paths, n, stack).Got?
    ensures Keyed(ReadAll(w, paths, n, stack).value)
    decreases Room(stack), 1, n
  {
    hide Keyed, Merge, Read;
    ReadIsKeyed(w, paths[n - 1], stack);
    if n > 1 {
      AllAreKeyed(w, paths, n - 1, stack);
      MergeIsKeyed(ReadAll(w, paths, n - 1, stack).value, Read(w, paths[n - 1], stack).value);
    }
  }

  // ---- the methods ---------------------------------------------------------

  method CollectPaths(w: World, from: Path, node: Node) returns (r: Loaded<seq<Path>>)
    ensures r == IncludePaths(w, from, node)
  {
    hide ItemPath;
    var items := ItemsOf(node);
    if items == [] { return Refused(node.at, NoPaths); }
    var paths: seq<Path> := [];
    ghost var goal := ItemPaths(w, from, items);
    for i := 0 to |items|
      invariant ItemPaths(w, from, items[..i]) == Got(paths)
    {
      assert items[..i + 1][..i] == items[..i];
      var path := ItemPath(w, from, items[i]);
      if path.Refused? {
        RefusalStands(w, from, items, i + 1);
        return Refused(path.at, path.why);
      }
      paths := paths + [path.value];
    }
    assert items[..|items|] == items;
    return Got(paths);
  }

  /** The first refusal is the one reported. */
  lemma {:induction false} RefusalStands(w: World, from: Path, items: seq<Node>, n: nat)
    requires n <= |items| && ItemPaths(w, from, items[..n]).Refused?
    ensures ItemPaths(w, from, items) == ItemPaths(w, from, items[..n])
    decreases |items| - n
  {
    hide ItemPath;
    if n < |items| {
      assert items[..n + 1][..n] == items[..n];
      RefusalStands(w, from, items, n + 1);
    } else {
      assert items[..n] == items;
    }
  }

  method ReadDocument(w: World, path: Path, stack: seq<Path>) returns (r: Loaded<Node>)
    ensures r == Read(w, path, stack)
    decreases Room(stack), 0
  {
    hide Merge, Keyed, DocumentAt, Report, IncludePaths;
    if path in stack { return Refused(InFile(path), Cycle); }
    if |stack| >= MAX_INCLUDE_DEPTH { return Refused(InFile(path), TooDeepInclude); }
    if path !in w.files || w.files[path].None? { return Refused(InFile(path), Unreadable); }
    var parsed := JsoncParser.ParseJsonc(w.files[path].value, path);
    if parsed.Bad? { return Refused(InFile(path), BadSyntax(parsed.error)); }
    var root := parsed.value;
    if !root.Object? { return Got(root); }
    var included := Get(root.entries, INCLUDE);
    if included.None? { return Got(root); }
    var own := Object(root.at, Without(root.entries, INCLUDE));
    var paths := CollectPaths(w, path, included.value);
    if paths.Refused? { return Refused(paths.at, paths.why); }
    assert ReadOne(w, path) == Got(Single(paths.value, own));
    r := SpliceAll(w, paths.value, stack + [path]);
    if r.Got? {
      AllAreKeyed(w, paths.value, |paths.value|, stack + [path]);
      OneIsKeyed(w, path);
      var merged := MergeNodes(r.value, own);
      r := Got(merged);
    }
  }

  method SpliceAll(w: World, paths: seq<Path>, stack: seq<Path>) returns (r: Loaded<Node>)
    requires |paths| > 0
    ensures r == ReadAll(w, paths, |paths|, stack)
    decreases Room(stack), 1
  {
    hide Merge, Keyed, Read;
    r := ReadDocument(w, paths[0], stack);
    for i := 1 to |paths|
      invariant r == ReadAll(w, paths, i, stack)
    {
      if r.Got? {
        var next := ReadDocument(w, paths[i], stack);
        if next.Refused? {
          r := next;
        } else {
          AllAreKeyed(w, paths, i, stack);
          ReadIsKeyed(w, paths[i], stack);
          var merged := MergeNodes(r.value, next.value);
          r := Got(merged);
        }
      }
    }
  }

  // ---- which include graphs load -------------------------------------------

  predicate Distinct(paths: seq<Path>) { forall i, j :: 0 <= i < j < |paths| ==> paths[i] != paths[j] }

  /** `chain` is a way to reach its last file: each file can be read by itself and includes the next. */
  ghost predicate IsChain(w: World, chain: seq<Path>) {
    forall i :: 0 <= i < |chain| - 1 ==>
      ReadOne(w, chain[i]).Got? && chain[i + 1] in ReadOne(w, chain[i]).value.includes
  }

  /** Every chain from `path` ends in a readable file, repeats none, and is short enough to go on top of `stack`. */
  ghost predicate ChainsAreFine(w: World, path: Path, stack: seq<Path>) {
    forall chain :: IsChain(w, chain) && 0 < |chain| && chain[0] == path ==>
      && ReadOne(w, chain[|chain| - 1]).Got?
      && Distinct(stack + chain) && |stack| + |chain| <= 8
  }

  lemma {:induction false} ReadAllGot(w: World, paths: seq<Path>, n: nat, stack: seq<Path>)
    requires 0 < n <= |paths|
    ensures ReadAll(w, paths, n, stack).Got? <==> forall i :: 0 <= i < n ==> Read(w, paths[i], stack).Got?
    decreases n
  {
    hide Read, Merge;
    if n > 1 { ReadAllGot(w, paths, n - 1, stack); }
  }

  lemma {:induction false} LoadedChain(w: World, stack: seq<Path>, chain: seq<Path>)
    requires 0 < |chain| && IsChain(w, chain) && Distinct(stack) && Read(w, chain[0], stack).Got?
    ensures ReadOne(w, chain[|chain| - 1]).Got? && Distinct(stack + chain) && |stack| + |chain| <= MAX_INCLUDE_DEPTH
    decreases |chain|
  {
    hide ReadOne, Merge;
    var path, rest := chain[0], chain[1..];
    assert Distinct(stack + [path]);
    assert stack + chain == stack + [path] + rest;
    if rest == [] {
      assert chain == [path];
    } else {
      var one := ReadOne(w, path).value;
      assert chain[1] in one.includes;
      var i :| 0 <= i < |one.includes| && one.includes[i] == rest[0];
      ReadAllGot(w, one.includes, |one.includes|, stack + [path]);
      hide Read;
      forall k | 0 <= k < |rest| - 1
        ensures ReadOne(w, rest[k]).Got? && rest[k + 1] in ReadOne(w, rest[k]).value.includes
      {
        assert rest[k] == chain[k + 1] && rest[k + 1] == chain[k + 1 + 1];
      }
      LoadedChain(w, stack + [path], rest);
    }
  }

  lemma {:induction false} FineChainsLoad(w: World, path: Path, stack: seq<Path>)
    requires Distinct(stack) && ChainsAreFine(w, path, stack)
    ensures Read(w, path, stack).Got?
    decreases Room(stack)
  {
    hide ReadOne, Merge;
    var self := [path];
    assert IsChain(w, self) && self[0] == path;
    assert Distinct(stack + self) && ReadOne(w, path).Got?;
    forall i | 0 <= i < |stack| ensures stack[i] != path {
      assert (stack + self)[i] == stack[i] && (stack + self)[|stack|] == path;
    }
    var one := ReadOne(w, path).value;
    if one.includes != [] {
      forall i | 0 <= i < |one.includes| ensures Read(w, one.includes[i], stack + self).Got? {
        IncludedAreFine(w, path, stack, one.includes[i]);
        FineChainsLoad(w, one.includes[i], stack + self);
      }
      ReadAllGot(w, one.includes, |one.includes|, stack + self);
    }
  }

  lemma {:induction false} IncludedAreFine(w: World, path: Path, stack: seq<Path>, next: Path)
    requires ChainsAreFine(w, path, stack) && ReadOne(w, path).Got? && next in ReadOne(w, path).value.includes
    ensures ChainsAreFine(w, next, stack + [path])
  {
    hide ReadOne, IsChain, Distinct;
    forall chain | IsChain(w, chain) && 0 < |chain| && chain[0] == next
      ensures ReadOne(w, chain[|chain| - 1]).Got?
      ensures Distinct(stack + [path] + chain) && |stack + [path]| + |chain| <= MAX_INCLUDE_DEPTH
    {
      var longer := [path] + chain;
      ChainGrows(w, path, chain);
      assert longer[0] == path && longer[|longer| - 1] == chain[|chain| - 1];
      assert stack + longer == stack + [path] + chain;
    }
  }

  lemma {:induction false} ChainGrows(w: World, path: Path, chain: seq<Path>)
    requires IsChain(w, chain) && 0 < |chain| && ReadOne(w, path).Got? && chain[0] in ReadOne(w, path).value.includes
    ensures IsChain(w, [path] + chain)
  {
    hide ReadOne;
    var longer := [path] + chain;
    forall i | 0 <= i < |longer| - 1
      ensures ReadOne(w, longer[i]).Got? && longer[i + 1] in ReadOne(w, longer[i]).value.includes
    {
      if i > 0 { assert longer[i] == chain[i - 1] && longer[i + 1] == chain[i - 1 + 1]; }
    }
  }

  /**
    A configuration loads exactly when every chain of includes from it reads
    well, meets no file twice and has at most eight files - so a cycle, of any
    length, never loads, and reading always ends.
   */
  lemma {:induction false} LoadsExactly(w: World, path: Path)
    ensures Read(w, path, []).Got? <==> ChainsAreFine(w, path, [])
  {
    hide Read, ReadOne;
    if Read(w, path, []).Got? {
      forall chain | IsChain(w, chain) && 0 < |chain| && chain[0] == path
        ensures ReadOne(w, chain[|chain| - 1]).Got? && Distinct([] + chain) && |chain| <= MAX_INCLUDE_DEPTH
      {
        LoadedChain(w, [], chain);
      }
    } else if ChainsAreFine(w, path, []) {
      FineChainsLoad(w, path, []);
    }
  }

  // ---- nesting is folding --------------------------------------------------

  /** The include tree of a file that loads. */
  function TreeOf(w: World, path: Path, stack: seq<Path>): Tree
    decreases Room(stack), 0, 0
  {
    var one := ReadOne(w, path);
    if one.Refused? || |stack| >= MAX_INCLUDE_DEPTH then File([], Null(InFile(path)))
    else File(TreesOf(w, one.value.includes, |one.value.includes|, stack + [path]), one.value.own)
  }

  function TreesOf(w: World, paths: seq<Path>, n: nat, stack: seq<Path>): (ts: seq<Tree>)
    requires n <= |paths|
    ensures |ts| == n
    decreases Room(stack), 1, n
  {
    if n == 0 then [] else TreesOf(w, paths, n - 1, stack) + [TreeOf(w, paths[n - 1], stack)]
  }

  lemma {:induction false} ReadIsSpliced(w: World, path: Path, stack: seq<Path>)
    requires Read(w, path, stack).Got?
    ensures Read(w, path, stack).value == Spliced(TreeOf(w, path, stack))
    decreases Room(stack), 0, 0
  {
    hide ReadOne, Merge;
    var one := ReadOne(w, path).value;
    var n := |one.includes|;
    var t := TreeOf(w, path, stack);
    if n > 0 {
      ReadAllIsSpliced(w, one.includes, n, stack + [path], t);
    }
  }

  lemma {:induction false} ReadAllIsSpliced(w: World, paths: seq<Path>, n: nat, stack: seq<Path>, t: Tree)
    requires 0 < n <= |paths| && ReadAll(w, paths, n, stack).Got? && |t.includes| == |paths|
    requires t.includes[..n] == TreesOf(w, paths, n, stack)
    ensures ReadAll(w, paths, n, stack).value == Fold(SplicedAll(t, n))
    decreases Room(stack), 1, n
  {
    hide Merge, Read, TreeOf, Spliced, ReadOne;
    var last := TreeOf(w, paths[n - 1], stack);
    var some, init := t.includes[..n], TreesOf(w, paths, n - 1, stack);
    assert some == init + [last];
    assert some[n - 1] == t.includes[n - 1];
    ReadIsSpliced(w, paths[n - 1], stack);
    var docs := SplicedAll(t, n);
    assert docs == SplicedAll(t, n - 1) + [Spliced(last)];
    if n > 1 {
      assert t.includes[..n - 1] == some[..n - 1] == init;
      ReadAllIsSpliced(w, paths, n - 1, stack, t);
      assert docs[..n - 1] == SplicedAll(t, n - 1);
    } else {
      assert SplicedAll(t, 0) == [];
    }
  }

  /** Every file of an include tree has unique keys, since the reader saw to it. */
  lemma {:induction false} TreeIsKeyed(w: World, path: Path, stack: seq<Path>)
    ensures AllKeyed(PostOrder(TreeOf(w, path, stack)))
    decreases Room(stack), 0, 0
  {
    hide ReadOne, Keyed;
    var one, t := ReadOne(w, path), TreeOf(w, path, stack);
    if one.Refused? || |stack| >= MAX_INCLUDE_DEPTH {
      NullIsKeyed(InFile(path));
      assert PostOrder(t) == [t.own];
    } else {
      OneIsKeyed(w, path);
      TreesAreKeyed(w, one.value.includes, |one.value.includes|, stack + [path], t);
    }
  }

  lemma NullIsKeyed(at: Place)
    ensures Keyed(Null(at))
  {
  }

  lemma {:induction false} TreesAreKeyed(w: World, paths: seq<Path>, n: nat, stack: seq<Path>, t: Tree)
    requires n <= |paths| == |t.includes| && t.includes[..n] == TreesOf(w, paths, n, stack)
    ensures AllKeyed(PostOrderAll(t, n))
    decreases Room(stack), 1, n
  {
    hide TreeOf, Keyed, PostOrder;
    if n > 0 {
      var last := TreeOf(w, paths[n - 1], stack);
      var some := t.includes[..n];
      assert some == TreesOf(w, paths, n - 1, stack) + [last] && some[n - 1] == t.includes[n - 1];
      assert t.includes[..n - 1] == some[..n - 1] == TreesOf(w, paths, n - 1, stack);
      TreesAreKeyed(w, paths, n - 1, stack, t);
      TreeIsKeyed(w, paths[n - 1], stack);
    }
  }

  /**
    A loaded configuration is one left fold over its files in post-order, when
    the files under every include but the first agree on what is an object.
   */
  lemma {:induction false} LoadingIsFolding(w: World, path: Path)
    requires Read(w, path, []).Got? && AgreeInside(TreeOf(w, path, []))
    ensures Read(w, path, []).value == Fold(PostOrder(TreeOf(w, path, [])))
  {
    hide Read, TreeOf, AllKeyed, AgreeInside, Settles;
    ReadIsSpliced(w, path, []);
    TreeIsKeyed(w, path, []);
    AgreeInsideSettles(TreeOf(w, path, []));
    NestingIsFolding(TreeOf(w, path, []));
  }
}
