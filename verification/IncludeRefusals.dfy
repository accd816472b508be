/**
  Why a configuration does not load: every refusal is true of the last file of
  a chain of includes from the first, and names the place it is about
  (src/config/internal/include.ts).
 */
module IncludeRefusals {
  import opened Prelude
  import opened JsoncText
  import opened JsoncSpec
  import JsoncDiagnosis
  import opened Include
  import opened IncludeRead

  /** The key is spelt `include`. */
  lemma IncludeIsSpelt()
    ensures INCLUDE == ['i' as int, 'n' as int, 'c' as int, 'l' as int, 'u' as int, 'd' as int, 'e' as int]
  {
  }

  /** The value of the file's `include` key. */
  ghost predicate Includes(w: World, path: Path, value: Node) {
    && Parse(w, path).Got? && Parse(w, path).value.Object?
    && Get(Parse(w, path).value.entries, INCLUDE) == Some(value)
  }

  /** An item of an include value: one of its elements, or the value itself. */
  predicate IsItem(value: Node, item: Node) { if value.Array? then item in value.items else item == value }

  /** What is wrong with an item. */
  predicate ItemIsWrong(w: World, path: Path, item: Node, why: Refusal) {
    match why
    case NotAString => !item.Str?
    case BadCharacter => item.Str? && exists i :: 0 <= i < |item.value| && item.value[i] in {0, 10, 13}
    case BadHome => item.Str? && w.resolve(path, item.value).HomeError?
    case NoPath => item.Str? && w.resolve(path, item.value).EmptyPath?
    case NotFound(target) => item.Str? && w.resolve(path, item.value) == At(target) && target !in w.files
    case _ => false
  }

  /** What is wrong with a file by itself. */
  ghost predicate FileIsWrong(w: World, path: Path, at: Place, why: Refusal) {
    match why
    case Cycle => false
    case TooDeepInclude => false
    case Unreadable => at == Place(path, 0) && !(path in w.files && w.files[path].Some?)
    case BadSyntax(error) =>
      && at == Place(path, 0) && path in w.files && w.files[path].Some?
      && var s := Source(path, WithoutBom(w.files[path].value));
         var r := DocumentAt(s);
         r.Fail? && JsoncDiagnosis.Accuses(s, r.problem, r.at) && error == Report(s, r.problem, r.at)
    case NoPaths => exists value :: Includes(w, path, value) && value.Array? && value.items == [] && at == value.at
    case _ => exists value, item :: Includes(w, path, value) && IsItem(value, item) && at == item.at && ItemIsWrong(w, path, item, why)
  }

  lemma {:induction false} ItemRefusal(w: World, from: Path, item: Node)
    requires ItemPath(w, from, item).Refused?
    ensures ItemPath(w, from, item).at == item.at && ItemIsWrong(w, from, item, ItemPath(w, from, item).why)
  {
  }

  /** An item is taken exactly when it is a string of one line that resolves to a file that exists. */
  lemma {:induction false} ItemTaken(w: World, from: Path, item: Node, path: Path)
    ensures ItemPath(w, from, item) == Got(path) <==>
              && item.Str? && 0 !in item.value && 10 !in item.value && 13 !in item.value
              && w.resolve(from, item.value) == At(path) && path in w.files
  {
    if item.Str? {
      assert (exists i :: 0 <= i < |item.value| && item.value[i] in {0, NEWLINE, RETURN}) <==>
        0 in item.value || 10 in item.value || 13 in item.value;
    }
  }

  lemma {:induction false} ItemsRefusal(w: World, from: Path, items: seq<Node>) returns (item: Node)
    requires ItemPaths(w, from, items).Refused?
    ensures item in items && ItemPaths(w, from, items).at == item.at && ItemIsWrong(w, from, item, ItemPaths(w, from, items).why)
    decreases |items|
  {
    hide ItemPath, ItemIsWrong;
    var n := |items| - 1;
    if ItemPaths(w, from, items[..n]).Refused? {
      item := ItemsRefusal(w, from, items[..n]);
    } else {
      item := items[n];
      ItemRefusal(w, from, item);
    }
  }

  lemma {:induction false} PathsRefusal(w: World, path: Path, value: Node)
    requires Includes(w, path, value) && IncludePaths(w, path, value).Refused?
    ensures var r := IncludePaths(w, path, value); FileIsWrong(w, path, r.at, r.why)
  {
    hide Parse, ItemPaths, ItemIsWrong;
    if ItemsOf(value) != [] {
      var item := ItemsRefusal(w, path, ItemsOf(value));
      assert IsItem(value, item);
      ItemsBlame(w, path, item, IncludePaths(w, path, value).why);
    }
  }

  lemma ItemsBlame(w: World, path: Path, item: Node, why: Refusal)
    requires ItemIsWrong(w, path, item, why)
    ensures !why.Unreadable? && !why.BadSyntax? && !why.NoPaths? && !why.Cycle? && !why.TooDeepInclude?
  {
  }

  /** A file refused by itself is wrong as it says. */
  lemma {:induction false} OneRefusal(w: World, path: Path)
    requires ReadOne(w, path).Refused?
    ensures FileIsWrong(w, path, ReadOne(w, path).at, ReadOne(w, path).why)
  {
    hide DocumentAt, Report, IncludePaths;
    if Parse(w, path).Refused? {
      ParseRefusal(w, path);
    } else {
      PathsRefusal(w, path, Get(Parse(w, path).value.entries, INCLUDE).value);
    }
  }

  lemma {:induction false} ParseRefusal(w: World, path: Path)
    requires Parse(w, path).Refused?
    ensures FileIsWrong(w, path, Parse(w, path).at, Parse(w, path).why)
  {
    hide DocumentAt, Report;
    if path in w.files && w.files[path].Some? { JsoncDiagnosis.ErrorsAreThere(Source(path, WithoutBom(w.files[path].value))); }
  }

  /** What the last file of the chain `full`, from the first file on, is refused for. */
  ghost predicate Blames(w: World, full: seq<Path>, at: Place, why: Refusal)
    requires |full| > 0
  {
    var last := full[|full| - 1];
    match why
    case Cycle => last in full[..|full| - 1] && at == Place(last, 0)
    case TooDeepInclude => |full| > 8 && at == Place(last, 0)
    case _ => FileIsWrong(w, last, at, why)
  }

  lemma {:induction false} ReadRefusal(w: World, path: Path, stack: seq<Path>) returns (chain: seq<Path>)
    requires Read(w, path, stack).Refused?
    ensures IsChain(w, chain) && 0 < |chain| && chain[0] == path
    ensures Blames(w, stack + chain, Read(w, path, stack).at, Read(w, path, stack).why)
    decreases Room(stack), 0, 0
  {
    hide ReadOne, Merge, FileIsWrong;
    chain := [path];
    assert (stack + chain)[..|stack + chain| - 1] == stack;
    if path !in stack && |stack| < MAX_INCLUDE_DEPTH {
      if ReadOne(w, path).Refused? {
        OneRefusal(w, path);
        FileBlames(w, stack, path);
      } else {
        var includes := ReadOne(w, path).value.includes;
        var next, more := ReadAllRefusal(w, includes, |includes|, stack + [path]);
        ChainGrows(w, path, more);
        chain := [path] + more;
        assert stack + chain == stack + [path] + more;
      }
    }
  }

  lemma {:induction false} FileBlames(w: World, stack: seq<Path>, path: Path)
    requires ReadOne(w, path).Refused? && FileIsWrong(w, path, ReadOne(w, path).at, ReadOne(w, path).why)
    ensures Blames(w, stack + [path], ReadOne(w, path).at, ReadOne(w, path).why)
  {
    hide ReadOne, DocumentAt, Report, Includes, IsItem;
    var full := stack + [path];
    assert full[|full| - 1] == path;
  }

  lemma {:induction false} ReadAllRefusal(w: World, paths: seq<Path>, n: nat, stack: seq<Path>) returns (next: Path, chain: seq<Path>)
    requires 0 < n <= |paths| && ReadAll(w, paths, n, stack).Refused?
    ensures next in paths && IsChain(w, chain) && 0 < |chain| && chain[0] == next
    ensures Blames(w, stack + chain, ReadAll(w, paths, n, stack).at, ReadAll(w, paths, n, stack).why)
    decreases Room(stack), 1, n
  {
    hide Read, Merge, Blames, IsChain;
    if n > 1 && ReadAll(w, paths, n - 1, stack).Refused? {
      next, chain := ReadAllRefusal(w, paths, n - 1, stack);
    } else {
      next := paths[n - 1];
      chain := ReadRefusal(w, next, stack);
    }
  }

  /**
    Every refusal is true: a chain of includes leads from the configuration to
    a file that repeats one before it, is the ninth, cannot be read, or is
    wrong by itself as the refusal says and where it says.
   */
  lemma {:induction false} RefusalsAreTrue(w: World, path: Path)
    requires Read(w, path, []).Refused?
    ensures exists chain ::
              && IsChain(w, chain) && 0 < |chain| && chain[0] == path
              && Blames(w, chain, Read(w, path, []).at, Read(w, path, []).why)
  {
    hide Read, Blames, IsChain;
    var chain := ReadRefusal(w, path, []);
    assert [] + chain == chain;
  }
}
