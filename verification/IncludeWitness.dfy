/**
  Four files whose loaded configuration is not the left fold of their documents
  (src/config/internal/include.ts): an object hidden by a scalar in one order
  and not in the other.
 */
module IncludeWitness {
  import opened Prelude
  import opened JsoncText
  import opened JsoncSpec
  import JsoncGrammar
  import opened Include
  import opened IncludeRead

  const K: Code := 0x6B

  function Spelt(text: Text): (parts: seq<Part>)
    ensures |parts| == |text| && forall i :: 0 <= i < |text| ==> parts[i] == Plain(text[i])
  {
    seq(|text|, i requires 0 <= i < |text| => Plain(text[i]))
  }

  lemma {:induction false} SpeltDecodes(text: Text)
    ensures Decode(Spelt(text)) == text
    decreases |text|
  {
    if text != [] {
      assert Spelt(text)[1..] == Spelt(text[1..]);
      SpeltDecodes(text[1..]);
    }
  }

  /** `"key":value`, without trivia. */
  function Pair(key: Text, value: Cst, rest: Rest<Members>): Members {
    Member([], Spelt(key), [], [], value, [], rest)
  }

  function Name(c: Code): Cst { Quoted(Spelt([c])) }

  /** `a` is `{"k":{"k":null}}`, `b` is `{"k":null}`, `f` includes `b` under `{"k":{}}`, and `r` includes `a` and `f`. */
  function FileOf(path: Path): Cst {
    if path == "a" then FullObject(Pair([K], FullObject(Pair([K], Bare(Nil), Closed)), Closed))
    else if path == "b" then FullObject(Pair([K], Bare(Nil), Closed))
    else if path == "f" then FullObject(Pair(INCLUDE, Name(0x62), Next(Pair([K], EmptyObject([]), Closed))))
    else FullObject(Pair(INCLUDE, FullArray(Element([], Name(0x61), [], Next(Element([], Name(0x66), [], Closed)))), Closed))
  }

  function FourFiles(): World {
    World(map path | path in {"a", "b", "f", "r"} :: Some(Print(FileOf(path))),
          (from: Path, text: Text) => if text == [0x61] then At("a") else if text == [0x62] then At("b") else At("f"))
  }

  lemma {:induction false} WrittenFileParses(w: World, path: Path, c: Cst)
    requires path in w.files && w.files[path] == Some(Print(c)) && CstOk(c, 1) && c.FullObject?
    ensures Parse(w, path) == Got(Meaning(Source(path, Print(c)), 0, c))
  {
    hide Meaning, PrintMembers, MembersOk;
    var s := Source(path, Print(c));
    var d := Document([], c, [], None);
    assert PrintDocument(d) == Print(c) by {
      assert PrintTrivia([]) == [] && PrintTail(None) == [];
    }
    JsoncGrammar.DocumentWritten(s, d);
    assert Print(c)[0] == OPEN_BRACE;
  }

  lemma {:induction false} PairMeans(s: Source, p: nat, key: Text, value: Cst, rest: Rest<Members>) returns (at: nat, next: nat)
    ensures MeaningOfMembers(s, p, Pair(key, value, rest)) ==
            [Entry(key, Meaning(s, at, value))] + if rest.Next? then MeaningOfMembers(s, next, rest.more) else []
  {
    hide Meaning, PrintTrivia, PrintString, Print;
    var m := Pair(key, value, rest);
    JsoncGrammar.FirstMeaning(s, p, m);
    SpeltDecodes(key);
    at, next := JsoncGrammar.ValueOf(p, m), JsoncGrammar.AfterOf(p, m) + 1;
  }

  /** An object with one key. */
  ghost predicate Only(n: Node, key: Text, value: Node) { n.Object? && n.entries == [Entry(key, value)] }

  lemma SpeltIsOk(text: Text)
    requires forall i :: 0 <= i < |text| ==> text[i] >= SPACE && text[i] != QUOTE && text[i] != BACKSLASH
    ensures PartsOk(Spelt(text))
  {
  }

  lemma {:induction false} PairIsOk(key: Text, value: Cst, rest: Rest<Members>, depth: int, seen: set<Text>)
    requires PartsOk(Spelt(key)) && CstOk(value, depth + 1) && key !in seen && !rest.TrailingComma?
    requires rest.Next? ==> MembersOk(rest.more, depth, seen + {key})
    ensures MembersOk(Pair(key, value, rest), depth, seen)
  {
    hide Spelt, Decode, PartsOk, CstOk;
    SpeltDecodes(key);
  }

  lemma {:induction false} FilesAreOk()
    ensures forall path :: CstOk(FileOf(path), 1) && FileOf(path).FullObject?
  {
    hide Spelt, Decode, PartsOk, MembersOk;
    SpeltIsOk([K]);
    SpeltIsOk(INCLUDE);
    SpeltIsOk([0x61]);
    SpeltIsOk([0x62]);
    SpeltIsOk([0x66]);
    PairIsOk([K], Bare(Nil), Closed, 2, {});
    PairIsOk([K], FullObject(Pair([K], Bare(Nil), Closed)), Closed, 1, {});
    PairIsOk([K], Bare(Nil), Closed, 1, {});
    PairIsOk([K], EmptyObject([]), Closed, 1, {} + {INCLUDE});
    PairIsOk(INCLUDE, Name(0x62), Next(Pair([K], EmptyObject([]), Closed)), 1, {});
    assert ElementsOk(Element([], Name(0x66), [], Closed), 2);
    PairIsOk(INCLUDE, FileOf("r").members.value, Closed, 1, {});
  }

  lemma {:induction false} FileParses(path: Path)
    requires path in {"a", "b", "f", "r"}
    ensures var s := Source(path, Print(FileOf(path))); Parse(FourFiles(), path) == Got(Meaning(s, 0, FileOf(path)))
  {
    hide Print, CstOk, FileOf, Meaning, DocumentAt, Report;
    FilesAreOk();
    WrittenFileParses(FourFiles(), path, FileOf(path));
  }

  lemma {:induction false} ReadsA() returns (a: Node, inner: Node, leaf: Node)
    ensures ReadOne(FourFiles(), "a") == Got(Single([], a)) && Only(a, [K], inner) && Only(inner, [K], leaf) && leaf.Null?
  {
    hide Print, DocumentAt, Report, Parse, FourFiles, CstOk;
    var c := FileOf("a");
    FileParses("a");
    var s := Source("a", Print(c));
    var deep := c.members.value.members;
    var at, _ := PairMeans(s, 1, [K], c.members.value, Closed);
    var end, _ := PairMeans(s, at + 1, [K], Bare(Nil), Closed);
    a, inner, leaf := Meaning(s, 0, c), Meaning(s, at, c.members.value), Meaning(s, end, Bare(Nil));
    NoInclude(a, [K], inner);
  }

  lemma {:induction false} NoInclude(n: Node, key: Text, value: Node)
    requires Only(n, key, value) && key != INCLUDE
    ensures Get(n.entries, INCLUDE).None?
  {
  }

  lemma {:induction false} ReadsB() returns (b: Node, leaf: Node)
    ensures ReadOne(FourFiles(), "b") == Got(Single([], b)) && Only(b, [K], leaf) && leaf.Null?
  {
    hide Print, DocumentAt, Report, Parse, FourFiles, CstOk;
    var c := FileOf("b");
    FileParses("b");
    var s := Source("b", Print(c));
    var at, _ := PairMeans(s, 1, [K], Bare(Nil), Closed);
    b, leaf := Meaning(s, 0, c), Meaning(s, at, Bare(Nil));
    NoInclude(b, [K], leaf);
  }

  lemma {:induction false} ReadsF() returns (f: Node, inner: Node)
    ensures ReadOne(FourFiles(), "f") == Got(Single(["b"], f)) && Only(f, [K], inner) && inner.Object? && inner.entries == []
  {
    hide Print, DocumentAt, Report, Parse, CstOk, ItemPath, ItemPaths, ReadOne, PlaceAt;
    var c := FileOf("f");
    FileParses("f");
    var s := Source("f", Print(c));
    var at, next := PairMeans(s, 1, INCLUDE, Name(0x62), Next(Pair([K], EmptyObject([]), Closed)));
    var end, _ := PairMeans(s, next, [K], EmptyObject([]), Closed);
    var root, name := Meaning(s, 0, c), Meaning(s, at, Name(0x62));
    inner := Meaning(s, end, EmptyObject([]));
    SpeltDecodes([0x62]);
    f := Object(root.at, [Entry([K], inner)]);
    var w := FourFiles();
    NamesOne(w, "f", name, [0x62], "b");
    ReadsIncluding(w, "f", root, name, [Entry([K], inner)], ["b"]);
  }

  lemma {:induction false} NamesOne(w: World, from: Path, name: Node, text: Text, path: Path)
    requires name.Str? && name.value == text && |text| == 1 && text[0] >= SPACE && w.resolve(from, text) == At(path) && path in w.files
    ensures ItemPath(w, from, name) == Got(path) && IncludePaths(w, from, name) == Got([path])
  {
    hide ItemPath;
    assert ItemPath(w, from, name) == Got(path) by { OneName(w, from, name, text, path); }
    assert ItemPaths(w, from, []) == Got([]);
    assert [name][..0] == [] && [] + [path] == [path];
  }

  lemma {:induction false} OneName(w: World, from: Path, name: Node, text: Text, path: Path)
    requires name.Str? && name.value == text && |text| == 1 && text[0] >= SPACE && w.resolve(from, text) == At(path) && path in w.files
    ensures ItemPath(w, from, name) == Got(path)
  {
  }

  lemma {:induction false} WithoutFirst(es: seq<Entry>, value: Node, rest: seq<Entry>)
    requires es == [Entry(INCLUDE, value)] + rest
    ensures Get(es, INCLUDE) == Some(value) && Without(es, INCLUDE) == rest
  {
  }

  lemma {:induction false} ReadsIncluding(w: World, path: Path, root: Node, names: Node, rest: seq<Entry>, paths: seq<Path>)
    requires Parse(w, path) == Got(root) && root.Object? && root.entries == [Entry(INCLUDE, names)] + rest
    requires IncludePaths(w, path, names) == Got(paths)
    ensures ReadOne(w, path) == Got(Single(paths, Object(root.at, rest)))
  {
    hide Parse, IncludePaths;
    WithoutFirst(root.entries, names, rest);
  }

  lemma {:induction false} MeansR(s: Source) returns (names: Node, first: Node, second: Node)
    ensures var root := Meaning(s, 0, FileOf("r")); root.Object? && root.entries == [Entry(INCLUDE, names)]
    ensures names.Array? && names.items == [first, second]
    ensures first.Str? && first.value == [0x61] && second.Str? && second.value == [0x66]
  {
    hide Print, PlaceAt, Spelt, Decode, MeaningOfElements, MeaningOfMembers;
    var c := FileOf("r");
    var list := c.members.value;
    var at, _ := PairMeans(s, 1, INCLUDE, list, Closed);
    names := Meaning(s, at, list);
    first, second := TwoNames(s, at + 1, 0x61, 0x66);
  }

  lemma {:induction false} ReadsR() returns (r: Node)
    ensures ReadOne(FourFiles(), "r") == Got(Single(["a", "f"], r)) && r.Object? && r.entries == []
  {
    hide Print, Parse, ItemPath, ItemPaths, ReadOne, FileOf, Meaning;
    FileParses("r");
    var s, w := Source("r", Print(FileOf("r"))), FourFiles();
    var names, first, second := MeansR(s);
    var root := Meaning(s, 0, FileOf("r"));
    r := Object(root.at, []);
    OneName(w, "r", first, [0x61], "a");
    OneName(w, "r", second, [0x66], "f");
    NamesTwo(w, "r", first, second, "a", "f");
    ReadsIncluding(w, "r", root, names, [], ["a", "f"]);
  }

  lemma {:induction false} TwoNames(s: Source, p: nat, x: Code, y: Code) returns (first: Node, second: Node)
    ensures MeaningOfElements(s, p, Element([], Name(x), [], Next(Element([], Name(y), [], Closed)))) == [first, second]
    ensures first.Str? && first.value == [x] && second.Str? && second.value == [y]
  {
    hide PrintTrivia, Print, Spelt, Decode, PlaceAt, MeaningOfElements;
    var tail := Element([], Name(y), [], Closed);
    SpeltDecodes([x]);
    SpeltDecodes([y]);
    JsoncGrammar.FirstMeaningOfElements(s, p, Element([], Name(x), [], Next(tail)));
    var q := p + |PrintTrivia([])|;
    var next := q + |Print(Name(x))| + |PrintTrivia([])| + 1;
    JsoncGrammar.FirstMeaningOfElements(s, next, tail);
    first, second := Meaning(s, q, Name(x)), Meaning(s, next + |PrintTrivia([])|, Name(y));
  }

  lemma {:induction false} NamesTwo(w: World, from: Path, first: Node, second: Node, x: Path, y: Path)
    requires ItemPath(w, from, first) == Got(x) && ItemPath(w, from, second) == Got(y)
    ensures ItemPaths(w, from, [first, second]) == Got([x, y])
  {
    hide ItemPath;
    assert ItemPaths(w, from, []) == Got([]);
    assert [first][..0] == [] && [first, second][..1] == [first];
    assert [] + [x] == [x] && [x] + [y] == [x, y];
    assert ItemPaths(w, from, [first]) == Got([x]);
  }

  /** Merging `{"k":null}` under `{"k":{}}` first hides the null from `{"k":{"k":null}}`. */
  lemma {:induction false} OrderMatters(a: Node, b: Node, f: Node, r: Node, deep: Node, leaf: Node, nil: Node, empty: Node)
    requires Only(a, [K], deep) && Only(deep, [K], leaf) && Only(b, [K], nil) && nil.Null?
    requires Only(f, [K], empty) && empty.Object? && empty.entries == [] && r.Object? && r.entries == []
    ensures Merge(Merge(a, Merge(b, f)), r) != Merge(Merge(Merge(a, b), f), r)
  {
    OnlyMerges(b, f, [K], nil, empty);
    OnlyMerges(a, Merge(b, f), [K], deep, empty);
    OnlyMerges(a, b, [K], deep, nil);
    OnlyMerges(Merge(a, b), f, [K], nil, empty);
    hide Merge;
    MergeNothingOn(Merge(a, Merge(b, f)), r);
    MergeNothingOn(Merge(Merge(a, b), f), r);
    MergeNothingOn(deep, empty);
  }

  lemma {:induction false} OnlyMerges(x: Node, y: Node, key: Text, v: Node, u: Node)
    requires Only(x, key, v) && Only(y, key, u)
    ensures Only(Merge(x, y), key, Merge(v, u))
  {
    FindUnique(y.entries, 0);
    OverlaidAt(x.entries, y, 0);
    FreshOfOne(y.entries, x.entries);
    hide Merge;
    FindUnique(x.entries, 0);
  }

  lemma {:induction false} MergeNothingOn(x: Node, y: Node)
    requires x.Object? && y.Object? && y.entries == []
    ensures Merge(x, y).Object? && Merge(x, y).entries == x.entries
  {
    MergeNothing(x, y);
    assert Prefix(y, 0) == y;
  }

  /** So a configuration may load as something else than the left fold of its files. */
  lemma {:induction false} LoadingIsNotAlwaysFolding()
    ensures var w := FourFiles();
            Read(w, "r", []).Got? && Read(w, "r", []).value != Fold(PostOrder(TreeOf(w, "r", [])))
  {
    hide ReadOne, Merge, FourFiles, Fold, PostOrder;
    var w := FourFiles();
    var a, deep, leaf := ReadsA();
    var b, nil := ReadsB();
    var f, empty := ReadsF();
    var r := ReadsR();
    FourFilesRead(w, a, b, f, r);
    OrderMatters(a, b, f, r, deep, leaf, nil, empty);
  }

  lemma {:induction false} FourFilesRead(w: World, a: Node, b: Node, f: Node, r: Node)
    requires ReadOne(w, "a") == Got(Single([], a)) && ReadOne(w, "b") == Got(Single([], b))
    requires ReadOne(w, "f") == Got(Single(["b"], f)) && ReadOne(w, "r") == Got(Single(["a", "f"], r))
    ensures Read(w, "r", []) == Got(Merge(Merge(a, Merge(b, f)), r))
    ensures Fold(PostOrder(TreeOf(w, "r", []))) == Merge(Merge(Merge(a, b), f), r)
  {
    hide ReadOne, Merge;
    assert [] + ["r"] == ["r"] && ["r"] + ["f"] == ["r", "f"];
    assert Read(w, "a", ["r"]) == Got(a);
    assert Read(w, "b", ["r", "f"]) == Got(b);
    assert ReadAll(w, ["b"], 1, ["r", "f"]) == Got(b);
    assert Read(w, "f", ["r"]) == Got(Merge(b, f));
    assert ReadAll(w, ["a", "f"], 2, ["r"]) == Got(Merge(a, Merge(b, f)));
    var ta, tb := File([], a), File([], b);
    assert TreeOf(w, "a", ["r"]) == ta && TreeOf(w, "b", ["r", "f"]) == tb;
    assert TreesOf(w, ["b"], 1, ["r", "f"]) == [tb];
    var tf := File([tb], f);
    assert TreeOf(w, "f", ["r"]) == tf;
    assert TreesOf(w, ["a", "f"], 1, ["r"]) == [ta];
    assert TreesOf(w, ["a", "f"], 2, ["r"]) == [ta, tf];
    FourInOrder(a, b, f, r);
  }

  lemma {:induction false} FourInOrder(a: Node, b: Node, f: Node, r: Node)
    ensures PostOrder(Nested(a, b, f, r)) == [a, b, f, r]
    ensures Fold([a, b, f, r]) == Merge(Merge(Merge(a, b), f), r)
  {
    hide Merge;
    var ta, tb := File([], a), File([], b);
    var tf := File([tb], f);
    var t := File([ta, tf], r);
    assert PostOrder(ta) == [a] && PostOrder(tb) == [b];
    assert PostOrderAll(tf, 1) == [b];
    assert PostOrder(tf) == [b, f];
    assert PostOrderAll(t, 1) == [a];
    assert PostOrderAll(t, 2) == [a, b, f];
    assert PostOrder(t) == [a, b, f, r];
    assert [a, b, f, r][..3] == [a, b, f] && [a, b, f][..2] == [a, b] && [a, b][..1] == [a];
    assert Fold([a, b]) == Merge(a, b);
    assert Fold([a, b, f]) == Merge(Merge(a, b), f);
  }

  /** `f` includes `b`; `r` includes `a` and `f`. */
  function Nested(a: Node, b: Node, f: Node, r: Node): Tree { File([File([], a), File([File([], b)], f)], r) }

  lemma {:induction false} NestedRegroups(a: Node, b: Node, f: Node, r: Node)
    requires Settles(Nested(a, b, f, r))
    ensures AssocOk(a, b, f)
  {
    hide AssocOk, Settles;
    var ta, tb := File([], a), File([], b);
    var tf := File([tb], f);
    var t := File([ta, tf], r);
    NestedSettles(t, 1);
    assert PostOrder(ta) == [a] && PostOrder(tb) == [b];
    assert PostOrderAll(t, 1) == [a];
    assert PostOrderAll(tf, 1) == [b];
    assert PostOrder(tf) == [b, f];
    assert [b, f][..1] == [b] && Fold([a]) == a && Fold([b]) == b;
  }

  lemma NestedSettles(t: Tree, n: nat)
    requires Settles(t) && 0 < n < |t.includes|
    ensures Associates(PostOrderAll(t, n), PostOrder(t.includes[n]))
  {
  }

  /** Settling is enough and not always needed: a later file may hide what an include regrouped. */
  lemma {:induction false} LaterFileHides()
    ensures exists t: Tree :: AllKeyed(PostOrder(t)) && !Settles(t) && Spliced(t) == Fold(PostOrder(t))
  {
    hide Merge, AssocOk, Settles, Fold, PostOrder, Spliced;
    var at := Place("f", 1);
    var nil, empty := Null(at), Object(at, []);
    var b, f := Object(at, [Entry([K], nil)]), Object(at, [Entry([K], empty)]);
    var a := Object(at, [Entry([K], b)]);
    OrderMatters(a, b, f, empty, b, nil, nil, empty);
    OneIsKeyed(at, [K], nil);
    OneIsKeyed(at, [K], empty);
    OneIsKeyed(at, [K], b);
    MergeAssociatesExactly(a, b, f);
    var t := Nested(a, b, f, b);
    if Settles(t) { NestedRegroups(a, b, f, b); }
    FourInOrder(a, b, f, b);
    NestedSplices(a, b, f, b);
    OnlyMerges(b, f, [K], nil, empty);
    OnlyMerges(a, Merge(b, f), [K], b, Merge(nil, empty));
    OnlyMerges(a, b, [K], b, nil);
    OnlyMerges(Merge(a, b), f, [K], Merge(b, nil), empty);
    Covers(Merge(a, Merge(b, f)), Merge(Merge(a, b), f), b);
  }

  lemma OneIsKeyed(at: Place, key: Text, value: Node)
    requires Keyed(value)
    ensures Keyed(Object(at, [Entry(key, value)]))
  {
  }

  /** A file whose only value is a scalar covers whatever the key had. */
  lemma {:induction false} Covers(x: Node, y: Node, r: Node)
    requires x.Object? && y.Object? && |x.entries| == 1 == |y.entries| && x.entries[0].key == y.entries[0].key == [K]
    requires r.Object? && r.entries == [Entry([K], Null(r.at))]
    ensures Merge(x, r) == Merge(y, r)
  {
    FindUnique(r.entries, 0);
    OverlaidAt(x.entries, r, 0);
    OverlaidAt(y.entries, r, 0);
    FreshOfOne(r.entries, x.entries);
    FreshOfOne(r.entries, y.entries);
    FindUnique(x.entries, 0);
    FindUnique(y.entries, 0);
    assert Overlaid(x.entries, r) == r.entries && Overlaid(y.entries, r) == r.entries;
  }

  lemma {:induction false} NestedSplices(a: Node, b: Node, f: Node, r: Node)
    ensures Spliced(Nested(a, b, f, r)) == Merge(Merge(a, Merge(b, f)), r)
  {
    hide Merge;
    var t := Nested(a, b, f, r);
    var tf := t.includes[1];
    assert Spliced(t.includes[0]) == a && Spliced(tf.includes[0]) == b;
    assert SplicedAll(tf, 1) == [b] && Fold([b]) == b && Spliced(tf) == Merge(b, f);
    assert SplicedAll(t, 1) == [a] && SplicedAll(t, 2) == [a, Merge(b, f)];
    assert [a, Merge(b, f)][..1] == [a] && Fold([a]) == a;
  }
}
