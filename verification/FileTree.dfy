/**
  The archive root as a map from entries to file trees, with the hard links
  between them (src/snapshots/internal/local-store.ts).
 */
module FileTree {
  import opened Prelude
  import opened SnapshotName

  /** What an entry holds. A sealed directory cannot be read, whatever is in it. */
  datatype Tree =
    | File(inode: nat)
    | Symlink(inode: nat, dangling: bool)
    | Directory(children: seq<Tree>)
    | Sealed(inner: Tree)

  type Fs = map<Entry, Tree>

  /** How often the inode occurs in a tree. */
  function Occurs(t: Tree, inode: nat): nat {
    match t
    case File(i) => if i == inode then 1 else 0
    case Symlink(i, _) => if i == inode then 1 else 0
    case Directory(children) => OccursIn(children, inode)
    case Sealed(inner) => Occurs(inner, inode)
  }

  function OccursIn(ts: seq<Tree>, inode: nat): nat {
    if ts == [] then 0 else Occurs(ts[0], inode) + OccursIn(ts[1..], inode)
  }

  /** How often the inode occurs in the archive root. */
  ghost function Total(fs: Fs, inode: nat): nat
    decreases |fs|
  {
    if fs == map[] then 0
    else
      var e :| e in fs;
      Occurs(fs[e], inode) + Total(fs - {e}, inode)
  }

  lemma {:induction false} TotalSplits(fs: Fs, e: Entry, inode: nat)
    requires e in fs
    ensures Total(fs, inode) == Occurs(fs[e], inode) + Total(fs - {e}, inode)
    decreases |fs|
  {
    var d :| d in fs && Total(fs, inode) == Occurs(fs[d], inode) + Total(fs - {d}, inode);
    if d != e {
      TotalSplits(fs - {d}, e, inode);
      TotalSplits(fs - {e}, d, inode);
      assert fs - {d} - {e} == fs - {e} - {d};
    }
  }

  lemma {:induction false} TotalSets(fs: Fs, e: Entry, t: Tree, inode: nat)
    ensures Total(fs[e := t], inode) == Total(fs - {e}, inode) + Occurs(t, inode)
  {
    var more := fs[e := t];
    TotalSplits(more, e, inode);
    assert more - {e} == fs - {e};
  }

  // ---- hard links ----------------------------------------------------------

  /** `stat`'s link count, for every inode. */
  type Links = nat -> int

  /** Something in the tree is linked from somewhere else too, or cannot be looked at. */
  predicate Shared(links: Links, t: Tree) {
    match t
    case File(i) => links(i) > 1
    case Symlink(i, _) => links(i) > 1
    case Directory(children) => exists k :: 0 <= k < |children| && Shared(links, children[k])
    case Sealed(_) => true
  }

  /** `hasMultiplyLinkedEntry` on the path of a partial: what is not a directory cannot be listed. */
  predicate MultiplyLinked(links: Links, t: Tree) { !t.Directory? || Shared(links, t) }

  lemma {:induction false} UnsharedOnce(links: Links, t: Tree, inode: nat)
    requires !Shared(links, t) && Occurs(t, inode) > 0
    ensures links(inode) <= 1
    decreases t, if t.Directory? then |t.children| + 1 else 0
  {
    if t.Directory? { UnsharedOnceIn(links, t, 0, inode); }
  }

  lemma {:induction false} UnsharedOnceIn(links: Links, t: Tree, k: nat, inode: nat)
    requires t.Directory? && !Shared(links, t) && k <= |t.children| && OccursIn(t.children[k..], inode) > 0
    ensures links(inode) <= 1
    decreases t, |t.children| - k
  {
    assert t.children[k..][1..] == t.children[k + 1..];
    if Occurs(t.children[k], inode) > 0 {
      UnsharedOnce(links, t.children[k], inode);
    } else {
      UnsharedOnceIn(links, t, k + 1, inode);
    }
  }

  /** No inode of the entry occurs in it twice, in any other entry, or anywhere else. */
  ghost predicate Isolated(fs: Fs, elsewhere: nat -> nat, e: Entry)
    requires e in fs
  {
    forall inode :: Occurs(fs[e], inode) > 0 ==>
      && Occurs(fs[e], inode) == 1 && elsewhere(inode) == 0
      && forall other :: other in fs && other != e ==> Occurs(fs[other], inode) == 0
  }

  lemma {:induction false} UnsharedIsIsolated(links: Links, fs: Fs, elsewhere: nat -> nat, e: Entry)
    requires Honest(links, fs, elsewhere) && e in fs && !MultiplyLinked(links, fs[e])
    ensures Isolated(fs, elsewhere, e)
  {
    hide Honest, MultiplyLinked;
    forall inode | Occurs(fs[e], inode) > 0
      ensures Occurs(fs[e], inode) == 1 && elsewhere(inode) == 0
      ensures forall other :: other in fs && other != e ==> Occurs(fs[other], inode) == 0
    {
      UnsharedInode(links, fs, elsewhere, e, inode);
    }
  }

  /** An inode of a tree that is not multiply linked has no other link. */
  lemma {:induction false} UnsharedInode(links: Links, fs: Fs, elsewhere: nat -> nat, e: Entry, inode: nat)
    requires Honest(links, fs, elsewhere) && e in fs
    requires !MultiplyLinked(links, fs[e]) && Occurs(fs[e], inode) > 0
    ensures Occurs(fs[e], inode) == 1 && elsewhere(inode) == 0
    ensures forall other :: other in fs && other != e ==> Occurs(fs[other], inode) == 0
  {
    hide Total, Shared;
    UnsharedOnce(links, fs[e], inode);
    TotalSplits(fs, e, inode);
    forall other | other in fs && other != e ensures Occurs(fs[other], inode) == 0 {
      TotalSplits(fs - {e}, other, inode);
    }
  }

  // ---- what the counts mean ------------------------------------------------

  /** The inodes of a tree, one for each name that has it. */
  function Inodes(t: Tree): seq<nat>
    decreases t, 0
  {
    match t
    case File(i) => [i]
    case Symlink(i, _) => [i]
    case Directory(children) => InodesOf(children)
    case Sealed(inner) => Inodes(inner)
  }

  function InodesOf(ts: seq<Tree>): seq<nat>
    decreases ts
  {
    if ts == [] then [] else Inodes(ts[0]) + InodesOf(ts[1..])
  }

  /** An inode occurs as often as it is named. */
  lemma {:induction false} OccursCounts(t: Tree, inode: nat)
    ensures Occurs(t, inode) == multiset(Inodes(t))[inode]
    decreases t, 0
  {
    if t.Directory? { OccursInCounts(t.children, inode); }
    if t.Sealed? { OccursCounts(t.inner, inode); }
  }

  lemma {:induction false} OccursInCounts(ts: seq<Tree>, inode: nat)
    ensures OccursIn(ts, inode) == multiset(InodesOf(ts))[inode]
    decreases ts
  {
    if ts != [] {
      OccursCounts(ts[0], inode);
      OccursInCounts(ts[1..], inode);
    }
  }

  /** Nothing in the tree is sealed. */
  predicate Open(t: Tree) {
    match t
    case Directory(children) => forall k :: 0 <= k < |children| ==> Open(children[k])
    case Sealed(_) => false
    case _ => true
  }

  /** What is shared in a tree without sealed parts is an inode with more than one link. */
  lemma {:induction false} SharedInode(links: Links, t: Tree) returns (inode: nat)
    requires Open(t) && Shared(links, t)
    ensures Occurs(t, inode) > 0 && links(inode) > 1
    decreases t
  {
    match t
    case File(i) => inode := i;
    case Symlink(i, _) => inode := i;
    case Directory(children) =>
      var k :| 0 <= k < |children| && Shared(links, children[k]);
      inode := SharedInode(links, children[k]);
      ChildOccurs(children, k, inode);
  }

  lemma {:induction false} ChildOccurs(ts: seq<Tree>, k: nat, inode: nat)
    requires k < |ts|
    ensures OccursIn(ts, inode) >= Occurs(ts[k], inode)
    decreases k
  {
    if k > 0 {
      assert ts[1..][k - 1] == ts[k];
      ChildOccurs(ts[1..], k - 1, inode);
    }
  }

  /**
    A directory that can be walked is judged multiply linked exactly when it
    shares an inode - with itself, another entry, or anything elsewhere.
   */
  lemma {:induction false} UnsharedExactly(links: Links, fs: Fs, elsewhere: nat -> nat, e: Entry)
    requires Honest(links, fs, elsewhere) && e in fs && fs[e].Directory? && Open(fs[e])
    ensures !MultiplyLinked(links, fs[e]) <==> Isolated(fs, elsewhere, e)
  {
    hide Honest, Shared, Total, Open;
    if !MultiplyLinked(links, fs[e]) {
      UnsharedIsIsolated(links, fs, elsewhere, e);
    } else if Isolated(fs, elsewhere, e) {
      var inode := SharedInode(links, fs[e]);
      AloneHasOneLink(links, fs, elsewhere, e, inode);
    }
  }

  lemma {:induction false} AloneHasOneLink(links: Links, fs: Fs, elsewhere: nat -> nat, e: Entry, inode: nat)
    requires Honest(links, fs, elsewhere) && e in fs && Isolated(fs, elsewhere, e) && Occurs(fs[e], inode) > 0
    ensures links(inode) == 1
  {
    hide Total;
    TotalSplits(fs, e, inode);
    NowhereElse(fs - {e}, inode);
  }

  lemma {:induction false} NowhereElse(fs: Fs, inode: nat)
    requires forall e :: e in fs ==> Occurs(fs[e], inode) == 0
    ensures Total(fs, inode) == 0
    decreases |fs|
  {
    hide Occurs;
    if fs != map[] {
      var e :| e in fs && Total(fs, inode) == Occurs(fs[e], inode) + Total(fs - {e}, inode);
      NowhereElse(fs - {e}, inode);
    }
  }

  /** The walk, depth first, ending at the first hit. */
  method HasMultiplyLinkedEntry(links: Links, dir: Tree) returns (found: bool)
    ensures found == MultiplyLinked(links, dir)
    decreases dir
  {
    if !dir.Directory? { return true; }
    for k := 0 to |dir.children|
      invariant forall j :: 0 <= j < k ==> !Shared(links, dir.children[j])
    {
      var child := dir.children[k];
      if child.Directory? {
        found := HasMultiplyLinkedEntry(links, child);
        if found { return true; }
      } else if child.Sealed? || links(child.inode) > 1 {
        assert Shared(links, child);
        return true;
      }
    }
    return false;
  }

  // ---- removing and renaming -----------------------------------------------

  /** What an interrupted recursive removal may leave of a tree. */
  predicate Smaller(left: Tree, t: Tree)
    decreases t, 0
  {
    match (left, t)
    case (File(i), File(j)) => i == j
    case (Symlink(i, _), Symlink(j, _)) => left == t
    case (Directory(some), Directory(all)) => Subtrees(some, all)
    case (Sealed(a), Sealed(b)) => Smaller(a, b)
    case _ => false
  }

  predicate Subtrees(some: seq<Tree>, all: seq<Tree>)
    decreases all
  {
    if some == [] then true
    else if all == [] then false
    else (Smaller(some[0], all[0]) && Subtrees(some[1..], all[1..])) || Subtrees(some, all[1..])
  }

  lemma {:induction false} SmallerIsSame(t: Tree)
    ensures Smaller(t, t)
    decreases t, 0
  {
    if t.Directory? { SubtreesAreSame(t.children); }
    if t.Sealed? { SmallerIsSame(t.inner); }
  }

  lemma {:induction false} SubtreesAreSame(ts: seq<Tree>)
    ensures Subtrees(ts, ts)
    decreases ts
  {
    if ts != [] {
      SmallerIsSame(ts[0]);
      SubtreesAreSame(ts[1..]);
    }
  }

  lemma {:induction false} SmallerOccurs(left: Tree, t: Tree, inode: nat)
    requires Smaller(left, t)
    ensures Occurs(left, inode) <= Occurs(t, inode)
    decreases t, 0
  {
    if left.Directory? { SubtreesOccur(left.children, t.children, inode); }
    if left.Sealed? { SmallerOccurs(left.inner, t.inner, inode); }
  }

  lemma {:induction false} SubtreesOccur(some: seq<Tree>, all: seq<Tree>, inode: nat)
    requires Subtrees(some, all)
    ensures OccursIn(some, inode) <= OccursIn(all, inode)
    decreases all
  {
    if some != [] {
      if Smaller(some[0], all[0]) && Subtrees(some[1..], all[1..]) {
        SmallerOccurs(some[0], all[0], inode);
        SubtreesOccur(some[1..], all[1..], inode);
      } else {
        SubtreesOccur(some, all[1..], inode);
      }
    }
  }

  /** A file-system command: it works, or it fails and an interrupted removal leaves `left`; `at` is the time. */
  datatype Fate = Fate(works: bool, left: Tree, at: int)

  type Fates = nat -> Fate

  function AfterRm(fs: Fs, e: Entry, fate: Fate): Fs {
    if fate.works then fs - {e}
    else if e in fs && Smaller(fate.left, fs[e]) then fs[e := fate.left]
    else fs
  }

  /** `rename` replaces nothing but an empty directory by a directory, or a non-directory by a non-directory. */
  predicate CanRename(fs: Fs, from: Entry, to: Entry) {
    && from in fs
    && (to in fs && to != from ==>
          if fs[from].Directory? || fs[from].Sealed? then fs[to] == Directory([]) else !fs[to].Directory? && !fs[to].Sealed?)
  }

  predicate Renames(fs: Fs, from: Entry, to: Entry, fate: Fate) { fate.works && CanRename(fs, from, to) }

  function AfterRename(fs: Fs, from: Entry, to: Entry, fate: Fate): Fs {
    if Renames(fs, from, to, fate) then (fs - {from})[to := fs[from]] else fs
  }

  /** Link counts after the entries of `before` became those of `after`, two of them changing at most. */
  function Recounted(links: Links, gone: Tree, now: Option<Tree>): Links {
    (i: nat) => links(i) - Occurs(gone, i) + if now.Some? then Occurs(now.value, i) else 0
  }

  /** The link counts are the links in the archive root and those `elsewhere`. */
  ghost predicate Honest(links: Links, fs: Fs, elsewhere: nat -> nat) {
    forall i :: links(i) == Total(fs, i) + elsewhere(i)
  }

  lemma {:induction false} RmIsHonest(links: Links, fs: Fs, e: Entry, fate: Fate, elsewhere: nat -> nat)
    requires Honest(links, fs, elsewhere) && e in fs
    ensures Honest(Recounted(links, fs[e], Get(AfterRm(fs, e, fate), e)), AfterRm(fs, e, fate), elsewhere)
  {
    hide Total, Smaller;
    var after := AfterRm(fs, e, fate);
    forall i ensures Recounted(links, fs[e], Get(after, e))(i) == Total(after, i) + elsewhere(i) {
      TotalSplits(fs, e, i);
      TotalSets(fs, e, fate.left, i);
      assert fs[e := fs[e]] == fs;
    }
  }

  function Get(fs: Fs, e: Entry): Option<Tree> { if e in fs then Some(fs[e]) else None }

  lemma {:induction false} RenameIsHonest(links: Links, fs: Fs, from: Entry, to: Entry, elsewhere: nat -> nat)
    requires Honest(links, fs, elsewhere) && from in fs && to != from
    ensures to !in fs ==> Honest(links, (fs - {from})[to := fs[from]], elsewhere)
    ensures to in fs ==> Honest(Recounted(links, fs[to], None), (fs - {from})[to := fs[from]], elsewhere)
  {
    hide Total;
    var moved := (fs - {from})[to := fs[from]];
    forall i
      ensures to !in fs ==> links(i) == Total(moved, i) + elsewhere(i)
      ensures to in fs ==> Recounted(links, fs[to], None)(i) == Total(moved, i) + elsewhere(i)
    {
      TotalSplits(fs, from, i);
      TotalSets(fs - {from}, to, fs[from], i);
      if to in fs {
        TotalSplits(fs - {from}, to, i);
      } else {
        assert fs - {from} - {to} == fs - {from};
      }
    }
  }

  function Added(links: Links, content: Tree): Links { (i: nat) => links(i) + Occurs(content, i) }

  lemma {:induction false} WriteIsHonest(links: Links, fs: Fs, e: Entry, content: Tree, elsewhere: nat -> nat)
    requires Honest(links, fs, elsewhere)
    ensures e in fs ==> Honest(Recounted(links, fs[e], Some(content)), fs[e := content], elsewhere)
    ensures e !in fs ==> Honest(Added(links, content), fs[e := content], elsewhere)
  {
    hide Total;
    forall i
      ensures e in fs ==> Recounted(links, fs[e], Some(content))(i) == Total(fs[e := content], i) + elsewhere(i)
      ensures e !in fs ==> Added(links, content)(i) == Total(fs[e := content], i) + elsewhere(i)
    {
      TotalSets(fs, e, content, i);
      if e in fs { TotalSplits(fs, e, i); } else { assert fs - {e} == fs; }
    }
  }

  /** Link counts that agree judge trees alike. */
  lemma {:induction false} SharedAlike(a: Links, b: Links, t: Tree)
    requires forall i :: a(i) == b(i)
    ensures Shared(a, t) <==> Shared(b, t)
    decreases t
  {
    if t.Directory? {
      forall k | 0 <= k < |t.children| ensures Shared(a, t.children[k]) <==> Shared(b, t.children[k]) {
        SharedAlike(a, b, t.children[k]);
      }
    }
  }
}
