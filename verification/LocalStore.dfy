/**
  The local snapshot store (src/snapshots/internal/local-store.ts): entries are
  renamed and removed step by step, and every step may be the last. A crash and
  a failing command leave the same archive behind, so both are a `Fate` that
  does not work.
 */
module LocalStore {
  import opened Prelude
  import opened SnapshotName
  import opened FileTree

  const SNAPSHOT_FUTURE_SKEW_MS := 300_000

  // ---- listings ------------------------------------------------------------

  ghost predicate Ascending(ats: seq<int>) { forall i, j :: 0 <= i < j < |ats| ==> ats[i] < ats[j] }

  ghost predicate Distinct(names: seq<Entry>) { forall i, j :: 0 <= i < j < |names| ==> names[i] != names[j] }

  ghost predicate Lists(names: seq<Entry>, fs: Fs) {
    Distinct(names) && forall e :: e in names <==> e in fs
  }

  ghost predicate ListsComplete(ats: seq<int>, fs: Fs) {
    Ascending(ats) && forall at :: at in ats <==> Complete(at) in fs
  }

  ghost predicate ListsPartials(ats: seq<int>, fs: Fs) {
    Ascending(ats) && forall at :: at in ats <==> Partial(at) in fs
  }

  function Insert(ats: seq<int>, at: int): (r: seq<int>)
    ensures forall x :: x in r <==> x in ats || x == at
    ensures Ascending(ats) && at !in ats ==> Ascending(r)
  {
    if ats == [] || at < ats[0] then [at] + ats
    else
      var rest := ats[1..];
      var r := Insert(rest, at);
      assert ats == [ats[0]] + rest;
      assert Ascending(ats) && at !in ats ==> Ascending([ats[0]] + r) by {
        if Ascending(ats) && at !in ats {
          assert Ascending(rest) && forall x :: x in rest ==> ats[0] < x;
          forall i | 0 <= i < |r| ensures ats[0] < r[i] { assert r[i] in r; }
        }
      }
      [ats[0]] + r
  }

  /** `.filter(parse).sort()`. */
  method SortedComplete(names: seq<Entry>) returns (ats: seq<int>)
    requires Distinct(names)
    ensures Ascending(ats) && forall at :: at in ats <==> Complete(at) in names
  {
    ats := [];
    for i := 0 to |names|
      invariant Ascending(ats) && forall at :: at in ats <==> Complete(at) in names[..i]
    {
      assert names[..i + 1] == names[..i] + [names[i]];
      if names[i].Complete? { ats := Insert(ats, names[i].at); }
    }
    assert names[..|names|] == names;
  }

  /** `.filter(isPartialName).sort()`. */
  method SortedPartials(names: seq<Entry>) returns (ats: seq<int>)
    requires Distinct(names)
    ensures Ascending(ats) && forall at :: at in ats <==> Partial(at) in names
  {
    ats := [];
    for i := 0 to |names|
      invariant Ascending(ats) && forall at :: at in ats <==> Partial(at) in names[..i]
    {
      assert names[..i + 1] == names[..i] + [names[i]];
      if names[i].Partial? { ats := Insert(ats, names[i].at); }
    }
    assert names[..|names|] == names;
  }

  // ---- which snapshot may never go -----------------------------------------

  predicate IsFuture(at: int, now: int) { at - now > SNAPSHOT_FUTURE_SKEW_MS }

  method SplitFutureSnapshots(ats: seq<int>, now: int) returns (genuine: seq<int>, future: seq<int>)
    requires Ascending(ats)
    ensures ats == genuine + future
    ensures forall at :: at in genuine ==> !IsFuture(at, now)
    ensures forall at :: at in future ==> IsFuture(at, now)
  {
    genuine, future := [], [];
    for i := 0 to |ats|
      invariant ats[..i] == genuine + future && (|genuine| < i ==> IsFuture(ats[|genuine|], now))
      invariant forall at :: at in genuine ==> !IsFuture(at, now)
      invariant forall at :: at in future ==> IsFuture(at, now)
    {
      if IsFuture(ats[i], now) {
        future := future + [ats[i]];
      } else {
        genuine := genuine + [ats[i]];
      }
      assert ats[..i + 1] == ats[..i] + [ats[i]];
    }
    assert ats[..|ats|] == ats;
  }

  /** `at` is the newest genuine snapshot, or the newest of all when none is genuine. */
  ghost predicate Undeletable(ats: seq<int>, now: int, at: int) {
    && at in ats
    && (if exists x :: x in ats && !IsFuture(x, now)
        then !IsFuture(at, now) && forall x :: x in ats && !IsFuture(x, now) ==> x <= at
        else forall x :: x in ats ==> x <= at)
  }

  method NewestUndeletable(ats: seq<int>, now: int) returns (newest: Option<int>)
    requires Ascending(ats)
    ensures newest.None? <==> ats == []
    ensures newest.Some? ==> Undeletable(ats, now, newest.value)
    ensures forall at :: Undeletable(ats, now, at) ==> newest == Some(at)
  {
    var genuine, future := SplitFutureSnapshots(ats, now);
    if genuine != [] {
      newest := Some(genuine[|genuine| - 1]);
      assert genuine[|genuine| - 1] in genuine && newest.value in ats;
      forall x | x in genuine ensures x <= newest.value {
        var i :| 0 <= i < |genuine| && genuine[i] == x;
        assert ats[i] == x && ats[|genuine| - 1] == newest.value;
      }
    } else if future != [] {
      newest := Some(future[|future| - 1]);
      assert ats == future;
      assert newest.value in ats;
      forall x | x in ats ensures x <= newest.value && IsFuture(x, now) {
        var i :| 0 <= i < |future| && future[i] == x;
      }
    } else {
      newest := None;
    }
  }

  // ---- the disk ------------------------------------------------------------

  /** The archive root. Each command takes the next fate; links are counted across the file system. */
  class Disk {
    const fates: Fates
    ghost const elsewhere: nat -> nat
    var sent: nat
    var fs: Fs
    var links: Links

    ghost predicate Valid()
      reads this
    {
      Honest(links, fs, elsewhere)
    }

    constructor (fates: Fates, fs: Fs, links: Links, ghost elsewhere: nat -> nat)
      requires Honest(links, fs, elsewhere)
      ensures Valid() && this.fates == fates && this.fs == fs && this.elsewhere == elsewhere && sent == 0
    {
      this.fates, this.fs, this.links, this.elsewhere, sent := fates, fs, links, elsewhere, 0;
    }

    /** The names in the root, in no particular order. */
    method ReadDir() returns (ok: bool, names: seq<Entry>, now: int)
      modifies this`sent
      ensures sent == old(sent) + 1 && ok == fates(old(sent)).works && now == fates(old(sent)).at
      ensures ok ==> Lists(names, fs)
    {
      ok, names, now := fates(sent).works, [], fates(sent).at;
      sent := sent + 1;
      var rest := fs.Keys;
      while rest != {}
        invariant rest <= fs.Keys
        invariant forall i, j :: 0 <= i < j < |names| ==> names[i] != names[j]
        invariant forall e :: e in names <==> e in fs && e !in rest
        decreases rest
      {
        var e :| e in rest;
        names := names + [e];
        rest := rest - {e};
      }
    }

    /** `rm` of a path, with everything under it. */
    method Rm(e: Entry) returns (ok: bool)
      requires Valid()
      modifies this
      ensures Valid() && sent == old(sent) + 1 && ok == fates(old(sent)).works
      ensures fs == AfterRm(old(fs), e, fates(old(sent)))
    {
      ok := fates(sent).works;
      if e in fs {
        RmIsHonest(links, fs, e, fates(sent), elsewhere);
        links := Recounted(links, fs[e], Get(AfterRm(fs, e, fates(sent)), e));
      } else {
        assert fs - {e} == fs;
      }
      fs := AfterRm(fs, e, fates(sent));
      sent := sent + 1;
    }

    method Rename(from: Entry, to: Entry) returns (ok: bool)
      requires Valid() && from != to
      modifies this
      ensures Valid() && sent == old(sent) + 1 && ok == Renames(old(fs), from, to, fates(old(sent)))
      ensures fs == AfterRename(old(fs), from, to, fates(old(sent)))
      ensures to !in old(fs) ==> links == old(links)
    {
      ok := Renames(fs, from, to, fates(sent));
      if ok {
        RenameIsHonest(links, fs, from, to, elsewhere);
        if to in fs { links := Recounted(links, fs[to], None); }
      }
      fs := AfterRename(fs, from, to, fates(sent));
      sent := sent + 1;
    }

    /** A transfer: whatever `content` links to, it is the entry's tree now. */
    method Write(e: Entry, content: Tree)
      requires Valid()
      modifies this`fs, this`links
      ensures Valid() && fs == old(fs)[e := content]
    {
      WriteIsHonest(links, fs, e, content, elsewhere);
      if e in fs {
        links := Recounted(links, fs[e], Some(content));
      } else {
        links := Added(links, content);
      }
      fs := fs[e := content];
    }
  }

  // ---- claiming a partial --------------------------------------------------

  /** The entry is as it was. */
  ghost predicate Kept(fs: Fs, was: Fs, e: Entry) { Get(fs, e) == Get(was, e) }

  /** Complete snapshots and whatever is not ours are as they were. */
  ghost predicate Spared(fs: Fs, was: Fs) { forall e: Entry :: e.Complete? || e.Foreign? ==> Kept(fs, was, e) }

  /** Nothing is there that was not, and what is there has at most lost something. */
  ghost predicate OnlyLess(fs: Fs, was: Fs) { forall e :: e in fs ==> e in was && Smaller(fs[e], was[e]) }

  ghost predicate NewestPartial(fs: Fs, at: int) { Partial(at) in fs && forall x :: Partial(x) in fs ==> x <= at }

  /** What is left when the sweeps are done: complete and foreign entries and the newest partial. */
  ghost predicate Swept(fs: Fs, was: Fs) {
    && Spared(fs, was)
    && (forall x :: Deleting(x) !in fs)
    && (forall x :: Partial(x) in fs <==> NewestPartial(was, x))
    && (forall x :: NewestPartial(was, x) ==> Kept(fs, was, Partial(x)))
  }

  /** What `left` holds may be written to by this run alone. */
  ghost predicate MayResume(swept: Fs, elsewhere: nat -> nat, at: int) {
    && Partial(at) in swept && swept[Partial(at)].Directory?
    && forall links :: Honest(links, swept, elsewhere) ==> !Shared(links, swept[Partial(at)])
  }

  datatype Claim = Fresh | Resumed | ClaimFailed

  /** What `claimPartial(newAt)` may leave of the archive `was`. */
  ghost predicate Claimed(fs: Fs, was: Fs, elsewhere: nat -> nat, newAt: int, r: Claim) {
    match r
    case ClaimFailed => Spared(fs, was) && OnlyLess(fs, was)
    case Fresh =>
      && Spared(fs, was) && (forall x :: Deleting(x) !in fs && Partial(x) !in fs)
      && forall swept, x :: Swept(swept, was) && NewestPartial(was, x) ==> !MayResume(swept, elsewhere, x)
    case Resumed =>
      && Spared(fs, was) && (forall x :: Deleting(x) !in fs && (Partial(x) in fs <==> x == newAt))
      && exists swept, x :: Swept(swept, was) && NewestPartial(was, x) && MayResume(swept, elsewhere, x)
           && Get(fs, Partial(newAt)) == Some(was[Partial(x)])
  }

  /** Every command sent since the `from`th worked. */
  ghost predicate AllWorked(fates: Fates, from: nat, to: nat) { forall i :: from <= i < to ==> fates(i).works }

  /** Entries of `doomed` are gone, the last one perhaps only in part, and the others are as they were. */
  ghost predicate Cleared(fs: Fs, was: Fs, doomed: set<Entry>) {
    forall e :: if e in doomed then e !in fs else Kept(fs, was, e)
  }

  /** What `stat` does not find, though `lstat` would. */
  predicate Dangling(t: Tree) { t.Symlink? && t.dangling }

  ghost predicate CanPromote(fs: Fs, at: int) {
    && (Complete(at) in fs ==> Dangling(fs[Complete(at)]))
    && CanRename(fs, Partial(at), Complete(at))
  }

  /** The partial is complete, and nothing else changed. */
  ghost predicate Promoted(fs: Fs, was: Fs, at: int) {
    && Partial(at) in was && fs == (was - {Partial(at)})[Complete(at) := was[Partial(at)]]
  }

  ghost predicate CanRemove(fs: Fs, now: int, at: int) {
    && CanRename(fs, Complete(at), Deleting(at))
    && forall ats :: ListsComplete(ats, fs) ==> !Undeletable(ats, now, at)
  }

  /** The snapshot is no longer complete, and nothing else changed but its own `.deleting` remains. */
  ghost predicate Removed(fs: Fs, was: Fs, at: int) {
    && Complete(at) in was && Complete(at) !in fs
    && forall e :: e != Complete(at) && e != Deleting(at) ==> Kept(fs, was, e)
  }

  /** What `remove` leaves of the archive `was`, and when it succeeds. */
  ghost predicate RemoveLeaves(fs: Fs, was: Fs, fates: Fates, n: nat, at: int, ok: bool) {
    && (ok <==> CanRemove(was, fates(n).at, at) && (forall i :: n <= i < n + 3 ==> fates(i).works))
    && (fs == was || (CanRemove(was, fates(n).at, at) && Removed(fs, was, at)))
    && (ok ==> Removed(fs, was, at) && Deleting(at) !in fs)
  }

  class LocalSnapshotStore {
    const disk: Disk

    constructor (disk: Disk)
      ensures this.disk == disk
    {
      this.disk := disk;
    }

    method ListComplete() returns (ok: bool, ats: seq<int>, now: int)
      modifies disk`sent
      ensures disk.sent == old(disk.sent) + 1 && ok == disk.fates(old(disk.sent)).works
      ensures now == disk.fates(old(disk.sent)).at
      ensures ok ==> ListsComplete(ats, disk.fs)
    {
      var names;
      ok, names, now := disk.ReadDir();
      ats := [];
      if ok { ats := SortedComplete(names); }
    }

    /** Removes the listed entries one by one; a failure ends it, with one entry in part. */
    method RmAll(names: seq<Entry>) returns (ok: bool)
      requires disk.Valid() && (forall e :: e in names ==> !e.Complete? && !e.Foreign?)
      modifies disk
      ensures disk.Valid() && disk.sent >= old(disk.sent)
      ensures ok <==> AllWorked(disk.fates, old(disk.sent), disk.sent)
      ensures ok ==> Cleared(disk.fs, old(disk.fs), set e | e in names)
      ensures Spared(disk.fs, old(disk.fs)) && OnlyLess(disk.fs, old(disk.fs))
    {
      forall e | e in disk.fs ensures Smaller(disk.fs[e], disk.fs[e]) { SmallerIsSame(disk.fs[e]); }
      for i := 0 to |names|
        invariant disk.Valid() && disk.sent >= old(disk.sent)
        invariant AllWorked(disk.fates, old(disk.sent), disk.sent)
        invariant Cleared(disk.fs, old(disk.fs), set e | e in names[..i])
        invariant Spared(disk.fs, old(disk.fs)) && OnlyLess(disk.fs, old(disk.fs))
      {
        assert names[..i + 1] == names[..i] + [names[i]];
        ghost var before := disk.fs;
        var done := disk.Rm(names[i]);
        if !done { return false; }
      }
      assert names[..|names|] == names;
      return true;
    }

    /** `claimPartial`: sweep, keep the newest partial if this run may write to it, and take it over. */
    method ClaimPartial(newAt: int) returns (r: Claim)
      requires disk.Valid()
      modifies disk
      ensures disk.Valid() && disk.sent > old(disk.sent)
      ensures Claimed(disk.fs, old(disk.fs), disk.elsewhere, newAt, r)
      ensures r.ClaimFailed? <==> !AllWorked(disk.fates, old(disk.sent), disk.sent)
      ensures r.Resumed? ==> Partial(newAt) in disk.fs && Isolated(disk.fs, disk.elsewhere, Partial(newAt))
    {
      hide Honest, Shared, AfterRm, AfterRename, Smaller, MultiplyLinked, Isolated, AllWorked;
      ghost var was, n := disk.fs, disk.sent;
      NothingLost(was);
      var ok, names, _ := disk.ReadDir();
      OneWorked(disk.fates, n);
      if !ok { return ClaimFailed; }
      var partials := SortedPartials(names);
      var doomed := Doomed(names);
      if |partials| > 0 { doomed := doomed + PartialsOf(partials[..|partials| - 1]); }
      ok := RmAll(doomed);
      ghost var m := disk.sent;
      BothWorked(disk.fates, n, n + 1, m);
      if !ok { return ClaimFailed; }
      SweepSwept(disk.fs, was, names, partials, doomed);
      if partials == [] { return Fresh; }
      r := TakeOver(partials[|partials| - 1], newAt, was);
      BothWorked(disk.fates, n, m, disk.sent);
      if r.Resumed? { UnsharedIsIsolated(disk.links, disk.fs, disk.elsewhere, Partial(newAt)); }
    }

    /** What becomes of the newest partial once the sweeps are done. */
    method TakeOver(at: int, newAt: int, ghost was: Fs) returns (r: Claim)
      requires disk.Valid() && Swept(disk.fs, was) && NewestPartial(was, at) && OnlyLess(disk.fs, was)
      modifies disk
      ensures disk.Valid() && disk.sent >= old(disk.sent)
      ensures Claimed(disk.fs, was, disk.elsewhere, newAt, r)
      ensures r.ClaimFailed? <==> !AllWorked(disk.fates, old(disk.sent), disk.sent)
      ensures r.Resumed? ==> Partial(newAt) in disk.fs && !MultiplyLinked(disk.links, disk.fs[Partial(newAt)])
    {
      hide Honest, Shared, Smaller;
      var tree := disk.fs[Partial(at)];
      var shared := true;
      if !tree.Symlink? { shared := HasMultiplyLinkedEntry(disk.links, tree); }
      ghost var swept := disk.fs;
      if shared {
        OthersMayNotResume(swept, was, disk.links, disk.elsewhere, at);
        var ok := disk.Rm(Partial(at));
        return if ok then Fresh else ClaimFailed;
      }
      MayWriteTo(swept, disk.links, disk.elsewhere, at);
      if at != newAt {
        var ok := disk.Rename(Partial(at), Partial(newAt));
        if !ok { return ClaimFailed; }
      }
      return Resumed;
    }

    /** `promote`: the destination must not exist - a dangling link does not - and then one rename. */
    method Promote(at: int) returns (ok: bool)
      requires disk.Valid()
      modifies disk
      ensures disk.Valid() && disk.sent >= old(disk.sent)
      ensures ok ==> Promoted(disk.fs, old(disk.fs), at)
      ensures !ok ==> disk.fs == old(disk.fs)
      ensures ok <==> CanPromote(old(disk.fs), at) && disk.fates(old(disk.sent)).works
    {
      if Complete(at) in disk.fs && !Dangling(disk.fs[Complete(at)]) { return false; }
      ok := disk.Rename(Partial(at), Complete(at));
    }

    /** `remove`: refused for the newest snapshot, and otherwise a rename and then a removal. */
    method Remove(at: int) returns (ok: bool)
      requires disk.Valid()
      modifies disk
      ensures disk.Valid() && disk.sent >= old(disk.sent)
      ensures RemoveLeaves(disk.fs, old(disk.fs), disk.fates, old(disk.sent), at, ok)
    {
      hide Honest;
      var listed, ats, now := ListComplete();
      if !listed || at !in ats { return false; }
      var newest := NewestUndeletable(ats, now);
      if newest == Some(at) { return false; }
      assert !Undeletable(ats, now, at);
      var renamed := disk.Rename(Complete(at), Deleting(at));
      if !renamed { return false; }
      ok := disk.Rm(Deleting(at));
    }
  }

  lemma OneWorked(fates: Fates, n: nat)
    ensures AllWorked(fates, n, n + 1) <==> fates(n).works
  {
  }

  lemma BothWorked(fates: Fates, n: nat, m: nat, k: nat)
    requires n <= m <= k
    ensures AllWorked(fates, n, k) <==> AllWorked(fates, n, m) && AllWorked(fates, m, k)
  {
  }

  lemma {:induction false} NothingLost(fs: Fs)
    ensures OnlyLess(fs, fs) && Spared(fs, fs)
  {
    forall e | e in fs ensures Smaller(fs[e], fs[e]) { SmallerIsSame(fs[e]); }
  }

  /** The `.deleting` entries of a listing. */
  function Doomed(names: seq<Entry>): (r: seq<Entry>)
    ensures forall e :: e in r <==> e in names && e.Deleting?
  {
    if names == [] then []
    else
      var init := Doomed(names[..|names| - 1]);
      if names[|names| - 1].Deleting? then init + [names[|names| - 1]] else init
  }

  function PartialsOf(ats: seq<int>): (r: seq<Entry>)
    ensures forall e :: e in r <==> e.Partial? && e.at in ats
  {
    if ats == [] then [] else PartialsOf(ats[..|ats| - 1]) + [Partial(ats[|ats| - 1])]
  }

  lemma {:induction false} LastIsNewest(fs: Fs, partials: seq<int>, x: int)
    requires ListsPartials(partials, fs)
    ensures NewestPartial(fs, x) <==> |partials| > 0 && x == partials[|partials| - 1]
    ensures Partial(x) in fs && !NewestPartial(fs, x) <==> |partials| > 0 && x in partials[..|partials| - 1]
  {
    if |partials| > 0 {
      var init, last := partials[..|partials| - 1], partials[|partials| - 1];
      assert partials == init + [last] && last in partials;
      forall y | Partial(y) in fs ensures y <= last {
        var i :| 0 <= i < |partials| && partials[i] == y;
      }
    }
  }

  /** Clearing every `.deleting` entry and every older partial is the sweep. */
  lemma {:induction false} SweepSwept(fs: Fs, was: Fs, names: seq<Entry>, partials: seq<int>, doomed: seq<Entry>)
    requires Lists(names, was) && ListsPartials(partials, was)
    requires doomed == Doomed(names) + if |partials| > 0 then PartialsOf(partials[..|partials| - 1]) else []
    requires Cleared(fs, was, set e | e in doomed)
    ensures Swept(fs, was)
    ensures |partials| > 0 ==> NewestPartial(was, partials[|partials| - 1])
  {
    hide NewestPartial, ListsPartials, Lists;
    var gone := set e | e in doomed;
    forall e ensures e in gone <==> e in was && (e.Deleting? || (e.Partial? && !NewestPartial(was, e.at))) {
      if e.Partial? { LastIsNewest(was, partials, e.at); }
      assert e in names <==> e in was by { ListsAll(names, was); }
    }
    if |partials| > 0 { LastIsNewest(was, partials, partials[|partials| - 1]); }
    forall x ensures NewestPartial(was, x) ==> Partial(x) in was { LastIsNewest(was, partials, x); IsThere(was, x); }
    forall e ensures if e in gone then e !in fs else Kept(fs, was, e) { }
  }

  lemma {:induction false} IsThere(fs: Fs, x: int)
    ensures NewestPartial(fs, x) ==> Partial(x) in fs
  {
  }

  lemma {:induction false} ListsAll(names: seq<Entry>, fs: Fs)
    requires Lists(names, fs)
    ensures forall e :: e in names <==> e in fs
  {
  }

  lemma {:induction false} OthersMayNotResume(swept: Fs, was: Fs, links: Links, elsewhere: nat -> nat, at: int)
    requires Swept(swept, was) && NewestPartial(was, at) && Honest(links, swept, elsewhere)
    requires Partial(at) in swept && MultiplyLinked(links, swept[Partial(at)])
    ensures forall other, x :: Swept(other, was) && NewestPartial(was, x) ==> !MayResume(other, elsewhere, x)
  {
    hide Honest, Shared;
    forall other, x | Swept(other, was) && NewestPartial(was, x) ensures !MayResume(other, elsewhere, x) {
      SweptOneWay(swept, other, was);
    }
  }

  lemma {:induction false} SweptOneWay(a: Fs, b: Fs, was: Fs)
    requires Swept(a, was) && Swept(b, was)
    ensures a == b
  {
    forall e ensures Kept(a, b, e) {
      match e {
        case Complete(_) => assert Kept(a, was, e) && Kept(b, was, e);
        case Foreign(_) => assert Kept(a, was, e) && Kept(b, was, e);
        case Partial(x) => if NewestPartial(was, x) { assert Kept(a, was, e) && Kept(b, was, e); }
        case Deleting(_) =>
      }
    }
    assert forall e :: e in a <==> e in b by {
      forall e ensures e in a <==> e in b { assert Kept(a, b, e); }
    }
    forall e | e in a ensures a[e] == b[e] { assert Kept(a, b, e); }
  }

  lemma {:induction false} MayWriteTo(swept: Fs, links: Links, elsewhere: nat -> nat, at: int)
    requires Honest(links, swept, elsewhere) && Partial(at) in swept && !MultiplyLinked(links, swept[Partial(at)])
    ensures MayResume(swept, elsewhere, at)
  {
    hide Shared;
    forall other | Honest(other, swept, elsewhere) ensures !Shared(other, swept[Partial(at)]) {
      SharedAlike(other, links, swept[Partial(at)]);
    }
  }

  // ---- every step is safe --------------------------------------------------

  /** An ascending listing of the complete snapshots. */
  lemma {:induction false} SomeListing(fs: Fs) returns (ats: seq<int>)
    ensures ListsComplete(ats, fs)
    decreases |fs|
  {
    if fs == map[] {
      ats := [];
    } else {
      var e :| e in fs;
      ats := SomeListing(fs - {e});
      if e.Complete? { ats := Insert(ats, e.at); }
    }
  }

  /** One step of the store on the archive, however it ends. */
  ghost predicate Steps(fs: Fs, was: Fs) {
    || fs == was
    || (exists newAt, elsewhere, r :: Claimed(fs, was, elsewhere, newAt, r))
    || (exists at :: CanPromote(was, at) && Promoted(fs, was, at))
    || (exists now, at :: CanRemove(was, now, at) && Removed(fs, was, at))
  }

  ghost predicate HasComplete(fs: Fs) { exists at :: Complete(at) in fs }

  /** Whatever a step and its crash do: foreign entries stay, snapshots never change, and the last one never goes. */
  lemma {:induction false} StepIsSafe(fs: Fs, was: Fs)
    requires Steps(fs, was)
    ensures forall name :: Kept(fs, was, Foreign(name))
    ensures forall at :: Complete(at) in fs && Complete(at) in was && !Dangling(was[Complete(at)]) ==>
              fs[Complete(at)] == was[Complete(at)]
    ensures forall at, other :: at != other ==> Kept(fs, was, Complete(at)) || Kept(fs, was, Complete(other))
    ensures HasComplete(was) ==> HasComplete(fs)
  {
    hide MayResume, Swept, NewestPartial;
    if fs == was {
    } else if exists newAt, elsewhere, r :: Claimed(fs, was, elsewhere, newAt, r) {
      var newAt, elsewhere, r :| Claimed(fs, was, elsewhere, newAt, r);
      assert Spared(fs, was);
      hide Claimed;
      forall at ensures Kept(fs, was, Complete(at)) { }
    } else if exists at :: CanPromote(was, at) && Promoted(fs, was, at) {
      var at :| CanPromote(was, at) && Promoted(fs, was, at);
      assert Complete(at) in fs;
    } else {
      var now, at :| CanRemove(was, now, at) && Removed(fs, was, at);
      RemovalLeavesOne(fs, was, now, at);
      forall x | x != at ensures Kept(fs, was, Complete(x)) { }
      assert Complete(at) !in fs;
    }
    forall x | Kept(fs, was, Complete(x)) && Complete(x) in fs ensures fs[Complete(x)] == was[Complete(x)] { }
  }

  lemma {:induction false} RemovalLeavesOne(fs: Fs, was: Fs, now: int, at: int)
    requires CanRemove(was, now, at) && Removed(fs, was, at)
    ensures HasComplete(fs)
  {
    var ats := SomeListing(was);
    assert at in ats;
    var other := NewestOf(ats, now);
    assert Complete(other) in was && Kept(fs, was, Complete(other));
  }

  /** There is always one that may not be deleted. */
  lemma {:induction false} NewestOf(ats: seq<int>, now: int) returns (at: int)
    requires Ascending(ats) && ats != []
    ensures Undeletable(ats, now, at)
  {
    var i := |ats| - 1;
    while i >= 0 && IsFuture(ats[i], now)
      invariant -1 <= i < |ats| && forall j :: i < j < |ats| ==> IsFuture(ats[j], now)
    {
      i := i - 1;
    }
    at := if i >= 0 then ats[i] else ats[|ats| - 1];
  }

  /** Over any number of steps and crashes, an archive with a snapshot keeps having one. */
  lemma {:induction false} ArchiveNeverEmpties(states: seq<Fs>, n: nat)
    requires n < |states| && (forall i :: 0 <= i < n ==> Steps(states[i + 1], states[i]))
    requires HasComplete(states[0])
    ensures HasComplete(states[n])
    decreases n
  {
    if n > 0 {
      ArchiveNeverEmpties(states, n - 1);
      var i := n - 1;
      assert Steps(states[i + 1], states[i]);
      StepIsSafe(states[n], states[n - 1]);
    }
  }
}
