/**
  The remote snapshot store (src/snapshots/internal/remote-store.ts:422-534):
  the same entries behind ssh commands, where `mv` onto an existing directory
  moves into it. A command may fail with or without effect, and before any of
  them another client may have planted an empty directory.
 */
module RemoteStore {
  import opened Prelude
  import opened SnapshotName
  import opened LocalStore

  /** A directory by what it is, and the names at its top. */
  datatype Dir = Dir(id: int, inside: set<Entry>)

  const PLANTED := Dir(0, {})

  type Root = map<Entry, Dir>

  /** `works` is exit code zero; a command that fails may still have taken effect. */
  datatype Answer = Answer(works: bool, took: bool, planted: Option<Entry>)

  type Script = nat -> Answer

  predicate Took(a: Answer) { a.works || a.took }

  /** The root as a command finds it. */
  function Found(root: Root, a: Answer): Root {
    if a.planted.Some? && a.planted.value !in root then root[a.planted.value := PLANTED] else root
  }

  /** `mv -- from to`: a rename, or a move into `to` when it is there. */
  function AfterMv(root: Root, from: Entry, to: Entry, a: Answer): Root {
    var r := Found(root, a);
    if !Took(a) || from !in r then r
    else if to in r && to != from then (r - {from})[to := r[to].(inside := r[to].inside + {from})]
    else (r - {from})[to := r[from]]
  }

  /** `rm -rf -- e`. */
  function AfterRm(root: Root, e: Entry, a: Answer): Root { if Took(a) then Found(root, a) - {e} else Found(root, a) }

  function Get(root: Root, e: Entry): Option<Dir> { if e in root then Some(root[e]) else None }

  ghost predicate Same(root: Root, was: Root, e: Entry) { Get(root, e) == Get(was, e) }

  /** Complete and foreign entries that were there are as they were; new ones are planted. */
  ghost predicate OnlyPlanted(root: Root, was: Root) {
    forall e: Entry :: e.Complete? || e.Foreign? ==> SameOrPlanted(root, was, e)
  }

  ghost predicate SameOrPlanted(root: Root, was: Root, e: Entry) {
    Same(root, was, e) || (e !in was && Get(root, e) == Some(PLANTED))
  }

  /** Nobody plants anything from command `n` on. */
  ghost predicate Alone(script: Script, n: nat) { forall i :: i >= n ==> script(i).planted.None? }

  ghost predicate AllWork(script: Script, n: nat) { forall i :: i >= n ==> script(i).works }

  ghost predicate NewestLeftover(root: Root, at: int) { Partial(at) in root && forall x :: Partial(x) in root ==> x <= at }

  /** What claiming leaves when nobody else writes: the newest partial under this run's name, and no other leftover. */
  ghost predicate ClaimLeaves(root: Root, was: Root, newAt: int, r: Claim) {
    match r
    case ClaimFailed => true
    case Fresh => (forall x :: Deleting(x) !in root && Partial(x) !in root && Partial(x) !in was)
    case Resumed =>
      && (forall x :: Deleting(x) !in root && (Partial(x) in root <==> x == newAt))
      && exists x :: NewestLeftover(was, x) && Get(root, Partial(newAt)) == Some(was[Partial(x)])
  }

  /** Nothing but leftovers changed, and none appeared. */
  ghost predicate Emptied(root: Root, was: Root, doomed: set<Entry>) {
    forall e :: if e in doomed then e !in root else Same(root, was, e)
  }

  ghost predicate ListsRoot(names: seq<Entry>, root: Root) {
    Distinct(names) && forall e :: e in names <==> e in root
  }

  lemma {:induction false} MvSpares(root: Root, was: Root, from: Entry, to: Entry, a: Answer)
    requires forall e :: SameOrPlanted(root, was, e)
    ensures forall e :: e != from && e != to ==> SameOrPlanted(AfterMv(root, from, to, a), was, e)
  {
    forall e | e != from && e != to ensures SameOrPlanted(AfterMv(root, from, to, a), was, e) {
      assert SameOrPlanted(root, was, e);
    }
  }

  lemma {:induction false} FindingSpares(root: Root, was: Root, from: Entry, to: Entry, a: Answer)
    requires forall e :: e != from && e != to ==> SameOrPlanted(root, was, e)
    ensures forall e :: e != from && e != to ==> SameOrPlanted(Found(root, a), was, e) && SameOrPlanted(AfterRm(root, to, a), was, e)
  {
    forall e | e != from && e != to ensures SameOrPlanted(Found(root, a), was, e) && SameOrPlanted(AfterRm(root, to, a), was, e) {
      assert SameOrPlanted(root, was, e);
    }
  }

  lemma {:induction false} LeftoverMoves(root: Root, was: Root, from: Entry, to: Entry, a: Answer)
    requires OnlyPlanted(root, was) && !from.Complete? && !from.Foreign? && !to.Complete? && !to.Foreign?
    ensures OnlyPlanted(AfterMv(root, from, to, a), was)
  {
    forall e: Entry | e.Complete? || e.Foreign? ensures SameOrPlanted(AfterMv(root, from, to, a), was, e) {
      assert SameOrPlanted(root, was, e);
    }
  }

  lemma {:induction false} ListsDistinctly(names: seq<Entry>, root: Root)
    requires ListsRoot(names, root)
    ensures Distinct(names) && forall e :: e in names <==> e in root
  {
  }

  lemma {:induction false} PlantedAlone(root: Root, was: Root)
    requires forall e :: SameOrPlanted(root, was, e)
    ensures OnlyPlanted(root, was)
  {
  }

  lemma {:induction false} PlantedTwice(root: Root, mid: Root, was: Root)
    requires OnlyPlanted(root, mid) && OnlyPlanted(mid, was)
    ensures OnlyPlanted(root, was)
  {
    forall e: Entry | e.Complete? || e.Foreign? ensures SameOrPlanted(root, was, e) {
      assert SameOrPlanted(root, mid, e) && SameOrPlanted(mid, was, e);
    }
  }

  /** The sweeps leave the newest partial, and every complete and foreign entry. */
  lemma {:induction false} SweepLeaves(root: Root, was: Root, names: seq<Entry>, partials: seq<int>, doomed: seq<Entry>)
    requires ListsRoot(names, was) && Ascending(partials) && forall at :: at in partials <==> Partial(at) in names
    requires doomed == Doomed(names) + if |partials| > 0 then PartialsOf(partials[..|partials| - 1]) else []
    requires Emptied(root, was, set e | e in doomed)
    ensures forall x :: Deleting(x) !in root
    ensures |partials| == 0 ==> forall x :: Partial(x) !in root && Partial(x) !in was
    ensures |partials| > 0 ==>
              var last := partials[|partials| - 1];
              NewestLeftover(was, last) && Same(root, was, Partial(last)) && forall x :: Partial(x) in root <==> x == last
  {
    hide Emptied, ListsRoot, Same;
    var gone := set e | e in doomed;
    forall e ensures e in names <==> e in was { ListsEach(names, was, e); }
    forall x ensures Deleting(x) !in root { EmptiedAt(root, was, gone, Deleting(x)); }
    if |partials| > 0 {
      var init, last := partials[..|partials| - 1], partials[|partials| - 1];
      LastIsLeft(was, partials);
      forall x ensures Partial(x) in root <==> x == last {
        EmptiedAt(root, was, gone, Partial(x));
        assert Partial(x) in gone <==> x in init;
      }
      EmptiedAt(root, was, gone, Partial(last));
    } else {
      forall x ensures Partial(x) !in root && Partial(x) !in was { EmptiedAt(root, was, gone, Partial(x)); }
    }
  }

  lemma {:induction false} EmptiedAt(root: Root, was: Root, doomed: set<Entry>, e: Entry)
    requires Emptied(root, was, doomed)
    ensures if e in doomed then e !in root else Same(root, was, e) && (e in root <==> e in was)
  {
    assert if e in doomed then e !in root else Same(root, was, e);
  }

  lemma {:induction false} ListsEach(names: seq<Entry>, root: Root, e: Entry)
    requires ListsRoot(names, root)
    ensures e in names <==> e in root
  {
  }

  lemma {:induction false} LastIsLeft(was: Root, partials: seq<int>)
    requires |partials| > 0 && Ascending(partials) && forall at :: at in partials <==> Partial(at) in was
    ensures var init, last := partials[..|partials| - 1], partials[|partials| - 1];
            NewestLeftover(was, last) && last !in init && forall x :: x in partials <==> x in init || x == last
  {
    var init, last := partials[..|partials| - 1], partials[|partials| - 1];
    assert partials == init + [last] && last in partials;
    forall x | Partial(x) in was ensures x <= last {
      var i :| 0 <= i < |partials| && partials[i] == x;
    }
  }

  lemma FailureLeavesAny(was: Root, newAt: int)
    ensures forall root :: ClaimLeaves(root, was, newAt, ClaimFailed)
  {
  }

  lemma NothingToResume(root: Root, was: Root, newAt: int)
    requires forall x :: Deleting(x) !in root && Partial(x) !in root && Partial(x) !in was
    ensures ClaimLeaves(root, was, newAt, Fresh)
  {
  }

  lemma {:induction false} Resumes(root: Root, was: Root, keep: int, newAt: int, a: Answer)
    requires NewestLeftover(was, keep) && Same(root, was, Partial(keep)) && a.planted.None?
    requires forall x :: Deleting(x) !in root && (Partial(x) in root <==> x == keep)
    ensures keep == newAt ==> ClaimLeaves(root, was, newAt, Resumed)
    ensures keep != newAt && a.works ==>
              Partial(keep) in root && ClaimLeaves(AfterMv(root, Partial(keep), Partial(newAt), a), was, newAt, Resumed)
  {
  }

  class RemoteSnapshotStore {
    const script: Script
    var sent: nat
    var root: Root
    var rootEnsured: bool

    constructor (script: Script, root: Root)
      ensures this.script == script && this.root == root && sent == 0 && !rootEnsured
    {
      this.script, this.root, sent, rootEnsured := script, root, 0, false;
    }

    /** `mkdir -p` of the archive root, once per store, and then one listing. */
    method ListEntries() returns (ok: bool, names: seq<Entry>)
      modifies this
      ensures forall e :: SameOrPlanted(root, old(root), e)
      ensures rootEnsured == (old(rootEnsured) || script(old(sent)).works)
      ensures sent == old(sent) + if old(rootEnsured) || !rootEnsured then 1 else 2
      ensures ok == (rootEnsured && script(sent - 1).works)
      ensures ok ==> ListsRoot(names, root)
      ensures Alone(script, old(sent)) ==> root == old(root)
      ensures AllWork(script, old(sent)) ==> ok
    {
      names := [];
      if !rootEnsured {
        root := Found(root, script(sent));
        ok := script(sent).works;
        sent := sent + 1;
        if !ok { return; }
        rootEnsured := true;
      }
      root := Found(root, script(sent));
      ok := script(sent).works;
      sent := sent + 1;
      var rest := root.Keys;
      while rest != {}
        invariant rest <= root.Keys
        invariant forall i, j :: 0 <= i < j < |names| ==> names[i] != names[j]
        invariant forall e :: e in names <==> e in root && e !in rest
        decreases rest
      {
        var e :| e in rest;
        names := names + [e];
        rest := rest - {e};
      }
    }

    method Mv(from: Entry, to: Entry) returns (ok: bool)
      modifies this
      ensures sent == old(sent) + 1 && rootEnsured == old(rootEnsured)
      ensures root == AfterMv(old(root), from, to, script(old(sent)))
      ensures ok == (script(old(sent)).works && from in Found(old(root), script(old(sent))))
    {
      ok := script(sent).works && from in Found(root, script(sent));
      root := AfterMv(root, from, to, script(sent));
      sent := sent + 1;
    }

    method Rm(e: Entry) returns (ok: bool)
      modifies this
      ensures sent == old(sent) + 1 && rootEnsured == old(rootEnsured)
      ensures root == AfterRm(old(root), e, script(old(sent))) && ok == script(old(sent)).works
    {
      ok := script(sent).works;
      root := AfterRm(root, e, script(sent));
      sent := sent + 1;
    }

    /** The names inside one entry. */
    method ListInside(e: Entry) returns (ok: bool, inside: set<Entry>)
      modifies this
      ensures sent == old(sent) + 1 && rootEnsured == old(rootEnsured) && root == Found(old(root), script(old(sent)))
      ensures ok ==> e in root && inside == root[e].inside
      ensures ok <==> script(old(sent)).works && e in root
    {
      root := Found(root, script(sent));
      ok, inside := script(sent).works && e in root, {};
      if ok { inside := root[e].inside; }
      sent := sent + 1;
    }

    /**
      `promote`: success means the partial was renamed - whoever planted what
      when, it was not moved into a directory of that name. A partial that holds
      an entry of its own name is renamed and yet reported as nested.
     */
    method Promote(at: int) returns (ok: bool)
      modifies this
      ensures ok ==> Complete(at) !in old(root) && Complete(at) in root && Partial(at) !in root[Complete(at)].inside
      ensures ok && Partial(at) in old(root) ==> root[Complete(at)] == old(root)[Partial(at)]
      ensures forall e: Entry :: (e.Complete? && e.at != at) || e.Foreign? ==> SameOrPlanted(root, old(root), e)
      ensures AllWork(script, old(sent)) && Alone(script, old(sent)) ==>
                var free := Complete(at) !in old(root) && Partial(at) in old(root);
                && (ok <==> free && Partial(at) !in old(root)[Partial(at)].inside)
                && (free ==> root == (old(root) - {Partial(at)})[Complete(at) := old(root)[Partial(at)]])
      ensures Complete(at) in old(root) ==> !ok && Same(root, old(root), Complete(at))
    {
      ghost var was := root;
      var listed, names := ListEntries();
      assert SameOrPlanted(root, was, Complete(at)) && SameOrPlanted(root, was, Partial(at));
      if !listed || Complete(at) in names || Partial(at) !in names { return false; }
      MvSpares(root, was, Partial(at), Complete(at), script(sent));
      var moved := Mv(Partial(at), Complete(at));
      if !moved { return false; }
      FindingSpares(root, was, Partial(at), Complete(at), script(sent));
      var inside;
      ok, inside := ListInside(Complete(at));
      ok := ok && Partial(at) !in inside;
    }

    /** `remove`: refused for the newest snapshot; what `mv` nests, `rm` removes all the same. */
    method Remove(at: int, now: int) returns (ok: bool)
      modifies this
      ensures forall e: Entry :: (e.Complete? && e.at != at) || e.Foreign? ==> SameOrPlanted(root, old(root), e)
      ensures ok ==> Get(root, Complete(at)) in {None, Some(PLANTED)} && Deleting(at) !in root
      ensures Alone(script, old(sent)) && !Same(root, old(root), Complete(at)) ==>
                Complete(at) in old(root) && Complete(at) !in root
                && forall ats :: ListsSnapshots(ats, old(root)) ==> !Undeletable(ats, now, at)
      ensures AllWork(script, old(sent)) && Alone(script, old(sent)) ==>
                (ok <==> Complete(at) in old(root) && forall ats :: ListsSnapshots(ats, old(root)) ==> !Undeletable(ats, now, at))
    {
      hide SameOrPlanted, Undeletable, ListsRoot;
      ghost var was := root;
      var listed, names := ListEntries();
      if !listed || Complete(at) !in names { return false; }
      ListsDistinctly(names, root);
      var ats := SortedComplete(names);
      var newest := NewestUndeletable(ats, now);
      if newest == Some(at) { return false; }
      ListingIsUnique(ats, root);
      MvSpares(root, was, Complete(at), Deleting(at), script(sent));
      ok := Mv(Complete(at), Deleting(at));
      if ok {
        FindingSpares(root, was, Complete(at), Deleting(at), script(sent));
        ok := Rm(Deleting(at));
      }
    }

    /** `claimPartial`: sweep, keep the newest partial, and rename it to this run's. */
    method ClaimPartial(newAt: int) returns (r: Claim)
      modifies this
      ensures OnlyPlanted(root, old(root))
      ensures Alone(script, old(sent)) ==> ClaimLeaves(root, old(root), newAt, r)
      ensures AllWork(script, old(sent)) && Alone(script, old(sent)) ==> !r.ClaimFailed?
    {
      hide SameOrPlanted, Emptied, ListsRoot, OnlyPlanted, NewestLeftover, ClaimLeaves;
      ghost var was, alone := root, Alone(script, sent);
      var listed, names := ListEntries();
      PlantedAlone(root, was);
      FailureLeavesAny(was, newAt);
      if !listed { return ClaimFailed; }
      ListsDistinctly(names, root);
      var partials := SortedPartials(names);
      var doomed := Doomed(names);
      if |partials| > 0 { doomed := doomed + PartialsOf(partials[..|partials| - 1]); }
      ghost var found := root;
      var swept := RmAll(doomed);
      PlantedTwice(root, found, was);
      if !swept { return ClaimFailed; }
      if alone { SweepLeaves(root, was, names, partials, doomed); }
      if partials == [] {
        if alone { NothingToResume(root, was, newAt); }
        return Fresh;
      }
      var keep := partials[|partials| - 1];
      if alone { Resumes(root, was, keep, newAt, script(sent)); }
      if keep != newAt {
        LeftoverMoves(root, was, Partial(keep), Partial(newAt), script(sent));
        var moved := Mv(Partial(keep), Partial(newAt));
        if !moved { return ClaimFailed; }
      }
      return Resumed;
    }

    method RmAll(names: seq<Entry>) returns (ok: bool)
      requires forall e :: e in names ==> !e.Complete? && !e.Foreign?
      modifies this
      ensures sent >= old(sent) && OnlyPlanted(root, old(root))
      ensures ok && Alone(script, old(sent)) ==> Emptied(root, old(root), set e | e in names)
      ensures AllWork(script, old(sent)) ==> ok
    {
      for i := 0 to |names|
        invariant sent >= old(sent) && OnlyPlanted(root, old(root))
        invariant Alone(script, old(sent)) ==> Emptied(root, old(root), set e | e in names[..i])
      {
        assert names[..i + 1] == names[..i] + [names[i]];
        var done := Rm(names[i]);
        if !done { return false; }
      }
      assert names[..|names|] == names;
      return true;
    }
  }

  ghost predicate ListsSnapshots(ats: seq<int>, root: Root) { Ascending(ats) && forall at :: at in ats <==> Complete(at) in root }

  lemma {:induction false} ListingIsUnique(ats: seq<int>, root: Root)
    requires ListsSnapshots(ats, root)
    ensures forall other :: ListsSnapshots(other, root) ==> forall now, at :: Undeletable(other, now, at) <==> Undeletable(ats, now, at)
  {
  }
}
