/**
  `include` (src/config/internal/include.ts): merging configuration trees, in
  which an object is a list of entries in insertion order without repeated keys.
 */
module Include {
  import opened Prelude
  import opened JsoncText

  ghost predicate Unique(es: seq<Entry>) { forall i, j :: 0 <= i < j < |es| ==> es[i].key != es[j].key }

  /** No object anywhere in the tree repeats a key. */
  ghost predicate Keyed(n: Node) {
    match n
    case Object(_, es) => Unique(es) && forall i :: 0 <= i < |es| ==> Keyed(es[i].node)
    case Array(_, items) => forall i :: 0 <= i < |items| ==> Keyed(items[i])
    case _ => true
  }

  predicate Has(es: seq<Entry>, key: Text) { exists i :: 0 <= i < |es| && es[i].key == key }

  /** The position of `key`, or the length when it is absent. */
  function Find(es: seq<Entry>, key: Text): (i: nat)
    ensures i <= |es| && (i < |es| <==> Has(es, key)) && (i < |es| ==> es[i].key == key)
  {
    if es == [] then 0
    else if es[0].key == key then 0
    else
      var i := Find(es[1..], key);
      assert i < |es[1..]| ==> es[i + 1].key == key;
      assert Has(es, key) ==> Has(es[1..], key) by {
        if Has(es, key) {
          var j :| 0 <= j < |es| && es[j].key == key;
          assert es[1..][j - 1].key == key;
        }
      }
      i + 1
  }

  /** `mergeNodes`: objects merge key by key, everything else is replaced. */
  function Merge(base: Node, over: Node): (m: Node)
    ensures m.Object? <==> over.Object?
    decreases over, 1, 0
  {
    if !base.Object? || !over.Object? then over
    else Object(over.at, Overlaid(base.entries, over) + Fresh(over.entries, base.entries))
  }

  /** The entries of the base, each merged with the override's where there is one. */
  function Overlaid(es: seq<Entry>, over: Node): (r: seq<Entry>)
    requires over.Object?
    ensures |r| == |es|
    decreases over, 0, |es|
  {
    if es == [] then []
    else
      var i := Find(over.entries, es[0].key);
      [if i < |over.entries| then Entry(es[0].key, Merge(es[0].node, over.entries[i].node)) else es[0]]
      + Overlaid(es[1..], over)
  }

  /** The entries of the override whose keys the base lacks. */
  function Fresh(over: seq<Entry>, base: seq<Entry>): (r: seq<Entry>)
    ensures |r| <= |over|
  {
    if over == [] then []
    else
      var init, last := over[..|over| - 1], over[|over| - 1];
      Fresh(init, base) + if Has(base, last.key) then [] else [last]
  }

  function Get(es: seq<Entry>, key: Text): Option<Node> {
    var i := Find(es, key);
    if i < |es| then Some(es[i].node) else None
  }

  /** What the override makes of one base entry. */
  function Touched(e: Entry, over: Node): Entry
    requires over.Object?
  {
    var v := Get(over.entries, e.key);
    if v.Some? then Entry(e.key, Merge(e.node, v.value)) else e
  }

  lemma {:induction false} OverlaidAt(es: seq<Entry>, over: Node, i: nat)
    requires over.Object? && i < |es|
    ensures Overlaid(es, over)[i] == Touched(es[i], over)
    decreases |es|
  {
    hide Merge;
    if i > 0 { OverlaidAt(es[1..], over, i - 1); }
  }

  // ---- keys and lookups ----------------------------------------------------

  lemma {:induction false} FindUnique(es: seq<Entry>, i: nat)
    requires Unique(es) && i < |es|
    ensures Has(es, es[i].key) && Find(es, es[i].key) == i && Get(es, es[i].key) == Some(es[i].node)
  {
    hide Find;
    var j := Find(es, es[i].key);
  }

  lemma {:induction false} HasBoth(xs: seq<Entry>, ys: seq<Entry>, key: Text)
    ensures Has(xs + ys, key) <==> Has(xs, key) || Has(ys, key)
  {
    var all := xs + ys;
    if Has(all, key) {
      var i :| 0 <= i < |all| && all[i].key == key;
      if i < |xs| { assert xs[i].key == key; } else { assert ys[i - |xs|].key == key; }
    }
    if Has(xs, key) {
      var i :| 0 <= i < |xs| && xs[i].key == key;
      assert all[i].key == key;
    }
    if Has(ys, key) {
      var i :| 0 <= i < |ys| && ys[i].key == key;
      assert all[|xs| + i].key == key;
    }
  }

  lemma {:induction false} OverlaidHas(es: seq<Entry>, over: Node, key: Text)
    requires over.Object?
    ensures Has(Overlaid(es, over), key) <==> Has(es, key)
  {
    hide Merge;
    var r := Overlaid(es, over);
    forall i | 0 <= i < |es| ensures r[i].key == es[i].key { OverlaidAt(es, over, i); }
    if Has(es, key) {
      var i :| 0 <= i < |es| && es[i].key == key;
      assert r[i].key == key;
    }
  }

  lemma {:induction false} FreshIn(over: seq<Entry>, base: seq<Entry>, e: Entry)
    ensures e in Fresh(over, base) <==> e in over && !Has(base, e.key)
    decreases |over|
  {
    hide Has;
    if over != [] { FreshIn(over[..|over| - 1], base, e); }
  }

  lemma {:induction false} FreshHas(over: seq<Entry>, base: seq<Entry>, key: Text)
    ensures Has(Fresh(over, base), key) <==> Has(over, key) && !Has(base, key)
    decreases |over|
  {
    if over != [] {
      var init, last := over[..|over| - 1], over[|over| - 1];
      FreshHas(init, base, key);
      HasBoth(init, [last], key);
      HasBoth(Fresh(init, base), if Has(base, last.key) then [] else [last], key);
      assert over == init + [last];
      assert [last][0] == last;
    }
  }

  lemma {:induction false} FreshUnique(over: seq<Entry>, base: seq<Entry>)
    requires Unique(over)
    ensures Unique(Fresh(over, base))
    decreases |over|
  {
    if over != [] {
      var init, last := over[..|over| - 1], over[|over| - 1];
      FreshUnique(init, base);
      FreshHas(init, base, last.key);
      hide Fresh;
      assert Fresh(over, base) == Fresh(init, base) + if Has(base, last.key) then [] else [last];
    }
  }

  lemma {:induction false} MergeHas(a: Node, b: Node, key: Text)
    requires a.Object? && b.Object?
    ensures Has(Merge(a, b).entries, key) <==> Has(a.entries, key) || Has(b.entries, key)
  {
    hide Has;
    OverlaidHas(a.entries, b, key);
    FreshHas(b.entries, a.entries, key);
    HasBoth(Overlaid(a.entries, b), Fresh(b.entries, a.entries), key);
  }

  /** Merging keeps keys unique, at every level. */
  lemma {:induction false} MergeIsKeyed(a: Node, b: Node)
    requires Keyed(a) && Keyed(b)
    ensures Keyed(Merge(a, b))
    decreases b
  {
    hide Has;
    if a.Object? && b.Object? {
      var kept, added, m := Overlaid(a.entries, b), Fresh(b.entries, a.entries), Merge(a, b).entries;
      FreshUnique(b.entries, a.entries);
      forall i | 0 <= i < |m| ensures Keyed(m[i].node) {
        if i < |kept| {
          OverlaidAt(a.entries, b, i);
          var j := Find(b.entries, a.entries[i].key);
          if j < |b.entries| { MergeIsKeyed(a.entries[i].node, b.entries[j].node); }
        } else {
          FreshIn(b.entries, a.entries, m[i]);
        }
      }
      forall i, j | 0 <= i < j < |m| ensures m[i].key != m[j].key {
        if i < |kept| {
          OverlaidAt(a.entries, b, i);
          if j < |kept| { OverlaidAt(a.entries, b, j); } else { NotFresh(a.entries, i, b.entries, m[j]); }
        }
      }
    }
  }

  lemma {:induction false} NotFresh(base: seq<Entry>, i: nat, over: seq<Entry>, e: Entry)
    requires i < |base| && e in Fresh(over, base)
    ensures base[i].key != e.key
  {
    FreshIn(over, base, e);
  }

  /** A key's value after merging: both sides' merged, or the one there is. */
  lemma {:induction false} GetMerged(a: Node, b: Node, key: Text)
    requires a.Object? && b.Object? && Keyed(a) && Keyed(b)
    ensures var (x, y) := (Get(a.entries, key), Get(b.entries, key));
            Get(Merge(a, b).entries, key) ==
            if x.Some? && y.Some? then Some(Merge(x.value, y.value)) else if x.Some? then x else y
  {
    hide Has;
    MergeIsKeyed(a, b);
    MergeHas(a, b, key);
    var m := Merge(a, b).entries;
    var i, j := Find(a.entries, key), Find(b.entries, key);
    if i < |a.entries| {
      OverlaidAt(a.entries, b, i);
      assert m[i] == Touched(a.entries[i], b);
      FindUnique(m, i);
    } else if j < |b.entries| {
      FreshIn(b.entries, a.entries, b.entries[j]);
      assert b.entries[j] in m;
      var k :| 0 <= k < |m| && m[k] == b.entries[j];
      FindUnique(m, k);
    }
  }

  // ---- associativity -------------------------------------------------------

  /** Overriding `a` with `c` leaves no trace of `a`. */
  ghost predicate Absorbed(a: Node, c: Node)
    decreases a
  {
    a.Object? && c.Object? ==>
      && |a.entries| <= |c.entries|
      && forall i :: 0 <= i < |a.entries| ==>
           a.entries[i].key == c.entries[i].key && Absorbed(a.entries[i].node, c.entries[i].node)
  }

  /** The order of merging does not matter: wherever all three have an object path, or `b` does not break it. */
  ghost predicate AssocOk(a: Node, b: Node, c: Node)
    decreases a
  {
    if !c.Object? then true
    else if !b.Object? then !a.Object? || Absorbed(a, c)
    else
      a.Object? ==> forall i :: 0 <= i < |a.entries| ==>
        var (y, z) := (Get(b.entries, a.entries[i].key), Get(c.entries, a.entries[i].key));
        y.Some? && z.Some? ==> AssocOk(a.entries[i].node, y.value, z.value)
  }

  lemma {:induction false} FindInInit(es: seq<Entry>, key: Text)
    requires Unique(es) && es != [] && Has(es[..|es| - 1], key)
    ensures Find(es, key) == Find(es[..|es| - 1], key) < |es| - 1
  {
    hide Find;
    var init := es[..|es| - 1];
    var j := Find(init, key);
    assert es[j] == init[j];
    FindUnique(es, j);
  }

  /** The entries `r` have keys of `over`, in its order. */
  ghost predicate InOrderOf(r: seq<Entry>, over: seq<Entry>) {
    && (forall i :: 0 <= i < |r| ==> Has(over, r[i].key))
    && (forall i, j :: 0 <= i < j < |r| ==> Find(over, r[i].key) < Find(over, r[j].key))
  }

  /** New keys come in the order of the override. */
  lemma {:induction false} FreshInOrder(over: seq<Entry>, base: seq<Entry>)
    requires Unique(over)
    ensures InOrderOf(Fresh(over, base), over)
    decreases |over|
  {
    hide Has, Find;
    if over != [] {
      var init, last := over[..|over| - 1], over[|over| - 1];
      var r, some := Fresh(over, base), Fresh(init, base);
      FreshInOrder(init, base);
      assert over == init + [last];
      FindUnique(over, |over| - 1);
      forall i | 0 <= i < |some|
        ensures r[i] == some[i] && Has(over, r[i].key) && Find(over, r[i].key) == Find(init, some[i].key) < |over| - 1
      {
        assert Has(init, some[i].key);
        HasBoth(init, [last], some[i].key);
        FindInInit(over, some[i].key);
      }
      assert |r| > |some| ==> r[|some|] == last;
      assert |r| <= |some| + 1;
    }
  }

  /**
    What a merge keeps: anything that is not two objects is replaced; of two
    objects, the base's keys stay where they are, the override's new ones follow
    in its order, and the whole stands where the override was written.
   */
  lemma {:induction false} MergeOrder(a: Node, b: Node)
    requires Keyed(b)
    ensures !(a.Object? && b.Object?) ==> Merge(a, b) == b
    ensures a.Object? && b.Object? ==>
              var m := Merge(a, b).entries;
              && Merge(a, b).at == b.at && |a.entries| <= |m|
              && (forall i :: 0 <= i < |a.entries| ==> m[i].key == a.entries[i].key)
              && forall i, j :: |a.entries| <= i < j < |m| ==> Find(b.entries, m[i].key) < Find(b.entries, m[j].key)
  {
    hide Has, Find, Fresh, Overlaid;
    if a.Object? && b.Object? {
      var m, r := Merge(a, b).entries, Fresh(b.entries, a.entries);
      FreshInOrder(b.entries, a.entries);
      forall i | 0 <= i < |a.entries| ensures m[i].key == a.entries[i].key { OverlaidAt(a.entries, b, i); }
      forall i, j | |a.entries| <= i < j < |m| ensures Find(b.entries, m[i].key) < Find(b.entries, m[j].key) {
        assert m[i] == r[i - |a.entries|] && m[j] == r[j - |a.entries|];
      }
    }
  }

  lemma {:induction false} FreshOfNone(over: seq<Entry>, base: seq<Entry>)
    requires forall e :: e in over ==> Has(base, e.key)
    ensures Fresh(over, base) == []
    decreases |over|
  {
    hide Has;
    if over != [] { FreshOfNone(over[..|over| - 1], base); }
  }

  lemma {:induction false} AbsorbedExactly(a: Node, c: Node)
    requires Keyed(a) && Keyed(c)
    ensures Merge(a, c) == c <==> Absorbed(a, c)
    decreases a
  {
    hide Fresh, Overlaid;
    if a.Object? && c.Object? {
      var over := Overlaid(a.entries, c);
      forall i | 0 <= i < |a.entries|
        ensures over[i] == Touched(a.entries[i], c)
        ensures i < |c.entries| && a.entries[i].key == c.entries[i].key ==>
                  (over[i] == c.entries[i] <==> Absorbed(a.entries[i].node, c.entries[i].node))
      {
        OverlaidAt(a.entries, c, i);
        if i < |c.entries| && a.entries[i].key == c.entries[i].key {
          FindUnique(c.entries, i);
          AbsorbedExactly(a.entries[i].node, c.entries[i].node);
        }
      }
      if Merge(a, c) == c {
        assert forall i :: 0 <= i < |over| ==> c.entries[i] == over[i];
        assert forall i :: 0 <= i < |over| ==> a.entries[i].key == c.entries[i].key;
      }
      if Absorbed(a, c) { AbsorbedIsWhole(a, c); }
    }
  }

  /** A base whose keys are the first ones, in order. */
  ghost predicate Leads(base: seq<Entry>, es: seq<Entry>) {
    |base| <= |es| && forall i :: 0 <= i < |base| ==> base[i].key == es[i].key
  }

  lemma {:induction false} LeadsHas(base: seq<Entry>, es: seq<Entry>, i: nat)
    requires Leads(base, es) && Unique(es) && i < |es|
    ensures Has(base, es[i].key) <==> i < |base|
  {
    if i < |base| { assert base[i].key == es[i].key; }
  }

  /** The keys after the leading ones are the new ones. */
  lemma {:induction false} FreshOfRest(es: seq<Entry>, base: seq<Entry>, m: nat)
    requires |base| <= m <= |es| && Unique(es) && Leads(base, es)
    ensures Fresh(es[..m], base) == es[|base|..m]
    decreases m
  {
    hide Has, Leads, Unique, Fresh;
    if m == |base| {
      forall e | e in es[..m] ensures Has(base, e.key) {
        var i :| 0 <= i < m && es[i] == e;
        LeadsHas(base, es, i);
      }
      FreshOfNone(es[..m], base);
    } else {
      FreshOfRest(es, base, m - 1);
      LeadsHas(base, es, m - 1);
      var init, last := es[..m - 1], [es[m - 1]];
      assert es[..m] == init + last && es[|base|..m] == es[|base|..m - 1] + last;
      FreshBoth(init, last, base);
      FreshOfOne(last, base);
    }
  }

  lemma {:induction false} AbsorbedIsWhole(a: Node, c: Node)
    requires a.Object? && c.Object? && Keyed(a) && Keyed(c) && |a.entries| <= |c.entries|
    requires forall i :: 0 <= i < |a.entries| ==> Touched(a.entries[i], c) == c.entries[i]
    ensures Merge(a, c) == c
  {
    var es := c.entries;
    forall i | 0 <= i < |a.entries| ensures Overlaid(a.entries, c)[i] == es[i] && a.entries[i].key == es[i].key {
      OverlaidAt(a.entries, c, i);
      assert Touched(a.entries[i], c).key == a.entries[i].key;
    }
    FreshOfRest(es, a.entries, |es|);
    assert es[..|es|] == es;
    assert Overlaid(a.entries, c) + es[|a.entries|..|es|] == es;
  }

  // ---- associativity, side by side -----------------------------------------

  lemma {:induction false} OverlaidBoth(xs: seq<Entry>, ys: seq<Entry>, over: Node)
    requires over.Object?
    ensures Overlaid(xs + ys, over) == Overlaid(xs, over) + Overlaid(ys, over)
    decreases |xs|
  {
    hide Merge, Find;
    if xs == [] {
      assert xs + ys == ys;
    } else {
      assert (xs + ys)[1..] == xs[1..] + ys;
      OverlaidBoth(xs[1..], ys, over);
    }
  }

  lemma {:induction false} FreshBoth(xs: seq<Entry>, ys: seq<Entry>, base: seq<Entry>)
    ensures Fresh(xs + ys, base) == Fresh(xs, base) + Fresh(ys, base)
    decreases |ys|
  {
    hide Has;
    if ys == [] {
      assert xs + ys == xs;
    } else {
      var init, last := ys[..|ys| - 1], ys[|ys| - 1];
      assert (xs + ys)[..|xs + ys| - 1] == xs + init;
      FreshBoth(xs, init, base);
    }
  }

  /** Overriding and filtering commute: an override leaves keys alone. */
  lemma {:induction false} FreshOfOverlaid(es: seq<Entry>, over: Node, base: seq<Entry>)
    requires over.Object?
    ensures Fresh(Overlaid(es, over), base) == Overlaid(Fresh(es, base), over)
    decreases |es|
  {
    hide Has, Merge, Find;
    if es != [] {
      var init, last := es[..|es| - 1], [es[|es| - 1]];
      assert es == init + last;
      FreshOfOverlaid(init, over, base);
      OverlaidBoth(init, last, over);
      OverlaidAt(last, over, 0);
      FreshBoth(Overlaid(init, over), Overlaid(last, over), base);
      FreshOfOne(Overlaid(last, over), base);
      FreshBoth(init, last, base);
      FreshOfOne(last, base);
      OverlaidBoth(Fresh(init, base), Fresh(last, base), over);
    }
  }

  lemma {:induction false} FreshOfOne(es: seq<Entry>, base: seq<Entry>)
    requires |es| == 1
    ensures Fresh(es, base) == if Has(base, es[0].key) then [] else es
  {
    hide Has;
    assert es[..0] == [] && es == [es[0]];
  }

  /** New to both is new to one and then to the other. */
  lemma {:induction false} FreshOfFresh(es: seq<Entry>, xs: seq<Entry>, ys: seq<Entry>, all: seq<Entry>)
    requires forall key :: Has(all, key) <==> Has(xs, key) || Has(ys, key)
    ensures Fresh(Fresh(es, ys), xs) == Fresh(es, all)
    decreases |es|
  {
    hide Has;
    if es != [] {
      var init, last := es[..|es| - 1], [es[|es| - 1]];
      assert es == init + last;
      FreshOfFresh(init, xs, ys, all);
      FreshBoth(init, last, ys);
      FreshBoth(Fresh(init, ys), Fresh(last, ys), xs);
      FreshBoth(init, last, all);
      FreshOfOne(last, ys);
      FreshOfOne(last, all);
      FreshOfOne(last, xs);
    }
  }

  /** The entries of both ways to merge three objects. */
  lemma {:induction false} ThreeObjects(a: Node, b: Node, c: Node)
    requires a.Object? && b.Object? && c.Object?
    ensures var (ab, bc) := (Merge(a, b), Merge(b, c));
            var added := Fresh(bc.entries, a.entries);
            && Merge(ab, c) == Object(c.at, Overlaid(Overlaid(a.entries, b), c) + added)
            && Merge(a, bc) == Object(c.at, Overlaid(a.entries, bc) + added)
  {
    hide Has, Find, Overlaid, Fresh;
    var ab, bc := Merge(a, b), Merge(b, c);
    var kept, added := Overlaid(a.entries, b), Fresh(b.entries, a.entries);
    OverlaidBoth(kept, added, c);
    FreshBoth(Overlaid(b.entries, c), Fresh(c.entries, b.entries), a.entries);
    FreshOfOverlaid(b.entries, c, a.entries);
    forall key ensures Has(ab.entries, key) <==> Has(a.entries, key) || Has(b.entries, key) { MergeHas(a, b, key); }
    FreshOfFresh(c.entries, a.entries, b.entries, ab.entries);
    var x, y, z := Overlaid(kept, c), Overlaid(added, c), Fresh(c.entries, ab.entries);
    assert x + y + z == x + (y + z);
  }

  lemma {:induction false} TouchedTwice(e: Entry, b: Node, c: Node)
    requires b.Object? && c.Object? && Keyed(b) && Keyed(c)
    ensures var (y, z) := (Get(b.entries, e.key), Get(c.entries, e.key));
            var (once, other) := (Touched(Touched(e, b), c), Touched(e, Merge(b, c)));
            once == other <==>
              (y.Some? && z.Some? ==> Merge(Merge(e.node, y.value), z.value) == Merge(e.node, Merge(y.value, z.value)))
  {
    hide Merge, Get;
    GetMerged(b, c, e.key);
  }

  /**
    Merging is associative - nodes, key order, lines and all - exactly on the
    triples where the middle one does not break an object apart.
   */
  lemma {:induction false} MergeAssociatesExactly(a: Node, b: Node, c: Node)
    requires Keyed(a) && Keyed(b) && Keyed(c)
    ensures Merge(Merge(a, b), c) == Merge(a, Merge(b, c)) <==> AssocOk(a, b, c)
    decreases a
  {
    if c.Object? && !b.Object? {
      AbsorbedExactly(a, c);
    } else if a.Object? && b.Object? && c.Object? {
      hide Merge, Overlaid, Fresh, Get, Touched;
      ThreeObjects(a, b, c);
      var bc := Merge(b, c);
      var left, right := Overlaid(Overlaid(a.entries, b), c), Overlaid(a.entries, bc);
      forall i | 0 <= i < |a.entries|
        ensures var (y, z) := (Get(b.entries, a.entries[i].key), Get(c.entries, a.entries[i].key));
                left[i] == right[i] <==> (y.Some? && z.Some? ==> AssocOk(a.entries[i].node, y.value, z.value))
      {
        var e := a.entries[i];
        OverlaidAt(a.entries, b, i);
        OverlaidAt(Overlaid(a.entries, b), c, i);
        OverlaidAt(a.entries, bc, i);
        TouchedTwice(e, b, c);
        var y, z := Get(b.entries, e.key), Get(c.entries, e.key);
        if y.Some? && z.Some? {
          GetKeyed(b, e.key);
          GetKeyed(c, e.key);
          MergeAssociatesExactly(e.node, y.value, z.value);
        }
      }
      var added := Fresh(bc.entries, a.entries);
      assert left + added == right + added <==> left == right by {
        assert (left + added)[..|left|] == left && (right + added)[..|right|] == right;
      }
    }
  }

  lemma {:induction false} GetKeyed(n: Node, key: Text)
    requires n.Object? && Keyed(n)
    ensures Get(n.entries, key).Some? ==> Keyed(Get(n.entries, key).value)
  {
    hide Has;
  }

  /** A scalar between two objects is what breaks associativity. */
  lemma ScalarBetweenObjects()
    ensures exists a, b, c :: Keyed(a) && Keyed(b) && Keyed(c) && Merge(Merge(a, b), c) != Merge(a, Merge(b, c))
  {
    var at := Place("f", 1);
    var a, b, c := Object(at, [Entry([1], Null(at))]), Null(at), Object(at, []);
    MergeAssociatesExactly(a, b, c);
  }

  // ---- the loop ------------------------------------------------------------

  lemma {:induction false} GetNext(es: seq<Entry>, i: nat, key: Text)
    requires Unique(es) && i < |es|
    ensures Get(es[..i + 1], key) == if key == es[i].key then Some(es[i].node) else Get(es[..i], key)
    ensures !Has(es[..i], es[i].key)
  {
    var more, some := es[..i + 1], es[..i];
    assert more == some + [es[i]];
    HasBoth(some, [es[i]], key);
    if Has(more, key) {
      var j := Find(more, key);
      FindUnique(more, j);
      if j < i { FindUnique(some, j); }
    }
  }

  /** The override cut to its first `i` entries. */
  function Prefix(over: Node, i: nat): Node
    requires over.Object? && i <= |over.entries|
  {
    Object(over.at, over.entries[..i])
  }

  /** What one more entry of the override does to an entry of the base. */
  lemma {:induction false} TouchNext(base: Node, over: Node, i: nat, k: nat)
    requires base.Object? && over.Object? && Keyed(over) && i < |over.entries| && k < |base.entries|
    ensures var e, b := over.entries[i], base.entries[k];
            var (before, after) := (Overlaid(base.entries, Prefix(over, i))[k], Overlaid(base.entries, Prefix(over, i + 1))[k]);
            if b.key == e.key then before == b && after == Entry(e.key, Merge(b.node, e.node)) else before == after
  {
    hide Has, Find, Get, Merge;
    var e, b := over.entries[i], base.entries[k];
    OverlaidAt(base.entries, Prefix(over, i), k);
    OverlaidAt(base.entries, Prefix(over, i + 1), k);
    GetNext(over.entries, i, b.key);
    GetNone(over.entries[..i], e.key);
  }

  /** One more entry of the override sets one key: in place if it is there, else at the end. */
  lemma {:induction false} SetNext(base: Node, over: Node, i: nat)
    requires base.Object? && over.Object? && Keyed(base) && Keyed(over) && i < |over.entries|
    ensures var es, e := Merge(base, Prefix(over, i)).entries, over.entries[i];
            var j := Find(es, e.key);
            Merge(base, Prefix(over, i + 1)).entries ==
            if j < |es| then es[j := Entry(e.key, Merge(es[j].node, e.node))] else es + [e]
  {
    hide Has, Find, Get, Overlaid, Fresh;
    var p, q, e := Prefix(over, i), Prefix(over, i + 1), over.entries[i];
    var es := Merge(base, p).entries;
    var kept, more := Overlaid(base.entries, p), Overlaid(base.entries, q);
    assert q.entries == p.entries + [e];
    FreshBoth(p.entries, [e], base.entries);
    FreshOfOne([e], base.entries);
    GetNext(over.entries, i, e.key);
    MergeHas(base, p, e.key);
    var k := Find(base.entries, e.key);
    forall l | 0 <= l < |kept|
      ensures l != k ==> more[l] == kept[l]
      ensures l == k ==> kept[l] == base.entries[l] && more[l] == Entry(e.key, Merge(base.entries[l].node, e.node))
    {
      TouchNext(base, over, i, l);
      FindUnique(base.entries, l);
    }
    if k < |kept| {
      MergeIsKeyed(base, p);
      hide Merge;
      assert es[k] == base.entries[k];
      FindUnique(es, k);
      assert more == kept[k := Entry(e.key, Merge(base.entries[k].node, e.node))];
    } else {
      assert more == kept;
    }
  }

  lemma {:induction false} GetNone(es: seq<Entry>, key: Text)
    ensures Get(es, key).None? <==> !Has(es, key)
  {
    hide Has;
  }

  method MergeNodes(base: Node, over: Node) returns (m: Node)
    requires Keyed(base) && Keyed(over)
    ensures m == Merge(base, over)
    decreases over
  {
    hide Has, Find, Overlaid, Fresh;
    if !base.Object? || !over.Object? { return over; }
    var entries := base.entries;
    MergeNothing(base, over);
    for i := 0 to |over.entries|
      invariant entries == Merge(base, Prefix(over, i)).entries
    {
      var e := over.entries[i];
      SetNext(base, over, i);
      var j := Find(entries, e.key);
      if j < |entries| {
        MergeIsKeyed(base, Prefix(over, i));
        var node := MergeNodes(entries[j].node, e.node);
        entries := entries[j := Entry(e.key, node)];
      } else {
        entries := entries + [e];
      }
    }
    assert Prefix(over, |over.entries|) == over;
    return Object(over.at, entries);
  }

  lemma {:induction false} MergeNothing(base: Node, over: Node)
    requires base.Object? && over.Object?
    ensures Merge(base, Prefix(over, 0)).entries == base.entries
  {
    var none := Prefix(over, 0);
    forall i | 0 <= i < |base.entries| ensures Overlaid(base.entries, none)[i] == base.entries[i] {
      OverlaidAt(base.entries, none, i);
    }
    assert Overlaid(base.entries, none) == base.entries;
  }

  // ---- include trees -------------------------------------------------------

  /** At every path both trees have, both have an object or neither has. */
  ghost predicate Compatible(a: Node, b: Node)
    decreases a
  {
    && (a.Object? <==> b.Object?)
    && (a.Object? && b.Object? ==> forall i :: 0 <= i < |a.entries| ==>
          var y := Get(b.entries, a.entries[i].key);
          y.Some? ==> Compatible(a.entries[i].node, y.value))
  }

  lemma {:induction false} CompatibleAssociates(a: Node, b: Node, c: Node)
    requires Keyed(b) && Keyed(c) && Compatible(b, c)
    ensures AssocOk(a, b, c)
    decreases a
  {
    hide Has, Find;
    if a.Object? && b.Object? && c.Object? {
      forall i | 0 <= i < |a.entries|
        ensures var (y, z) := (Get(b.entries, a.entries[i].key), Get(c.entries, a.entries[i].key));
                y.Some? && z.Some? ==> AssocOk(a.entries[i].node, y.value, z.value)
      {
        var key := a.entries[i].key;
        var y, z := Get(b.entries, key), Get(c.entries, key);
        if y.Some? && z.Some? {
          GetKeyed(b, key);
          GetKeyed(c, key);
          var j := Find(b.entries, key);
          assert b.entries[j].key == key;
          CompatibleAssociates(a.entries[i].node, y.value, z.value);
        }
      }
    }
  }

  lemma {:induction false} CompatibleWithMerge(a: Node, b: Node, c: Node)
    requires Keyed(a) && Keyed(b) && Compatible(a, c) && Compatible(b, c)
    ensures Compatible(Merge(a, b), c)
    decreases b
  {
    hide Has, Find;
    var m := Merge(a, b);
    if a.Object? && b.Object? {
      MergeIsKeyed(a, b);
      hide Merge;
      forall i | 0 <= i < |m.entries| && Get(c.entries, m.entries[i].key).Some?
        ensures Compatible(m.entries[i].node, Get(c.entries, m.entries[i].key).value)
      {
        var key := m.entries[i].key;
        FindUnique(m.entries, i);
        GetMerged(a, b, key);
        GetKeyed(a, key);
        GetKeyed(b, key);
        var x, y := Find(a.entries, key), Find(b.entries, key);
        if x < |a.entries| && y < |b.entries| {
          assert a.entries[x].key == key && b.entries[y].key == key;
          CompatibleWithMerge(a.entries[x].node, b.entries[y].node, Get(c.entries, key).value);
        } else if x < |a.entries| {
          assert a.entries[x].key == key;
        } else {
          assert b.entries[y].key == key;
        }
      }
    }
  }

  /** A file and the files it includes, as `readDocument` finds them. */
  datatype Tree = File(includes: seq<Tree>, own: Node)

  /** The documents merged from the left. */
  function Fold(docs: seq<Node>): Node
    requires |docs| > 0
  {
    if |docs| == 1 then docs[0] else Merge(Fold(docs[..|docs| - 1]), docs[|docs| - 1])
  }

  /** What `readDocument` returns: the included documents in order, and the file's own keys on top. */
  function Spliced(t: Tree): Node
    decreases t, 0
  {
    if t.includes == [] then t.own
    else
      var docs := SplicedAll(t, |t.includes|);
      Merge(Fold(docs), t.own)
  }

  function SplicedAll(t: Tree, n: nat): (docs: seq<Node>)
    requires n <= |t.includes|
    ensures |docs| == n
    decreases t, 0, n
  {
    if n == 0 then [] else SplicedAll(t, n - 1) + [Spliced(t.includes[n - 1])]
  }

  /** Every file's own document, included files first. */
  function PostOrder(t: Tree): (docs: seq<Node>)
    ensures |docs| > 0
    decreases t, 0
  {
    PostOrderAll(t, |t.includes|) + [t.own]
  }

  function PostOrderAll(t: Tree, n: nat): (docs: seq<Node>)
    requires n <= |t.includes|
    ensures n > 0 ==> |docs| > 0
    decreases t, 0, n
  {
    if n == 0 then [] else PostOrderAll(t, n - 1) + PostOrder(t.includes[n - 1])
  }

  ghost predicate AllKeyed(docs: seq<Node>) { forall i :: 0 <= i < |docs| ==> Keyed(docs[i]) }

  /** Each document agrees with every later one on what is an object. */
  ghost predicate Agree(docs: seq<Node>) { forall i, j :: 0 <= i < j < |docs| ==> Compatible(docs[i], docs[j]) }

  /** Merging `xs` with the fold of `ys` regroups nothing that matters, document by document of `ys`. */
  ghost predicate Associates(xs: seq<Node>, ys: seq<Node>)
    requires |xs| > 0
  {
    forall k :: 0 < k < |ys| ==> AssocOk(Fold(xs), Fold(ys[..k]), ys[k])
  }

  /** Every include but the first regroups nothing that matters with what was read before it, at every depth. */
  ghost predicate Settles(t: Tree) {
    forall n :: 0 <= n < |t.includes| ==>
      Settles(t.includes[n]) && (n > 0 ==> Associates(PostOrderAll(t, n), PostOrder(t.includes[n])))
  }

  /** The files under every include but the first agree among themselves, at every depth. */
  ghost predicate AgreeInside(t: Tree) {
    forall n :: 0 <= n < |t.includes| ==> AgreeInside(t.includes[n]) && (n > 0 ==> Agree(PostOrder(t.includes[n])))
  }

  lemma {:induction false} FoldGoesWith(docs: seq<Node>, c: Node)
    requires |docs| > 0 && (forall i :: 0 <= i < |docs| ==> Keyed(docs[i]) && Compatible(docs[i], c))
    ensures Keyed(Fold(docs)) && Compatible(Fold(docs), c)
    decreases |docs|
  {
    hide Merge, Keyed, Compatible;
    if |docs| > 1 {
      var init, last := docs[..|docs| - 1], docs[|docs| - 1];
      FoldGoesWith(init, c);
      MergeIsKeyed(Fold(init), last);
      CompatibleWithMerge(Fold(init), last, c);
    }
  }

  lemma {:induction false} FoldIsKeyed(docs: seq<Node>)
    requires |docs| > 0 && (forall i :: 0 <= i < |docs| ==> Keyed(docs[i]))
    ensures Keyed(Fold(docs))
    decreases |docs|
  {
    hide Merge, Keyed;
    if |docs| > 1 {
      FoldIsKeyed(docs[..|docs| - 1]);
      MergeIsKeyed(Fold(docs[..|docs| - 1]), docs[|docs| - 1]);
    }
  }

  /** Merging two folds is folding both lists. */
  lemma {:induction false} FoldBoth(xs: seq<Node>, ys: seq<Node>)
    requires |xs| > 0 && |ys| > 0 && AllKeyed(xs) && AllKeyed(ys) && Associates(xs, ys)
    ensures Fold(xs + ys) == Merge(Fold(xs), Fold(ys))
    decreases |ys|
  {
    hide Merge, Keyed, AssocOk;
    var all, n := xs + ys, |ys| - 1;
    var init, last := ys[..n], ys[n];
    assert all[..|all| - 1] == xs + init && all[|all| - 1] == last;
    if n > 0 {
      forall k | 0 < k < |init| ensures AssocOk(Fold(xs), Fold(init[..k]), init[k]) {
        assert init[..k] == ys[..k] && init[k] == ys[k];
      }
      FoldBoth(xs, init);
      FoldIsKeyed(xs);
      FoldIsKeyed(init);
      MergeAssociatesExactly(Fold(xs), Fold(init), last);
    }
  }

  lemma {:induction false} AgreeingAssociates(xs: seq<Node>, ys: seq<Node>)
    requires |xs| > 0 && AllKeyed(ys) && Agree(ys)
    ensures Associates(xs, ys)
  {
    hide Merge, Keyed, Compatible, AssocOk, Fold;
    forall k | 0 < k < |ys| ensures AssocOk(Fold(xs), Fold(ys[..k]), ys[k]) {
      FoldGoesWith(ys[..k], ys[k]);
      CompatibleAssociates(Fold(xs), Fold(ys[..k]), ys[k]);
    }
  }

  // ---- where the documents of an include are -------------------------------

  /** The documents of include `n` stand in the post-order, and those read before it come first. */
  lemma {:induction false} IncludeStands(t: Tree, n: nat)
    requires n < |t.includes|
    ensures PostOrderAll(t, n) + PostOrder(t.includes[n]) <= PostOrder(t)
  {
    hide PostOrder;
    assert PostOrder(t) == PostOrderAll(t, |t.includes|) + [t.own] by { PostOrderIs(t); }
    PostOrderGrows(t, n + 1, |t.includes|);
  }

  lemma PostOrderIs(t: Tree)
    ensures PostOrder(t) == PostOrderAll(t, |t.includes|) + [t.own]
  {
  }

  lemma {:induction false} PostOrderGrows(t: Tree, n: nat, m: nat)
    requires n <= m <= |t.includes|
    ensures PostOrderAll(t, n) <= PostOrderAll(t, m)
    decreases m
  {
    hide PostOrder;
    if n < m { PostOrderGrows(t, n, m - 1); }
  }

  lemma {:induction false} PartIsKeyed(xs: seq<Node>, ys: seq<Node>, docs: seq<Node>)
    requires xs + ys <= docs
    ensures AllKeyed(docs) ==> AllKeyed(xs) && AllKeyed(ys)
    ensures Agree(docs) ==> Agree(ys)
  {
    hide Keyed, Compatible;
    forall i | 0 <= i < |xs| ensures xs[i] == docs[i] { assert xs[i] == (xs + ys)[i]; }
    forall i | 0 <= i < |ys| ensures ys[i] == docs[|xs| + i] { assert ys[i] == (xs + ys)[|xs| + i]; }
  }

  /** Files that agree throughout agree under every include. */
  lemma {:induction false} AgreeingAgreeInside(t: Tree)
    requires Agree(PostOrder(t))
    ensures AgreeInside(t)
    decreases t
  {
    hide Agree, PostOrder;
    forall n | 0 <= n < |t.includes| ensures AgreeInside(t.includes[n]) && Agree(PostOrder(t.includes[n])) {
      IncludeStands(t, n);
      PartIsKeyed(PostOrderAll(t, n), PostOrder(t.includes[n]), PostOrder(t));
      AgreeingAgreeInside(t.includes[n]);
    }
  }

  lemma {:induction false} AgreeInsideSettles(t: Tree)
    requires AllKeyed(PostOrder(t)) && AgreeInside(t)
    ensures Settles(t)
    decreases t
  {
    hide AllKeyed, Agree, Associates, PostOrder, PostOrderAll;
    forall n | 0 <= n < |t.includes|
      ensures Settles(t.includes[n]) && (n > 0 ==> Associates(PostOrderAll(t, n), PostOrder(t.includes[n])))
    {
      IncludeStands(t, n);
      PartIsKeyed(PostOrderAll(t, n), PostOrder(t.includes[n]), PostOrder(t));
      AgreeInsideSettles(t.includes[n]);
      if n > 0 { AgreeingAssociates(PostOrderAll(t, n), PostOrder(t.includes[n])); }
    }
  }

  /**
    However deep includes nest, the result is one left fold over all files,
    included before including, when every include but the first regroups nothing
    that matters. So flat lists of files and chains of single includes fold
    whatever their documents are.
   */
  lemma {:induction false} NestingIsFolding(t: Tree)
    requires AllKeyed(PostOrder(t)) && Settles(t)
    ensures Spliced(t) == Fold(PostOrder(t))
    decreases t, 0
  {
    hide AllKeyed, Merge, PostOrder, Associates;
    var n := |t.includes|;
    PostOrderIs(t);
    if n > 0 {
      NestingIsFoldingAll(t, n);
      assert PostOrder(t)[..|PostOrder(t)| - 1] == PostOrderAll(t, n);
    } else {
      assert PostOrder(t) == [t.own];
    }
  }

  lemma {:induction false} NestingIsFoldingAll(t: Tree, n: nat)
    requires 0 < n <= |t.includes| && AllKeyed(PostOrder(t)) && Settles(t)
    ensures Fold(SplicedAll(t, n)) == Fold(PostOrderAll(t, n))
    decreases t, 0, n
  {
    hide AllKeyed, Merge, PostOrder, Associates;
    var before, last := PostOrderAll(t, n - 1), PostOrder(t.includes[n - 1]);
    IncludeStands(t, n - 1);
    PartIsKeyed(before, last, PostOrder(t));
    NestingIsFolding(t.includes[n - 1]);
    var spliced := SplicedAll(t, n);
    if n > 1 {
      NestingIsFoldingAll(t, n - 1);
      assert spliced[..n - 1] == SplicedAll(t, n - 1);
      FoldBoth(before, last);
    } else {
      assert before == [] && before + last == last;
    }
  }

  /** Files that include nothing, read in order, fold whatever their documents are. */
  lemma {:induction false} FlatListsFold(t: Tree)
    requires AllKeyed(PostOrder(t)) && forall n :: 0 <= n < |t.includes| ==> t.includes[n].includes == []
    ensures Spliced(t) == Fold(PostOrder(t))
  {
    hide AllKeyed, Fold, AssocOk, PostOrderAll, Spliced;
    forall n | 0 <= n < |t.includes|
      ensures Settles(t.includes[n]) && (n > 0 ==> Associates(PostOrderAll(t, n), PostOrder(t.includes[n])))
    {
      AloneInOrder(t.includes[n]);
    }
    assert Settles(t);
    hide PostOrder;
    NestingIsFolding(t);
  }

  lemma AloneInOrder(t: Tree)
    requires t.includes == []
    ensures PostOrder(t) == [t.own]
  {
  }
}
