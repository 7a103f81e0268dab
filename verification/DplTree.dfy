/**
  What the walk makes of a whole container tree: pre-order, the right parents,
  and object lists that are sorted and complete.
 */
module DplTree {
  import opened Errno
  import opened DplObjects
  import opened DplWalk

  // ----- what a tree holds, independently of the walk -----

  function Direct(es: Entries): seq<Obj> {
    match es
    case End => []
    case Object(o, rest) => [o] + Direct(rest)
    case Child(_, rest) => Direct(rest)
  }

  function Objects(es: Entries): seq<Obj> {
    match es
    case End => []
    case Object(o, rest) => [o] + Objects(rest)
    case Child(c, rest) => Objects(c.entries) + Objects(rest)
  }

  /** A container of the tree, with its parent's id. */
  datatype Place = Place(c: Container, parent: nat)

  function PreOrder(c: Container, parent: nat): seq<Place>
    decreases c.entries, 1
  {
    [Place(c, parent)] + PreOrderAll(c.entries, c.id)
  }

  function PreOrderAll(es: Entries, id: nat): seq<Place>
    decreases es, 0
  {
    match es
    case End => []
    case Object(_, rest) => PreOrderAll(rest, id)
    case Child(c, rest) => PreOrder(c, id) + PreOrderAll(rest, id)
  }

  /** No two objects have the same type and id. */
  ghost predicate Unique(m: multiset<Obj>) {
    && (forall x {:trigger m[x]} :: x in m ==> m[x] == 1)
    && (forall x, y {:trigger SameKey(x, y)} :: x in m && y in m && SameKey(x, y) ==> x == y)
  }

  /** A container with child containers has a positive id. */
  predicate ParentsPositive(es: Entries, id: nat) {
    match es
    case End => true
    case Object(_, rest) => ParentsPositive(rest, id)
    case Child(c, rest) => id != 0 && ParentsPositive(c.entries, c.id) && ParentsPositive(rest, id)
  }

  /** The record is right for its place: id, parent, options, and the strictly
      sorted list of the container's own objects. */
  ghost predicate Describes(r: Rec, p: Place) {
    && r.id == p.c.id && r.parent == p.parent && r.options == p.c.options
    && Sorted(r.objs) && multiset(r.objs) == multiset(Direct(p.c.entries))
  }

  ghost predicate DescribesAll(recs: seq<Rec>, places: seq<Place>) {
    |recs| == |places| && forall i :: 0 <= i < |recs| ==> Describes(recs[i], places[i])
  }

  // ----- sorted lists and uniqueness -----

  lemma UniqueMeansNotListed(s: seq<Obj>, o: Obj, m: multiset<Obj>)
    requires multiset(s) + multiset{o} <= m && Unique(m)
    ensures !Has(s, o)
  {
    assert m[o] == 1 && multiset(s)[o] == 0;
    forall i | 0 <= i < |s| ensures !SameKey(s[i], o) {
      assert s[i] in multiset(s);
      assert s[i] in m && s[i] != o;
    }
  }

  lemma {:induction false} SortedIsUnique(s: seq<Obj>)
    requires Sorted(s)
    ensures Unique(multiset(s))
  {
    if s != [] {
      var rest := s[1..];
      assert Sorted(rest) by { assert forall i :: 0 <= i < |rest| ==> rest[i] == s[i + 1]; }
      SortedIsUnique(rest);
      forall y | y in multiset(rest) ensures !SameKey(s[0], y) {
        assert y in rest;
        SortedHead(s, y);
        LessIsOrder(s[0], y, y);
      }
      UniqueMore(s[0], multiset(rest));
      assert s == [s[0]] + rest;
    }
  }

  lemma UniqueMore(x: Obj, m: multiset<Obj>)
    requires Unique(m) && forall y :: y in m ==> !SameKey(x, y)
    ensures Unique(multiset{x} + m)
  {
    assert SameKey(x, x);
    forall y, z {:trigger SameKey(y, z)} | y in multiset{x} + m && z in multiset{x} + m
        && SameKey(y, z) ensures y == z {
      assert SameKey(z, y);
    }
  }

  lemma SubsetListed(local: seq<Obj>, objs: seq<Obj>, o: Obj)
    requires multiset(local) <= multiset(objs) && Has(local, o)
    ensures Has(objs, o)
  {
    var i :| 0 <= i < |local| && SameKey(local[i], o);
    assert local[i] in multiset(local);
    assert local[i] in objs;
  }

  // ----- the walk of a tree of unique objects -----

  /** The walk can go on through `es` without meeting a listed key. */
  ghost predicate Ready(objs: seq<Obj>, local: seq<Obj>, es: Entries) {
    && Sorted(objs) && multiset(local) <= multiset(objs)
    && Unique(multiset(objs) + multiset(Objects(es)))
  }

  lemma ReadyObject(objs: seq<Obj>, local: seq<Obj>, o: Obj, rest: Entries)
    requires Ready(objs, local, Object(o, rest))
    ensures !Has(objs, o) && !Has(local, o)
    ensures Ready(Insert(objs, o), Insert(local, o), rest)
    ensures multiset(Insert(objs, o)) == multiset(objs) + multiset{o}
    ensures multiset(Insert(local, o)) == multiset(local) + multiset{o}
    ensures multiset(Objects(Object(o, rest))) == multiset{o} + multiset(Objects(rest))
    ensures Sorted(local) ==> Sorted(Insert(local, o))
  {
    var m := multiset(objs) + multiset(Objects(Object(o, rest)));
    assert m == multiset(objs) + multiset{o} + multiset(Objects(rest));
    UniqueMeansNotListed(objs, o, m);
    if Has(local, o) { SubsetListed(local, objs, o); }
    InsertSorts(objs, o);
    InsertAdds(objs, o);
    InsertAdds(local, o);
    assert multiset(Insert(objs, o)) + multiset(Objects(rest)) == m;
    if Sorted(local) { InsertSorts(local, o); }
  }

  lemma ReadyChild(objs: seq<Obj>, local: seq<Obj>, c: Container, rest: Entries)
    requires Ready(objs, local, Child(c, rest))
    ensures Ready(objs, [], c.entries)
    ensures multiset(Objects(Child(c, rest))) == multiset(Objects(c.entries)) + multiset(Objects(rest))
  {
    UniqueSubset(multiset(objs) + multiset(Objects(c.entries)), multiset(objs) + multiset(Objects(Child(c, rest))));
  }

  lemma ReadyRest(objs: seq<Obj>, local: seq<Obj>, c: Container, rest: Entries, objs': seq<Obj>)
    requires Ready(objs, local, Child(c, rest))
    requires Sorted(objs') && multiset(objs') == multiset(objs) + multiset(Objects(c.entries))
    ensures Ready(objs', local, rest)
  {
    assert multiset(objs') + multiset(Objects(rest)) == multiset(objs) + multiset(Objects(Child(c, rest)));
  }

  lemma UniqueSubset(a: multiset<Obj>, m: multiset<Obj>)
    requires a <= m && Unique(m)
    ensures Unique(a)
  {
    forall x | x in a ensures a[x] == 1 { assert m[x] == 1; }
  }

  lemma Regroup(r: multiset<Obj>, a: multiset<Obj>, x: multiset<Obj>, y: multiset<Obj>, z: multiset<Obj>)
    requires r == (a + x) + y && z == x + y
    ensures r == a + z
  {
  }

  lemma ObjectsSplit(es: Entries)
    requires es != End
    ensures multiset(Objects(es)) ==
            (if es.Object? then multiset{es.o} else multiset(Objects(es.c.entries))) + multiset(Objects(es.rest))
  {
  }

  /** Nothing is lost, nothing is added, and no error is returned. */
  lemma {:induction false} CollectsAll(f: Found, local: seq<Obj>, es: Entries)
    requires Ready(f.objs, local, es)
    ensures var r := Collect(f, local, es);
            && Sorted(r.objs) && multiset(r.objs) == multiset(f.objs) + multiset(Objects(es))
            && (f.err == 0 ==> r.err == 0)
    decreases es, 0
  {
    match es
    case End =>
    case Object(o, rest) =>
      ReadyObject(f.objs, local, o, rest);
      CollectsAll(Found(Insert(f.objs, o), 0), Insert(local, o), rest);
      Regroup(multiset(Collect(f, local, es).objs), multiset(f.objs), multiset{o}, multiset(Objects(rest)),
          multiset(Objects(es)));
    case Child(c, rest) =>
      ChildCollects(f.objs, local, c, rest);
      CollectsAll(Collect(Found(f.objs, 0), [], c.entries), local, rest);
      Regroup(multiset(Collect(f, local, es).objs), multiset(f.objs), multiset(Objects(c.entries)),
          multiset(Objects(rest)), multiset(Objects(es)));
  }

  /** A child container leaves the walk ready for the entries after it. */
  lemma {:induction false} ChildCollects(objs: seq<Obj>, local: seq<Obj>, c: Container, rest: Entries)
    requires Ready(objs, local, Child(c, rest))
    ensures Ready(objs, [], c.entries)
    ensures var u := Collect(Found(objs, 0), [], c.entries);
            u.err == 0 && Ready(u.objs, local, rest)
                && multiset(u.objs) == multiset(objs) + multiset(Objects(c.entries))
    ensures multiset(Objects(Child(c, rest))) == multiset(Objects(c.entries)) + multiset(Objects(rest))
    decreases c.entries, 1
  {
    ReadyChild(objs, local, c, rest);
    CollectsAll(Found(objs, 0), [], c.entries);
    ReadyRest(objs, local, c, rest, Collect(Found(objs, 0), [], c.entries).objs);
  }

  /** A container's own list is the sorted list of its own objects. */
  lemma {:induction false} OwnIsDirect(local: seq<Obj>, objs: seq<Obj>, es: Entries)
    requires Ready(objs, local, es) && Sorted(local)
    ensures var own := Own(local, objs, es);
            Sorted(own) && multiset(own) == multiset(local) + multiset(Direct(es))
    decreases es
  {
    match es
    case End =>
    case Object(o, rest) =>
      ReadyObject(objs, local, o, rest);
      OwnIsDirect(Insert(local, o), Insert(objs, o), rest);
    case Child(c, rest) =>
      ChildCollects(objs, local, c, rest);
      OwnIsDirect(local, Collect(Found(objs, 0), [], c.entries).objs, rest);
  }

  /** While every parent id is positive the walk appends, in pre-order. */
  lemma {:induction false} AppendsPreOrder(t: Outcome, local: seq<Obj>, es: Entries, id: nat, places: seq<Place>)
    requires Ready(t.objs, local, es)
    requires ParentsPositive(es, id) && DescribesAll(t.recs, places)
    ensures var r := VisitAll(t, local, es, id);
            r.restarted == t.restarted && DescribesAll(r.recs, places + PreOrderAll(es, id))
    decreases es, 0
  {
    match es
    case End =>
      assert places + [] == places;
    case Object(o, rest) =>
      ReadyObject(t.objs, local, o, rest);
      AppendsPreOrder(t.(objs := Insert(t.objs, o), err := 0), Insert(local, o), rest, id, places);
    case Child(c, rest) =>
      ChildCollects(t.objs, local, c, rest);
      VisitCollects(t.objs, c, id);
      ChildAppends(t.objs, c, id);
      var u := Visit(t.objs, c, id);
      DescribesBoth(t.recs, places, u.recs, PreOrder(c, id));
      AppendsPreOrder(After(t, u), local, rest, id, places + PreOrder(c, id));
      PreOrderChild(places, c, rest, id);
  }

  lemma {:induction false} ChildAppends(objs: seq<Obj>, c: Container, parent: nat)
    requires Ready(objs, [], c.entries) && ParentsPositive(c.entries, c.id)
    ensures Visit(objs, c, parent).restarted == (parent == 0)
    ensures DescribesAll(Visit(objs, c, parent).recs, PreOrder(c, parent))
    decreases c.entries, 1
  {
    OwnIsDirect([], objs, c.entries);
    AppendsPreOrder(Entered(objs, c, parent), [], c.entries, c.id, [Place(c, parent)]);
  }

  lemma PreOrderChild(places: seq<Place>, c: Container, rest: Entries, id: nat)
    ensures places + PreOrderAll(Child(c, rest), id) == places + PreOrder(c, id) + PreOrderAll(rest, id)
  {
  }

  lemma DescribesBoth(recs: seq<Rec>, places: seq<Place>, recs': seq<Rec>, places': seq<Place>)
    requires DescribesAll(recs, places) && DescribesAll(recs', places')
    ensures DescribesAll(recs + recs', places + places')
  {
  }

  /** A child of a container with id 0 restarts the list, and what was on it is
      gone for good. */
  lemma {:induction false} RestartsLose(t: Outcome, local: seq<Obj>, es: Entries, id: nat)
    requires Ready(t.objs, local, es) && t.recs != []
    ensures var r := VisitAll(t, local, es, id);
            && r.recs != []
            && r.restarted == (t.restarted || !ParentsPositive(es, id))
            && |r.recs| <= |t.recs| + |PreOrderAll(es, id)|
            && (|r.recs| == |t.recs| + |PreOrderAll(es, id)| <==> ParentsPositive(es, id))
    decreases es
  {
    match es
    case End =>
    case Object(o, rest) =>
      ReadyObject(t.objs, local, o, rest);
      RestartsLose(t.(objs := Insert(t.objs, o), err := 0), Insert(local, o), rest, id);
    case Child(c, rest) =>
      ChildCollects(t.objs, local, c, rest);
      VisitCollects(t.objs, c, id);
      RestartsLose(Entered(t.objs, c, id), [], c.entries, c.id);
      RestartsLose(After(t, Visit(t.objs, c, id)), local, rest, id);
  }

  /** Tree flattening: without an error, the global list is the sorted list of
      all objects, and the container list is the pre-order of the tree, with
      the right parents and object lists, exactly when every container that has
      child containers has a positive id. */
  lemma TreeFlattening(c: Container)
    requires Unique(multiset(Objects(c.entries)))
    ensures var r := Visit([], c, 0);
            && r.err == 0
            && Sorted(r.objs) && multiset(r.objs) == multiset(Objects(c.entries))
            && (DescribesAll(r.recs, PreOrder(c, 0)) <==> ParentsPositive(c.entries, c.id))
  {
    assert multiset(Objects(c.entries)) == multiset([]) + multiset(Objects(c.entries));
    var t := Entered([], c, 0);
    CollectsAll(Found([], 0), [], c.entries);
    VisitCollects([], c, 0);
    RestartsLose(t, [], c.entries, c.id);
    if ParentsPositive(c.entries, c.id) {
      ChildAppends([], c, 0);
    }
  }

  // ----- what a duplicate does to the rest -----

  function Append(pre: Entries, es: Entries): Entries {
    match pre
    case End => es
    case Object(o, rest) => Object(o, Append(rest, es))
    case Child(c, rest) => Child(c, Append(rest, es))
  }

  /** Whatever comes after a duplicate in its container is not looked at: lists and
      records are those of the entries before it. */
  lemma {:induction false} DuplicateEndsContainer(
    t: Outcome, local: seq<Obj>, pre: Entries, o: Obj, rest: Entries, id: nat)
    requires Has(VisitAll(t, local, pre, id).objs, o)
    ensures VisitAll(t, local, Append(pre, Object(o, rest)), id) == VisitAll(t, local, pre, id).(err := -EINVAL)
    decreases pre
  {
    match pre
    case End =>
    case Object(x, more) =>
      if !Has(t.objs, x) && !Has(local, x) {
        DuplicateEndsContainer(t.(objs := Insert(t.objs, x), err := 0), Insert(local, x), more, o, rest, id);
      }
    case Child(c, more) =>
      DuplicateEndsContainer(After(t, Visit(t.objs, c, id)), local, more, o, rest, id);
  }

  /** The container's own list ends there too. */
  lemma {:induction false} DuplicateEndsOwnList(local: seq<Obj>, objs: seq<Obj>, pre: Entries, o: Obj, rest: Entries)
    requires Has(Collect(Found(objs, 0), local, pre).objs, o)
    ensures Own(local, objs, Append(pre, Object(o, rest))) == Own(local, objs, pre)
    decreases pre
  {
    match pre
    case End =>
    case Object(x, more) =>
      if !Has(objs, x) && !Has(local, x) {
        DuplicateEndsOwnList(Insert(local, x), Insert(objs, x), more, o, rest);
      }
    case Child(c, more) =>
      var u := Collect(Found(objs, 0), [], c.entries);
      ErrorIsNotLooked(u, local, more);
      DuplicateEndsOwnList(local, u.objs, more, o, rest);
  }

  /** The lists do not depend on an earlier error. */
  lemma {:induction false} ErrorIsNotLooked(f: Found, local: seq<Obj>, es: Entries)
    ensures Collect(f, local, es).objs == Collect(Found(f.objs, 0), local, es).objs
    decreases es
  {
  }

  // ----- the global list is the union of the containers' lists -----

  ghost function Union(recs: seq<Rec>): multiset<Obj> {
    if recs == [] then multiset{} else multiset(recs[0].objs) + Union(recs[1..])
  }

  ghost function DirectUnion(places: seq<Place>): multiset<Obj> {
    if places == [] then multiset{} else multiset(Direct(places[0].c.entries)) + DirectUnion(places[1..])
  }

  lemma {:induction false} DirectUnionConcat(a: seq<Place>, b: seq<Place>)
    ensures DirectUnion(a + b) == DirectUnion(a) + DirectUnion(b)
  {
    if a == [] {
      assert a + b == b;
    } else {
      assert (a + b)[1..] == a[1..] + b;
      DirectUnionConcat(a[1..], b);
    }
  }

  lemma {:induction false} PreOrderPartitions(es: Entries, id: nat)
    ensures multiset(Objects(es)) == multiset(Direct(es)) + DirectUnion(PreOrderAll(es, id))
    decreases es
  {
    match es
    case End =>
    case Object(_, rest) => PreOrderPartitions(rest, id);
    case Child(c, rest) =>
      PreOrderPartitions(c.entries, c.id);
      PreOrderPartitions(rest, id);
      DirectUnionConcat(PreOrder(c, id), PreOrderAll(rest, id));
      assert PreOrder(c, id)[1..] == PreOrderAll(c.entries, c.id);
  }

  lemma {:induction false} UnionIsDirect(recs: seq<Rec>, places: seq<Place>)
    requires DescribesAll(recs, places)
    ensures Union(recs) == DirectUnion(places)
  {
    if recs != [] { UnionIsDirect(recs[1..], places[1..]); }
  }

  /** Each object is on the global list once and on one container's list once. */
  lemma GlobalListIsTheUnion(c: Container)
    requires Unique(multiset(Objects(c.entries))) && ParentsPositive(c.entries, c.id)
    ensures var r := Visit([], c, 0); multiset(r.objs) == Union(r.recs)
  {
    TreeFlattening(c);
    var r := Visit([], c, 0);
    UnionIsDirect(r.recs, PreOrder(c, 0));
    PreOrderPartitions(c.entries, c.id);
    assert PreOrder(c, 0)[1..] == PreOrderAll(c.entries, c.id);
  }

  // ----- duplicates -----

  /** The global list stays strictly sorted whatever the tree holds. */
  lemma {:induction false} StaysSorted(f: Found, local: seq<Obj>, es: Entries)
    requires Sorted(f.objs)
    ensures Sorted(Collect(f, local, es).objs)
    decreases es
  {
    match es
    case End =>
    case Object(o, rest) =>
      if !Has(f.objs, o) {
        InsertSorts(f.objs, o);
        StaysSorted(Found(Insert(f.objs, o), 0), Insert(local, o), rest);
      }
    case Child(c, rest) =>
      StaysSorted(Found(f.objs, 0), [], c.entries);
      StaysSorted(Collect(Found(f.objs, 0), [], c.entries), local, rest);
  }

  /** The walk lists every object exactly when no two have the same key. */
  lemma CompleteIffUnique(c: Container)
    ensures multiset(Visit([], c, 0).objs) == multiset(Objects(c.entries)) <==> Unique(multiset(Objects(c.entries)))
  {
    if Unique(multiset(Objects(c.entries))) { TreeFlattening(c); }
    VisitCollects([], c, 0);
    StaysSorted(Found([], 0), [], c.entries);
    SortedIsUnique(Visit([], c, 0).objs);
  }

  // ----- when a duplicate is reported -----

  function Count(es: Entries): nat { |Objects(es)| }

  /** Only the last entry of a container may be a child that holds objects,
      apart from the very first object of the walk, before which nothing can be
      listed. `seen` says that an object came before. */
  predicate Reporting(es: Entries, seen: bool) {
    match es
    case End => true
    case Object(_, rest) => Reporting(rest, true)
    case Child(c, rest) =>
      if rest == End then Reporting(c.entries, seen)
      else
        && (Count(c.entries) == 0 || (Count(c.entries) == 1 && !seen))
        && Reporting(rest, seen || Count(c.entries) > 0)
  }

  /** The same containers and indices, with other objects. */
  predicate SameShape(a: Entries, b: Entries) {
    match a
    case End => b == End
    case Object(_, rest) => b.Object? && SameShape(rest, b.rest)
    case Child(c, rest) =>
      && b.Child? && b.c.id == c.id && b.c.options == c.options
      && SameShape(c.entries, b.c.entries) && SameShape(rest, b.rest)
  }

  lemma {:induction false} ShapeDecides(a: Entries, b: Entries, seen: bool)
    requires SameShape(a, b)
    ensures Count(a) == Count(b) && (Reporting(a, seen) <==> Reporting(b, seen))
    decreases a
  {
    match a
    case End =>
    case Object(_, rest) => ShapeDecides(rest, b.rest, true);
    case Child(c, rest) =>
      ShapeDecides(c.entries, b.c.entries, seen);
      ShapeDecides(rest, b.rest, seen || Count(c.entries) > 0);
  }

  /** Containers without objects leave the global list alone. */
  lemma {:induction false} NothingToList(f: Found, local: seq<Obj>, es: Entries)
    requires Count(es) == 0
    ensures Collect(f, local, es).objs == f.objs
    decreases es
  {
    match es
    case End =>
    case Child(c, rest) =>
      NothingToList(Found(f.objs, 0), [], c.entries);
      NothingToList(Collect(Found(f.objs, 0), [], c.entries), local, rest);
  }

  /** The first object of a walk is always listed. */
  lemma {:induction false} FirstIsListed(f: Found, es: Entries)
    requires Count(es) == 1 && f.objs == []
    ensures Collect(f, [], es).objs == Objects(es)
    decreases es
  {
    match es
    case Object(o, rest) => NothingToList(Found(Insert([], o), 0), Insert([], o), rest);
    case Child(c, rest) =>
      var u := Collect(Found([], 0), [], c.entries);
      if Count(c.entries) == 0 {
        NothingToList(Found([], 0), [], c.entries);
        FirstIsListed(u, rest);
      } else {
        FirstIsListed(Found([], 0), c.entries);
        NothingToList(u, [], rest);
      }
  }

  /** In a reporting shape a walk without an error has listed everything. */
  lemma {:induction false} NoErrorNoStop(f: Found, local: seq<Obj>, es: Entries, seen: bool)
    requires Reporting(es, seen) && (!seen ==> f.objs == []) && Collect(f, local, es).err == 0
    ensures multiset(Collect(f, local, es).objs) == multiset(f.objs) + multiset(Objects(es))
    decreases es, 1
  {
    match es
    case End =>
    case Object(o, rest) =>
      ObjectsSplit(es);
      InsertAdds(f.objs, o);
      NoErrorNoStop(Found(Insert(f.objs, o), 0), Insert(local, o), rest, true);
      Regroup(multiset(Collect(f, local, es).objs), multiset(f.objs), multiset{o}, multiset(Objects(rest)),
          multiset(Objects(es)));
    case Child(_, _) => ChildNoErrorNoStop(f, local, es, seen);
  }

  lemma {:induction false} ChildNoErrorNoStop(f: Found, local: seq<Obj>, es: Entries, seen: bool)
    requires es.Child? && Reporting(es, seen) && (!seen ==> f.objs == []) && Collect(f, local, es).err == 0
    ensures multiset(Collect(f, local, es).objs) == multiset(f.objs) + multiset(Objects(es))
    decreases es, 0
  {
    var Child(c, rest) := es;
    if rest == End {
      NoErrorNoStop(Found(f.objs, 0), [], c.entries, seen);
    } else {
      ObjectsSplit(es);
      EarlyChildIsListed(f.objs, c.entries);
      NoErrorNoStop(Collect(Found(f.objs, 0), [], c.entries), local, rest, seen || Count(c.entries) > 0);
      Regroup(multiset(Collect(f, local, es).objs), multiset(f.objs), multiset(Objects(c.entries)),
          multiset(Objects(rest)), multiset(Objects(es)));
    }
  }

  lemma EarlyChildIsListed(objs: seq<Obj>, es: Entries)
    requires Count(es) == 0 || (Count(es) == 1 && objs == [])
    ensures var u := Collect(Found(objs, 0), [], es);
            multiset(u.objs) == multiset(objs) + multiset(Objects(es)) && (Count(es) == 0 ==> u.objs == objs)
  {
    if Count(es) == 0 { NothingToList(Found(objs, 0), [], es); } else { FirstIsListed(Found(objs, 0), es); }
  }

  /** An error always means a duplicate, and in a reporting shape a duplicate
      always means an error. */
  lemma ErrorMeansDuplicate(c: Container)
    ensures Visit([], c, 0).err != 0 ==> !Unique(multiset(Objects(c.entries)))
    ensures Reporting(c.entries, false) ==> (Visit([], c, 0).err != 0 <==> !Unique(multiset(Objects(c.entries))))
  {
    if Unique(multiset(Objects(c.entries))) { TreeFlattening(c); }
    if Reporting(c.entries, false) && Visit([], c, 0).err == 0 {
      VisitCollects([], c, 0);
      NoErrorNoStop(Found([], 0), [], c.entries, false);
      CompleteIffUnique(c);
    }
  }

  // ----- in every other shape a duplicate can go unreported -----

  /** The n-th object of a walk is dpbp.n, but the one numbered `bad` repeats dpbp.0. */
  function Numbered(n: nat, bad: nat): Obj {
    Obj("dpbp", if n == bad then 0 else n, "")
  }

  function Labelled(es: Entries, n: nat, bad: nat): (r: Entries)
    ensures r == End <==> es == End
  {
    match es
    case End => End
    case Object(_, rest) => Object(Numbered(n, bad), Labelled(rest, n + 1, bad))
    case Child(c, rest) =>
      Child(Container(c.id, c.options, Labelled(c.entries, n, bad)), Labelled(rest, n + Count(c.entries), bad))
  }

  lemma {:induction false} LabelledIs(es: Entries, n: nat, bad: nat)
    ensures SameShape(es, Labelled(es, n, bad)) && Count(Labelled(es, n, bad)) == Count(es)
    ensures forall k :: 0 <= k < Count(es) ==> Objects(Labelled(es, n, bad))[k] == Numbered(n + k, bad)
    decreases es
  {
    match es
    case End =>
    case Object(_, rest) => LabelledIs(rest, n + 1, bad);
    case Child(c, rest) =>
      LabelledIs(c.entries, n, bad);
      LabelledIs(rest, n + Count(c.entries), bad);
  }

  predicate Below(objs: seq<Obj>, n: nat) {
    forall o :: o in objs ==> o.id < n
  }

  lemma BelowGrows(objs: seq<Obj>, n: nat, m: nat)
    requires Below(objs, n) && n <= m
    ensures Below(objs, m)
  {
  }

  lemma InsertBelow(objs: seq<Obj>, o: Obj, n: nat)
    requires Below(objs, n) && o.id < n
    ensures Below(Insert(objs, o), n)
  {
    forall x | x in Insert(objs, o) ensures x.id < n { InsertMembers(objs, o, x); }
  }

  lemma {:induction false} StaysBelow(f: Found, local: seq<Obj>, es: Entries, n: nat, bad: nat)
    requires Below(f.objs, n)
    ensures Below(Collect(f, local, Labelled(es, n, bad)).objs, n + Count(es))
    decreases es
  {
    match es
    case End =>
    case Object(_, rest) =>
      var o := Numbered(n, bad);
      InsertBelow(f.objs, o, n + 1);
      StaysBelow(Found(Insert(f.objs, o), 0), Insert(local, o), rest, n + 1, bad);
    case Child(c, rest) =>
      StaysBelow(Found(f.objs, 0), [], c.entries, n, bad);
      StaysBelow(Collect(Found(f.objs, 0), [], Labelled(c.entries, n, bad)), local, rest, n + Count(c.entries), bad);
  }

  /** A new number is listed. */
  lemma NumberStep(f: Found, local: seq<Obj>, rest: Entries, n: nat, bad: nat)
    requires Below(f.objs, n) && Below(local, n) && n != bad
    ensures var o := Numbered(n, bad);
            && Collect(f, local, Object(o, rest)) == Collect(Found(Insert(f.objs, o), 0), Insert(local, o), rest)
            && Below(Insert(f.objs, o), n + 1) && Below(Insert(local, o), n + 1)
  {
    var o := Numbered(n, bad);
    assert forall i :: 0 <= i < |f.objs| ==> f.objs[i] in f.objs;
    assert forall i :: 0 <= i < |local| ==> local[i] in local;
    assert !Has(f.objs, o) && !Has(local, o);
    InsertBelow(f.objs, o, n + 1);
    InsertBelow(local, o, n + 1);
  }

  /** Without the repeated object in it, a part of the tree ends without an
      error, whatever error came before. */
  lemma {:induction false} NoErrorElsewhere(f: Found, local: seq<Obj>, es: Entries, n: nat, bad: nat)
    requires Below(f.objs, n) && Below(local, n) && (bad < n || n + Count(es) <= bad)
    requires es != End || f.err == 0
    ensures Collect(f, local, Labelled(es, n, bad)).err == 0
    decreases es
  {
    match es
    case End =>
    case Object(_, rest) =>
      var o := Numbered(n, bad);
      NumberStep(f, local, Labelled(rest, n + 1, bad), n, bad);
      NoErrorElsewhere(Found(Insert(f.objs, o), 0), Insert(local, o), rest, n + 1, bad);
    case Child(c, rest) =>
      var m := Count(c.entries);
      var u := Collect(Found(f.objs, 0), [], Labelled(c.entries, n, bad));
      assert Count(es) == m + Count(rest);
      StaysBelow(Found(f.objs, 0), [], c.entries, n, bad);
      NoErrorElsewhere(Found(f.objs, 0), [], c.entries, n, bad);
      BelowGrows(local, n, n + m);
      NoErrorElsewhere(u, local, rest, n + m, bad);
  }

  /** A place for the repeated object from which no error gets out: the last
      object of a child that is followed by another entry. */
  function SilentPlace(es: Entries, n: nat): (bad: nat)
    requires !Reporting(es, n > 0)
    ensures 1 <= bad && n <= bad < n + Count(es)
  {
    match es
    case Object(_, rest) => SilentPlace(rest, n + 1)
    case Child(c, rest) =>
      var m := Count(c.entries);
      if rest == End then SilentPlace(c.entries, n)
      else if m == 0 || (m == 1 && n == 0) then SilentPlace(rest, n + m)
      else n + m - 1
  }

  lemma {:induction false} SilentDuplicate(f: Found, local: seq<Obj>, es: Entries, n: nat, bad: nat)
    requires !Reporting(es, n > 0) && bad == SilentPlace(es, n)
    requires Below(f.objs, n) && Below(local, n)
    ensures Collect(f, local, Labelled(es, n, bad)).err == 0
    decreases es
  {
    match es
    case Object(_, rest) =>
      var o := Numbered(n, bad);
      NumberStep(f, local, Labelled(rest, n + 1, bad), n, bad);
      SilentDuplicate(Found(Insert(f.objs, o), 0), Insert(local, o), rest, n + 1, bad);
    case Child(c, rest) =>
      var m := Count(c.entries);
      var u := Collect(Found(f.objs, 0), [], Labelled(c.entries, n, bad));
      StaysBelow(Found(f.objs, 0), [], c.entries, n, bad);
      if rest == End {
        SilentDuplicate(Found(f.objs, 0), [], c.entries, n, bad);
      } else if m == 0 || (m == 1 && n == 0) {
        SilentDuplicate(u, local, rest, n + m, bad);
      } else {
        NoErrorElsewhere(u, local, rest, n + m, bad);
      }
  }

  lemma TwiceIsNotUnique(s: seq<Obj>, i: nat, j: nat)
    requires i < j < |s| && s[i] == s[j]
    ensures !Unique(multiset(s))
  {
    assert s == s[..j] + s[j..];
    assert s[i] in multiset(s[..j]) && s[j] in multiset(s[j..]);
    assert multiset(s)[s[i]] >= 2;
  }

  /** Every duplicate is reported, whatever the objects are, exactly in the
      reporting shapes. */
  lemma ReportsExactly(c: Container)
    ensures Reporting(c.entries, false) <==>
            forall es :: SameShape(c.entries, es) && !Unique(multiset(Objects(es))) ==>
              Visit([], Container(c.id, c.options, es), 0).err != 0
  {
    if Reporting(c.entries, false) {
      forall es | SameShape(c.entries, es) && !Unique(multiset(Objects(es)))
        ensures Visit([], Container(c.id, c.options, es), 0).err != 0
      {
        ShapeDecides(c.entries, es, false);
        ErrorMeansDuplicate(Container(c.id, c.options, es));
      }
    } else {
      var bad := SilentPlace(c.entries, 0);
      var es := Labelled(c.entries, 0, bad);
      LabelledIs(c.entries, 0, bad);
      TwiceIsNotUnique(Objects(es), 0, bad);
      SilentDuplicate(Found([], 0), [], c.entries, 0, bad);
      VisitCollects([], Container(c.id, c.options, es), 0);
      assert SameShape(c.entries, es);
    }
  }

  /** In another shape the error of a child can be overwritten by the next entry:
      here the walk succeeds, and dpni.2 is on no list. */
  lemma DuplicateGoesUnreported()
    ensures var dup := Obj("dpbp", 1, "");
            var child := Container(2, 0, Object(dup, Object(Obj("dpni", 2, ""), End)));
            var c := Container(1, 0, Object(dup, Child(child, Object(Obj("dpio", 3, ""), End))));
            var r := Visit([], c, 0);
            r.err == 0 && r.objs == [dup, Obj("dpio", 3, "")]
  {
    var dup, io := Obj("dpbp", 1, ""), Obj("dpio", 3, "");
    assert Insert([], dup) == [dup];
    assert Has([dup], dup) by { assert SameKey([dup][0], dup); }
    assert Strcmp("io", "bp") == 1;
    assert !Less(io, dup);
    assert Insert([dup], io) == [dup] + Insert([], io);
  }

  // ----- parse_layout -----

  /** How the top container is reached: the root of the system is open already;
      another container is opened and closed, with 0 or a negative error each. */
  datatype Access = Root | Opened(open: int, close: int)

  /** The lists of `layout` are those of outcome `r`. */
  ghost predicate Shows(layout: Layout, r: Outcome)
    reads layout, layout.list
  {
    && layout.Valid() && layout.objs == r.objs && |layout.list| == |r.recs|
    && forall i :: 0 <= i < |r.recs| ==> layout.list[i].Record(layout.list[i].objs) == r.recs[i]
  }

  /** The walk from the top container, over empty lists. */
  method WalkTop(c: Container) returns (err: int, layout: Layout)
    ensures fresh(layout) && Shows(layout, Visit([], c, 0)) && err == Visit([], c, 0).err
  {
    layout := new Layout();
    var last;
    ghost var added;
    ghost var r := Visit(layout.objs, c, 0);
    err, last, added := layout.Walk(c, null, 0);
    TopShows(layout, last, added, r);
  }

  lemma TopShows(layout: Layout, last: ContNode, added: seq<ContNode>, r: Outcome)
    requires layout.Inside([], last, last, added, r, last.objs)
    ensures Shows(layout, r)
  {
    assert layout.list == added;
  }

  /** What `parse_layout` leaves behind once the walk has taken place. */
  ghost predicate LaidOut(c: Container, r: Outcome) {
    && Sorted(r.objs)
    && (multiset(r.objs) == multiset(Objects(c.entries)) <==> Unique(multiset(Objects(c.entries))))
    && (Unique(multiset(Objects(c.entries))) && ParentsPositive(c.entries, c.id) ==>
        DescribesAll(r.recs, PreOrder(c, 0)))
  }

  /** Nothing but the walk of the root can make it fail: for a container that was
      opened, the result of closing it replaces that of the walk, and a failing
      open or close leaves through the exit that returns 0. */
  method ParseLayout(c: Container, access: Access) returns (err: int, layout: Layout)
    requires access.Opened? ==> access.open <= 0 && access.close <= 0
    ensures fresh(layout)
    ensures if access.Opened? && access.open < 0 then Shows(layout, Outcome(false, [], [], 0))
            else Shows(layout, Visit([], c, 0)) && LaidOut(c, Visit([], c, 0))
    ensures access.Opened? ==> err == 0
    ensures access.Root? ==> err == Visit([], c, 0).err
    ensures access.Root? && Reporting(c.entries, false) ==> (err != 0 <==> !Unique(multiset(Objects(c.entries))))
  {
    if access.Opened? && access.open < 0 {
      layout := new Layout();
      return 0, layout;
    }
    WalkFacts(c);
    err, layout := WalkTop(c);
    if access.Opened? {
      err := access.close;
      if err < 0 { err := 0; }
    }
  }

  lemma WalkFacts(c: Container)
    ensures LaidOut(c, Visit([], c, 0))
    ensures Reporting(c.entries, false) ==> (Visit([], c, 0).err != 0 <==> !Unique(multiset(Objects(c.entries))))
  {
    VisitCollects([], c, 0);
    StaysSorted(Found([], 0), [], c.entries);
    CompleteIffUnique(c);
    ErrorMeansDuplicate(c);
    if Unique(multiset(Objects(c.entries))) { TreeFlattening(c); }
  }
}
