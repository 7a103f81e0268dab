/**
  The container section of the generated DPL: how a sorted object list is
  written, one node an object (MC firmware up to 9) or one obj_set a type (MC
  firmware 10).
 */
module DplObjSets {
  import opened DplObjects
  import opened DplWalk

  const OBJ_TYPE_MAX_LENGTH := 8

  /** obj_set@typ with every id from `first` to `last`. */
  datatype ObjSet = ObjSet(typ: string, first: int, last: int)
  /** obj@num naming one object. */
  datatype ObjNode = ObjNode(num: nat, o: Obj)

  predicate Skipped(o: Obj) { o.typ == "dpmcp" && o.id == 0 }

  /** All objects but dpmcp.0. */
  function Emitted(objs: seq<Obj>): seq<Obj> {
    if objs == [] then []
    else Emitted(objs[..|objs| - 1]) + if Skipped(objs[|objs| - 1]) then [] else [objs[|objs| - 1]]
  }

  /** Only the management portal of the root container is passed over, and the
      others keep their number. */
  lemma {:induction false} EmittedIs(objs: seq<Obj>, o: Obj)
    ensures multiset(Emitted(objs))[o] == if o.typ == "dpmcp" && o.id == 0 then 0 else multiset(objs)[o]
    ensures o in Emitted(objs) <==> o in objs && !(o.typ == "dpmcp" && o.id == 0)
  {
    if objs != [] {
      var n := |objs| - 1;
      EmittedIs(objs[..n], o);
      assert objs == objs[..n] + [objs[n]];
    }
  }

  ghost predicate Named(objs: seq<Obj>) {
    forall o :: o in objs ==> 0 < |o.typ| < OBJ_TYPE_MAX_LENGTH
  }

  // ----- what the sets have to be -----

  predicate Covers(s: ObjSet, o: Obj) { s.typ == o.typ && s.first <= o.id <= s.last }

  ghost predicate Occurs(e: seq<Obj>, typ: string, id: int) {
    exists k :: 0 <= k < |e| && e[k].typ == typ && e[k].id == id
  }

  ghost predicate TypesIncrease(sets: seq<ObjSet>) {
    forall i, j :: 0 <= i < j < |sets| ==> Strcmp(sets[i].typ, sets[j].typ) < 0
  }

  ghost predicate Covered(sets: seq<ObjSet>, o: Obj) {
    exists i :: 0 <= i < |sets| && Covers(sets[i], o)
  }

  ghost predicate Tight(e: seq<Obj>, s: ObjSet) {
    Occurs(e, s.typ, s.first) && Occurs(e, s.typ, s.last)
  }

  /** Exactly one set a type, in order of type, from the type's least id to its
      greatest, with no object left out. */
  ghost predicate Grouped(sets: seq<ObjSet>, e: seq<Obj>) {
    && TypesIncrease(sets)
    && (forall k {:trigger Covered(sets, e[k])} :: 0 <= k < |e| ==> Covered(sets, e[k]))
    && (forall i {:trigger Tight(e, sets[i])} :: 0 <= i < |sets| ==> Tight(e, sets[i]))
  }

  lemma OccursGrows(e: seq<Obj>, o: Obj, typ: string, id: int)
    requires Occurs(e, typ, id)
    ensures Occurs(e + [o], typ, id)
  {
    var k :| 0 <= k < |e| && e[k].typ == typ && e[k].id == id;
    assert (e + [o])[k] == e[k];
  }

  lemma OccursLast(e: seq<Obj>, o: Obj)
    ensures Occurs(e + [o], o.typ, o.id)
  {
    assert (e + [o])[|e|] == o;
  }

  /** A further object of the type being grouped. */
  lemma GroupSame(out: seq<ObjSet>, s: ObjSet, e: seq<Obj>, o: Obj)
    requires Grouped(out + [s], e) && s.typ == o.typ && s.last < o.id
    ensures Grouped(out + [s.(last := o.id)], e + [o])
  {
    var sets, sets' := out + [s], out + [s.(last := o.id)];
    var e' := e + [o];
    forall k | 0 <= k < |e'| ensures Covered(sets', e'[k]) {
      if k < |e| {
        assert Covered(sets, e[k]);
        var i :| 0 <= i < |sets| && Covers(sets[i], e[k]);
        assert Covers(sets'[i], e'[k]);
      } else {
        assert Tight(e, sets[|out|]);
        FirstNotAfterLast(sets, e, |out|);
        assert Covers(sets'[|out|], e'[k]);
      }
    }
    forall i | 0 <= i < |sets'| ensures Tight(e', sets'[i]) {
      assert Tight(e, sets[i]);
      OccursGrows(e, o, sets[i].typ, sets[i].first);
      OccursGrows(e, o, sets[i].typ, sets[i].last);
      OccursLast(e, o);
    }
    forall i, j | 0 <= i < j < |sets'| ensures Strcmp(sets'[i].typ, sets'[j].typ) < 0 {
      assert sets'[i].typ == sets[i].typ && sets'[j].typ == sets[j].typ;
    }
  }

  lemma OneSetPerType(sets: seq<ObjSet>, i: nat, j: nat)
    requires TypesIncrease(sets) && i < |sets| && j < |sets| && sets[i].typ == sets[j].typ
    ensures i == j
  {
    StrcmpIsOrder(sets[i].typ, sets[i].typ, "");
  }

  lemma FirstNotAfterLast(sets: seq<ObjSet>, e: seq<Obj>, i: nat)
    requires Grouped(sets, e) && i < |sets|
    ensures sets[i].first <= sets[i].last
  {
    assert Tight(e, sets[i]);
    var k :| 0 <= k < |e| && e[k].typ == sets[i].typ && e[k].id == sets[i].first;
    assert Covered(sets, e[k]);
    var j :| 0 <= j < |sets| && Covers(sets[j], e[k]);
    OneSetPerType(sets, i, j);
  }

  /** The first object of the next type. */
  lemma GroupNext(sets: seq<ObjSet>, e: seq<Obj>, o: Obj)
    requires Grouped(sets, e)
    requires sets != [] ==> Strcmp(sets[|sets| - 1].typ, o.typ) < 0
    ensures Grouped(sets + [ObjSet(o.typ, o.id, o.id)], e + [o])
  {
    var sets' := sets + [ObjSet(o.typ, o.id, o.id)];
    var e' := e + [o];
    forall k | 0 <= k < |e'| ensures Covered(sets', e'[k]) {
      if k < |e| {
        assert Covered(sets, e[k]);
        var i :| 0 <= i < |sets| && Covers(sets[i], e[k]);
        assert Covers(sets'[i], e'[k]);
      } else {
        assert Covers(sets'[|sets|], e'[k]);
      }
    }
    forall i | 0 <= i < |sets'| ensures Tight(e', sets'[i]) {
      OccursLast(e, o);
      if i < |sets| {
        assert Tight(e, sets[i]);
        OccursGrows(e, o, sets[i].typ, sets[i].first);
        OccursGrows(e, o, sets[i].typ, sets[i].last);
      }
    }
    TypesIncreaseNext(sets, sets'[|sets|]);
  }

  lemma TypesIncreaseNext(sets: seq<ObjSet>, s: ObjSet)
    requires TypesIncrease(sets)
    requires sets != [] ==> Strcmp(sets[|sets| - 1].typ, s.typ) < 0
    ensures TypesIncrease(sets + [s])
  {
    forall i | 0 <= i < |sets| ensures Strcmp(sets[i].typ, s.typ) < 0 {
      StrcmpIsOrder(sets[i].typ, sets[|sets| - 1].typ, s.typ);
    }
  }

  // ----- the ids a set writes, against the ids there are -----

  /** In the list, objects of one type have consecutive ids. */
  ghost predicate NoGap(e: seq<Obj>) {
    forall k :: 0 <= k < |e| - 1 ==> NoGapAfter(e, k)
  }

  ghost predicate NoGapAfter(e: seq<Obj>, k: nat)
    requires k < |e| - 1
  {
    e[k].typ == e[k + 1].typ ==> e[k + 1].id == e[k].id + 1
  }

  /** Every id a set writes is the id of an object of that type. */
  ghost predicate Real(sets: seq<ObjSet>, e: seq<Obj>) {
    forall i, id :: 0 <= i < |sets| && sets[i].first <= id <= sets[i].last ==> Occurs(e, sets[i].typ, id)
  }

  /** Within one type the positions of a sorted list follow the ids. */
  lemma PositionsFollowIds(e: seq<Obj>, i: nat, j: nat)
    requires Sorted(e) && i < |e| && j < |e| && e[i].typ == e[j].typ && e[i].id <= e[j].id
    ensures i <= j
    ensures e[i].id < e[j].id ==> i < j
  {
    LessIsOrder(e[i], e[j], e[i]);
    StrcmpIsOrder(e[i].typ, e[i].typ, "");
  }

  /** Between two objects of one type there is only that type. */
  lemma TypeIsARun(e: seq<Obj>, i: nat, k: nat, j: nat)
    requires Sorted(e) && i <= k <= j < |e| && e[i].typ == e[j].typ
    ensures e[k].typ == e[i].typ
  {
    if i < k < j {
      assert Less(e[i], e[k]) && Less(e[k], e[j]);
      StrcmpIsOrder(e[i].typ, e[k].typ, e[j].typ);
      StrcmpIsOrder(e[k].typ, e[j].typ, e[i].typ);
      StrcmpIsOrder(e[i].typ, e[i].typ, "");
    }
  }

  lemma {:induction false} ConsecutiveIds(e: seq<Obj>, i: nat, k: nat, j: nat)
    requires Sorted(e) && NoGap(e) && i <= k <= j < |e| && e[i].typ == e[j].typ
    ensures e[k].id == e[i].id + (k - i)
    decreases k
  {
    if k > i {
      ConsecutiveIds(e, i, k - 1, j);
      TypeIsARun(e, i, k - 1, j);
      TypeIsARun(e, i, k, j);
      assert NoGapAfter(e, k - 1);
    }
  }

  lemma NoGapMeansReal(sets: seq<ObjSet>, e: seq<Obj>)
    requires Sorted(e) && Grouped(sets, e) && NoGap(e)
    ensures Real(sets, e)
  {
    forall i, id | 0 <= i < |sets| && sets[i].first <= id <= sets[i].last ensures Occurs(e, sets[i].typ, id) {
      assert Tight(e, sets[i]);
      var a :| 0 <= a < |e| && e[a].typ == sets[i].typ && e[a].id == sets[i].first;
      var b :| 0 <= b < |e| && e[b].typ == sets[i].typ && e[b].id == sets[i].last;
      PositionsFollowIds(e, a, b);
      ConsecutiveIds(e, a, b, b);
      var k := a + (id - e[a].id);
      ConsecutiveIds(e, a, k, b);
      TypeIsARun(e, a, k, b);
      assert e[k].typ == sets[i].typ && e[k].id == id;
    }
  }

  lemma RealMeansNoGap(sets: seq<ObjSet>, e: seq<Obj>, k: nat)
    requires Sorted(e) && Grouped(sets, e) && Real(sets, e)
    requires k < |e| - 1 && e[k].typ == e[k + 1].typ
    ensures e[k + 1].id == e[k].id + 1
  {
    assert Less(e[k], e[k + 1]);
    StrcmpIsOrder(e[k].typ, e[k].typ, "");
    assert Covered(sets, e[k]) && Covered(sets, e[k + 1]);
    var i :| 0 <= i < |sets| && Covers(sets[i], e[k]);
    var j :| 0 <= j < |sets| && Covers(sets[j], e[k + 1]);
    OneSetPerType(sets, i, j);
    var id := e[k].id + 1;
    assert Occurs(e, sets[i].typ, id);
    var m :| 0 <= m < |e| && e[m].typ == sets[i].typ && e[m].id == id;
    PositionsFollowIds(e, k, m);
    PositionsFollowIds(e, m, k + 1);
  }

  /** The sets write exactly the ids of the objects if and only if no type has a
      gap in its ids. */
  lemma ExactIffNoGap(sets: seq<ObjSet>, e: seq<Obj>)
    requires Sorted(e) && Grouped(sets, e)
    ensures Real(sets, e) <==> NoGap(e)
  {
    if NoGap(e) { NoGapMeansReal(sets, e); }
    if Real(sets, e) {
      forall k | 0 <= k < |e| - 1 ensures NoGapAfter(e, k) {
        if e[k].typ == e[k + 1].typ { RealMeansNoGap(sets, e, k); }
      }
    }
  }

  // ----- the writing loops -----

  lemma {:induction false} EmittedMembers(objs: seq<Obj>)
    ensures forall o :: o in Emitted(objs) ==> o in objs
  {
    if objs != [] {
      EmittedMembers(objs[..|objs| - 1]);
      assert forall o :: o in objs[..|objs| - 1] ==> o in objs;
    }
  }

  lemma {:induction false} EmittedSorted(objs: seq<Obj>)
    requires Sorted(objs)
    ensures Sorted(Emitted(objs))
  {
    if objs != [] {
      var n := |objs| - 1;
      EmittedSorted(objs[..n]);
      EmittedMembers(objs[..n]);
      var e := Emitted(objs[..n]);
      forall k | 0 <= k < |e| ensures Less(e[k], objs[n]) {
        assert e[k] in objs[..n];
      }
    }
  }

  lemma EmittedStep(objs: seq<Obj>, i: nat)
    requires i < |objs|
    ensures Emitted(objs[..i + 1]) == if Skipped(objs[i]) then Emitted(objs[..i]) else Emitted(objs[..i]) + [objs[i]]
  {
    assert objs[..i + 1][..i] == objs[..i];
  }

  /** The loop state of one container: `out` is written, `cur` is being grouped. */
  ghost predicate Grouping(out: seq<ObjSet>, cur: ObjSet, stale: ObjSet, e: seq<Obj>) {
    if e == [] then out == [] && cur == stale
    else Grouped(out + [cur], e) && cur.typ == e[|e| - 1].typ && cur.last == e[|e| - 1].id
  }

  /** One object of a container, for MC firmware 10. */
  method GroupObject(out: seq<ObjSet>, cur: ObjSet, o: Obj, ghost stale: ObjSet, ghost e: seq<Obj>)
    returns (out': seq<ObjSet>, cur': ObjSet)
    requires stale.typ == "" && Grouping(out, cur, stale, e) && Sorted(e + [o])
    requires e != [] ==> e[|e| - 1].typ != ""
    ensures Grouping(out', cur', stale, e + [o])
  {
    if e != [] {
      assert Less((e + [o])[|e| - 1], (e + [o])[|e|]);
      StrcmpIsOrder(cur.typ, cur.typ, "");
    }
    out', cur' := out, cur;
    if cur.typ == "" {
      cur' := ObjSet(o.typ, o.id, o.id);
      GroupNext([], [], o);
      assert [] + [cur'] == [cur'] && [] + [o] == [o];
    } else if cur.typ != o.typ {
      out' := out + [cur];
      cur' := ObjSet(o.typ, o.id, o.id);
      GroupNext(out', e, o);
    } else {
      cur' := cur.(last := o.id);
      GroupSame(out, cur, e, o);
    }
  }

  /** Node names: the first is 100; objects of one type count on, and each further
      type starts at the next round hundred after the number that was due. */
  ghost predicate Numbered(nodes: seq<ObjNode>) {
    && (forall j, k :: 0 <= j < k < |nodes| ==> nodes[j].num < nodes[k].num)
    && (forall k :: 0 <= k < |nodes| ==> NumberedAt(nodes, k))
  }

  ghost predicate NumberedAt(nodes: seq<ObjNode>, k: nat)
    requires k < |nodes|
  {
    if k == 0 then nodes[k].num == 100
    else if nodes[k].o.typ == nodes[k - 1].o.typ then nodes[k].num == nodes[k - 1].num + 1
    else nodes[k].num % 100 == 0 && nodes[k - 1].num + 1 < nodes[k].num <= nodes[k - 1].num + 101
  }

  function ObjectsOf(nodes: seq<ObjNode>): (v: seq<Obj>)
    ensures |v| == |nodes|
  {
    seq(|nodes|, i requires 0 <= i < |nodes| => nodes[i].o)
  }

  /** One object of a container, for MC firmware up to 9. `num` is the number the
      next object of the same type would get. */
  method NumberObject(nodes: seq<ObjNode>, num: nat, o: Obj) returns (nodes': seq<ObjNode>, num': nat)
    requires Numbered(nodes) && Sorted(ObjectsOf(nodes) + [o])
    requires num == if nodes == [] then 99 else nodes[|nodes| - 1].num + 1
    ensures Numbered(nodes') && ObjectsOf(nodes') == ObjectsOf(nodes) + [o]
    ensures nodes' != [] && num' == nodes'[|nodes'| - 1].num + 1
  {
    num' := num;
    if nodes != [] {
      var s := ObjectsOf(nodes) + [o];
      assert Less(s[|nodes| - 1], s[|nodes|]);
      StrcmpIsOrder(o.typ, nodes[|nodes| - 1].o.typ, "");
    }
    if nodes == [] || Strcmp(o.typ, nodes[|nodes| - 1].o.typ) > 0 {
      num' := num + 100 - num % 100;
    }
    nodes' := nodes + [ObjNode(num', o)];
    forall k | 0 <= k < |nodes| ensures NumberedAt(nodes', k) { assert NumberedAt(nodes, k); }
    num' := num' + 1;
  }

  /** The loop state of one container after the objects `e`. */
  ghost predicate Writing(major: nat, nodes: seq<ObjNode>, num: nat, sets: seq<ObjSet>, cur: ObjSet, stale: ObjSet,
      e: seq<Obj>) {
    && Numbered(nodes) && ObjectsOf(nodes) == (if major <= 9 then e else [])
    && (major <= 9 ==> num == if nodes == [] then 99 else nodes[|nodes| - 1].num + 1)
    && Grouping(sets, cur, stale, if major == 10 then e else [])
  }

  /** One object of the list; dpmcp.0 is passed over. */
  method EmitObject(major: nat, objs: seq<Obj>, i: nat, nodes: seq<ObjNode>, num: nat, sets: seq<ObjSet>,
      cur: ObjSet, ghost stale: ObjSet)
    returns (nodes': seq<ObjNode>, num': nat, sets': seq<ObjSet>, cur': ObjSet)
    requires Sorted(objs) && Named(objs) && i < |objs| && stale.typ == ""
    requires Writing(major, nodes, num, sets, cur, stale, Emitted(objs[..i]))
    ensures Writing(major, nodes', num', sets', cur', stale, Emitted(objs[..i + 1]))
  {
    EmittedStep(objs, i);
    PrefixFacts(objs, i);
    nodes', num', sets', cur' := nodes, num, sets, cur;
    if !Skipped(objs[i]) {
      if major <= 9 {
        nodes', num' := NumberObject(nodes, num, objs[i]);
      } else if major == 10 {
        sets', cur' := GroupObject(sets, cur, objs[i], stale, Emitted(objs[..i]));
      }
    }
  }

  /** The objects section of one container. `start` and `id` are left over from
      the container before it. */
  method WriteObjects(objs: seq<Obj>, major: nat, start: int, id: int)
    returns (nodes: seq<ObjNode>, sets: seq<ObjSet>, last: ObjSet)
    requires Sorted(objs) && Named(objs)
    ensures major <= 9 ==> Numbered(nodes) && ObjectsOf(nodes) == Emitted(objs)
    ensures major == 10 && Emitted(objs) != [] ==> Grouped(sets, Emitted(objs))
    ensures major != 10 || Emitted(objs) == [] ==> sets == [ObjSet("", start, id)]
    ensures major > 9 ==> nodes == []
    ensures sets != [] && last == sets[|sets| - 1]
  {
    nodes, sets := [], [];
    last := ObjSet("", start, id);
    ghost var stale := last;
    var num, i := 99, 0;
    while i < |objs|
      invariant i <= |objs| && Writing(major, nodes, num, sets, last, stale, Emitted(objs[..i]))
    {
      nodes, num, sets, last := EmitObject(major, objs, i, nodes, num, sets, last, stale);
      i := i + 1;
    }
    assert objs[..i] == objs;
    sets := sets + [last];
  }

  lemma PrefixFacts(objs: seq<Obj>, i: nat)
    requires Sorted(objs) && Named(objs) && i < |objs|
    ensures Sorted(Emitted(objs[..i + 1]))
    ensures Emitted(objs[..i]) != [] ==> Emitted(objs[..i])[|Emitted(objs[..i])| - 1].typ != ""
  {
    EmittedSorted(objs[..i + 1]);
    EmittedMembers(objs[..i]);
    var e := Emitted(objs[..i]);
    if e != [] {
      assert e[|e| - 1] in objs[..i];
      assert e[|e| - 1] in objs;
    }
  }

  /** What write_containers writes for one container of the list. */
  datatype Section = Section(id: nat, parent: nat, nodes: seq<ObjNode>, sets: seq<ObjSet>)

  /** A section is right when it stands for the container's objects and nothing
      else: one node an object, or sets that write exactly their ids. */
  ghost predicate Faithful(s: Section, r: Rec, major: nat) {
    && (major <= 9 ==> ObjectsOf(s.nodes) == Emitted(r.objs) && s.sets == [])
    && (major == 10 ==> s.nodes == [] && Grouped(s.sets, Emitted(r.objs)) && Real(s.sets, Emitted(r.objs)))
  }

  /** With firmware 10 a section has one set a type, and is faithful exactly when
      the container has an object to emit and no gap in its ids; with older
      firmware the nodes are right, but a nameless obj_set always follows them. */
  ghost predicate SectionLaw(s: Section, r: Rec, major: nat) {
    && s.id == r.id && s.parent == r.parent
    && (major == 10 ==> (Faithful(s, r, major) <==> Emitted(r.objs) != [] && NoGap(Emitted(r.objs))))
    && (major <= 9 ==> Numbered(s.nodes) && ObjectsOf(s.nodes) == Emitted(r.objs) && !Faithful(s, r, major))
    && (major > 9 ==> s.nodes == [])
    && (if major == 10 && Emitted(r.objs) != [] then Grouped(s.sets, Emitted(r.objs))
        else |s.sets| == 1 && s.sets[0].typ == "")
  }

  /** write_containers over the container list. */
  method WriteContainers(recs: seq<Rec>, major: nat, start: int, id: int) returns (out: seq<Section>)
    requires forall i :: 0 <= i < |recs| ==> Sorted(recs[i].objs) && Named(recs[i].objs)
    ensures |out| == |recs| && forall i :: 0 <= i < |recs| ==> SectionLaw(out[i], recs[i], major)
  {
    out := [];
    var last := ObjSet("", start, id);
    while |out| < |recs|
      invariant |out| <= |recs|
      invariant forall i :: 0 <= i < |out| ==> SectionLaw(out[i], recs[i], major)
    {
      var section;
      section, last := WriteContainer(recs[|out|], major, last);
      out := out + [section];
    }
  }

  method WriteContainer(r: Rec, major: nat, stale: ObjSet) returns (section: Section, last: ObjSet)
    requires Sorted(r.objs) && Named(r.objs)
    ensures SectionLaw(section, r, major)
  {
    var nodes, sets;
    nodes, sets, last := WriteObjects(r.objs, major, stale.first, stale.last);
    section := Section(r.id, r.parent, nodes, sets);
    if major == 10 { FaithfulIff(section, r); }
  }

  lemma FaithfulIff(s: Section, r: Rec)
    requires Sorted(r.objs) && s.sets != [] && s.nodes == []
    requires Emitted(r.objs) != [] ==> Grouped(s.sets, Emitted(r.objs))
    ensures Faithful(s, r, 10) <==> Emitted(r.objs) != [] && NoGap(Emitted(r.objs))
  {
    EmittedSorted(r.objs);
    if Emitted(r.objs) == [] {
      assert !Occurs([], s.sets[0].typ, s.sets[0].first);
      assert Grouped(s.sets, []) ==> Tight([], s.sets[0]);
    } else {
      ExactIffNoGap(s.sets, Emitted(r.objs));
    }
  }
}
