/**
  The recursive walk of the DPL generator: it flattens a tree of containers into
  a linked list, threading the tail pointer through the recursion, and collects
  the objects into sorted lists.
 */
module DplWalk {
  import opened Errno
  import opened DplObjects

  /** What the management complex reports for the indices of a container: its
      objects and its child containers, in index order. */
  datatype Entries =
    | End
    | Object(o: Obj, rest: Entries)
    | Child(c: Container, rest: Entries)
  datatype Container = Container(id: nat, options: int, entries: Entries)

  /** One element of the container list. */
  datatype Rec = Rec(id: nat, parent: nat, options: int, objs: seq<Obj>)

  // ----- the walk as a function of the tree -----

  /** What a walk does: whether it restarted the container list, the records it
      put on it, the global object list, and the error it returns. */
  datatype Outcome = Outcome(restarted: bool, recs: seq<Rec>, objs: seq<Obj>, err: int)

  /** A container whose parent id is 0 restarts the list. */
  function Visit(objs: seq<Obj>, c: Container, parent: nat): Outcome
    decreases c.entries, 1
  {
    VisitAll(Entered(objs, c, parent), [], c.entries, c.id)
  }

  /** After linking the container in, with the list it will end up with. */
  function Entered(objs: seq<Obj>, c: Container, parent: nat): Outcome {
    Outcome(parent == 0, [Rec(c.id, parent, c.options, Own([], objs, c.entries))], objs, 0)
  }

  /** The rest of a container's entries, after outcome `t` and with `local` as
      the container's own list. A duplicate object ends the container; the error
      of a child container lasts only until the next entry. */
  function VisitAll(t: Outcome, local: seq<Obj>, es: Entries, id: nat): Outcome
    decreases es, 0
  {
    match es
    case End => t
    case Object(o, rest) =>
      if Has(t.objs, o) then t.(err := -EINVAL)
      else if Has(local, o) then t.(objs := Insert(t.objs, o), err := -EINVAL)
      else VisitAll(t.(objs := Insert(t.objs, o), err := 0), Insert(local, o), rest, id)
    case Child(c, rest) =>
      VisitAll(After(t, Visit(t.objs, c, id)), local, rest, id)
  }

  function After(t: Outcome, u: Outcome): Outcome {
    Outcome(t.restarted || u.restarted, if u.restarted then u.recs else t.recs + u.recs, u.objs, u.err)
  }

  /** The list a container ends up with. */
  function Own(local: seq<Obj>, objs: seq<Obj>, es: Entries): seq<Obj>
    decreases es
  {
    match es
    case End => local
    case Object(o, rest) =>
      if Has(objs, o) || Has(local, o) then local
      else Own(Insert(local, o), Insert(objs, o), rest)
    case Child(c, rest) => Own(local, Collect(Found(objs, 0), [], c.entries).objs, rest)
  }

  /** The global object list and the error alone: they do not depend on the
      container list. */
  datatype Found = Found(objs: seq<Obj>, err: int)

  function Collect(f: Found, local: seq<Obj>, es: Entries): Found
    decreases es
  {
    match es
    case End => f
    case Object(o, rest) =>
      if Has(f.objs, o) then Found(f.objs, -EINVAL)
      else if Has(local, o) then Found(Insert(f.objs, o), -EINVAL)
      else Collect(Found(Insert(f.objs, o), 0), Insert(local, o), rest)
    case Child(c, rest) => Collect(Collect(Found(f.objs, 0), [], c.entries), local, rest)
  }

  lemma {:induction false} VisitAllCollects(t: Outcome, local: seq<Obj>, es: Entries, id: nat)
    ensures var r := VisitAll(t, local, es, id); Found(r.objs, r.err) == Collect(Found(t.objs, t.err), local, es)
    decreases es, 0
  {
    match es
    case End =>
    case Object(o, rest) =>
      VisitAllCollects(t.(objs := Insert(t.objs, o), err := 0), Insert(local, o), rest, id);
    case Child(c, rest) =>
      VisitCollects(t.objs, c, id);
      VisitAllCollects(After(t, Visit(t.objs, c, id)), local, rest, id);
  }

  lemma {:induction false} VisitCollects(objs: seq<Obj>, c: Container, parent: nat)
    ensures var r := Visit(objs, c, parent); Found(r.objs, r.err) == Collect(Found(objs, 0), [], c.entries)
    decreases c.entries, 1
  {
    VisitAllCollects(Entered(objs, c, parent), [], c.entries, c.id);
  }

  function Weight(es: Entries): nat {
    match es
    case End => 0
    case Object(_, rest) => 1 + Weight(rest)
    case Child(c, rest) => 1 + Weight(c.entries) + Weight(rest)
  }

  // ----- the pointer code -----

  class ContNode {
    const id: nat
    const parentId: nat
    const options: int
    var objs: seq<Obj>
    var next: ContNode?

    constructor (id: nat, parentId: nat, options: int)
      ensures this.id == id && this.parentId == parentId && this.options == options
      ensures objs == [] && next == null
    {
      this.id, this.parentId, this.options := id, parentId, options;
      objs, next := [], null;
    }

    ghost function Record(objs: seq<Obj>): Rec {
      Rec(id, parentId, options, objs)
    }
  }

  ghost function NodeAt(list: seq<ContNode>, i: nat): ContNode? {
    if i < |list| then list[i] else null
  }

  /** `recs` are the records of `nodes`, where `cur` is credited with `own`. */
  ghost predicate Recorded(nodes: seq<ContNode>, recs: seq<Rec>, cur: ContNode, own: seq<Obj>)
    reads nodes
  {
    && |nodes| == |recs|
    && forall i :: 0 <= i < |nodes| ==> recs[i] == nodes[i].Record(if nodes[i] == cur then own else nodes[i].objs)
  }

  function Tail(prev: ContNode?): set<ContNode> {
    if prev == null then {} else {prev}
  }

  class Layout {
    var head: ContNode?
    var objs: seq<Obj>
    ghost var list: seq<ContNode>

    constructor ()
      ensures Valid() && list == [] && objs == []
    {
      head, objs, list := null, [], [];
    }

    ghost predicate Valid()
      reads this, list
    {
      && (forall i, j :: 0 <= i < j < |list| ==> list[i] != list[j])
      && head == NodeAt(list, 0)
      && (forall i {:trigger list[i].next} :: 0 <= i < |list| ==> list[i].next == NodeAt(list, i + 1))
    }

    /** Link a new container in: as the head when the parent id is 0, after the
        tail otherwise. */
    method Link(node: ContNode, prev: ContNode?)
      requires Valid() && node !in list && node.next == null
      requires node.parentId != 0 ==> list != [] && prev == list[|list| - 1]
      modifies this`head, this`list, Tail(prev)`next
      ensures Valid() && list == Grown(old(list), node.parentId == 0, [node])
    {
      if node.parentId == 0 {
        head := node;
        list := [node];
      } else {
        prev.next := node;
        list := list + [node];
      }
    }

    /** The state inside a container `cur`, once outcome `t` is reached: `added`
        are the nodes put on the list since it was `base`. */
    ghost predicate Inside(base: seq<ContNode>, cur: ContNode, last: ContNode, added: seq<ContNode>, t: Outcome,
        own: seq<Obj>)
      reads this, list, added
    {
      && Valid() && added != [] && last == added[|added| - 1]
      && list == Grown(base, t.restarted, added)
      && Recorded(added, t.recs, cur, own)
      && t.objs == objs
    }

    /** find_all_obj_desc: `last` is the tail handed back through `*prev`. */
    method Walk(c: Container, prev: ContNode?, parentId: nat)
        returns (err: int, last: ContNode, ghost added: seq<ContNode>)
      requires Valid()
      requires parentId != 0 ==> list != [] && prev == list[|list| - 1]
      modifies this, Tail(prev)`next
      ensures Inside(old(list), last, last, added, Visit(old(objs), c, parentId), last.objs)
      ensures err == Visit(old(objs), c, parentId).err
      ensures forall i :: 0 <= i < |added| ==> fresh(added[i])
      decreases Weight(c.entries), 2
    {
      ghost var base := list;
      ghost var own, t, goal := Own([], objs, c.entries), Entered(objs, c, parentId), Visit(objs, c, parentId);
      var cur := Enter(c, prev, parentId);
      err, last, added := 0, cur, [cur];
      var rest := c.entries;
      while rest != End
        invariant fresh(cur) && forall i :: 0 <= i < |added| ==> fresh(added[i])
        invariant Inside(base, cur, last, added, t, own) && t.err == err
        invariant Toward(goal, own, t, cur.objs, rest, c.id)
        invariant Weight(rest) <= Weight(c.entries)
        decreases Weight(rest)
      {
        err, last, rest, added, t := Step(c.id, rest, last, base, cur, added, t, own, goal);
      }
      Credited(added, t.recs, cur, last);
    }

    /** Makes the node of a container and links it in. */
    method Enter(c: Container, prev: ContNode?, parentId: nat) returns (cur: ContNode)
      requires Valid()
      requires parentId != 0 ==> list != [] && prev == list[|list| - 1]
      modifies this`head, this`list, Tail(prev)`next
      ensures fresh(cur) && cur.objs == []
      ensures Inside(old(list), cur, cur, [cur], Entered(objs, c, parentId), Own([], objs, c.entries))
    {
      cur := new ContNode(c.id, parentId, c.options);
      Link(cur, prev);
    }

    /** One entry of `cur`; a duplicate ends the container. */
    method Step(id: nat, rest: Entries, prev: ContNode, ghost base: seq<ContNode>, cur: ContNode,
                ghost added: seq<ContNode>, ghost t: Outcome, ghost own: seq<Obj>, ghost goal: Outcome)
      returns (err: int, last: ContNode, rest': Entries, ghost added': seq<ContNode>, ghost t': Outcome)
      requires rest != End && Inside(base, cur, prev, added, t, own)
      requires Toward(goal, own, t, cur.objs, rest, id)
      modifies this, {prev}`next, cur`objs
      ensures Inside(base, cur, last, added', t', own) && t'.err == err
      ensures Toward(goal, own, t', cur.objs, rest', id)
      ensures Weight(rest') < Weight(rest)
      ensures forall i :: 0 <= i < |added'| ==> added'[i] in added || fresh(added'[i])
      decreases Weight(rest), 1
    {
      last, rest', added' := prev, rest.rest, added;
      match rest
      case Object(o, tail) =>
        err, t' := AddObject(cur, o, base, prev, added, t, own);
        if err != 0 { rest' := End; }
      case Child(child, tail) =>
        VisitCollects(objs, child, id);
        err, last, added', t' := Descend(child, id, prev, base, cur, added, t, own);
    }

    /** The recursive call for a child container of `cur`. */
    method Descend(child: Container, id: nat, prev: ContNode, ghost base: seq<ContNode>, ghost cur: ContNode,
                   ghost added: seq<ContNode>, ghost t: Outcome, ghost own: seq<Obj>)
      returns (err: int, last: ContNode, ghost added': seq<ContNode>, ghost t': Outcome)
      requires Inside(base, cur, prev, added, t, own)
      modifies this, {prev}`next
      ensures t' == After(t, Visit(old(objs), child, id)) && err == t'.err
      ensures Inside(base, cur, last, added', t', own)
      ensures forall i :: 0 <= i < |added'| ==> added'[i] in added || fresh(added'[i])
      decreases Weight(child.entries), 3
    {
      ghost var u := Visit(objs, child, id);
      ghost var more;
      err, last, more := Walk(child, prev, id);
      RecordedBoth(added, t.recs, more, u.recs, cur, own, last);
      GrownTwice(base, t.restarted, added, u.restarted, more);
      added' := if u.restarted then more else added + more;
      t' := After(t, u);
    }

    /** Both insertions of an object: the global list, then the container's. */
    method AddObject(cur: ContNode, o: Obj, ghost base: seq<ContNode>, ghost last: ContNode,
                     ghost added: seq<ContNode>, ghost t: Outcome, ghost own: seq<Obj>)
      returns (err: int, ghost t': Outcome)
      requires Inside(base, cur, last, added, t, own)
      modifies this`objs, cur`objs
      ensures t' == t.(objs := objs, err := err) && Inside(base, cur, last, added, t', own)
      ensures err == if Has(old(objs), o) || Has(old(cur.objs), o) then -EINVAL else 0
      ensures objs == if Has(old(objs), o) then old(objs) else Insert(old(objs), o)
      ensures cur.objs == if err != 0 then old(cur.objs) else Insert(old(cur.objs), o)
    {
      if Has(objs, o) { return -EINVAL, t.(err := -EINVAL); }
      objs := Insert(objs, o);
      if Has(cur.objs, o) { return -EINVAL, t.(objs := objs, err := -EINVAL); }
      cur.objs := Insert(cur.objs, o);
      return 0, t.(objs := objs, err := 0);
    }
  }

  /** With `rest` still to come, outcome `t` leads to `goal`, and `local` to `own`. */
  ghost predicate Toward(goal: Outcome, own: seq<Obj>, t: Outcome, local: seq<Obj>, rest: Entries, id: nat) {
    VisitAll(t, local, rest, id) == goal && Own(local, t.objs, rest) == own
  }

  /** The container list after a walk that put `added` on it. */
  ghost function Grown(base: seq<ContNode>, restarted: bool, added: seq<ContNode>): seq<ContNode> {
    if restarted then added else base + added
  }

  lemma GrownTwice(base: seq<ContNode>, first: bool, added: seq<ContNode>, second: bool, more: seq<ContNode>)
    ensures Grown(Grown(base, first, added), second, more)
            == Grown(base, first || second, if second then more else added + more)
  {
  }

  lemma RecordedBoth(nodes: seq<ContNode>, recs: seq<Rec>, more: seq<ContNode>, moreRecs: seq<Rec>,
                     cur: ContNode, own: seq<Obj>, last: ContNode)
    requires Recorded(nodes, recs, cur, own)
    requires more != [] && last == more[|more| - 1] && Recorded(more, moreRecs, last, last.objs)
    requires cur !in more
    ensures Recorded(more, moreRecs, cur, own)
    ensures Recorded(nodes + more, recs + moreRecs, cur, own)
  {
  }

  lemma Credited(nodes: seq<ContNode>, recs: seq<Rec>, cur: ContNode, last: ContNode)
    requires nodes != [] && last == nodes[|nodes| - 1] && Recorded(nodes, recs, cur, cur.objs)
    ensures Recorded(nodes, recs, last, last.objs)
  {
  }
}
