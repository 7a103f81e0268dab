/**
  The sorted object lists of the DPL generator: their order, the insertion, and
  the pointer code that performs it.
 */
module DplObjects {
  import opened Errno

  datatype Obj = Obj(typ: string, id: int, objLabel: string)

  // ----- the order -----

  /** strcmp, as a three-way result. */
  function Strcmp(a: string, b: string): int {
    if a == "" then (if b == "" then 0 else -1)
    else if b == "" then 1
    else if a[0] < b[0] then -1
    else if a[0] > b[0] then 1
    else Strcmp(a[1..], b[1..])
  }

  lemma {:induction false} StrcmpIsOrder(a: string, b: string, c: string)
    ensures Strcmp(a, b) == 0 <==> a == b
    ensures Strcmp(a, b) == -Strcmp(b, a)
    ensures Strcmp(a, b) <= 0 && Strcmp(b, c) <= 0 ==> Strcmp(a, c) <= 0
    ensures Strcmp(a, b) < 0 && Strcmp(b, c) <= 0 ==> Strcmp(a, c) < 0
    ensures Strcmp(a, b) <= 0 && Strcmp(b, c) < 0 ==> Strcmp(a, c) < 0
    decreases |a| + |b| + |c|
  {
    if a != "" && b != "" {
      if c != "" {
        StrcmpIsOrder(a[1..], b[1..], c[1..]);
      } else {
        StrcmpIsOrder(a[1..], b[1..], c);
      }
      assert a == [a[0]] + a[1..] && b == [b[0]] + b[1..];
    }
  }

  /** The two strings agree before `k`, where `a` ends or has the lesser character. */
  predicate Precedes(a: string, b: string, k: int) {
    0 <= k <= |a| && k < |b| && (forall i :: 0 <= i < k ==> a[i] == b[i]) && (k == |a| || a[k] < b[k])
  }

  /** The first difference decides, or else the shorter one comes first. */
  lemma {:induction false} StrcmpDecides(a: string, b: string)
    ensures Strcmp(a, b) in {-1, 0, 1}
    ensures Strcmp(a, b) < 0 <==> exists k :: Precedes(a, b, k)
  {
    if a != "" && b != "" && a[0] == b[0] {
      StrcmpDecides(a[1..], b[1..]);
      if k :| Precedes(a[1..], b[1..], k) {
        assert forall i :: 1 <= i < k + 1 ==> a[i] == a[1..][i - 1] && b[i] == b[1..][i - 1];
        assert Precedes(a, b, k + 1);
      }
      if k :| Precedes(a, b, k) {
        assert Precedes(a[1..], b[1..], k - 1);
      }
    } else if b != "" && (a == "" || a[0] < b[0]) {
      assert Precedes(a, b, 0);
    }
  }

  predicate SameKey(x: Obj, y: Obj) { x.typ == y.typ && x.id == y.id }

  /** By type, then by id. */
  predicate Less(x: Obj, y: Obj) {
    Strcmp(x.typ, y.typ) < 0 || (x.typ == y.typ && x.id < y.id)
  }

  lemma LessIsOrder(x: Obj, y: Obj, z: Obj)
    ensures !Less(x, x)
    ensures Less(x, y) && Less(y, z) ==> Less(x, z)
    ensures Less(x, y) || Less(y, x) || SameKey(x, y)
    ensures Less(x, y) ==> !SameKey(x, y) && !Less(y, x)
  {
    StrcmpIsOrder(x.typ, y.typ, z.typ);
    StrcmpIsOrder(x.typ, x.typ, x.typ);
    StrcmpIsOrder(y.typ, z.typ, x.typ);
  }

  ghost predicate Sorted(s: seq<Obj>) {
    forall i, j :: 0 <= i < j < |s| ==> Less(s[i], s[j])
  }

  // ----- insertion as a function -----

  function Insert(s: seq<Obj>, o: Obj): (r: seq<Obj>)
    ensures |r| == |s| + 1
  {
    if s == [] || Less(o, s[0]) then [o] + s else [s[0]] + Insert(s[1..], o)
  }

  predicate Has(s: seq<Obj>, o: Obj) {
    exists i :: 0 <= i < |s| && SameKey(s[i], o)
  }

  /** Insertion at the position `k` that keeps the order. */
  lemma {:induction false} InsertAt(s: seq<Obj>, o: Obj, k: nat)
    requires k <= |s|
    requires forall i :: 0 <= i < k ==> Less(s[i], o)
    requires k < |s| ==> Less(o, s[k])
    ensures Insert(s, o) == s[..k] + [o] + s[k..]
  {
    if k > 0 {
      LessIsOrder(s[0], o, o);
      InsertAt(s[1..], o, k - 1);
      assert s[1..][..k - 1] == s[1..k] && s[1..][k - 1..] == s[k..];
      assert s[..k] == [s[0]] + s[1..k];
    }
  }

  lemma {:induction false} InsertAdds(s: seq<Obj>, o: Obj)
    ensures multiset(Insert(s, o)) == multiset(s) + multiset{o}
  {
    if s != [] && !Less(o, s[0]) {
      InsertAdds(s[1..], o);
      assert s == [s[0]] + s[1..];
    }
  }

  lemma InsertMembers(s: seq<Obj>, o: Obj, x: Obj)
    ensures x in Insert(s, o) <==> x in s || x == o
  {
    InsertAdds(s, o);
    assert x in Insert(s, o) <==> x in multiset(Insert(s, o));
    assert x in s <==> x in multiset(s);
  }

  /** A smaller first element keeps a sorted list sorted. */
  lemma SortedCons(x: Obj, s: seq<Obj>)
    requires Sorted(s) && forall y :: y in s ==> Less(x, y)
    ensures Sorted([x] + s)
  {
    var t := [x] + s;
    forall i, j | 0 <= i < j < |t| ensures Less(t[i], t[j]) {
      if i == 0 { assert t[j] in s; } else { assert t[i] == s[i - 1] && t[j] == s[j - 1]; }
    }
  }

  lemma SortedHead(s: seq<Obj>, y: Obj)
    requires Sorted(s) && s != [] && y in s[1..]
    ensures Less(s[0], y)
  {
    var i :| 0 <= i < |s[1..]| && s[1..][i] == y;
    assert s[i + 1] == y;
  }

  /** Insertion keeps a strictly sorted list strictly sorted, unless the key was
      there already. */
  lemma {:induction false} InsertSorts(s: seq<Obj>, o: Obj)
    requires Sorted(s) && !Has(s, o)
    ensures Sorted(Insert(s, o))
  {
    if s == [] {
    } else if Less(o, s[0]) {
      forall y | y in s ensures Less(o, y) {
        var i :| 0 <= i < |s| && s[i] == y;
        LessIsOrder(o, s[0], y);
      }
      SortedCons(o, s);
    } else {
      LessIsOrder(s[0], o, o);
      assert !SameKey(s[0], o);
      assert !Has(s[1..], o) by { assert forall i :: 0 <= i < |s[1..]| ==> s[1..][i] == s[i + 1]; }
      InsertSorts(s[1..], o);
      forall y | y in Insert(s[1..], o) ensures Less(s[0], y) {
        InsertMembers(s[1..], o, y);
        if y in s[1..] { SortedHead(s, y); }
      }
      SortedCons(s[0], Insert(s[1..], o));
    }
  }

  // ----- the pointer code -----

  class Node {
    const obj: Obj
    var next: Node?

    constructor (obj: Obj)
      ensures this.obj == obj && next == null
    {
      this.obj := obj;
      next := null;
    }
  }

  function Values(nodes: seq<Node>): (v: seq<Obj>)
    ensures |v| == |nodes|
  {
    seq(|nodes|, i requires 0 <= i < |nodes| => nodes[i].obj)
  }

  function Nth(nodes: seq<Node>, i: nat): Node? {
    if i < |nodes| then nodes[i] else null
  }

  /** A list head and, as a ghost, the nodes reachable from it in order. */
  class List {
    var head: Node?
    ghost var nodes: seq<Node>

    ghost predicate Valid()
      reads this, nodes
    {
      && (forall i, j :: 0 <= i < j < |nodes| ==> nodes[i] != nodes[j])
      && head == Nth(nodes, 0)
      && forall i {:trigger nodes[i].next} :: 0 <= i < |nodes| ==> nodes[i].next == Nth(nodes, i + 1)
    }

    constructor ()
      ensures Valid() && nodes == []
    {
      head, nodes := null, [];
    }

    /** compare_insert_obj: splices the node in at its place, or reports an
        object that is listed already and changes nothing. */
    method CompareInsert(target: Node) returns (err: int, ghost k: nat)
      requires Valid() && Sorted(Values(nodes)) && target !in nodes
      modifies this, nodes, target
      ensures Valid()
      ensures if Has(old(Values(nodes)), target.obj) then err == -EINVAL && nodes == old(nodes)
              else
                && err == 0 && k <= |old(nodes)| && nodes == old(nodes)[..k] + [target] + old(nodes)[k..]
                && Values(nodes) == Insert(old(Values(nodes)), target.obj)
                && Sorted(Values(nodes))
    {
      ghost var s := Values(nodes);
      k := 0;
      if head == null {
        head := target;
        target.next := null;
        nodes := [target];
        return 0, 0;
      }
      var curr, prev := head, head;
      while curr != null
        invariant 0 <= k <= |nodes| && nodes == old(nodes) && Valid() && nodes != [] && head == nodes[0]
        invariant curr == Nth(nodes, k)
        invariant prev == nodes[if k == 0 then 0 else k - 1]
        invariant forall i :: 0 <= i < k ==> Less(s[i], target.obj)
        decreases |nodes| - k
      {
        assert curr.obj == s[k];
        Trichotomy(target.obj, s[k]);
        var order := Strcmp(target.obj.typ, curr.obj.typ);
        if order < 0 || (order == 0 && target.obj.id < curr.obj.id) {
          PlacedAt(nodes, target, k);
          Splice(prev, curr, target, k);
          return 0, k;
        }
        if order == 0 && target.obj.id == curr.obj.id {
          assert SameKey(s[k], target.obj);
          return -EINVAL, k;
        }
        prev, curr := curr, curr.next;
        k := k + 1;
      }
      PlacedAt(nodes, target, k);
      Splice(prev, null, target, k);
      return 0, k;
    }

    /** Put `target` between position k - 1 and position k. */
    method Splice(prev: Node, curr: Node?, target: Node, ghost k: nat)
      requires Valid() && nodes != [] && k <= |nodes| && target !in nodes
      requires curr == Nth(nodes, k)
      requires prev == nodes[if k == 0 then 0 else k - 1]
      modifies this, prev, target
      ensures Valid() && nodes == old(nodes)[..k] + [target] + old(nodes)[k..]
    {
      ghost var was := nodes;
      if curr == prev {
        assert k == 0;
        head := target;
        target.next := curr;
      } else {
        assert k > 0;
        prev.next := target;
        target.next := curr;
      }
      nodes := nodes[..k] + [target] + nodes[k..];
      forall i | 0 <= i < |nodes|
        ensures nodes[i].next == Nth(nodes, i + 1)
      {
        if i < k { assert nodes[i] == was[i]; } else if i > k { assert nodes[i] == was[i - 1]; }
      }
    }
  }

  lemma Trichotomy(x: Obj, y: Obj)
    ensures Strcmp(x.typ, y.typ) == 0 <==> x.typ == y.typ
    ensures Less(x, y) || Less(y, x) || SameKey(x, y)
  {
    LessIsOrder(x, y, y);
    StrcmpIsOrder(x.typ, y.typ, y.typ);
  }

  /** The nodes with `target` put at its place are the sorted insertion. */
  lemma PlacedAt(nodes: seq<Node>, target: Node, k: nat)
    requires k <= |nodes| && Sorted(Values(nodes))
    requires forall i :: 0 <= i < k ==> Less(Values(nodes)[i], target.obj)
    requires k < |nodes| ==> Less(target.obj, nodes[k].obj)
    ensures !Has(Values(nodes), target.obj)
    ensures Values(nodes[..k] + [target] + nodes[k..]) == Insert(Values(nodes), target.obj)
    ensures Sorted(Insert(Values(nodes), target.obj))
  {
    NotListed(Values(nodes), target.obj, k);
    InsertAt(Values(nodes), target.obj, k);
    InsertSorts(Values(nodes), target.obj);
    assert Values(nodes[..k] + [target] + nodes[k..]) == Values(nodes)[..k] + [target.obj] + Values(nodes)[k..];
  }

  /** Everything before position k is smaller and everything from it on larger. */
  lemma NotListed(s: seq<Obj>, o: Obj, k: nat)
    requires Sorted(s) && k <= |s|
    requires forall i :: 0 <= i < k ==> Less(s[i], o)
    requires k < |s| ==> Less(o, s[k])
    ensures !Has(s, o)
  {
    forall i | 0 <= i < |s| ensures !SameKey(s[i], o) {
      LessIsOrder(s[i], o, o);
      LessIsOrder(o, s[i], o);
      if i > k { LessIsOrder(o, s[k], s[i]); }
    }
  }
}
