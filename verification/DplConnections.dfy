/**
  The connection list of the DPL generator: endpoints are normalised, and each
  connection, reported by both of its ends, is to be listed once.
 */
module DplConnections {
  import opened Errno

  datatype Option<T> = None | Some(value: T)

  /** A normalised endpoint; interface -1 means "no interface". */
  datatype Endpoint = Endpoint(typ: string, id: int, ifId: int)
  datatype Conn = Conn(one: Endpoint, two: Endpoint)

  predicate SamePair(s: Conn, t: Conn) {
    s == t || (s.one == t.two && s.two == t.one)
  }

  predicate Touches(e: Endpoint, s: Conn) { e == s.one || e == s.two }

  // ----- the check against the list -----

  datatype Verdict = Known | Clash | New

  function Compare(s: Conn, t: Conn): Verdict {
    if t.one == s.one then (if t.two == s.two then Known else Clash)
    else if t.one == s.two then (if t.two == s.one then Known else Clash)
    else New
  }

  /** The first connection that touches the target's first end decides. */
  function Check(list: seq<Conn>, t: Conn): Verdict {
    if list == [] then New
    else if Compare(list[0], t) != New then Compare(list[0], t)
    else Check(list[1..], t)
  }

  /** The list after a series of targets; a known or clashing target is dropped. */
  function Listed(ts: seq<Conn>): seq<Conn> {
    if ts == [] then []
    else
      var list := Listed(ts[..|ts| - 1]);
      if Check(list, ts[|ts| - 1]) == New then list + [ts[|ts| - 1]] else list
  }

  /** No target clashed when its turn came. */
  predicate Accepted(ts: seq<Conn>) {
    forall k :: 0 <= k < |ts| ==> NoClashAt(ts, k)
  }

  predicate NoClashAt(ts: seq<Conn>, k: nat)
    requires k < |ts|
  {
    Check(Listed(ts[..k]), ts[k]) != Clash
  }

  lemma AcceptedUnfolds(ts: seq<Conn>)
    requires ts != []
    ensures var init := ts[..|ts| - 1]; Accepted(ts) <==> Accepted(init) && Check(Listed(init), ts[|ts| - 1]) != Clash
  {
    var init := ts[..|ts| - 1];
    forall k | 0 <= k < |init| ensures NoClashAt(init, k) <==> NoClashAt(ts, k) { assert init[..k] == ts[..k]; }
    if Accepted(ts) { assert NoClashAt(ts, |ts| - 1); }
  }

  /** The same, had nothing been dropped from the list. */
  predicate Consistent(ts: seq<Conn>) {
    ts == [] || (var init := ts[..|ts| - 1]; Consistent(init) && Check(init, ts[|ts| - 1]) != Clash)
  }

  lemma {:induction false} CheckNewIff(list: seq<Conn>, t: Conn)
    ensures Check(list, t) == New <==> forall s :: s in list ==> !Touches(t.one, s)
  {
    if list != [] {
      CheckNewIff(list[1..], t);
      assert list[0] in list;
      assert forall s :: s in list <==> s == list[0] || s in list[1..];
      assert Compare(list[0], t) == New <==> !Touches(t.one, list[0]);
    }
  }

  lemma {:induction false} CheckConcat(a: seq<Conn>, b: seq<Conn>, t: Conn)
    ensures Check(a + b, t) == if Check(a, t) != New then Check(a, t) else Check(b, t)
  {
    if a == [] {
      assert a + b == b;
    } else {
      assert (a + b)[1..] == a[1..] + b;
      CheckConcat(a[1..], b, t);
    }
  }

  /** If the check of `t` knows `t`, then every later check that stops at `t`
      stops before it, with the same answer. */
  lemma {:induction false} KnownShadows(list: seq<Conn>, t: Conn, next: Conn)
    requires Check(list, t) == Known && Compare(t, next) != New
    ensures Check(list, next) != New
  {
    if Compare(list[0], t) == New { KnownShadows(list[1..], t, next); }
  }

  /** Dropping known connections changes no later verdict. */
  lemma {:induction false} DroppingIsSafe(ts: seq<Conn>, t: Conn)
    requires Accepted(ts)
    ensures Check(Listed(ts), t) == Check(ts, t)
  {
    if ts != [] {
      AcceptedUnfolds(ts);
      var init, last := ts[..|ts| - 1], ts[|ts| - 1];
      DroppingIsSafe(init, t);
      assert ts == init + [last];
      CheckConcat(init, [last], t);
      CheckConcat(Listed(init), [last], t);
      if Check(Listed(init), last) == Known && Compare(last, t) != New {
        KnownShadows(Listed(init), last, t);
      }
    }
  }

  /** No call returns -EINVAL exactly when no target clashes with the full
      history: the first earlier report that touches it is the same pair. */
  lemma {:induction false} AcceptedIffConsistent(ts: seq<Conn>)
    ensures Accepted(ts) <==> Consistent(ts)
  {
    if ts != [] {
      AcceptedUnfolds(ts);
      var init := ts[..|ts| - 1];
      AcceptedIffConsistent(init);
      if Accepted(init) { DroppingIsSafe(init, ts[|ts| - 1]); }
    }
  }

  ghost predicate PairListed(list: seq<Conn>, t: Conn) {
    exists i :: 0 <= i < |list| && SamePair(list[i], t)
  }

  /** Whatever is reported, no unordered pair is listed twice. */
  lemma {:induction false} NoPairTwice(ts: seq<Conn>)
    ensures forall i, j :: 0 <= i < j < |Listed(ts)| ==> !SamePair(Listed(ts)[i], Listed(ts)[j])
  {
    if ts != [] {
      var list, t := Listed(ts[..|ts| - 1]), ts[|ts| - 1];
      NoPairTwice(ts[..|ts| - 1]);
      CheckNewIff(list, t);
      if Check(list, t) == New {
        forall i | 0 <= i < |list| ensures !SamePair(list[i], t) { assert list[i] in list; }
      }
    }
  }

  lemma {:induction false} KnownIsListed(list: seq<Conn>, t: Conn)
    requires Check(list, t) == Known
    ensures PairListed(list, t)
  {
    if Compare(list[0], t) == New {
      KnownIsListed(list[1..], t);
      var i :| 0 <= i < |list[1..]| && SamePair(list[1..][i], t);
      assert list[i + 1] == list[1..][i];
    }
  }

  lemma ListedGrows(list: seq<Conn>, t: Conn, s: Conn)
    requires PairListed(list, s)
    ensures PairListed(list + [t], s)
  {
    var i :| 0 <= i < |list| && SamePair(list[i], s);
    assert (list + [t])[i] == list[i];
  }

  /** An accepted report is on the list. */
  lemma {:induction false} EveryPairListed(ts: seq<Conn>, k: nat)
    requires k < |ts| && Accepted(ts)
    ensures PairListed(Listed(ts), ts[k])
  {
    AcceptedUnfolds(ts);
    var n := |ts| - 1;
    var list := Listed(ts[..n]);
    if k < n {
      EveryPairListed(ts[..n], k);
      ListedGrows(list, ts[n], ts[k]);
    } else if Check(list, ts[n]) == Known {
      KnownIsListed(list, ts[n]);
    } else {
      assert (list + [ts[n]])[|list|] == ts[n];
    }
  }

  lemma {:induction false} NothingInvented(ts: seq<Conn>)
    ensures forall s :: s in Listed(ts) ==> s in ts
  {
    if ts != [] {
      var n := |ts| - 1;
      NothingInvented(ts[..n]);
      assert forall s :: s in ts[..n] ==> s in ts;
    }
  }

  /** Only the first end of a target is checked, so whether an endpoint in two
      connections is noticed depends on the order of the reports. */
  lemma OneSidedCheck(a: Endpoint, b: Endpoint, c: Endpoint)
    requires a != b && b != c && a != c
    ensures Listed([Conn(b, c), Conn(a, b)]) == [Conn(b, c), Conn(a, b)]
    ensures Check([Conn(a, b)], Conn(b, c)) == Clash
  {
    ListedSnoc([], Conn(b, c));
    ListedSnoc([Conn(b, c)], Conn(a, b));
    assert [] + [Conn(b, c)] == [Conn(b, c)] && [Conn(b, c)][1..] == [];
    assert [Conn(b, c)] + [Conn(a, b)] == [Conn(b, c), Conn(a, b)];
  }

  /** An endpoint is in two connections of the list. */
  ghost predicate Overcommitted(list: seq<Conn>) {
    exists i, j, e :: 0 <= i < j < |list| && Touches(e, list[i]) && Touches(e, list[j])
  }

  /** No listed connection has its first end in an earlier one. */
  lemma {:induction false} FirstEndsAreNew(ts: seq<Conn>)
    ensures forall i, j :: 0 <= i < j < |Listed(ts)| ==> !Touches(Listed(ts)[j].one, Listed(ts)[i])
  {
    if ts != [] {
      var list, t := Listed(ts[..|ts| - 1]), ts[|ts| - 1];
      FirstEndsAreNew(ts[..|ts| - 1]);
      CheckNewIff(list, t);
      if Check(list, t) == New {
        forall i | 0 <= i < |list| ensures !Touches(t.one, list[i]) { assert list[i] in list; }
      }
    }
  }

  /** The list puts an endpoint in two connections exactly when the second end,
      which is not checked, of some entry is in an earlier one. */
  lemma OvercommittedIff(ts: seq<Conn>)
    ensures Overcommitted(Listed(ts)) <==>
            exists i, j :: 0 <= i < j < |Listed(ts)| && Touches(Listed(ts)[j].two, Listed(ts)[i])
  {
    var list := Listed(ts);
    FirstEndsAreNew(ts);
    if i, j, e :| 0 <= i < j < |list| && Touches(e, list[i]) && Touches(e, list[j]) {
      assert Touches(list[j].two, list[i]);
    }
    if i, j :| 0 <= i < j < |list| && Touches(list[j].two, list[i]) {
      assert Touches(list[j].two, list[j]);
    }
  }

  lemma ListedSnoc(ts: seq<Conn>, t: Conn)
    ensures Listed(ts + [t]) == if Check(Listed(ts), t) == New then Listed(ts) + [t] else Listed(ts)
    ensures Accepted(ts + [t]) <==> Accepted(ts) && Check(Listed(ts), t) != Clash
  {
    AcceptedUnfolds(ts + [t]);
    assert (ts + [t])[..|ts|] == ts;
  }

  // ----- endpoints -----

  /** An endpoint as the management complex knows it. */
  datatype Raw = Raw(typ: string, id: int, ifId: nat)

  predicate Switch(typ: string) { typ == "dpsw" || typ == "dpdmux" }
  predicate Single(typ: string) { typ == "dpni" || typ == "dpci" }

  /** The end that is asked about. */
  function NearEnd(e: Raw): Endpoint {
    Endpoint(e.typ, e.id, if Single(e.typ) then -1 else e.ifId)
  }

  /** The end that is reported back; an interface of anything but a switch is
      passed over. */
  function FarEnd(p: Raw): Option<Endpoint> {
    if Switch(p.typ) then Some(Endpoint(p.typ, p.id, p.ifId))
    else if p.ifId == 0 then Some(Endpoint(p.typ, p.id, -1))
    else None
  }

  /** The connection recorded for interface `k` of an object, if any. */
  function Report(link: Raw -> Option<Raw>, typ: string, id: int, k: nat): seq<Conn> {
    match link(Raw(typ, id, k))
    case None => []
    case Some(p) => if FarEnd(p) == None then [] else [Conn(NearEnd(Raw(typ, id, k)), FarEnd(p).value)]
  }

  datatype Queried = Queried(typ: string, id: int, numIfs: nat)

  /** Interfaces asked about: all of a switch's, the one of a dpni or dpci. */
  function Asked(q: Queried): nat {
    if Single(q.typ) && q.numIfs > 1 then 1 else q.numIfs
  }

  function Reports(link: Raw -> Option<Raw>, q: Queried, n: nat): seq<Conn> {
    if n == 0 then [] else Reports(link, q, n - 1) + Report(link, q.typ, q.id, n - 1)
  }

  lemma ReportsStep(link: Raw -> Option<Raw>, q: Queried, k: nat, h: seq<Conn>)
    ensures h + Reports(link, q, k) + Report(link, q.typ, q.id, k) == h + Reports(link, q, k + 1)
  {
  }

  /** Everything reported for a series of objects. */
  function History(link: Raw -> Option<Raw>, qs: seq<Queried>): seq<Conn> {
    if qs == [] then []
    else History(link, qs[..|qs| - 1]) + Reports(link, qs[|qs| - 1], Asked(qs[|qs| - 1]))
  }

  ghost predicate Symmetric(link: Raw -> Option<Raw>) {
    forall e, p :: link(e) == Some(p) ==> link(p) == Some(e)
  }

  /** The connection comes from a query for `e` answered by `p`. */
  ghost predicate ComesFrom(link: Raw -> Option<Raw>, t: Conn, e: Raw, p: Raw) {
    && link(e) == Some(p) && FarEnd(p) == Some(t.two)
    && FarEnd(e) == Some(t.one)
  }

  ghost predicate Sourced(link: Raw -> Option<Raw>, t: Conn) {
    exists e, p :: ComesFrom(link, t, e, p)
  }

  lemma {:induction false} ReportsAreSourced(link: Raw -> Option<Raw>, q: Queried, n: nat)
    requires Switch(q.typ) || Single(q.typ)
    requires n <= Asked(q)
    ensures forall t :: t in Reports(link, q, n) ==> Sourced(link, t)
  {
    if n > 0 {
      ReportsAreSourced(link, q, n - 1);
      forall t | t in Report(link, q.typ, q.id, n - 1) ensures Sourced(link, t) {
        var e := Raw(q.typ, q.id, n - 1);
        assert ComesFrom(link, t, e, link(e).value);
      }
    }
  }

  lemma {:induction false} HistoryIsSourced(link: Raw -> Option<Raw>, qs: seq<Queried>)
    requires forall q :: q in qs ==> Switch(q.typ) || Single(q.typ)
    ensures forall t :: t in History(link, qs) ==> Sourced(link, t)
  {
    if qs != [] {
      HistoryIsSourced(link, qs[..|qs| - 1]);
      ReportsAreSourced(link, qs[|qs| - 1], Asked(qs[|qs| - 1]));
    }
  }

  /** Two queries that touch report the same pair. */
  lemma TouchingIsSame(link: Raw -> Option<Raw>, s: Conn, t: Conn)
    requires Symmetric(link) && Sourced(link, s) && Sourced(link, t)
    ensures Compare(s, t) != Clash
  {
    var e, p :| ComesFrom(link, s, e, p);
    var e', p' :| ComesFrom(link, t, e', p');
    assert t.one == s.one ==> e == e';
    assert t.one == s.two ==> e' == p;
    assert link(p) == Some(e);
  }

  lemma {:induction false} NeverClashes(link: Raw -> Option<Raw>, list: seq<Conn>, t: Conn)
    requires Symmetric(link) && Sourced(link, t)
    requires forall s :: s in list ==> Sourced(link, s)
    ensures Check(list, t) != Clash
  {
    if list != [] {
      TouchingIsSame(link, list[0], t);
      NeverClashes(link, list[1..], t);
    }
  }

  lemma {:induction false} SourcedIsAccepted(link: Raw -> Option<Raw>, ts: seq<Conn>)
    requires Symmetric(link) && forall t :: t in ts ==> Sourced(link, t)
    ensures Accepted(ts)
  {
    if ts != [] {
      AcceptedUnfolds(ts);
      var init := ts[..|ts| - 1];
      SourcedIsAccepted(link, init);
      NothingInvented(init);
      NeverClashes(link, Listed(init), ts[|ts| - 1]);
    }
  }

  /** If the link relation is symmetric, then whatever objects are asked, in
      whatever order and however often, nothing is refused, and the list holds
      the unordered pair of each report exactly once and nothing else. */
  lemma EachConnectionOnce(link: Raw -> Option<Raw>, qs: seq<Queried>)
    requires Symmetric(link)
    requires forall q :: q in qs ==> Switch(q.typ) || Single(q.typ)
    ensures var ts := History(link, qs);
            && Accepted(ts)
            && (forall s :: s in Listed(ts) ==> s in ts)
            && (forall i, j :: 0 <= i < j < |Listed(ts)| ==> !SamePair(Listed(ts)[i], Listed(ts)[j]))
            && (forall k :: 0 <= k < |ts| ==> PairListed(Listed(ts), ts[k]))
  {
    var ts := History(link, qs);
    HistoryIsSourced(link, qs);
    SourcedIsAccepted(link, ts);
    NothingInvented(ts);
    NoPairTwice(ts);
    forall k | 0 <= k < |ts| ensures PairListed(Listed(ts), ts[k]) {
      EveryPairListed(ts, k);
    }
  }

  // ----- a series of objects, clashes included -----

  /** Interfaces, out of the first `n`, that go well after the reports `h`. */
  function Good(link: Raw -> Option<Raw>, h: seq<Conn>, q: Queried, n: nat): (m: nat)
    ensures m <= n
  {
    if n == 0 then 0
    else
      var m := Good(link, h, q, n - 1);
      if m == n - 1 && Accepted(h + Reports(link, q, n)) then n else m
  }

  /** The reports that count: the callers ignore a clash, so it only ends the
      reports of its own object. */
  function Kept(link: Raw -> Option<Raw>, qs: seq<Queried>): seq<Conn> {
    if qs == [] then []
    else
      var q, h := qs[|qs| - 1], Kept(link, qs[..|qs| - 1]);
      h + Reports(link, q, Good(link, h, q, Asked(q)))
  }

  lemma {:induction false} GoodIsAccepted(link: Raw -> Option<Raw>, h: seq<Conn>, q: Queried, n: nat)
    requires Accepted(h)
    ensures var m := Good(link, h, q, n);
            Accepted(h + Reports(link, q, m)) && (m < n ==> !Accepted(h + Reports(link, q, m + 1)))
    decreases n
  {
    if n == 0 { assert h + [] == h; } else { GoodIsAccepted(link, h, q, n - 1); }
  }

  lemma {:induction false} GoodStops(link: Raw -> Option<Raw>, h: seq<Conn>, q: Queried, m: nat, n: nat)
    requires m < n && Good(link, h, q, m) == m && !Accepted(h + Reports(link, q, m + 1))
    ensures Good(link, h, q, n) == m
    decreases n
  {
    if m + 1 < n { GoodStops(link, h, q, m, n - 1); }
  }

  lemma ReportIsOne(told: seq<Conn>, last: seq<Conn>)
    requires Accepted(told) && !Accepted(told + last) && |last| <= 1
    ensures |last| == 1 && Check(Listed(told), last[0]) == Clash
  {
    assert told + [] == told;
    assert last == [last[0]];
    ListedSnoc(told, last[0]);
  }

  /** The first interface that does not go well reports a connection that
      clashes with the list. */
  lemma StopsAtAClash(link: Raw -> Option<Raw>, h: seq<Conn>, q: Queried, n: nat)
    requires Accepted(h) && Good(link, h, q, n) < n
    ensures var m := Good(link, h, q, n);
            && |Report(link, q.typ, q.id, m)| == 1
            && Check(Listed(h + Reports(link, q, m)), Report(link, q.typ, q.id, m)[0]) == Clash
  {
    var m := Good(link, h, q, n);
    GoodIsAccepted(link, h, q, n);
    ReportsStep(link, q, m, h);
    var told, last := h + Reports(link, q, m), Report(link, q.typ, q.id, m);
    ReportIsOne(told, last);
  }

  /** The list after any series of objects, clashes or not, holds each unordered
      pair of the reports that count exactly once, and nothing else. */
  lemma {:induction false} SeriesIsListed(link: Raw -> Option<Raw>, qs: seq<Queried>)
    ensures var ts := Kept(link, qs);
            && Accepted(ts)
            && (forall s :: s in Listed(ts) ==> s in ts)
            && (forall i, j :: 0 <= i < j < |Listed(ts)| ==> !SamePair(Listed(ts)[i], Listed(ts)[j]))
            && (forall k :: 0 <= k < |ts| ==> PairListed(Listed(ts), ts[k]))
    decreases |qs|
  {
    var ts := Kept(link, qs);
    if qs != [] {
      var h, q := Kept(link, qs[..|qs| - 1]), qs[|qs| - 1];
      SeriesIsListed(link, qs[..|qs| - 1]);
      GoodIsAccepted(link, h, q, Asked(q));
    }
    NothingInvented(ts);
    NoPairTwice(ts);
    forall k | 0 <= k < |ts| ensures PairListed(Listed(ts), ts[k]) { EveryPairListed(ts, k); }
  }

  lemma {:induction false} AllGood(link: Raw -> Option<Raw>, h: seq<Conn>, q: Queried, n: nat)
    requires Symmetric(link) && (Switch(q.typ) || Single(q.typ)) && n <= Asked(q)
    requires forall t :: t in h ==> Sourced(link, t)
    ensures Good(link, h, q, n) == n
    decreases n
  {
    if n > 0 {
      AllGood(link, h, q, n - 1);
      ReportsAreSourced(link, q, n);
      SourcedIsAccepted(link, h + Reports(link, q, n));
    }
  }

  /** If the link relation is symmetric, every report counts. */
  lemma {:induction false} SymmetricKeepsAll(link: Raw -> Option<Raw>, qs: seq<Queried>)
    requires Symmetric(link)
    requires forall q :: q in qs ==> Switch(q.typ) || Single(q.typ)
    ensures Kept(link, qs) == History(link, qs)
    decreases |qs|
  {
    if qs != [] {
      var init, q := qs[..|qs| - 1], qs[|qs| - 1];
      SymmetricKeepsAll(link, init);
      HistoryIsSourced(link, init);
      AllGood(link, History(link, init), q, Asked(q));
    }
  }

  // ----- every link, and nothing but links -----

  /** The interface number a connection shows: only a switch has interfaces. */
  function Shown(typ: string, ifId: nat): int {
    if typ == "dpsw" || typ == "dpdmux" then ifId else -1
  }

  /** Interface `k` of the object, which is asked about, is linked to `p`, an end
      that is recorded. */
  ghost predicate Linked(link: Raw -> Option<Raw>, q: Queried, k: nat, p: Raw) {
    && link(Raw(q.typ, q.id, k)) == Some(p)
    && k < q.numIfs && (q.typ == "dpni" || q.typ == "dpci" ==> k == 0)
    && (p.typ == "dpsw" || p.typ == "dpdmux" || p.ifId == 0)
  }

  function LinkConn(q: Queried, k: nat, p: Raw): Conn {
    Conn(Endpoint(q.typ, q.id, Shown(q.typ, k)), Endpoint(p.typ, p.id, Shown(p.typ, p.ifId)))
  }

  ghost predicate ShowsLink(link: Raw -> Option<Raw>, qs: seq<Queried>, t: Conn) {
    exists q, k, p :: q in qs && Linked(link, q, k, p) && t == LinkConn(q, k, p)
  }

  predicate Queriable(q: Queried) {
    q.typ == "dpni" || q.typ == "dpci" || q.typ == "dpsw" || q.typ == "dpdmux"
  }

  lemma {:induction false} LinkIsReported(link: Raw -> Option<Raw>, q: Queried, k: nat, p: Raw, n: nat)
    requires Queriable(q) && Linked(link, q, k, p) && k < n
    ensures LinkConn(q, k, p) in Reports(link, q, n)
  {
    if k < n - 1 { LinkIsReported(link, q, k, p, n - 1); }
  }

  lemma {:induction false} ReportIsLink(link: Raw -> Option<Raw>, q: Queried, n: nat, t: Conn)
    requires Queriable(q) && n <= Asked(q) && t in Reports(link, q, n)
    ensures ShowsLink(link, [q], t)
  {
    if t in Reports(link, q, n - 1) {
      ReportIsLink(link, q, n - 1, t);
    } else {
      var p := link(Raw(q.typ, q.id, n - 1)).value;
      assert q in [q] && Linked(link, q, n - 1, p) && t == LinkConn(q, n - 1, p);
    }
  }

  lemma {:induction false} LinkInHistory(link: Raw -> Option<Raw>, qs: seq<Queried>, q: Queried, k: nat, p: Raw)
    requires q in qs && Queriable(q) && Linked(link, q, k, p)
    ensures LinkConn(q, k, p) in History(link, qs)
    decreases |qs|
  {
    if q == qs[|qs| - 1] {
      LinkIsReported(link, q, k, p, Asked(q));
    } else {
      LinkInHistory(link, qs[..|qs| - 1], q, k, p);
    }
  }

  lemma {:induction false} KeptShowsLinks(link: Raw -> Option<Raw>, qs: seq<Queried>, t: Conn)
    requires (forall q :: q in qs ==> Queriable(q)) && t in Kept(link, qs)
    ensures ShowsLink(link, qs, t)
    decreases |qs|
  {
    var init, q := qs[..|qs| - 1], qs[|qs| - 1];
    if t in Kept(link, init) {
      KeptShowsLinks(link, init, t);
    } else {
      ReportIsLink(link, q, Good(link, Kept(link, init), q, Asked(q)), t);
    }
  }

  /** Whatever the links, every entry of the list shows a link of an object that
      was asked. */
  lemma EntriesShowLinks(link: Raw -> Option<Raw>, qs: seq<Queried>, t: Conn)
    requires (forall q :: q in qs ==> Queriable(q)) && t in Listed(Kept(link, qs))
    ensures ShowsLink(link, qs, t)
  {
    NothingInvented(Kept(link, qs));
    KeptShowsLinks(link, qs, t);
  }

  /** If the links are symmetric, the list shows every link of every object that
      was asked, in one direction, and no other. */
  lemma ListsExactlyTheLinks(link: Raw -> Option<Raw>, qs: seq<Queried>, q: Queried, k: nat, p: Raw)
    requires Symmetric(link) && forall o :: o in qs ==> Queriable(o)
    ensures q in qs && Linked(link, q, k, p) ==> PairListed(Listed(Kept(link, qs)), LinkConn(q, k, p))
    ensures forall t :: t in Listed(Kept(link, qs)) ==> ShowsLink(link, qs, t)
  {
    SymmetricKeepsAll(link, qs);
    if q in qs && Linked(link, q, k, p) {
      LinkInHistory(link, qs, q, k, p);
      EachConnectionOnce(link, qs);
      var ts := History(link, qs);
      var i :| 0 <= i < |ts| && ts[i] == LinkConn(q, k, p);
      assert PairListed(Listed(ts), ts[i]);
    }
    forall t | t in Listed(Kept(link, qs)) ensures ShowsLink(link, qs, t) { EntriesShowLinks(link, qs, t); }
  }

  /** Links that are not symmetric: an object whose interfaces all went well has
      every link on the list, whatever the others did. */
  lemma {:induction false} GoodObjectIsListed(link: Raw -> Option<Raw>, qs: seq<Queried>, i: nat, k: nat, p: Raw)
    requires i < |qs| && Queriable(qs[i]) && Linked(link, qs[i], k, p)
    requires Good(link, Kept(link, qs[..i]), qs[i], Asked(qs[i])) > k
    ensures PairListed(Listed(Kept(link, qs)), LinkConn(qs[i], k, p))
    decreases |qs|
  {
    LinkInKept(link, qs, i, k, p);
    SeriesIsListed(link, qs);
    var ts := Kept(link, qs);
    var j :| 0 <= j < |ts| && ts[j] == LinkConn(qs[i], k, p);
    assert PairListed(Listed(ts), ts[j]);
  }

  lemma {:induction false} LinkInKept(link: Raw -> Option<Raw>, qs: seq<Queried>, i: nat, k: nat, p: Raw)
    requires i < |qs| && Queriable(qs[i]) && Linked(link, qs[i], k, p)
    requires Good(link, Kept(link, qs[..i]), qs[i], Asked(qs[i])) > k
    ensures LinkConn(qs[i], k, p) in Kept(link, qs)
    decreases |qs|
  {
    if i == |qs| - 1 {
      LinkIsReported(link, qs[i], k, p, Good(link, Kept(link, qs[..i]), qs[i], Asked(qs[i])));
    } else {
      var init := qs[..|qs| - 1];
      assert init[..i] == qs[..i];
      LinkInKept(link, init, i, k, p);
    }
  }

  // ----- the pointer code -----

  class ConnNode {
    const conn: Conn
    var next: ConnNode?

    constructor (conn: Conn)
      ensures this.conn == conn && next == null
    {
      this.conn := conn;
      next := null;
    }
  }

  ghost function NodeAt(nodes: seq<ConnNode>, i: nat): ConnNode? {
    if i < |nodes| then nodes[i] else null
  }

  function Conns(nodes: seq<ConnNode>): (v: seq<Conn>)
    ensures |v| == |nodes|
  {
    seq(|nodes|, i requires 0 <= i < |nodes| => nodes[i].conn)
  }

  class ConnList {
    var head: ConnNode?
    ghost var nodes: seq<ConnNode>

    ghost predicate Valid()
      reads this, nodes
    {
      && (forall i, j :: 0 <= i < j < |nodes| ==> nodes[i] != nodes[j])
      && head == NodeAt(nodes, 0)
      && (forall i {:trigger nodes[i].next} :: 0 <= i < |nodes| ==> nodes[i].next == NodeAt(nodes, i + 1))
    }

    constructor ()
      ensures Valid() && nodes == []
    {
      head, nodes := null, [];
    }

    /** compare_insert_connection */
    method CompareInsert(target: ConnNode) returns (err: int)
      requires Valid() && target !in nodes
      modifies this, nodes, target
      ensures Valid()
      ensures var verdict := Check(Conns(old(nodes)), target.conn);
              && err == (if verdict == Clash then -EINVAL else 0)
              && nodes == (if verdict == New then old(nodes) + [target] else old(nodes))
    {
      ghost var s := Conns(nodes);
      if head == null {
        head := target;
        target.next := null;
        nodes := [target];
        return 0;
      }
      var curr, prev := head, head;
      ghost var k := 0;
      while curr != null
        invariant 0 <= k <= |nodes| && nodes == old(nodes) && Valid() && nodes != []
        invariant curr == NodeAt(nodes, k)
        invariant prev == nodes[if k == 0 then 0 else k - 1]
        invariant Check(s, target.conn) == Check(s[k..], target.conn)
        decreases |nodes| - k
      {
        assert s[k..][0] == curr.conn && s[k..][1..] == s[k + 1..];
        if target.conn.one == curr.conn.one {
          if target.conn.two == curr.conn.two { return 0; }
          return -EINVAL;
        }
        if target.conn.one == curr.conn.two {
          if target.conn.two == curr.conn.one { return 0; }
          return -EINVAL;
        }
        prev, curr := curr, curr.next;
        k := k + 1;
      }
      prev.next := target;
      target.next := null;
      nodes := nodes + [target];
      return 0;
    }

    /** The list after the accepted reports `h`. */
    ghost predicate Holds(h: seq<Conn>)
      reads this, nodes
    {
      Valid() && Accepted(h) && Conns(nodes) == Listed(h)
    }

    /** parse_endpoint_dpl (and the dpci case of it): asks about the interfaces
        of one object in turn, after the reports `h`, and stops at a clash. `n`
        is the number of interfaces that went well. */
    method ParseEndpoint(link: Raw -> Option<Raw>, q: Queried, ghost h: seq<Conn>) returns (err: int, n: nat)
      requires Holds(h)
      modifies this, nodes
      ensures n == Good(link, h, q, Asked(q)) && Holds(h + Reports(link, q, n))
      ensures err == if n == Asked(q) then 0 else -EINVAL
      ensures forall i :: 0 <= i < |nodes| ==> nodes[i] in old(nodes) || fresh(nodes[i])
    {
      n := 0;
      assert h + [] == h;
      ghost var asked := Asked(q);
      var single := Single(q.typ);
      while n < q.numIfs
        invariant n <= q.numIfs && n <= asked && Holds(h + Reports(link, q, n)) && Good(link, h, q, n) == n
        invariant forall i :: 0 <= i < |nodes| ==> nodes[i] in old(nodes) || fresh(nodes[i])
        invariant single ==> n == 0
      {
        err := AskNext(link, q, n, h);
        if err != 0 {
          GoodStops(link, h, q, n, asked);
          return;
        }
        n := n + 1;
        if single { return; }
      }
      err := 0;
    }

    /** The objects one after the other; what the calls return is ignored. */
    method ParseObjects(link: Raw -> Option<Raw>, qs: seq<Queried>)
      requires Valid() && nodes == []
      modifies this
      ensures Holds(Kept(link, qs))
    {
      var i := 0;
      while i < |qs|
        invariant i <= |qs| && Holds(Kept(link, qs[..i]))
        invariant forall k :: 0 <= k < |nodes| ==> fresh(nodes[k])
      {
        assert qs[..i + 1][..i] == qs[..i];
        var _, _ := ParseEndpoint(link, qs[i], Kept(link, qs[..i]));
        i := i + 1;
      }
      assert qs[..i] == qs;
    }

    method AskNext(link: Raw -> Option<Raw>, q: Queried, n: nat, ghost h: seq<Conn>) returns (err: int)
      requires Holds(h + Reports(link, q, n))
      modifies this, nodes
      ensures forall i :: 0 <= i < |nodes| ==> nodes[i] in old(nodes) || fresh(nodes[i])
      ensures err == 0 ==> Holds(h + Reports(link, q, n + 1))
      ensures err != 0 ==> err == -EINVAL && Holds(h + Reports(link, q, n)) && !Accepted(h + Reports(link, q, n + 1))
    {
      ReportsStep(link, q, n, h);
      err := Ask(link, q, n, h + Reports(link, q, n));
    }

    /** One interface: a free or unsuitable one is passed over. */
    method Ask(link: Raw -> Option<Raw>, q: Queried, k: nat, ghost h: seq<Conn>) returns (err: int)
      requires Holds(h)
      modifies this, nodes
      ensures forall i :: 0 <= i < |nodes| ==> nodes[i] in old(nodes) || fresh(nodes[i])
      ensures var h' := h + Report(link, q.typ, q.id, k);
              if Accepted(h') then err == 0 && Holds(h') else err == -EINVAL && Holds(h)
    {
      assert h + [] == h;
      var peer := link(Raw(q.typ, q.id, k));
      if peer == None { return 0; }
      var far := FarEnd(peer.value);
      if far == None { return 0; }
      var target := new ConnNode(Conn(NearEnd(Raw(q.typ, q.id, k)), far.value));
      ListedSnoc(h, target.conn);
      err := CompareInsert(target);
    }
  }
}
