/** The value a route tree stands for: a finite map from tree positions to entries.
    A position is the sequence of edges walked from the root, so the map is closed under prefixes.
    Registration is described here without the tree: which routes a table accepts, what a table holds
    after a list of registrations, and why the order of that list cannot be observed. */
module RouteTable {
  import opened Wrappers

  /** One segment of a pattern, with the three fields the parser fills in. */
  datatype Segment = Segment(literal: string, param: string, wildcard: bool)

  /** An edge of the tree: a fixed text, the single parameter child, or the single wildcard child. */
  datatype Key = Lit(text: string) | Par | Wild

  type Path = seq<Key>

  /** What a registration stores: a handler chain with its parameter names, or a static file server. */
  datatype Handler = Chain(handlers: seq<nat>, names: seq<string>) | FileServer(strip: string)

  datatype Entry = Entry(name: string, subtree: bool, handlers: map<string, Handler>)

  type Table = map<Path, Entry>

  datatype Route = Route(verb: string, segs: seq<Segment>, handler: Handler, subtree: bool)

  datatype Error = NoError | EmptyMethod | BadPattern | NameConflict | Duplicate | KindConflict

  function KeyOf(s: Segment): Key {
    if s.wildcard then Wild else if s.param != "" then Par else Lit(s.literal)
  }

  /** The name a tree node reached by this segment carries. */
  function NameOf(s: Segment): string {
    if KeyOf(s).Lit? then "" else s.param
  }

  function Keys(segs: seq<Segment>): (p: Path)
    ensures |p| == |segs|
    ensures forall i | 0 <= i < |segs| :: p[i] == KeyOf(segs[i])
  {
    seq(|segs|, i requires 0 <= i < |segs| => KeyOf(segs[i]))
  }

  /** The name at depth i of the branch spelled by segs; the root has none. */
  function NameAt(segs: seq<Segment>, i: nat): string
    requires i <= |segs|
  {
    if i == 0 then "" else NameOf(segs[i - 1])
  }

  /** segs passes through p. */
  ghost predicate Through(segs: seq<Segment>, p: Path) {
    |p| <= |segs| && Keys(segs)[..|p|] == p
  }

  lemma ThroughPrefix(segs: seq<Segment>, p: Path, i: nat)
    requires Through(segs, p) && i <= |p|
    ensures Through(segs, p[..i])
  {
    assert Keys(segs)[..i] == Keys(segs)[..|p|][..i];
  }

  /** The first n steps of segs agree with the names already in the table. */
  ghost predicate NamesAgreeTo(t: Table, segs: seq<Segment>, n: nat)
    requires n <= |segs|
  {
    forall i | 0 <= i <= n && Keys(segs)[..i] in t :: t[Keys(segs)[..i]].name == NameAt(segs, i)
  }

  ghost predicate NamesAgree(t: Table, segs: seq<Segment>) {
    NamesAgreeTo(t, segs, |segs|)
  }

  /** The table takes the route: no name, method or kind conflict. */
  ghost predicate Accepts(t: Table, r: Route) {
    && NamesAgree(t, r.segs)
    && (Keys(r.segs) in t ==>
          var e := t[Keys(r.segs)];
          r.verb !in e.handlers && (e.handlers != map[] ==> e.subtree == r.subtree))
  }

  /** The table with every prefix of the first n segments present. */
  ghost function Grown(t: Table, segs: seq<Segment>, n: nat): Table
    requires n <= |segs|
  {
    var g := if n == 0 then t else Grown(t, segs, n - 1);
    var p := Keys(segs)[..n];
    if p in g then g else g[p := Entry(NameAt(segs, n), false, map[])]
  }

  lemma {:induction false} GrownAt(t: Table, segs: seq<Segment>, n: nat, p: Path)
    requires n <= |segs|
    ensures p in Grown(t, segs, n) <==> p in t || (|p| <= n && Through(segs, p))
    ensures p in t ==> Grown(t, segs, n)[p] == t[p]
    ensures p !in t && |p| <= n && Through(segs, p) ==>
              Grown(t, segs, n)[p] == Entry(NameAt(segs, |p|), false, map[])
  {
    if n > 0 { GrownAt(t, segs, n - 1, p); }
    if Through(segs, p) && |p| == n { assert p == Keys(segs)[..n]; }
  }

  lemma ThroughSelf(segs: seq<Segment>)
    ensures Through(segs, Keys(segs))
  {
    assert Keys(segs)[..|segs|] == Keys(segs);
  }

  /** The table after a successful registration: one more (position, method) pair. */
  ghost function Added(t: Table, r: Route): Table {
    var g := Grown(t, r.segs, |r.segs|);
    var p := Keys(r.segs);
    ThroughSelf(r.segs);
    GrownAt(t, r.segs, |r.segs|, p);
    g[p := Entry(g[p].name, g[p].subtree || r.subtree, g[p].handlers[r.verb := r.handler])]
  }

  // ---- what a table holds -------------------------------------------------------------------

  ghost predicate NodesAre(t: Table, rs: set<Route>) {
    forall p :: p in t <==> exists r :: r in rs && Through(r.segs, p)
  }

  ghost predicate NamesAre(t: Table, rs: set<Route>) {
    forall r, p {:trigger Through(r.segs, p)} | r in rs && p in t && Through(r.segs, p) ::
      t[p].name == NameAt(r.segs, |p|)
  }

  ghost predicate Stored(t: Table, r: Route) {
    && Keys(r.segs) in t
    && r.verb in t[Keys(r.segs)].handlers
    && t[Keys(r.segs)].handlers[r.verb] == r.handler
    && t[Keys(r.segs)].subtree == r.subtree
  }

  ghost predicate Owns(r: Route, p: Path, verb: string) {
    Keys(r.segs) == p && r.verb == verb
  }

  ghost predicate HandlersAre(t: Table, rs: set<Route>) {
    && (forall r {:trigger Stored(t, r)} | r in rs :: Stored(t, r))
    && (forall p, verb | p in t && verb in t[p].handlers :: exists r :: r in rs && Owns(r, p, verb))
    && (forall p | p in t && t[p].handlers == map[] :: !t[p].subtree)
  }

  /** The table holds these routes and nothing else. */
  ghost predicate Represents(t: Table, rs: set<Route>) {
    NodesAre(t, rs) && NamesAre(t, rs) && HandlersAre(t, rs)
  }

  /** The set of routes determines the table. */
  lemma TableDetermined(t: Table, u: Table, rs: set<Route>)
    requires Represents(t, rs) && Represents(u, rs)
    ensures t == u
  {
    assert t.Keys == u.Keys by {
      forall p ensures p in t <==> p in u {}
    }
    forall p | p in t ensures t[p] == u[p] {
      var r :| r in rs && Through(r.segs, p);
      assert t[p].name == u[p].name;
      forall verb ensures verb in t[p].handlers <==> verb in u[p].handlers {
        HandlerTransfers(t, u, rs, p, verb);
        HandlerTransfers(u, t, rs, p, verb);
      }
      forall verb | verb in t[p].handlers ensures t[p].handlers[verb] == u[p].handlers[verb] {
        HandlerTransfers(t, u, rs, p, verb);
      }
      assert t[p].handlers == u[p].handlers;
      if verb :| verb in t[p].handlers {
        var s :| s in rs && Owns(s, p, verb);
        assert Stored(t, s) && Stored(u, s);
      } else {
        assert t[p].handlers == map[];
      }
    }
  }

  lemma HandlerTransfers(t: Table, u: Table, rs: set<Route>, p: Path, verb: string)
    requires Represents(t, rs) && Represents(u, rs) && p in t && p in u
    ensures verb in t[p].handlers ==> verb in u[p].handlers && t[p].handlers[verb] == u[p].handlers[verb]
  {
    if verb in t[p].handlers {
      var r :| r in rs && Owns(r, p, verb);
      assert Stored(t, r) && Stored(u, r);
    }
  }

  // ---- which registrations fit together -----------------------------------------------------

  /** Two patterns give every position they share the same name. */
  ghost predicate SameNames(a: seq<Segment>, b: seq<Segment>) {
    forall p | Through(a, p) && Through(b, p) :: NameAt(a, |p|) == NameAt(b, |p|)
  }

  /** Two routes can live in one table: shared positions agree on names, and at the same position
      the methods differ and both routes are exact or both are subtrees. */
  ghost predicate Compatible(a: Route, b: Route) {
    && SameNames(a.segs, b.segs)
    && (Keys(a.segs) == Keys(b.segs) ==> a.verb != b.verb && a.subtree == b.subtree)
  }

  ghost predicate PairwiseCompatible(rs: seq<Route>) {
    forall i, j | 0 <= i < j < |rs| :: Compatible(rs[i], rs[j])
  }

  lemma NamesAgreeIff(t: Table, rs: set<Route>, r: Route)
    requires Represents(t, rs)
    ensures NamesAgree(t, r.segs) <==> forall s | s in rs :: SameNames(s.segs, r.segs)
  {
    if NamesAgree(t, r.segs) {
      forall s, p | s in rs && Through(s.segs, p) && Through(r.segs, p)
        ensures NameAt(s.segs, |p|) == NameAt(r.segs, |p|)
      {
        assert p == Keys(r.segs)[..|p|] && p in t;
      }
    }
    if forall s | s in rs :: SameNames(s.segs, r.segs) {
      forall i | 0 <= i <= |r.segs| && Keys(r.segs)[..i] in t
        ensures t[Keys(r.segs)[..i]].name == NameAt(r.segs, i)
      {
        var p := Keys(r.segs)[..i];
        var s :| s in rs && Through(s.segs, p);
        assert Through(r.segs, p);
      }
    }
  }

  /** A table accepts a route exactly when the route is compatible with every route it holds. */
  lemma AcceptsIff(t: Table, rs: set<Route>, r: Route)
    requires Represents(t, rs)
    ensures Accepts(t, r) <==> forall s | s in rs :: Compatible(s, r)
  {
    NamesAgreeIff(t, rs, r);
    var p := Keys(r.segs);
    if Accepts(t, r) {
      forall s | s in rs ensures Compatible(s, r) {
        assert Stored(t, s);
      }
    }
    if forall s | s in rs :: Compatible(s, r) {
      assert forall s | s in rs :: !Owns(s, p, r.verb);
      if p in t && t[p].handlers != map[] {
        var verb :| verb in t[p].handlers;
        var s :| s in rs && Owns(s, p, verb);
        assert Stored(t, s) && Compatible(s, r);
      }
    }
  }

  lemma AddedAt(t: Table, r: Route, p: Path)
    ensures p in Added(t, r) <==> p in t || Through(r.segs, p)
    ensures p in t && p != Keys(r.segs) ==> Added(t, r)[p] == t[p]
    ensures p !in t && Through(r.segs, p) && p != Keys(r.segs) ==>
              Added(t, r)[p] == Entry(NameAt(r.segs, |p|), false, map[])
    ensures Keys(r.segs) in Added(t, r)
    ensures var e := Added(t, r)[Keys(r.segs)];
            if Keys(r.segs) in t then
              var o := t[Keys(r.segs)];
              e == Entry(o.name, o.subtree || r.subtree, o.handlers[r.verb := r.handler])
            else
              e == Entry(NameAt(r.segs, |r.segs|), r.subtree, map[r.verb := r.handler])
  {
    GrownAt(t, r.segs, |r.segs|, p);
    GrownAt(t, r.segs, |r.segs|, Keys(r.segs));
    ThroughSelf(r.segs);
  }

  /** An accepted registration adds its route to what the table holds, and nothing else. */
  lemma AddedRepresents(t: Table, rs: set<Route>, r: Route)
    requires Represents(t, rs) && Accepts(t, r)
    ensures Represents(Added(t, r), rs + {r})
  {
    var u := Added(t, r);
    var k := Keys(r.segs);
    ThroughSelf(r.segs);
    AddedAt(t, r, k);
    assert NodesAre(u, rs + {r}) by {
      forall p ensures p in u <==> exists s :: s in rs + {r} && Through(s.segs, p) {
        AddedAt(t, r, p);
        if Through(r.segs, p) { assert r in rs + {r}; }
        if p in t {
          var s :| s in rs && Through(s.segs, p);
          assert s in rs + {r};
        }
      }
    }
    assert NamesAre(u, rs + {r}) by {
      forall s, p | s in rs + {r} && p in u && Through(s.segs, p) ensures u[p].name == NameAt(s.segs, |p|) {
        AddedAt(t, r, p);
        if p in t && s == r { assert p == Keys(r.segs)[..|p|]; }
        if p !in t { assert s == r; }
      }
    }
    AddedHandlers(t, rs, r);
  }

  lemma AddedHandlers(t: Table, rs: set<Route>, r: Route)
    requires Represents(t, rs) && Accepts(t, r)
    ensures HandlersAre(Added(t, r), rs + {r})
  {
    var u := Added(t, r);
    var k := Keys(r.segs);
    AddedAt(t, r, k);
    forall s | s in rs + {r} ensures Stored(u, s) {
      AddedAt(t, r, Keys(s.segs));
      if s in rs { assert Stored(t, s); }
    }
    forall p, verb | p in u && verb in u[p].handlers ensures exists s :: s in rs + {r} && Owns(s, p, verb) {
      AddedAt(t, r, p);
      if p == k && verb == r.verb {
        assert Owns(r, p, verb);
      } else {
        assert p in t && verb in t[p].handlers;
        var s :| s in rs && Owns(s, p, verb);
        assert s in rs + {r};
      }
    }
    forall p | p in u && u[p].handlers == map[] ensures !u[p].subtree {
      AddedAt(t, r, p);
    }
  }

  // ---- registration lists -------------------------------------------------------------------

  /** The outcome of registering a list in order, starting from the empty router and stopping at
      the first error. */
  ghost function RegisterAll(rs: seq<Route>): Option<Table> {
    if rs == [] then Some(map[])
    else
      match RegisterAll(rs[..|rs| - 1])
      case None => None
      case Some(t) => if Accepts(t, rs[|rs| - 1]) then Some(Added(t, rs[|rs| - 1])) else None
  }

  ghost function SetOf(rs: seq<Route>): set<Route> {
    set r | r in rs
  }

  lemma CompatibleSnoc(front: seq<Route>, last: Route)
    ensures PairwiseCompatible(front + [last]) <==>
            PairwiseCompatible(front) && forall s | s in SetOf(front) :: Compatible(s, last)
  {
    var rs := front + [last];
    if PairwiseCompatible(rs) {
      forall i, j | 0 <= i < j < |front| ensures Compatible(front[i], front[j]) {
        assert Compatible(rs[i], rs[j]);
      }
      forall s | s in SetOf(front) ensures Compatible(s, last) {
        var i :| 0 <= i < |front| && front[i] == s;
        assert Compatible(rs[i], rs[|front|]);
      }
    }
    if PairwiseCompatible(front) && forall s | s in SetOf(front) :: Compatible(s, last) {
      forall i, j | 0 <= i < j < |rs| ensures Compatible(rs[i], rs[j]) {
        assert rs[i] == front[i] && front[i] in SetOf(front);
        assert j < |front| ==> rs[j] == front[j];
      }
    }
  }

  /** A list registers without error exactly when its routes are pairwise compatible, and the
      table then holds exactly those routes. */
  lemma {:induction false} RegistersIffCompatible(rs: seq<Route>)
    ensures RegisterAll(rs).Some? <==> PairwiseCompatible(rs)
    ensures RegisterAll(rs).Some? ==> Represents(RegisterAll(rs).value, SetOf(rs))
  {
    if rs != [] {
      var front, last := rs[..|rs| - 1], rs[|rs| - 1];
      assert rs == front + [last];
      assert SetOf(rs) == SetOf(front) + {last};
      RegistersIffCompatible(front);
      CompatibleSnoc(front, last);
      if RegisterAll(front).Some? {
        var t := RegisterAll(front).value;
        AcceptsIff(t, SetOf(front), last);
        if Accepts(t, last) {
          AddedRepresents(t, SetOf(front), last);
        }
      }
    }
  }

  lemma CompatibleSymmetric(a: Route, b: Route)
    ensures Compatible(a, b) == Compatible(b, a)
  {}

  lemma Occurs(rs: seq<Route>, r: Route) returns (i: nat)
    requires r in multiset(rs)
    ensures i < |rs| && rs[i] == r
  {
    i :| 0 <= i < |rs| && rs[i] == r;
  }

  lemma {:induction false} OccursTwice(rs: seq<Route>, i: nat, j: nat)
    requires i < j < |rs| && rs[i] == rs[j]
    ensures multiset(rs)[rs[i]] >= 2
  {
    assert rs == rs[..j] + [rs[j]] + rs[j + 1..];
    assert rs[..j][i] == rs[i] && rs[i] in multiset(rs[..j]);
  }

  lemma {:induction false} MultiplicityPositions(rs: seq<Route>, r: Route) returns (i: nat, j: nat)
    requires multiset(rs)[r] >= 2
    ensures i < j < |rs| && rs[i] == r == rs[j]
  {
    i :| 0 <= i < |rs| && rs[i] == r;
    assert rs == rs[..i] + [r] + rs[i + 1..];
    assert multiset(rs) == multiset(rs[..i]) + multiset{r} + multiset(rs[i + 1..]);
    if r in multiset(rs[..i]) {
      var k :| 0 <= k < i && rs[..i][k] == r;
      i, j := k, i;
    } else {
      assert r in multiset(rs[i + 1..]);
      var k :| 0 <= k < |rs[i + 1..]| && rs[i + 1..][k] == r;
      j := i + 1 + k;
    }
  }

  lemma CompatiblePermutes(rs: seq<Route>, ss: seq<Route>)
    requires multiset(rs) == multiset(ss) && PairwiseCompatible(rs)
    ensures PairwiseCompatible(ss)
  {
    forall i, j | 0 <= i < j < |ss| ensures Compatible(ss[i], ss[j]) {
      assert ss[i] in multiset(ss) && ss[j] in multiset(ss);
      if ss[i] == ss[j] {
        OccursTwice(ss, i, j);
        var a, b := MultiplicityPositions(rs, ss[i]);
        assert Compatible(rs[a], rs[b]);
      } else {
        var a := Occurs(rs, ss[i]);
        var b := Occurs(rs, ss[j]);
        assert if a < b then Compatible(rs[a], rs[b]) else Compatible(rs[b], rs[a]);
        CompatibleSymmetric(rs[a], rs[b]);
      }
    }
  }

  /** Registration order cannot be observed: a permuted list has the same outcome, table included. */
  lemma OrderIndependent(rs: seq<Route>, ss: seq<Route>)
    requires multiset(rs) == multiset(ss)
    ensures RegisterAll(rs) == RegisterAll(ss)
  {
    RegistersIffCompatible(rs);
    RegistersIffCompatible(ss);
    if PairwiseCompatible(rs) {
      CompatiblePermutes(rs, ss);
      assert SetOf(rs) == SetOf(ss) by {
        forall r ensures r in rs <==> r in ss {
          assert r in rs <==> r in multiset(rs);
          assert r in ss <==> r in multiset(ss);
        }
      }
      TableDetermined(RegisterAll(rs).value, RegisterAll(ss).value, SetOf(rs));
    } else if PairwiseCompatible(ss) {
      CompatiblePermutes(ss, rs);
    }
  }

  // ---- shape of every reachable table -------------------------------------------------------

  ghost predicate WildcardLast(segs: seq<Segment>) {
    forall i | 0 <= i < |segs| - 1 :: !segs[i].wildcard
  }

  ghost predicate HasParent(t: Table, p: Path) {
    p != [] ==> p[..|p| - 1] in t
  }

  ghost predicate HasChild(t: Table, p: Path) {
    exists k: Key :: p + [k] in t
  }

  /** Shape kept by every registration: closed under parents, nothing below a wildcard, only
      parameter and wildcard nodes are named, every leaf carries a handler, and a node without
      handlers is no subtree. */
  ghost predicate WellFormed(t: Table) {
    && (t != map[] ==> [] in t)
    && (forall p {:trigger HasParent(t, p)} | p in t :: HasParent(t, p))
    && (forall p | p in t && 2 <= |p| :: p[|p| - 2] != Wild)
    && (forall p: Path | p in t && (p == [] || p[|p| - 1].Lit?) :: t[p].name == "")
    && (forall p {:trigger HasChild(t, p)} | p in t && t[p].handlers == map[] :: HasChild(t, p))
    && (forall p | p in t && t[p].subtree :: t[p].handlers != map[])
  }

  lemma ParentStays(t: Table, r: Route, p: Path)
    requires WellFormed(t) && p in Added(t, r)
    ensures HasParent(Added(t, r), p)
  {
    if p != [] {
      AddedAt(t, r, p);
      AddedAt(t, r, p[..|p| - 1]);
      assert p in t ==> HasParent(t, p);
      if Through(r.segs, p) { ThroughPrefix(r.segs, p, |p| - 1); }
    }
  }

  lemma ChildOnBranch(t: Table, r: Route, p: Path)
    requires Through(r.segs, p) && p != Keys(r.segs)
    ensures HasChild(Added(t, r), p)
  {
    var n := |p|;
    assert Keys(r.segs)[..|r.segs|] == Keys(r.segs);
    var q := Keys(r.segs)[..n + 1];
    assert q == p + [KeyOf(r.segs[n])];
    AddedAt(t, r, q);
  }

  /** An accepted route whose wildcard, if any, comes last keeps the shape. */
  lemma AddedWellFormed(t: Table, r: Route)
    requires WellFormed(t) && Accepts(t, r) && WildcardLast(r.segs)
    ensures WellFormed(Added(t, r))
  {
    var u := Added(t, r);
    AddedAt(t, r, []);
    assert Through(r.segs, []);
    forall p | p in u ensures HasParent(u, p) {
      ParentStays(t, r, p);
    }
    forall p | p in u && 2 <= |p| ensures p[|p| - 2] != Wild {
      AddedAt(t, r, p);
      if p !in t { assert p[|p| - 2] == Keys(r.segs)[|p| - 2]; }
    }
    forall p: Path | p in u && (p == [] || p[|p| - 1].Lit?) ensures u[p].name == "" {
      AddedAt(t, r, p);
      if p !in t && p != [] { assert p[|p| - 1] == Keys(r.segs)[|p| - 1]; }
    }
    AddedAt(t, r, Keys(r.segs));
    assert r.verb in u[Keys(r.segs)].handlers;
    forall p | p in u && u[p].subtree ensures u[p].handlers != map[] {
      AddedAt(t, r, p);
    }
    forall p | p in u && u[p].handlers == map[] ensures HasChild(u, p) {
      AddedAt(t, r, p);
      if p in t {
        assert HasChild(t, p);
        var k :| p + [k] in t;
        AddedAt(t, r, p + [k]);
      } else {
        ChildOnBranch(t, r, p);
      }
    }
  }

  lemma EmptyWellFormed()
    ensures WellFormed(map[])
  {}

  /** Every wildcard node carries a handler. */
  lemma WildcardsHandled(t: Table, p: Path)
    requires WellFormed(t) && p in t && p != [] && p[|p| - 1] == Wild
    ensures t[p].handlers != map[]
  {
    assert t[p].handlers == map[] ==> HasChild(t, p);
    forall k: Key ensures p + [k] !in t {
      assert (p + [k])[|p| - 1] == Wild;
    }
  }

  lemma PrefixesPresent(t: Table, p: Path, i: nat)
    requires WellFormed(t) && p in t && i <= |p|
    ensures p[..i] in t
    decreases |p|
  {
    if i < |p| {
      assert HasParent(t, p);
      PrefixesPresent(t, p[..|p| - 1], i);
      assert p[..|p| - 1][..i] == p[..i];
    } else {
      assert p[..i] == p;
    }
  }

  ghost predicate HasEntry(t: Table, p: Path, verb: string) {
    p in t && verb in t[p].handlers
  }

  /** A successful registration adds exactly one entry; every other entry keeps its handler and its
      node keeps its name and kind. */
  lemma AddsOneEntry(t: Table, r: Route, p: Path, verb: string)
    requires WellFormed(t) && Accepts(t, r)
    ensures HasEntry(Added(t, r), p, verb) <==> HasEntry(t, p, verb) || Owns(r, p, verb)
    ensures Owns(r, p, verb) ==> !HasEntry(t, p, verb) && Added(t, r)[p].handlers[verb] == r.handler
    ensures HasEntry(t, p, verb) ==>
              && Added(t, r)[p].handlers[verb] == t[p].handlers[verb]
              && Added(t, r)[p].name == t[p].name
              && Added(t, r)[p].subtree == t[p].subtree
  {
    AddedAt(t, r, p);
  }

  // ---- static prefixes ----------------------------------------------------------------------

  const GET := "GET"
  const HEAD := "HEAD"

  ghost predicate StaticPaired(t: Table) {
    forall p | p in t && t[p].subtree :: t[p].handlers.Keys == {GET, HEAD}
  }

  function StaticRoute(verb: string, segs: seq<Segment>, h: Handler): Route {
    Route(verb, segs, h, true)
  }

  lemma ExactKeepsPaired(t: Table, r: Route)
    requires WellFormed(t) && StaticPaired(t) && Accepts(t, r) && !r.subtree
    ensures StaticPaired(Added(t, r))
  {
    forall p | p in Added(t, r) && Added(t, r)[p].subtree ensures Added(t, r)[p].handlers.Keys == {GET, HEAD} {
      AddedAt(t, r, p);
      AddedAt(t, r, Keys(r.segs));
    }
  }

  lemma StaticSlotFree(t: Table, segs: seq<Segment>, h: Handler)
    requires WellFormed(t) && StaticPaired(t) && Accepts(t, StaticRoute(GET, segs, h))
    ensures Keys(segs) in t ==> t[Keys(segs)].handlers == map[]
  {
    assert GET in {GET, HEAD};
  }

  lemma AddedNamesAgree(t: Table, r: Route)
    requires Accepts(t, r)
    ensures NamesAgree(Added(t, r), r.segs)
  {
    var k := Keys(r.segs);
    forall i | 0 <= i <= |r.segs| && k[..i] in Added(t, r) ensures Added(t, r)[k[..i]].name == NameAt(r.segs, i) {
      AddedAt(t, r, k[..i]);
      assert k[..|r.segs|] == k;
    }
  }

  /** Where the table accepts the GET half of a static prefix it also accepts the HEAD half, so a
      static registration stores both entries or, when GET is refused, neither. */
  lemma StaticBothOrNeither(t: Table, segs: seq<Segment>, h: Handler)
    requires WellFormed(t) && StaticPaired(t) && Accepts(t, StaticRoute(GET, segs, h))
    ensures Accepts(Added(t, StaticRoute(GET, segs, h)), StaticRoute(HEAD, segs, h))
    ensures StaticPaired(Added(Added(t, StaticRoute(GET, segs, h)), StaticRoute(HEAD, segs, h)))
  {
    var g, e := StaticRoute(GET, segs, h), StaticRoute(HEAD, segs, h);
    var k := Keys(segs);
    var u := Added(t, g);
    AddedAt(t, g, k);
    StaticSlotFree(t, segs, h);
    AddedNamesAgree(t, g);
    assert u[k].handlers == map[GET := h] && u[k].subtree;
    var v := Added(u, e);
    AddedAt(u, e, k);
    assert v[k].handlers.Keys == {GET, HEAD};
    forall p | p in v && v[p].subtree ensures v[p].handlers.Keys == {GET, HEAD} {
      AddedAt(t, g, p);
      AddedAt(u, e, p);
    }
  }
}
