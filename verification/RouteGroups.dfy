/** Route groups: nested groups collect routes with the prefix and the middleware they have at that moment, and
    flattening lists them all. A history of calls fixes what every route must be. */
module RouteGroups {

  type Handler = nat

  /** A route as registered: its full path, its middleware from outermost to innermost, its group's prefix. */
  datatype Route = Route(verb: string, path: string, handler: Handler, middleware: seq<Handler>, group: string)

  /** Groups are numbered in the order they are made; the root is number 0. */
  datatype Action =
    | Register(g: nat, verb: string, path: string, handler: Handler, mw: seq<Handler>)
    | Use(g: nat, mw: seq<Handler>)
    | SubGroup(g: nat, relative: string)

  // ---- the groups as values -----------------------------------------------------------------

  datatype Group = Group(prefix: string, routes: seq<Route>, kids: seq<nat>, middleware: seq<Handler>)

  /** The route a call registers in a group as it is. */
  function RouteIn(g: Group, a: Action): Route
    requires a.Register?
  {
    Route(a.verb, g.prefix + a.path, a.handler, g.middleware + a.mw, g.prefix)
  }

  function Apply(gs: seq<Group>, a: Action): seq<Group>
    requires a.g < |gs|
  {
    var g := gs[a.g];
    match a
    case Register(_, _, _, _, _) => gs[a.g := g.(routes := g.routes + [RouteIn(g, a)])]
    case Use(_, mw) => gs[a.g := g.(middleware := g.middleware + mw)]
    case SubGroup(_, relative) =>
      gs[a.g := g.(kids := g.kids + [|gs|])] + [Group(g.prefix + relative, [], [], g.middleware)]
  }

  function GroupCount(h: seq<Action>): nat {
    if h == [] then 1 else GroupCount(h[..|h| - 1]) + if h[|h| - 1].SubGroup? then 1 else 0
  }

  /** Every call is made on a group that exists by then. */
  predicate Callable(h: seq<Action>) {
    h == [] || (Callable(h[..|h| - 1]) && h[|h| - 1].g < GroupCount(h[..|h| - 1]))
  }

  function Built(root: string, h: seq<Action>): (gs: seq<Group>)
    requires Callable(h)
    ensures |gs| == GroupCount(h)
  {
    if h == [] then [Group(root, [], [], [])] else Apply(Built(root, h[..|h| - 1]), h[|h| - 1])
  }

  /** Subgroups are made after their parents. */
  ghost predicate Tree(gs: seq<Group>) {
    forall g, k | 0 <= g < |gs| && 0 <= k < |gs[g].kids| :: g < gs[g].kids[k] < |gs|
  }

  ghost predicate Under(gs: seq<Group>, ks: seq<nat>, g: nat) {
    forall k | 0 <= k < |ks| :: g < ks[k] < |gs|
  }

  /** flatten: a group's own routes, then those of its subgroups in the order they were made. */
  ghost function Flat(gs: seq<Group>, g: nat): seq<Route>
    requires Tree(gs) && g < |gs|
    decreases |gs| - g, |gs[g].kids| + 1
  {
    gs[g].routes + FlatAll(gs, gs[g].kids, g)
  }

  ghost function FlatAll(gs: seq<Group>, ks: seq<nat>, g: nat): seq<Route>
    requires Tree(gs) && g < |gs| && Under(gs, ks, g)
    decreases |gs| - g, |ks|
  {
    if ks == [] then [] else FlatAll(gs, ks[..|ks| - 1], g) + Flat(gs, ks[|ks| - 1])
  }

  // ---- what the history promises ------------------------------------------------------------

  /** The call that made group g. */
  function Born(h: seq<Action>, g: nat): (t: nat)
    requires Callable(h) && 0 < g < GroupCount(h)
    ensures t < |h| && h[t].SubGroup? && GroupCount(h[..t]) == g && Callable(h[..t]) && h[t].g < g
  {
    var n := |h| - 1;
    if h[n].SubGroup? && GroupCount(h[..n]) == g then n
    else
      var t := Born(h[..n], g);
      assert h[..n][..t] == h[..t];
      t
  }

  /** The prefixes from the root to the group, one after the other. */
  function Prefix(root: string, h: seq<Action>, g: nat): string
    requires Callable(h) && g < GroupCount(h)
    decreases |h|
  {
    if g == 0 then root
    else
      var t := Born(h, g);
      Prefix(root, h[..t], h[t].g) + h[t].relative
  }

  /** All middleware added to group g itself, in order. */
  function Uses(h: seq<Action>, g: nat): seq<Handler> {
    if h == [] then []
    else
      var a := h[|h| - 1];
      Uses(h[..|h| - 1], g) + if a.Use? && a.g == g then a.mw else []
  }

  /** A group's middleware: the parent's when the group was made, then the group's own additions. */
  function Inherited(h: seq<Action>, g: nat): seq<Handler>
    requires Callable(h) && g < GroupCount(h)
    decreases |h|
  {
    if g == 0 then Uses(h, 0)
    else
      var t := Born(h, g);
      Inherited(h[..t], h[t].g) + Uses(h[t + 1..], g)
  }

  /** What the last call of a history promises, if it registers a route. */
  function Promised(root: string, h: seq<Action>): Route
    requires Callable(h) && h != [] && h[|h| - 1].Register?
  {
    var past := h[..|h| - 1];
    var a := h[|h| - 1];
    Route(a.verb, Prefix(root, past, a.g) + a.path, a.handler, Inherited(past, a.g) + a.mw, Prefix(root, past, a.g))
  }

  function AllPromised(root: string, h: seq<Action>): seq<Route>
    requires Callable(h)
  {
    if h == [] then []
    else AllPromised(root, h[..|h| - 1]) + if h[|h| - 1].Register? then [Promised(root, h)] else []
  }

  // ---- a group's prefix and middleware ------------------------------------------------------

  /** A call that makes no group leaves all births where they were. */
  lemma BornBefore(h: seq<Action>, g: nat)
    requires Callable(h) && h != [] && 0 < g < GroupCount(h[..|h| - 1])
    ensures Born(h, g) == Born(h[..|h| - 1], g)
  {
  }

  lemma UsesSnoc(h: seq<Action>, t: nat, g: nat)
    requires t < |h|
    ensures Uses(h[t..], g) ==
            Uses(h[t..|h| - 1], g) + if h[|h| - 1].Use? && h[|h| - 1].g == g then h[|h| - 1].mw else []
  {
    assert h[t..][..|h[t..]| - 1] == h[t..|h| - 1];
  }

  lemma PrefixSnoc(root: string, h: seq<Action>, g: nat)
    requires Callable(h) && h != [] && g < GroupCount(h[..|h| - 1])
    ensures Prefix(root, h, g) == Prefix(root, h[..|h| - 1], g)
  {
    if g > 0 {
      BornBefore(h, g);
      var past := h[..|h| - 1];
      var t := Born(past, g);
      assert past[..t] == h[..t] && past[t] == h[t];
    }
  }

  lemma InheritedIs(h: seq<Action>, g: nat, t: nat)
    requires Callable(h) && 0 < g < GroupCount(h) && Born(h, g) == t
    ensures Inherited(h, g) == Inherited(h[..t], h[t].g) + Uses(h[t + 1..], g)
  {
  }

  lemma InheritedSnoc(h: seq<Action>, g: nat)
    requires Callable(h) && h != [] && g < GroupCount(h[..|h| - 1])
    ensures var a := h[|h| - 1];
            Inherited(h, g) == Inherited(h[..|h| - 1], g) + if a.Use? && a.g == g then a.mw else []
  {
    var n := |h| - 1;
    var past := h[..n];
    if g == 0 {
      assert Inherited(h, 0) == Uses(h, 0) && Inherited(past, 0) == Uses(past, 0);
    } else {
      assert g < GroupCount(h) && Callable(past);
      var t := Born(past, g);
      assert t < n && past[t + 1..] == h[t + 1..n] && past[t] == h[t];
      assert past[..t] == h[..t];
      hide Inherited, Uses, Callable, GroupCount, Born;
      BornBefore(h, g);
      InheritedIs(h, g, t);
      InheritedIs(past, g, t);
      UsesSnoc(h, t + 1, g);
      var inherited := Inherited(h[..t], h[t].g);
      AppendAssoc(inherited, Uses(h[t + 1..n], g), if h[n].Use? && h[n].g == g then h[n].mw else []);
    }
  }

  lemma AppendAssoc<T>(a: seq<T>, b: seq<T>, c: seq<T>)
    ensures (a + b) + c == a + (b + c)
  {
  }

  lemma NewGroup(root: string, h: seq<Action>)
    requires Callable(h) && h != [] && h[|h| - 1].SubGroup?
    ensures var past := h[..|h| - 1];
            var a := h[|h| - 1];
            var g := GroupCount(past);
            && Prefix(root, h, g) == Prefix(root, past, a.g) + a.relative
            && Inherited(h, g) == Inherited(past, a.g)
  {
    var n := |h| - 1;
    assert Born(h, GroupCount(h[..n])) == n;
    assert h[n + 1..] == [];
  }

  /** A group has the prefix and the middleware its history gives it. */
  lemma {:induction false} BuiltIs(root: string, h: seq<Action>, g: nat)
    requires Callable(h) && g < GroupCount(h)
    ensures Built(root, h)[g].prefix == Prefix(root, h, g)
    ensures Built(root, h)[g].middleware == Inherited(h, g)
    decreases |h|
  {
    if h != [] {
      var past := h[..|h| - 1];
      var a := h[|h| - 1];
      hide Prefix, Inherited, Uses, Born;
      if g < GroupCount(past) {
        BuiltIs(root, past, g);
        PrefixSnoc(root, h, g);
        InheritedSnoc(h, g);
      } else {
        BuiltIs(root, past, a.g);
        NewGroup(root, h);
      }
    }
  }

  // ---- every group hangs in the tree exactly once -------------------------------------------

  /** How often group x is met when flattening from g. */
  ghost function Met(gs: seq<Group>, g: nat, x: nat): nat
    requires Tree(gs) && g < |gs|
    decreases |gs| - g, |gs[g].kids| + 1
  {
    (if g == x then 1 else 0) + MetAll(gs, gs[g].kids, g, x)
  }

  ghost function MetAll(gs: seq<Group>, ks: seq<nat>, g: nat, x: nat): nat
    requires Tree(gs) && g < |gs| && Under(gs, ks, g)
    decreases |gs| - g, |ks|
  {
    if ks == [] then 0 else MetAll(gs, ks[..|ks| - 1], g, x) + Met(gs, ks[|ks| - 1], x)
  }

  function Copies<T(==)>(x: T, n: nat): multiset<T> {
    multiset{}[x := n]
  }

  /** The two lists of groups have the same shape; only x differs, by one more route. */
  ghost predicate OneMore(gs: seq<Group>, gs': seq<Group>, x: nat, r: Route) {
    && |gs'| == |gs| && x < |gs|
    && (forall g | 0 <= g < |gs| :: gs'[g].kids == gs[g].kids)
    && (forall g | 0 <= g < |gs| && g != x :: gs'[g].routes == gs[g].routes)
    && gs'[x].routes == gs[x].routes + [r]
  }

  lemma {:induction false} FlatOneMore(gs: seq<Group>, gs': seq<Group>, x: nat, r: Route, g: nat)
    requires Tree(gs) && Tree(gs') && OneMore(gs, gs', x, r) && g < |gs|
    ensures multiset(Flat(gs', g)) == multiset(Flat(gs, g)) + Copies(r, Met(gs, g, x))
    decreases |gs| - g, |gs[g].kids| + 1
  {
    FlatAllOneMore(gs, gs', x, r, gs[g].kids, g);
  }

  lemma {:induction false} FlatAllOneMore(gs: seq<Group>, gs': seq<Group>, x: nat, r: Route, ks: seq<nat>, g: nat)
    requires Tree(gs) && Tree(gs') && OneMore(gs, gs', x, r) && g < |gs| && Under(gs, ks, g)
    ensures multiset(FlatAll(gs', ks, g)) == multiset(FlatAll(gs, ks, g)) + Copies(r, MetAll(gs, ks, g, x))
    decreases |gs| - g, |ks|
  {
    hide Flat, FlatAll, Met, MetAll, Copies, OneMore, Tree;
    SameCount(gs, gs', x, r);
    if ks != [] {
      var n := |ks| - 1;
      UnfoldAll(gs, ks, g, x);
      UnfoldAll(gs', ks, g, x);
      FlatAllOneMore(gs, gs', x, r, ks[..n], g);
      FlatOneMore(gs, gs', x, r, ks[n]);
      MoreCopies(FlatAll(gs, ks[..n], g), Flat(gs, ks[n]), FlatAll(gs', ks[..n], g), Flat(gs', ks[n]),
                 r, MetAll(gs, ks[..n], g, x), Met(gs, ks[n], x));
    } else {
      UnfoldNone(gs, g, x);
      UnfoldNone(gs', g, x);
      NoCopies(r);
    }
  }

  lemma SameCount(gs: seq<Group>, gs': seq<Group>, x: nat, r: Route)
    requires OneMore(gs, gs', x, r)
    ensures |gs'| == |gs|
  {
  }

  lemma NoCopies<T>(x: T)
    ensures Copies(x, 0) == multiset{}
  {
  }

  lemma UnfoldNone(gs: seq<Group>, g: nat, x: nat)
    requires Tree(gs) && g < |gs|
    ensures FlatAll(gs, [], g) == [] && MetAll(gs, [], g, x) == 0
  {
  }

  lemma UnfoldAll(gs: seq<Group>, ks: seq<nat>, g: nat, x: nat)
    requires Tree(gs) && g < |gs| && Under(gs, ks, g) && ks != []
    ensures var n := |ks| - 1;
            && FlatAll(gs, ks, g) == FlatAll(gs, ks[..n], g) + Flat(gs, ks[n])
            && MetAll(gs, ks, g, x) == MetAll(gs, ks[..n], g, x) + Met(gs, ks[n], x)
  {
  }

  lemma MoreCopies<T>(a: seq<T>, b: seq<T>, a': seq<T>, b': seq<T>, x: T, m: nat, n: nat)
    requires multiset(a') == multiset(a) + Copies(x, m) && multiset(b') == multiset(b) + Copies(x, n)
    ensures multiset(a' + b') == multiset(a + b) + Copies(x, m + n)
  {
    assert multiset(a' + b') == multiset(a') + multiset(b') && multiset(a + b) == multiset(a) + multiset(b);
    CopiesAdd(x, m, n);
  }

  lemma CopiesAdd<T>(x: T, m: nat, n: nat)
    ensures Copies(x, m + n) == Copies(x, m) + Copies(x, n)
  {
  }

  /** The two lists of groups have the same shape. */
  ghost predicate SameShape(gs: seq<Group>, gs': seq<Group>) {
    |gs'| == |gs| && forall g | 0 <= g < |gs| :: gs'[g].kids == gs[g].kids
  }

  lemma {:induction false} MetSame(gs: seq<Group>, gs': seq<Group>, g: nat, y: nat)
    requires Tree(gs) && Tree(gs') && SameShape(gs, gs') && g < |gs|
    ensures Met(gs', g, y) == Met(gs, g, y)
    decreases |gs| - g, |gs[g].kids| + 1
  {
    MetAllSame(gs, gs', gs[g].kids, g, y);
  }

  lemma {:induction false} MetAllSame(gs: seq<Group>, gs': seq<Group>, ks: seq<nat>, g: nat, y: nat)
    requires Tree(gs) && Tree(gs') && SameShape(gs, gs') && g < |gs| && Under(gs, ks, g)
    ensures MetAll(gs', ks, g, y) == MetAll(gs, ks, g, y)
    decreases |gs| - g, |ks|
  {
    if ks != [] {
      var n := |ks| - 1;
      MetAllSame(gs, gs', ks[..n], g, y);
      MetSame(gs, gs', ks[n], y);
    }
  }

  /** The two lists of groups differ in middleware at most. */
  ghost predicate SameRoutes(gs: seq<Group>, gs': seq<Group>) {
    SameShape(gs, gs') && forall g | 0 <= g < |gs| :: gs'[g].routes == gs[g].routes
  }

  lemma {:induction false} FlatSame(gs: seq<Group>, gs': seq<Group>, g: nat)
    requires Tree(gs) && Tree(gs') && SameRoutes(gs, gs') && g < |gs|
    ensures Flat(gs', g) == Flat(gs, g)
    decreases |gs| - g, |gs[g].kids| + 1
  {
    FlatAllSame(gs, gs', gs[g].kids, g);
  }

  lemma {:induction false} FlatAllSame(gs: seq<Group>, gs': seq<Group>, ks: seq<nat>, g: nat)
    requires Tree(gs) && Tree(gs') && SameRoutes(gs, gs') && g < |gs| && Under(gs, ks, g)
    ensures FlatAll(gs', ks, g) == FlatAll(gs, ks, g)
    decreases |gs| - g, |ks|
  {
    if ks != [] {
      var n := |ks| - 1;
      FlatAllSame(gs, gs', ks[..n], g);
      FlatSame(gs, gs', ks[n]);
    }
  }

  /** A new group without routes hangs below group p. */
  ghost predicate NewBelow(gs: seq<Group>, gs': seq<Group>, p: nat) {
    && |gs'| == |gs| + 1 && p < |gs|
    && (forall g | 0 <= g < |gs| :: gs'[g].routes == gs[g].routes)
    && (forall g | 0 <= g < |gs| && g != p :: gs'[g].kids == gs[g].kids)
    && gs'[p].kids == gs[p].kids + [|gs|]
    && gs'[|gs|].routes == [] && gs'[|gs|].kids == []
  }

  lemma LeafIs(gs: seq<Group>, g: nat, y: nat)
    requires Tree(gs) && g < |gs| && gs[g].routes == [] && gs[g].kids == []
    ensures Flat(gs, g) == [] && Met(gs, g, y) == if y == g then 1 else 0
  {
    assert FlatAll(gs, [], g) == [] && MetAll(gs, [], g, y) == 0;
  }

  /** Below a list of subgroups with one more at its end. */
  lemma LastKid(gs: seq<Group>, ks: seq<nat>, k: nat, g: nat, y: nat)
    requires Tree(gs) && g < k < |gs| && Under(gs, ks + [k], g) && Under(gs, ks, g)
    ensures FlatAll(gs, ks + [k], g) == FlatAll(gs, ks, g) + Flat(gs, k)
    ensures MetAll(gs, ks + [k], g, y) == MetAll(gs, ks, g, y) + Met(gs, k, y)
  {
    assert (ks + [k])[..|ks|] == ks;
  }

  lemma {:induction false} FlatNewBelow(gs: seq<Group>, gs': seq<Group>, p: nat, g: nat, y: nat)
    requires Tree(gs) && Tree(gs') && NewBelow(gs, gs', p) && g < |gs| && y < |gs|
    ensures Flat(gs', g) == Flat(gs, g)
    ensures Met(gs', g, y) == Met(gs, g, y) && Met(gs', g, |gs|) == Met(gs, g, p)
    decreases |gs| - g, |gs[g].kids| + 1
  {
    FlatAllNewBelow(gs, gs', p, gs[g].kids, g, y);
    assert Under(gs', gs[g].kids, g) && Under(gs', gs'[g].kids, g);
    if g == p {
      LeafIs(gs', |gs|, y);
      LeafIs(gs', |gs|, |gs|);
      LastKid(gs', gs[p].kids, |gs|, p, y);
      LastKid(gs', gs[p].kids, |gs|, p, |gs|);
    }
    hide MetAll, FlatAll;
  }

  lemma {:induction false} FlatAllNewBelow(gs: seq<Group>, gs': seq<Group>, p: nat, ks: seq<nat>, g: nat, y: nat)
    requires Tree(gs) && Tree(gs') && NewBelow(gs, gs', p) && g < |gs| && Under(gs, ks, g) && y < |gs|
    ensures FlatAll(gs', ks, g) == FlatAll(gs, ks, g)
    ensures MetAll(gs', ks, g, y) == MetAll(gs, ks, g, y) && MetAll(gs', ks, g, |gs|) == MetAll(gs, ks, g, p)
    decreases |gs| - g, |ks|
  {
    if ks != [] {
      var n := |ks| - 1;
      FlatAllNewBelow(gs, gs', p, ks[..n], g, y);
      FlatNewBelow(gs, gs', p, ks[n], y);
    }
  }

  // ---- what flatten lists -------------------------------------------------------------------

  ghost predicate Whole(gs: seq<Group>) {
    Tree(gs) && |gs| > 0 && forall g: nat | g < |gs| :: Met(gs, 0, g) == 1
  }

  lemma RegisterWhole(gs: seq<Group>, a: Action)
    requires Whole(gs) && a.g < |gs| && a.Register?
    ensures Whole(Apply(gs, a))
    ensures multiset(Flat(Apply(gs, a), 0)) == multiset(Flat(gs, 0)) + multiset([RouteIn(gs[a.g], a)])
  {
    hide Flat, Met, Apply, OneMore, SameShape, Tree, Copies;
    var gs' := Apply(gs, a);
    var r := RouteIn(gs[a.g], a);
    RegisterShape(gs, a);
    forall g: nat | g < |gs| ensures Met(gs', 0, g) == 1 {
      MetSame(gs, gs', 0, g);
    }
    FlatOneMore(gs, gs', a.g, r, 0);
    OneCopy(r);
  }

  lemma RegisterShape(gs: seq<Group>, a: Action)
    requires Tree(gs) && a.g < |gs| && a.Register?
    ensures var gs' := Apply(gs, a);
            Tree(gs') && OneMore(gs, gs', a.g, RouteIn(gs[a.g], a)) && SameShape(gs, gs') && |gs'| == |gs|
  {
  }

  lemma OneCopy<T>(x: T)
    ensures Copies(x, 1) == multiset([x])
  {
  }

  lemma UseWhole(gs: seq<Group>, a: Action)
    requires Whole(gs) && a.g < |gs| && a.Use?
    ensures Whole(Apply(gs, a)) && Flat(Apply(gs, a), 0) == Flat(gs, 0)
  {
    var gs' := Apply(gs, a);
    assert Tree(gs') && SameRoutes(gs, gs');
    hide Flat, Met, Apply;
    forall g: nat | g < |gs| ensures Met(gs', 0, g) == 1 {
      MetSame(gs, gs', 0, g);
    }
    FlatSame(gs, gs', 0);
  }

  lemma SubGroupBelow(gs: seq<Group>, a: Action)
    requires Tree(gs) && a.g < |gs| && a.SubGroup?
    ensures Tree(Apply(gs, a)) && NewBelow(gs, Apply(gs, a), a.g) && |Apply(gs, a)| == |gs| + 1
  {
    var gs' := Apply(gs, a);
    forall g, k | 0 <= g < |gs'| && 0 <= k < |gs'[g].kids| ensures g < gs'[g].kids[k] < |gs'| {
      if g < |gs| && k < |gs[g].kids| {
        assert gs'[g].kids[k] == gs[g].kids[k];
      }
    }
  }

  lemma SubGroupWhole(gs: seq<Group>, a: Action)
    requires Whole(gs) && a.g < |gs| && a.SubGroup?
    ensures Whole(Apply(gs, a)) && Flat(Apply(gs, a), 0) == Flat(gs, 0)
  {
    hide Flat, Met, Apply, NewBelow, Tree;
    var gs' := Apply(gs, a);
    SubGroupBelow(gs, a);
    forall g: nat | g < |gs| ensures Met(gs', 0, g) == 1 {
      FlatNewBelow(gs, gs', a.g, 0, g);
    }
    FlatNewBelow(gs, gs', a.g, 0, 0);
    assert Met(gs', 0, |gs|) == 1;
  }

  lemma {:induction false} BuiltWhole(root: string, h: seq<Action>)
    requires Callable(h)
    ensures Whole(Built(root, h))
  {
    if h == [] {
      LeafIs([Group(root, [], [], [])], 0, 0);
    } else {
      var gs := Built(root, h[..|h| - 1]);
      var a := h[|h| - 1];
      BuiltWhole(root, h[..|h| - 1]);
      hide Whole, Apply;
      if a.Register? {
        RegisterWhole(gs, a);
      } else if a.Use? {
        UseWhole(gs, a);
      } else {
        SubGroupWhole(gs, a);
      }
    }
  }

  /** What flattening the root lists after a history. */
  ghost function Listed(root: string, h: seq<Action>): seq<Route>
    requires Callable(h)
  {
    BuiltWhole(root, h);
    Flat(Built(root, h), 0)
  }

  lemma ListedStep(root: string, h: seq<Action>)
    requires Callable(h) && h != []
    ensures multiset(Listed(root, h)) ==
            multiset(Listed(root, h[..|h| - 1])) + multiset(if h[|h| - 1].Register? then [Promised(root, h)] else [])
  {
    var past := h[..|h| - 1];
    var a := h[|h| - 1];
    var gs := Built(root, past);
    assert Built(root, h) == Apply(gs, a);
    hide Whole, Flat, Prefix, Inherited, Apply, Built;
    BuiltWhole(root, past);
    BuiltIs(root, past, a.g);
    if a.Register? {
      RegisterWhole(gs, a);
      assert RouteIn(gs[a.g], a) == Promised(root, h);
    } else if a.Use? {
      UseWhole(gs, a);
    } else {
      SubGroupWhole(gs, a);
    }
  }

  /** For every history, flattening the root lists every registered route exactly once, with the path and the
      middleware its own history promised at the moment it was registered. */
  lemma {:induction false} FlattenYields(root: string, h: seq<Action>)
    requires Callable(h)
    ensures multiset(Listed(root, h)) == multiset(AllPromised(root, h))
  {
    if h == [] {
      LeafIs([Group(root, [], [], [])], 0, 0);
    } else {
      hide Listed, Promised;
      FlattenYields(root, h[..|h| - 1]);
      ListedStep(root, h);
    }
  }

  /** The routes registered in group g itself, in order, each as promised at its moment. */
  function PromisedIn(root: string, h: seq<Action>, g: nat): seq<Route>
    requires Callable(h)
  {
    if h == [] then []
    else
      var a := h[|h| - 1];
      PromisedIn(root, h[..|h| - 1], g) + if a.Register? && a.g == g then [Promised(root, h)] else []
  }

  /** A group holds its own routes in the order of their registration. */
  lemma {:induction false} OwnInOrder(root: string, h: seq<Action>, g: nat)
    requires Callable(h) && g < GroupCount(h)
    ensures Built(root, h)[g].routes == PromisedIn(root, h, g)
    decreases |h|
  {
    if h != [] {
      var past, a := h[..|h| - 1], h[|h| - 1];
      hide Prefix, Inherited;
      if g < GroupCount(past) {
        OwnInOrder(root, past, g);
        BuiltIs(root, past, g);
      } else {
        NoneIn(root, past, g);
      }
    }
  }

  ghost predicate Ascending(ks: seq<nat>) {
    forall i, j | 0 <= i < j < |ks| :: ks[i] < ks[j]
  }

  /** It holds its subgroups in the order they were made: exactly those that calls on it made. */
  lemma {:induction false} KidsInOrder(root: string, h: seq<Action>, g: nat, k: nat)
    requires Callable(h) && g < GroupCount(h) && 0 < k < GroupCount(h)
    ensures var kids := Built(root, h)[g].kids;
            Ascending(kids) && (k in kids <==> h[Born(h, k)].g == g) && forall x | x in kids :: 0 < x < GroupCount(h)
    decreases |h|
  {
    hide Built, Ascending;
    var past := h[..|h| - 1];
    var n := GroupCount(past);
    KidsStep(root, h, g);
    if g < n {
      if n > 1 {
        KidsInOrder(root, past, g, if k < n then k else 1);
      } else {
        NoKids(root, past);
        assert g == 0;
      }
      if k < n {
        BornBefore(h, k);
      }
      AscendingSnoc(Built(root, past)[g].kids, n);
    }
    AscendingEmpty();
  }

  lemma KidsStep(root: string, h: seq<Action>, g: nat)
    requires Callable(h) && h != [] && g < GroupCount(h)
    ensures var past, a := h[..|h| - 1], h[|h| - 1];
            Built(root, h)[g].kids ==
            if g >= GroupCount(past) then []
            else if a.SubGroup? && a.g == g then Built(root, past)[g].kids + [GroupCount(past)]
            else Built(root, past)[g].kids
  {
  }

  lemma AscendingEmpty()
    ensures Ascending([])
  {
  }

  lemma AscendingSnoc(ks: seq<nat>, n: nat)
    requires Ascending(ks) && forall x | x in ks :: x < n
    ensures Ascending(ks + [n])
  {
    forall i, j | 0 <= i < j < |ks + [n]| ensures (ks + [n])[i] < (ks + [n])[j] {
      assert ks[i] in ks;
    }
  }

  lemma {:induction false} NoKids(root: string, h: seq<Action>)
    requires Callable(h) && GroupCount(h) == 1
    ensures Built(root, h)[0].kids == []
  {
    if h != [] {
      NoKids(root, h[..|h| - 1]);
    }
  }

  /** Nothing is promised in a group before it is made. */
  lemma {:induction false} NoneIn(root: string, h: seq<Action>, g: nat)
    requires Callable(h) && g >= GroupCount(h)
    ensures PromisedIn(root, h, g) == []
  {
    if h != [] {
      NoneIn(root, h[..|h| - 1], g);
    }
  }

  /** Flattening lists a group's own routes first, in order, and all of an earlier subgroup before all of a
      later one. */
  lemma FlattenOrder(gs: seq<Group>, g: nat, i: nat, j: nat) returns (a: seq<Route>, b: seq<Route>, c: seq<Route>)
    requires Tree(gs) && g < |gs| && i < j < |gs[g].kids|
    ensures Flat(gs, g) == a + Flat(gs, gs[g].kids[i]) + b + Flat(gs, gs[g].kids[j]) + c
    ensures gs[g].routes <= a
  {
    var ks := gs[g].kids;
    assert Under(gs, ks, g);
    var a', b', c' := KidsOrder(gs, ks, g, i, j);
    a, b, c := gs[g].routes + a', b', c';
    hide FlatAll;
    var x, y := Flat(gs, ks[i]), Flat(gs, ks[j]);
    assert gs[g].routes + (a' + x + b' + y + c') == a + x + b + y + c;
  }

  lemma {:induction false} KidsOrder(gs: seq<Group>, ks: seq<nat>, g: nat, i: nat, j: nat)
    returns (a: seq<Route>, b: seq<Route>, c: seq<Route>)
    requires Tree(gs) && g < |gs| && Under(gs, ks, g) && i < j < |ks|
    ensures FlatAll(gs, ks, g) == a + Flat(gs, ks[i]) + b + Flat(gs, ks[j]) + c
    decreases |ks|
  {
    hide Flat;
    var front, last := ks[..|ks| - 1], ks[|ks| - 1];
    if j == |ks| - 1 {
      a, b := KidIn(gs, front, g, i);
      c := [];
    } else {
      a, b, c := KidsOrder(gs, front, g, i, j);
      c := c + Flat(gs, last);
    }
  }

  lemma {:induction false} KidIn(gs: seq<Group>, ks: seq<nat>, g: nat, i: nat) returns (a: seq<Route>, b: seq<Route>)
    requires Tree(gs) && g < |gs| && Under(gs, ks, g) && i < |ks|
    ensures FlatAll(gs, ks, g) == a + Flat(gs, ks[i]) + b
    decreases |ks|
  {
    hide Flat;
    var front, last := ks[..|ks| - 1], ks[|ks| - 1];
    if i == |ks| - 1 {
      a, b := FlatAll(gs, front, g), [];
    } else {
      a, b := KidIn(gs, front, g, i);
      b := b + Flat(gs, last);
    }
  }

  function Registered(h: seq<Action>): nat {
    if h == [] then 0 else Registered(h[..|h| - 1]) + if h[|h| - 1].Register? then 1 else 0
  }

  lemma {:induction false} PromisesGrow(root: string, h: seq<Action>, more: seq<Action>)
    requires Callable(h + more)
    ensures Callable(h) && AllPromised(root, h) <= AllPromised(root, h + more)
    ensures |AllPromised(root, h + more)| == |AllPromised(root, h)| + Registered(more)
    decreases |more|
  {
    if more == [] {
      assert h + more == h;
    } else {
      var less := more[..|more| - 1];
      assert (h + more)[..|h + more| - 1] == h + less;
      PromisesGrow(root, h, less);
    }
  }

  /** Later calls, on any group, never alter a route: they only add those they register. */
  lemma LaterCallsOnlyAdd(root: string, h: seq<Action>, more: seq<Action>)
    requires Callable(h) && Callable(h + more)
    ensures multiset(Listed(root, h)) <= multiset(Listed(root, h + more))
    ensures |Listed(root, h + more)| == |Listed(root, h)| + Registered(more)
  {
    hide Listed, AllPromised, Registered, Callable;
    PromisesGrow(root, h, more);
    FlattenYields(root, h);
    FlattenYields(root, h + more);
    SameSize(Listed(root, h), AllPromised(root, h));
    SameSize(Listed(root, h + more), AllPromised(root, h + more));
    PrefixCounts(AllPromised(root, h), AllPromised(root, h + more));
  }

  lemma SameSize<T>(a: seq<T>, b: seq<T>)
    requires multiset(a) == multiset(b)
    ensures |a| == |b|
  {
    assert |a| == |multiset(a)| && |b| == |multiset(b)|;
  }

  lemma PrefixCounts<T>(a: seq<T>, b: seq<T>)
    requires a <= b
    ensures multiset(a) <= multiset(b)
  {
    assert b == a + b[|a|..];
  }
}
