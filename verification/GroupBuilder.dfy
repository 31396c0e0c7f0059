/** The mutable groups behind the histories: middleware lists are slices that share arrays and grow in place,
    so every snapshot must be a copy of its own. */
module GroupBuilder {
  import opened RouteGroups

  /** A slice: the first `len` cells of an array whose length is its capacity. */
  datatype Slice = Slice(arr: array<Handler>, len: nat)
  {
    predicate Fits()
    {
      len <= arr.Length
    }

    function Items(): seq<Handler>
      requires Fits()
      reads arr
    {
      arr[..len]
    }
  }

  /** The builtin append: in place while the capacity lasts, else into a new array, whose spare capacity is
      not specified. */
  method Append(s: Slice, xs: seq<Handler>) returns (r: Slice)
    requires s.Fits()
    modifies s.arr
    ensures r.Fits() && r.Items() == old(s.Items()) + xs
    ensures s.Items() == old(s.Items())
    ensures r.arr == s.arr || fresh(r.arr)
  {
    var n := s.len + |xs|;
    if n <= s.arr.Length {
      for i := 0 to |xs|
        invariant s.arr[..s.len] == old(s.Items())
        invariant s.arr[s.len..s.len + i] == xs[..i]
      {
        s.arr[s.len + i] := xs[i];
        assert s.arr[s.len..s.len + i + 1] == s.arr[s.len..s.len + i] + [xs[i]];
      }
      r := Slice(s.arr, n);
      assert r.Items() == s.arr[..s.len] + s.arr[s.len..n];
    } else {
      var capacity: nat :| n <= capacity;
      var items := s.arr[..s.len] + xs;
      var arr := new Handler[capacity](i => if 0 <= i < |items| then items[i] else 0);
      r := Slice(arr, n);
      assert r.Items() == items;
    }
  }

  /** append(append([]HandlerFunc{}, s...), xs...): a copy in an array of its own. */
  method Joined(s: Slice, xs: seq<Handler>) returns (r: Slice)
    requires s.Fits()
    ensures r.Fits() && r.Items() == s.Items() + xs && fresh(r.arr)
  {
    var arr := new Handler[0];
    r := Append(Slice(arr, 0), s.Items());
    r := Append(r, xs);
  }

  /** A route as the source keeps it. */
  datatype Entry = Entry(verb: string, path: string, handler: Handler, middleware: Slice, group: string)
  {
    function View(): Route
      requires middleware.Fits()
      reads middleware.arr
    {
      Route(verb, path, handler, middleware.Items(), group)
    }
  }

  /** A group object at one moment: its value, its array, and the arrays its routes keep. */
  datatype Snapshot = Snapshot(value: Group, own: array<Handler>, kept: set<array<Handler>>, groups: seq<RouteGroup>)

  class RouteGroup {
    const prefix: string
    var routes: seq<Entry>
    var groups: seq<RouteGroup>
    var middleware: Slice
    ghost var kept: set<array<Handler>>

    constructor (prefix: string, middleware: Slice)
      requires middleware.Fits()
      ensures this.prefix == prefix && this.middleware == middleware && routes == [] && groups == [] && kept == {}
    {
      this.prefix, this.middleware, routes, groups, kept := prefix, middleware, [], [], {};
    }

    /** The object is as the snapshot says, apart from the numbers of its subgroups. */
    ghost predicate Is(s: Snapshot)
      reads this, middleware.arr, kept
    {
      && prefix == s.value.prefix
      && middleware.Fits() && middleware.Items() == s.value.middleware
      && middleware.arr == s.own && kept == s.kept && groups == s.groups
      && |routes| == |s.value.routes|
      && forall k | 0 <= k < |routes| :: Keeps(routes[k], s.value.routes[k], kept)
    }

    method AddRoute(e: Entry, ghost s: Snapshot)
      requires Is(s) && e.middleware.Fits()
      modifies this`routes, this`kept
      ensures Is(s.(value := s.value.(routes := s.value.routes + [e.View()]), kept := s.kept + {e.middleware.arr}))
    {
      routes := routes + [e];
      kept := kept + {e.middleware.arr};
      forall k | 0 <= k < |s.value.routes| ensures Keeps(routes[k], s.value.routes[k], kept) {
        assert old(Keeps(routes[k], s.value.routes[k], kept));
      }
      assert Keeps(e, e.View(), kept);
    }

    method AddMiddleware(mw: seq<Handler>, ghost s: Snapshot)
      requires Is(s) && s.own !in s.kept
      modifies this`middleware, middleware.arr
      ensures Is(s.(value := s.value.(middleware := s.value.middleware + mw), own := middleware.arr))
      ensures middleware.arr == old(middleware.arr) || fresh(middleware.arr)
    {
      middleware := Append(middleware, mw);
      forall k | 0 <= k < |routes| ensures Keeps(routes[k], s.value.routes[k], kept) {
        assert old(Keeps(routes[k], s.value.routes[k], kept));
      }
    }

    method AddGroup(sub: RouteGroup, ghost s: Snapshot, ghost number: nat)
      requires Is(s)
      modifies this`groups
      ensures Is(s.(value := s.value.(kids := s.value.kids + [number]), groups := s.groups + [sub]))
    {
      groups := groups + [sub];
      forall k | 0 <= k < |routes| ensures Keeps(routes[k], s.value.routes[k], kept) {
        assert old(Keeps(routes[k], s.value.routes[k], kept));
      }
    }

    /** register: the route gets a copy of the group's middleware of its own. */
    method Register(ghost app: Application, ghost me: nat, verb: string, path: string,
                    handler: Handler, mw: seq<Handler>)
      requires app.Valid() && me < |app.all| && app.all[me] == this
      modifies this, app
      ensures app.Valid() && app.all == old(app.all)
      ensures app.history == old(app.history) + [Action.Register(me, verb, path, handler, mw)]
    {
      hide Coherent, Is;
      Arrays(app, me);
      ghost var was := app.now[me];
      ghost var a := Action.Register(me, verb, path, handler, mw);
      var copy := Joined(middleware, mw);
      RegisterCoherent(app.root, app.history, app.all, app.now, a, copy.arr);
      AddRoute(Entry(verb, prefix + path, handler, copy, prefix), was);
      ghost var value := was.value.(routes := was.value.routes + [RouteIn(was.value, a)]);
      app.now := app.now[me := was.(value := value, kept := kept)];
      app.history := app.history + [a];
    }

    /** Use: the group's slice may grow in place, which no other slice can see. */
    method Use(ghost app: Application, ghost me: nat, mw: seq<Handler>)
      requires app.Valid() && me < |app.all| && app.all[me] == this
      modifies this, app, middleware.arr
      ensures app.Valid() && app.all == old(app.all)
      ensures app.history == old(app.history) + [Action.Use(me, mw)]
    {
      hide Coherent, Is;
      Arrays(app, me);
      ghost var was := app.now[me];
      ghost var a := Action.Use(me, mw);
      AddMiddleware(mw, was);
      UseCoherent(app.root, app.history, app.all, app.now, a, middleware.arr);
      ghost var value := was.value.(middleware := was.value.middleware + mw);
      app.now := app.now[me := was.(value := value, own := middleware.arr)];
      app.history := app.history + [a];
    }

    /** Group: the subgroup starts from a copy of the middleware. */
    method SubGroup(ghost app: Application, ghost me: nat, relative: string) returns (sub: RouteGroup)
      requires app.Valid() && me < |app.all| && app.all[me] == this
      modifies this, app
      ensures app.Valid() && fresh(sub) && app.all == old(app.all) + [sub]
      ensures app.history == old(app.history) + [Action.SubGroup(me, relative)]
    {
      hide Coherent, Is;
      Arrays(app, me);
      ghost var was := app.now[me];
      ghost var a := Action.SubGroup(me, relative);
      var copy := Joined(middleware, []);
      sub := new RouteGroup(prefix + relative, copy);
      ghost var born := Snapshot(Group(prefix + relative, [], [], was.value.middleware), copy.arr, {}, []);
      IsBorn(sub, born);
      SubGroupCoherent(app.root, app.history, app.all, app.now, a, sub, copy.arr);
      AddGroup(sub, was, |app.all|);
      ghost var value := was.value.(kids := was.value.kids + [|app.all|]);
      app.now := app.now[me := was.(value := value, groups := was.groups + [sub])] + [born];
      app.all := app.all + [sub];
      app.history := app.history + [a];
    }

    /** flatten: own routes first, then each subgroup's. */
    method Flatten(ghost app: Application, ghost me: nat) returns (es: seq<Entry>)
      requires app.Valid() && me < |app.all| && app.all[me] == this
      ensures app.Valid() && Callable(app.history) && Whole(Built(app.root, app.history))
      ensures me < |Built(app.root, app.history)|
      ensures Shows(es, Flat(Built(app.root, app.history), me))
      decreases |app.all| - me
    {
      hide Coherent, Whole, Built, Flat, FlatAll, Tree, Is;
      OwnRoutes(app, me);
      ghost var gs := Built(app.root, app.history);
      ghost var kids := gs[me].kids;
      assert gs[me].routes + [] == gs[me].routes;
      es := routes;
      for i := 0 to |groups|
        invariant app.Valid() && Under(gs, kids[..i], me)
        invariant Shows(es, gs[me].routes + FlatAll(gs, kids[..i], me))
      {
        assert kids[..i + 1] == kids[..i] + [kids[i]];
        LastKid(gs, kids[..i], kids[i], me, me);
        var more := groups[i].Flatten(app, kids[i]);
        ShowsBoth(es, gs[me].routes + FlatAll(gs, kids[..i], me), more, Flat(gs, kids[i]));
        AppendAssoc(gs[me].routes, FlatAll(gs, kids[..i], me), Flat(gs, kids[i]));
        es := es + more;
      }
      assert kids[..|groups|] == kids;
    }
  }

  ghost predicate Shows(es: seq<Entry>, rs: seq<Route>)
    reads set e | e in es :: e.middleware.arr
  {
    |es| == |rs| && forall k | 0 <= k < |es| :: es[k].middleware.Fits() && es[k].View() == rs[k]
  }

  lemma ShowsBoth(es: seq<Entry>, rs: seq<Route>, fs: seq<Entry>, ss: seq<Route>)
    requires Shows(es, rs) && Shows(fs, ss)
    ensures Shows(es + fs, rs + ss)
  {
  }

  ghost predicate Keeps(e: Entry, r: Route, kept: set<array<Handler>>)
    reads kept
  {
    e.middleware.arr in kept && e.middleware.Fits() && e.View() == r
  }

  /** No two groups share an array, no group shares one with a route, and the values are those the history
      gives. */
  ghost predicate Coherent(root: string, h: seq<Action>, all: seq<RouteGroup>, now: seq<Snapshot>) {
    && Callable(h) && |all| == |now| == GroupCount(h)
    && (forall i, j | 0 <= i < j < |all| :: all[i] != all[j] && now[i].own != now[j].own)
    && (forall i, j | 0 <= i < |all| && 0 <= j < |all| :: now[i].own !in now[j].kept)
    && (forall i | 0 <= i < |all| :: now[i].value == Built(root, h)[i])
    && (forall i | 0 <= i < |all| :: |now[i].groups| == |now[i].value.kids|)
    && (forall i, k | 0 <= i < |all| && 0 <= k < |now[i].groups| ::
          now[i].value.kids[k] < |all| && now[i].groups[k] == all[now[i].value.kids[k]])
  }

  lemma BuiltSnoc(root: string, h: seq<Action>, a: Action)
    requires Callable(h) && a.g < GroupCount(h)
    ensures Callable(h + [a]) && Built(root, h + [a]) == Apply(Built(root, h), a)
    ensures GroupCount(h + [a]) == GroupCount(h) + if a.SubGroup? then 1 else 0
  {
    assert (h + [a])[..|h|] == h;
  }

  /** Which arrays the groups have, and that no one shares them. */
  lemma Arrays(app: Application, me: nat)
    requires app.Valid() && me < |app.all|
    ensures var g := app.all[me];
            && |app.now| == |app.all| && g.Is(app.now[me]) && app.now[me].own == g.middleware.arr
            && app.now[me].value.prefix == g.prefix && g.middleware.Fits()
            && app.now[me].value.middleware == g.middleware.Items()
            && g.middleware.arr !in g.kept && g.kept == app.now[me].kept
    ensures forall j | 0 <= j < |app.all| ::
              && app.now[j].own == app.all[j].middleware.arr && app.now[j].kept == app.all[j].kept
              && app.all[me].middleware.arr !in app.all[j].kept
    ensures forall j | 0 <= j < |app.all| && j != me ::
              app.all[me].middleware.arr != app.all[j].middleware.arr && app.all[j] != app.all[me]
  {
  }

  lemma IsBorn(g: RouteGroup, s: Snapshot)
    requires g.routes == [] && g.groups == [] && g.kept == {} && g.middleware.Fits()
    requires s == Snapshot(Group(g.prefix, [], [], g.middleware.Items()), g.middleware.arr, {}, [])
    ensures g.Is(s)
  {
  }

  lemma OwnRoutes(app: Application, me: nat)
    requires app.Valid() && me < |app.all|
    ensures Callable(app.history) && GroupCount(app.history) == |app.all|
    ensures var g := app.all[me];
            var gs := Built(app.root, app.history);
            var kids := gs[me].kids;
            && Whole(gs) && Tree(gs) && |gs| == |app.all| && Under(gs, kids, me) && Under(gs, kids[..0], me)
            && Flat(gs, me) == gs[me].routes + FlatAll(gs, kids, me) && FlatAll(gs, kids[..0], me) == []
            && Shows(g.routes, gs[me].routes)
            && |g.groups| == |kids|
            && forall k | 0 <= k < |kids| :: me < kids[k] < |app.all| && g.groups[k] == app.all[kids[k]]
  {
    BuiltWhole(app.root, app.history);
    assert app.all[me].Is(app.now[me]);
    var rs := app.now[me].value.routes;
    forall k | 0 <= k < |rs| ensures app.all[me].routes[k].middleware.Fits() && app.all[me].routes[k].View() == rs[k] {
      assert Keeps(app.all[me].routes[k], rs[k], app.all[me].kept);
    }
  }

  lemma RegisterCoherent(root: string, h: seq<Action>, all: seq<RouteGroup>, now: seq<Snapshot>,
                         a: Action, arr: array<Handler>)
    requires Coherent(root, h, all, now) && a.Register? && a.g < |all|
    requires forall i | 0 <= i < |all| :: now[i].own != arr
    ensures var s := now[a.g];
            var s' := s.(value := s.value.(routes := s.value.routes + [RouteIn(s.value, a)]), kept := s.kept + {arr});
            Coherent(root, h + [a], all, now[a.g := s'])
  {
    BuiltSnoc(root, h, a);
  }

  lemma UseCoherent(root: string, h: seq<Action>, all: seq<RouteGroup>, now: seq<Snapshot>,
                    a: Action, arr: array<Handler>)
    requires Coherent(root, h, all, now) && a.Use? && a.g < |all|
    requires arr == now[a.g].own || forall i | 0 <= i < |all| :: now[i].own != arr && arr !in now[i].kept
    ensures var s := now[a.g];
            var s' := s.(value := s.value.(middleware := s.value.middleware + a.mw), own := arr);
            Coherent(root, h + [a], all, now[a.g := s'])
  {
    BuiltSnoc(root, h, a);
  }

  lemma SubGroupCoherent(root: string, h: seq<Action>, all: seq<RouteGroup>, now: seq<Snapshot>, a: Action,
                         sub: RouteGroup, arr: array<Handler>)
    requires Coherent(root, h, all, now) && a.SubGroup? && a.g < |all| && sub !in all
    requires forall i | 0 <= i < |all| :: now[i].own != arr && arr !in now[i].kept
    ensures var s := now[a.g];
            var s' := s.(value := s.value.(kids := s.value.kids + [|all|]), groups := s.groups + [sub]);
            var born := Snapshot(Group(s.value.prefix + a.relative, [], [], s.value.middleware), arr, {}, []);
            Coherent(root, h + [a], all + [sub], now[a.g := s'] + [born])
  {
    BuiltSnoc(root, h, a);
  }

  /** All groups below one root, and the calls made on them, for the proof only. */
  class Application {
    const root: string
    ghost var all: seq<RouteGroup>
    ghost var now: seq<Snapshot>
    ghost var history: seq<Action>

    ghost predicate Valid()
      reads this, all, set g | g in all :: g.middleware.arr, set g, arr | g in all && arr in g.kept :: arr
    {
      Coherent(root, history, all, now) && forall i | 0 <= i < |all| :: all[i].Is(now[i])
    }

    /** The group the application hands to its registration function. */
    constructor (g: RouteGroup)
      requires g.routes == [] && g.groups == [] && g.kept == {} && g.middleware.Fits() && g.middleware.Items() == []
      ensures root == g.prefix && Valid() && all == [g] && history == []
    {
      root := g.prefix;
      all, history := [g], [];
      now := [Snapshot(Group(g.prefix, [], [], []), g.middleware.arr, {}, [])];
    }
  }
}
