/** The router: a mutable tree of nodes, registration in place, lookup by index over the raw path, and
    dispatch. `nodes` maps every position to the object there, so the tree's shape is a flat invariant
    and its value is a `Table`. */
module Router {
  import opened Wrappers
  import opened Text
  import opened RouteTable
  import opened RouteMatch
  import opened Patterns

  /** The child references of a node. */
  datatype Kids = Links(literals: map<string, RouteNode>, param: RouteNode?, wild: RouteNode?) {
    ghost function At(k: Key): RouteNode? {
      match k
      case Lit(text) => if text in literals then literals[text] else null
      case Par => param
      case Wild => wild
    }

    ghost function With(k: Key, n: RouteNode): Kids {
      match k
      case Lit(text) => this.(literals := literals[text := n])
      case Par => this.(param := n)
      case Wild => this.(wild := n)
    }
  }

  class RouteNode {
    ghost const position: Path
    const param: string
    var subtree: bool
    var handlers: map<string, Handler>
    var children: map<string, RouteNode>
    var paramChild: RouteNode?
    var wildChild: RouteNode?

    ghost function Value(): Entry
      reads this
    {
      Entry(param, subtree, handlers)
    }

    ghost function Kids(): Kids
      reads this
    {
      Links(children, paramChild, wildChild)
    }

    /** Makes n the child at k. */
    method Attach(k: Key, n: RouteNode)
      modifies `children, `paramChild, `wildChild
      ensures Kids() == old(Kids()).With(k, n)
    {
      match k
      case Lit(text) => children := children[text := n];
      case Par => paramChild := n;
      case Wild => wildChild := n;
    }

    constructor (ghost position: Path, param: string)
      ensures this.position == position && this.param == param
      ensures !subtree && handlers == map[] && children == map[] && paramChild == null && wildChild == null
    {
      this.position, this.param := position, param;
      subtree, handlers, children, paramChild, wildChild := false, map[], map[], null, null;
    }
  }

  ghost predicate ParentIn(nodes: map<Path, RouteNode>, p: Path) {
    p != [] ==> p[..|p| - 1] in nodes
  }

  /** The children of the node at p are exactly the nodes one step below p. */
  ghost predicate Linked(nodes: map<Path, RouteNode>, p: Path, kids: Kids) {
    forall k: Key :: kids.At(k) == NodeAt(nodes, p + [k])
  }

  ghost function NodeAt(nodes: map<Path, RouteNode>, p: Path): RouteNode? {
    if p in nodes then nodes[p] else null
  }

  ghost predicate AllLinked(nodes: map<Path, RouteNode>, kids: map<Path, Kids>) {
    kids.Keys == nodes.Keys && forall p {:trigger Linked(nodes, p, kids[p])} | p in nodes :: Linked(nodes, p, kids[p])
  }

  lemma KidsKeys(nodes: map<Path, RouteNode>, kids: map<Path, Kids>)
    requires AllLinked(nodes, kids)
    ensures kids.Keys == nodes.Keys
  {}

  lemma NodeAtUpdated(nodes: map<Path, RouteNode>, at: Path, k: Key, n: RouteNode, q: Path, j: Key)
    ensures NodeAt(nodes[at + [k] := n], q + [j]) == if q == at && j == k then n else NodeAt(nodes, q + [j])
  {
    LastKey(at, k);
    LastKey(q, j);
  }

  datatype Action =
    | Redirect(location: string)
    | NotFound
    | Options(allow: set<string>)
    | MethodNotAllowed(allow: set<string>)
    | Serve(handler: Handler, params: seq<Param>)

  /** The object at p carries its position, and its fields are what the ghost maps say. */
  ghost predicate Mirrors(n: RouteNode, p: Path, e: Entry, kids: Kids)
    reads n
  {
    n.position == p && n.Value() == e && n.Kids() == kids
  }

  class Router {
    var root: RouteNode?
    ghost var nodes: map<Path, RouteNode>
    ghost var kids: map<Path, Kids>
    ghost var table: Table

    ghost predicate Valid()
      reads this, nodes.Values
    {
      && (root == null <==> nodes == map[])
      && (root != null ==> [] in nodes && nodes[[]] == root)
      && (forall p {:trigger ParentIn(nodes, p)} | p in nodes :: ParentIn(nodes, p))
      && AllLinked(nodes, kids)
      && table.Keys == nodes.Keys
      && (forall p {:trigger Mirrored(p)} | p in nodes :: Mirrored(p))
    }

    ghost predicate Mirrored(p: Path)
      requires p in nodes && p in table && p in kids
      reads this, nodes[p]
    {
      Mirrors(nodes[p], p, table[p], kids[p])
    }

    constructor ()
      ensures Valid() && table == map[]
    {
      root, nodes, kids, table := null, map[], map[], map[];
    }

    /** Records in the ghost maps that n now hangs below `at`. */
    ghost method Record(at: Path, k: Key, n: RouteNode, name: string)
      requires root != null && [] in nodes && nodes[[]] == root && at in nodes && at + [k] !in nodes
      requires forall p {:trigger ParentIn(nodes, p)} | p in nodes :: ParentIn(nodes, p)
      requires AllLinked(nodes, kids) && table.Keys == nodes.Keys
      requires forall q {:trigger Mirrored(q)} | q in nodes && q != at :: Mirrored(q)
      requires Mirrors(nodes[at], at, table[at], kids[at].With(k, n))
      requires Mirrors(n, at + [k], Entry(name, false, map[]), Links(map[], null, null))
      modifies `nodes, `kids, `table
      ensures Valid()
      ensures nodes == old(nodes)[at + [k] := n]
      ensures table == old(table)[at + [k] := Entry(name, false, map[])]
    {
      hide AllLinked, ParentIn, Mirrors;
      var p := at + [k];
      LastKey(at, k);
      KidsKeys(nodes, kids);
      var next, nextKids := nodes[p := n], kids[at := kids[at].With(k, n)][p := Links(map[], null, null)];
      ParentsUpdated(nodes, next, at, k, n);
      LinksUpdated(nodes, next, kids, nextKids, at, k, n);
      assert p != [] && p != at && nextKids.Keys == next.Keys;
      nodes, kids, table := next, nextKids, table[p := Entry(name, false, map[])];
      assert Mirrored(p) && Mirrored(at);
      forall q | q in nodes && q != p && q != at ensures Mirrored(q) {
        assert old(Mirrored(q));
      }
      assert nodes[[]] == root;
    }

    /** Hangs a fresh node below the node at `at`. */
    method NewChild(ghost at: Path, node: RouteNode, k: Key, name: string) returns (n: RouteNode)
      requires Valid() && at in nodes && nodes[at] == node && at + [k] !in nodes
      modifies `nodes, `kids, `table, node
      ensures Valid() && fresh(n) && n.param == name
      ensures nodes == old(nodes)[at + [k] := n]
      ensures table == old(table)[at + [k] := Entry(name, false, map[])]
    {
      assert kids.Keys == nodes.Keys && Mirrored(at);
      forall q | q in nodes && q != at ensures nodes[q] != node {
        assert Mirrored(q);
      }
      hide AllLinked, ParentIn, Mirrors;
      n := Hang(at, node, k, name, table[at], kids[at]);
      forall q | q in nodes && q != at ensures Mirrored(q) {
        assert old(Mirrored(q));
      }
      Record(at, k, n, name);
    }

    /** One step of insert: the child for seg, created if absent; null when the names conflict. */
    method Descend(ghost at: Path, node: RouteNode, seg: Segment) returns (child: RouteNode?)
      requires Valid() && at in nodes && nodes[at] == node
      modifies `nodes, `kids, `table, node
      ensures Valid() && Grew(old(nodes))
      ensures child == null <==>
                at + [KeyOf(seg)] in old(table) && KeyOf(seg) != Lit(seg.literal)
                && old(table)[at + [KeyOf(seg)]].name != NameOf(seg)
      ensures child != null ==> at + [KeyOf(seg)] in nodes && nodes[at + [KeyOf(seg)]] == child
      ensures at + [KeyOf(seg)] in old(nodes) ==> nodes == old(nodes) && table == old(table)
      ensures at + [KeyOf(seg)] !in old(nodes) ==>
                && fresh(child)
                && nodes == old(nodes)[at + [KeyOf(seg)] := child]
                && table == old(table)[at + [KeyOf(seg)] := Entry(NameOf(seg), false, map[])]
    {
      assert Mirrored(at) && Linked(nodes, at, kids[at]);
      assert kids[at].At(KeyOf(seg)) == NodeAt(nodes, at + [KeyOf(seg)]);
      assert at + [KeyOf(seg)] in nodes ==> Mirrored(at + [KeyOf(seg)]);
      if seg.wildcard {
        child := node.wildChild;
        if child == null {
          child := NewChild(at, node, Wild, seg.param);
        }
        if child.param != seg.param {
          child := null;
        }
      } else if seg.param != "" {
        child := node.paramChild;
        if child == null {
          child := NewChild(at, node, Par, seg.param);
        }
        if child.param != seg.param {
          child := null;
        }
      } else if seg.literal in node.children {
        child := node.children[seg.literal];
      } else {
        child := NewChild(at, node, Lit(seg.literal), "");
      }
    }

    /** insert starts by creating the root if there is none. */
    method EnsureRoot(ghost segs: seq<Segment>) returns (node: RouteNode)
      requires Valid() && WellFormed(table)
      modifies this
      ensures Walked(old(table), segs, 0, node)
      ensures Grew(old(nodes))
      ensures [] in old(table) ==> nodes == old(nodes) && root == old(root) && table == old(table)
    {
      assert Keys(segs)[..0] == [];
      assert WellFormed(table) && table != map[] ==> table[[]].name == "";
      if root == null {
        root := new RouteNode([], "");
        nodes, kids, table := map[[] := root], map[[] := Links(map[], null, null)], map[[] := Entry("", false, map[])];
        assert Mirrored([]);
      }
      node := root;
    }

    /** Every node of `was` is still in place, every other node is new. */
    twostate predicate Grew(was: map<Path, RouteNode>)
      reads this
    {
      && (forall p | p in was :: p in nodes && nodes[p] == was[p])
      && (forall p | p in nodes && p !in was :: fresh(nodes[p]))
    }

    /** node stands at the end of the first i steps of segs, and the table has grown from t that far. */
    ghost predicate Walked(t: Table, segs: seq<Segment>, i: nat, node: RouteNode)
      requires i <= |segs|
      reads this, nodes.Values
    {
      && Valid()
      && Keys(segs)[..i] in nodes && nodes[Keys(segs)[..i]] == node
      && table == Grown(t, segs, i)
      && NamesAgreeTo(t, segs, i)
    }

    lemma WalkedMeans(t: Table, segs: seq<Segment>, i: nat, node: RouteNode)
      requires WellFormed(t) && i <= |segs| && Walked(t, segs, i, node)
      ensures Valid() && Keys(segs)[..i] in nodes && nodes[Keys(segs)[..i]] == node
      ensures table.Keys == nodes.Keys && (Keys(segs)[..i] in t ==> table == t)
      ensures i == |segs| ==> NamesAgree(t, segs)
    {
      if Keys(segs)[..i] in t { GrownPresent(t, segs, i); }
    }

    /** Descend along segs, from the table t the walk started with. */
    method Step(ghost t: Table, segs: seq<Segment>, i: nat, node: RouteNode) returns (child: RouteNode?)
      requires i < |segs| && WellFormed(t) && Walked(t, segs, i, node)
      modifies `nodes, `kids, `table, node
      ensures Grew(old(nodes))
      ensures child != null ==> Walked(t, segs, i + 1, child)
      ensures child == null ==> Valid() && !NamesAgree(t, segs) && Keys(segs)[..i] in t
      ensures child == null || Keys(segs)[..i + 1] in t ==> nodes == old(nodes) && table == old(table)
    {
      StepOnBranch(t, segs, i);
      NamesStep(t, segs, i);
      child := Descend(Keys(segs)[..i], node, segs[i]);
    }

    /** The loop of insert: descends along all of segs; null at the first name conflict. */
    method Walk(ghost t: Table, segs: seq<Segment>, start: RouteNode) returns (node: RouteNode?)
      requires WellFormed(t) && Walked(t, segs, 0, start)
      modifies `nodes, `kids, `table, nodes.Values
      ensures Grew(old(nodes))
      ensures node != null ==> Walked(t, segs, |segs|, node)
      ensures node == null ==> Valid() && !NamesAgree(t, segs) && table == t
    {
      hide Walked, Valid, NamesAgree, WellFormed;
      var cur: RouteNode := start;
      for i := 0 to |segs|
        invariant Walked(t, segs, i, cur) && Grew(old(nodes))
      {
        WalkedMeans(t, segs, i, cur);
        var child := Step(t, segs, i, cur);
        if child == null {
          return null;
        }
        cur := child;
      }
      return cur;
    }

    /** The first half of insert: the node at the end of segs, created where it is missing. */
    method Reach(segs: seq<Segment>) returns (node: RouteNode?)
      requires Valid() && WellFormed(table)
      modifies this, nodes.Values
      ensures Valid() && Grew(old(nodes))
      ensures node == null <==> !NamesAgree(old(table), segs)
      ensures node != null ==> Walked(old(table), segs, |segs|, node)
      ensures node == null || Keys(segs) in old(table) ==>
              nodes == old(nodes) && table == old(table) && root == old(root)
    {
      hide Walked, Valid, NamesAgree, WellFormed;
      ghost var t := table;
      RootOrEmpty(t, segs);
      var start := EnsureRoot(segs);
      node := Walk(t, segs, start);
      if node != null {
        WalkedMeans(t, segs, |segs|, node);
      }
      if node == null || Keys(segs) in t {
        SameNodes(t);
      }
    }

    twostate lemma SameNodes(t: Table)
      requires old(Valid()) && Valid() && Grew(old(nodes)) && old(table) == t == table
      ensures nodes == old(nodes)
    {}

    /** The last step of insert: one more handler at the node found. */
    method Store(ghost p: Path, node: RouteNode, verb: string, handler: Handler, sub: bool)
      requires Valid() && p in nodes && nodes[p] == node
      modifies `table, node`handlers, node`subtree
      ensures Valid()
      ensures table == old(table)[p := Entry(old(table)[p].name, old(table)[p].subtree || sub,
                                             old(table)[p].handlers[verb := handler])]
    {
      assert Mirrored(p);
      node.handlers := node.handlers[verb := handler];
      if sub {
        node.subtree := true;
      }
      table := table[p := Entry(table[p].name, node.subtree, node.handlers)];
      forall q | q in nodes && q != p ensures Mirrored(q) {
        assert old(Mirrored(q)) && nodes[q] != node;
      }
    }

    /** Registers one route. On an error nothing has changed; otherwise exactly this route was added. */
    method Insert(verb: string, segs: seq<Segment>, handler: Handler, sub: bool) returns (err: Error)
      requires Valid() && WellFormed(table)
      modifies this, nodes.Values
      ensures Valid() && Grew(old(nodes))
      ensures err == NoError <==> Accepts(old(table), Route(verb, segs, handler, sub))
      ensures err == NoError ==> table == Added(old(table), Route(verb, segs, handler, sub))
      ensures err != NoError ==> table == old(table) && nodes == old(nodes) && root == old(root)
      ensures err !in {EmptyMethod, BadPattern}
      ensures err == NameConflict <==> !NamesAgree(old(table), segs)
      ensures err == Duplicate <==> NamesAgree(old(table), segs) && HasEntry(old(table), Keys(segs), verb)
    {
      ghost var t, p := table, Keys(segs);
      var node := Reach(segs);
      if node == null {
        return NameConflict;
      }
      assert p[..|segs|] == p;
      GrownAt(t, segs, |segs|, p);
      ThroughSelf(segs);
      assert Mirrored(p);
      if verb in node.handlers {
        return Duplicate;
      }
      if node.handlers != map[] && node.subtree != sub {
        return KindConflict;
      }
      Store(p, node, verb, handler, sub);
      return NoError;
    }

    ghost predicate Answers(o: Outcome, found: RouteNode?, params: seq<Param>)
      reads this
    {
      match o
      case Found(p, ps) => p in nodes && found == nodes[p] && params == ps
      case Missing => found == null
    }

    /** The child lookup takes for a text: literal first, then parameter. */
    method Choose(ghost at: Path, cur: RouteNode, seg: string, params: seq<Param>)
      returns (child: RouteNode?, more: seq<Param>, ghost k: Key)
      requires Valid() && at in nodes && nodes[at] == cur
      ensures child != null ==>
                && at + [k] in nodes && nodes[at + [k]] == child
                && (k == Lit(seg) || (k == Par && at + [Lit(seg)] !in nodes))
                && more == if k == Par then params + [Param(table[at + [k]].name, seg)] else params
      ensures child == null ==> more == params && at + [Lit(seg)] !in nodes && at + [Par] !in nodes
    {
      ChildAt(at, Lit(seg));
      ChildAt(at, Par);
      if seg in cur.children {
        return cur.children[seg], params, Lit(seg);
      }
      if cur.paramChild != null {
        return cur.paramChild, params + [Param(cur.paramChild.param, seg)], Par;
      }
      return null, params, Wild;
    }

    /** The next text and the child for it. */
    method Advance(ghost at: Path, cur: RouteNode, path: string, idx: nat, params: seq<Param>, ghost toks: seq<Token>)
      returns (child: RouteNode?, more: seq<Param>, next: int, ghost k: Key)
      requires Valid() && at in nodes && nodes[at] == cur
      requires idx < |path| && |at| < |toks| && Tokens(path[idx..]) == toks[|at|..]
      ensures Valid()
      ensures -1 <= next <= |path| && Tokens(path[if next < 0 then |path| else next..]) == toks[|at| + 1..]
      ensures toks[|at|].rest == path[idx..]
      ensures var text := toks[|at|].text;
              if child == null then more == params && at + [Lit(text)] !in nodes && at + [Par] !in nodes
              else
                && at + [k] in nodes && nodes[at + [k]] == child
                && (k == Lit(text) || (k == Par && at + [Lit(text)] !in nodes))
                && more == if k == Par then params + [Param(table[at + [k]].name, text)] else params
    {
      var seg;
      seg, next := Cut(path, idx, toks, |at|);
      assert Valid() == old(Valid());
      child, more, k := Choose(at, cur, seg, params);
      assert Valid() == old(Valid());
    }

    /** Lookup with the path used up: an entry of the right kind, else the wildcard of a closing slash. */
    method AtEnd(ghost at: Path, cur: RouteNode, path: string, params: seq<Param>, ghost n: nat)
      returns (found: RouteNode?, more: seq<Param>)
      requires Valid() && at in nodes && nodes[at] == cur && |at| == n
      ensures EndsAt(table, at, n, Slash(path)) ==> found == cur && more == params
      ensures !EndsAt(table, at, n, Slash(path)) && WildTakes(table, at, n, Slash(path)) ==>
                found == nodes[at + [Wild]] && more == params + [Param(table[at + [Wild]].name, "")]
      ensures !EndsAt(table, at, n, Slash(path)) && !WildTakes(table, at, n, Slash(path)) ==>
                found == null && more == params
    {
      assert Mirrored(at);
      ChildAt(at, Wild);
      if cur.handlers != map[] {
        if cur.subtree && HasSuffix(path, "/") {
          return cur, params;
        }
        if !cur.subtree && !HasSuffix(path, "/") {
          return cur, params;
        }
      }
      if cur.wildChild != null && HasSuffix(path, "/") {
        return cur.wildChild, params + [Param(cur.wildChild.param, "")];
      }
      return null, params;
    }

    /** The walk stops at cur, with best the fallback down to it. */
    ghost predicate StopsAt(at: Path, cur: RouteNode, path: string, idx: nat, best: RouteNode?, params: seq<Param>,
                            toks: seq<Token>, before: seq<Param>)
      reads this
    {
      && idx <= |path|
      && Walking(table, at, toks, before, params) && Stuck(table, at, toks)
      && at in nodes && nodes[at] == cur
      && (if |at| == |toks| then idx == |path| else idx < |path| && path[idx..] == toks[|at|].rest)
      && BestNow(at, best, |toks|, Slash(path))
    }

    /** Lookup where the walk stops: the end of the path, else the wildcard child, else the fallback. */
    method Finish(ghost at: Path, cur: RouteNode, path: string, idx: nat, best: RouteNode?, params: seq<Param>,
                  ghost toks: seq<Token>, ghost before: seq<Param>)
      returns (found: RouteNode?, more: seq<Param>)
      requires Valid() && WellFormed(table) && StopsAt(at, cur, path, idx, best, params, toks, before)
      ensures Valid()
      ensures Answers(Resolve(table, toks, Slash(path), before), found, more)
    {
      found, more := null, params;
      if idx >= |path| {
        found, more := AtEnd(at, cur, path, params, |toks|);
      } else {
        ChildAt(at, Wild);
        if cur.wildChild != null {
          found, more := cur.wildChild, params + [Param(cur.wildChild.param, path[idx..])];
        }
      }
      if found == null {
        found := best;
      }
      WalkEnds(table, at, toks, Slash(path), before, params);
    }

    /** The state of lookup's loop: cur stands at `at`, idx is where the next text starts, best is the
        fallback found so far, params what was collected. */
    ghost predicate LookupAt(at: Path, cur: RouteNode, path: string, idx: nat, best: RouteNode?, params: seq<Param>,
                             toks: seq<Token>, before: seq<Param>)
      reads this
    {
      && Walking(table, at, toks, before, params)
      && at in nodes && nodes[at] == cur
      && idx <= |path| && Tokens(path[idx..]) == toks[|at|..]
      && BestIs(at, best, |toks|, Slash(path))
    }

    /** One turn of lookup's loop at a node: note a fallback, then take the child for the next text.
        Stops with a null child where the walk ends. */
    method Visit(ghost at: Path, cur: RouteNode, path: string, idx: nat, best: RouteNode?, params: seq<Param>,
                 ghost toks: seq<Token>, ghost before: seq<Param>)
      returns (child: RouteNode?, idx': nat, best': RouteNode?, more: seq<Param>, ghost k: Key)
      requires Valid() && WellFormed(table) && LookupAt(at, cur, path, idx, best, params, toks, before)
      ensures Valid()
      ensures child == null ==> StopsAt(at, cur, path, idx, best', params, toks, before)
      ensures child != null ==> |at| < |toks| && LookupAt(at + [k], child, path, idx', best', more, toks, before)
    {
      TokensLeft(path, idx, toks, |at|);
      BestUpdated(at, best, |toks|, Slash(path));
      child, idx', best', more, k := null, idx, best, params, Wild;
      if cur.subtree && (idx < |path| || HasSuffix(path, "/")) {
        best' := cur;
      }
      if idx < |path| {
        var next;
        child, more, next, k := Advance(at, cur, path, idx, params, toks);
        idx' := if next < 0 then |path| else next;
        if child != null {
          StepsTo(at, k, child, path, idx', best', params, more, toks, before);
        }
      }
    }

    lemma StepsTo(at: Path, k: Key, child: RouteNode, path: string, idx: nat, best: RouteNode?, params: seq<Param>,
                  more: seq<Param>, toks: seq<Token>, before: seq<Param>)
      requires Walking(table, at, toks, before, params) && |at| < |toks|
      requires table.Keys == nodes.Keys && at + [k] in nodes && nodes[at + [k]] == child
      requires k == Lit(toks[|at|].text) || (k == Par && at + [Lit(toks[|at|].text)] !in nodes)
      requires more == if k == Par then params + [Param(table[at + [k]].name, toks[|at|].text)] else params
      requires idx <= |path| && Tokens(path[idx..]) == toks[|at| + 1..]
      requires BestNow(at, best, |toks|, Slash(path))
      ensures LookupAt(at + [k], child, path, idx, best, more, toks, before)
    {
      var next := at + [k];
      assert Walking(table, next, toks, before, more) by { WalkSteps(table, at, k, toks, before, params); }
      assert BestIs(next, best, |toks|, Slash(path)) by { BestMoves(at, k, best, |toks|, Slash(path)); }
      assert |next| == |at| + 1;
    }

    lemma LookupStarts(path: string, before: seq<Param>)
      requires Valid() && root != null
      ensures LookupAt([], root, path, 0, null, before, Tokens(path), before)
    {
      WalkStarts(table, Tokens(path), before);
      assert path[0..] == path && Tokens(path)[0..] == Tokens(path);
    }

    /** Walks the raw path by index. The node and the parameters are those of `Resolve`; the parameters
        collected on the way are left in place when only a fallback is found. */
    method Lookup(path: string, before: seq<Param>) returns (found: RouteNode?, params: seq<Param>)
      requires Valid() && WellFormed(table)
      ensures Valid()
      ensures Answers(Resolve(table, Tokens(path), Slash(path), before), found, params)
    {
      params := before;
      if root == null {
        return null, params;
      }
      hide LookupAt, StopsAt, Answers, Resolve, Tokens, Slash;
      ghost var toks := Tokens(path);
      var cur: RouteNode, idx: nat, best: RouteNode? := root, 0, null;
      ghost var at: Path := [];
      LookupStarts(path, before);
      while true
        invariant Valid() && LookupAt(at, cur, path, idx, best, params, toks, before)
        decreases |toks| - |at|
      {
        var child, next, deepest, more, k := Visit(at, cur, path, idx, best, params, toks, before);
        if child == null {
          found, params := Finish(at, cur, path, idx, deepest, params, toks, before);
          return;
        }
        cur, idx, best, params, at := child, next, deepest, more, at + [k];
      }
    }

    /** best is the deepest subtree strictly above `at`. */
    ghost predicate BestIs(at: Path, best: RouteNode?, n: nat, slash: bool)
      reads this
    {
      if at == [] then best == null else BestNow(at[..|at| - 1], best, n, slash)
    }

    /** best is the deepest subtree down to `at`. */
    ghost predicate BestNow(at: Path, best: RouteNode?, n: nat, slash: bool)
      reads this
    {
      match DeepestSubtree(table, at, n, slash)
      case Some(p) => p in nodes && best == nodes[p]
      case None => best == null
    }

    lemma BestUpdated(at: Path, best: RouteNode?, n: nat, slash: bool)
      requires Valid() && at in nodes && BestIs(at, best, n, slash)
      ensures var here := nodes[at].subtree && (|at| < n || slash);
              BestNow(at, if here then nodes[at] else best, n, slash)
    {
      assert Mirrored(at);
    }

    lemma BestMoves(at: Path, k: Key, best: RouteNode?, n: nat, slash: bool)
      requires BestNow(at, best, n, slash)
      ensures BestIs(at + [k], best, n, slash)
    {
      LastKey(at, k);
    }

    lemma ChildAt(at: Path, k: Key)
      requires Valid() && at in nodes
      ensures nodes[at].Kids().At(k) == NodeAt(nodes, at + [k])
      ensures at + [k] in nodes ==> nodes[at + [k]].param == table[at + [k]].name
    {
      assert Mirrored(at) && Linked(nodes, at, kids[at]);
      assert at + [k] in nodes ==> Mirrored(at + [k]);
    }

    /** The methods an Allow header lists. */
    method AllowHeader(node: RouteNode) returns (allow: set<string>)
      ensures allow == AllowOf(node.handlers)
    {
      allow := node.handlers.Keys;
      if GET in allow {
        allow := allow + {HEAD};
      }
    }

    /** Whether the path is answered by a static prefix; earlier parameters do not matter. */
    method Redirects(path: string, params: seq<Param>) returns (yes: bool)
      requires Valid() && WellFormed(table)
      ensures yes == RedirectsTo(table, path)
    {
      var n, _ := Lookup(path, params);
      ResolveBefore(table, Tokens(path), Slash(path), params);
      if n == null {
        return false;
      }
      assert Mirrored(RouteMatch.Lookup(table, path).at);
      return n.subtree;
    }

    /** Dispatch: match, method choice, automatic OPTIONS, trailing-slash redirect. */
    method ServeHTTP(verb: string, path: string) returns (a: Action)
      requires Valid() && WellFormed(table)
      ensures a == Dispatch(table, verb, path)
    {
      var node, params := Lookup(path, []);
      if node == null {
        if !HasSuffix(path, "/") {
          var yes := Redirects(path + "/", params);
          if yes {
            return Redirect(path + "/");
          }
        }
        return NotFound;
      }
      assert Mirrored(RouteMatch.Lookup(table, path).at);
      if verb in node.handlers {
        return Serve(node.handlers[verb], params);
      }
      if verb == HEAD && GET in node.handlers {
        return Serve(node.handlers[GET], params);
      }
      var allow := AllowHeader(node);
      return if verb == OPTIONS then Options(allow) else MethodNotAllowed(allow);
    }

    /** The state registration keeps. */
    ghost predicate Sound()
      reads this, nodes.Values
    {
      Valid() && WellFormed(table) && StaticPaired(table)
    }

    /** Registers a route given in gin-style spelling. */
    method Handle(verb: string, path: string, chain: seq<nat>) returns (err: Error)
      requires Sound()
      modifies this, nodes.Values
      ensures Sound() && Grew(old(nodes))
      ensures err == BadPattern <==> Translate(path).Bad?
      ensures err == EmptyMethod <==> Translate(path).Good? && verb == ""
      ensures err == NoError <==> Translate(path).Good? && verb != ""
                                  && Accepts(old(table), HandledRoute(verb, path, chain))
      ensures err == NoError ==> table == Added(old(table), HandledRoute(verb, path, chain))
      ensures err != NoError ==> table == old(table) && nodes == old(nodes) && root == old(root)
    {
      var translated, params, ok := TranslateGinPattern(path);
      if !ok {
        return BadPattern;
      }
      if verb == "" {
        return EmptyMethod;
      }
      var segs, _ := ParsePattern(translated);
      err := Add(verb, segs, Chain(chain, params));
    }

    /** The loop that mounts a list of routes on an empty router and stops at the first error: `n` of them
        are mounted, in order, and all of them exactly when the list as a whole registers. */
    method Mount(es: seq<Registration>) returns (n: nat)
      requires Sound() && table == map[]
      modifies this, nodes.Values
      ensures Sound() && Grew(old(nodes)) && n <= |es|
      ensures Spelled(es[..n]) && RegisterAll(Routes(es[..n])) == Some(table)
      ensures n == |es| <==> Spelled(es) && RegisterAll(Routes(es)).Some?
    {
      hide Sound, Accepts, Added, RegisterAll, Spelled, Routes, HandledRoute, Translate;
      NoneRegistered(es);
      for i := 0 to |es|
        invariant Sound() && Grew(old(nodes))
        invariant Spelled(es[..i]) && RegisterAll(Routes(es[..i])) == Some(table)
      {
        RegistersNext(es, i, table);
        var err := Handle(es[i].verb, es[i].path, es[i].chain);
        if err != NoError {
          return i;
        }
      }
      assert es[..|es|] == es;
      return |es|;
    }

    /** Insert for an exact route. */
    method Add(verb: string, segs: seq<Segment>, handler: Handler) returns (err: Error)
      requires Sound() && WildcardLast(segs)
      modifies this, nodes.Values
      ensures Sound() && Grew(old(nodes))
      ensures err !in {EmptyMethod, BadPattern}
      ensures err == NoError <==> Accepts(old(table), Route(verb, segs, handler, false))
      ensures err == NoError ==> table == Added(old(table), Route(verb, segs, handler, false))
      ensures err != NoError ==> table == old(table) && nodes == old(nodes) && root == old(root)
    {
      hide Accepts, Added, WellFormed, StaticPaired, Valid;
      ExactRegisters(table, Route(verb, segs, handler, false));
      err := Insert(verb, segs, handler, false);
    }

    /** Registers a static prefix for GET and HEAD: both entries are added or nothing changes. */
    method HandleStatic(prefix: string) returns (err: Error)
      requires Sound()
      modifies this, nodes.Values
      ensures Sound() && Grew(old(nodes))
      ensures var segs, h := Parsed(StaticPattern(prefix)), StaticFiles(prefix);
              && (err == BadPattern <==> !WildcardLast(segs))
              && (err == NoError <==> WildcardLast(segs) && Accepts(old(table), StaticRoute(GET, segs, h)))
              && (err == NoError ==>
                    table == Added(Added(old(table), StaticRoute(GET, segs, h)), StaticRoute(HEAD, segs, h)))
      ensures err != NoError ==> table == old(table) && nodes == old(nodes) && root == old(root)
    {
      var pattern := prefix;
      if pattern == "" {
        pattern := "/";
      }
      if !HasSuffix(pattern, "/") {
        pattern := pattern + "/";
      }
      var segs, ok := ParsePattern(pattern);
      if !ok {
        return BadPattern;
      }
      err := AddStatic(segs, FileServer(TrimSuffix(pattern, "/")));
    }

    /** Insert for the two halves of a static prefix. */
    method AddStatic(segs: seq<Segment>, h: Handler) returns (err: Error)
      requires Sound() && WildcardLast(segs)
      modifies this, nodes.Values
      ensures Sound() && Grew(old(nodes))
      ensures err !in {EmptyMethod, BadPattern}
      ensures err == NoError <==> Accepts(old(table), StaticRoute(GET, segs, h))
      ensures err == NoError ==>
                table == Added(Added(old(table), StaticRoute(GET, segs, h)), StaticRoute(HEAD, segs, h))
      ensures err != NoError ==> table == old(table) && nodes == old(nodes) && root == old(root)
    {
      hide Accepts, Added, WellFormed, StaticPaired, Valid;
      StaticRegisters(table, segs, h);
      err := Insert(GET, segs, h, true);
      if err != NoError {
        return;
      }
      err := Insert(HEAD, segs, h, true);
    }
  }

  // ---- dispatch -----------------------------------------------------------------------------

  const OPTIONS := "OPTIONS"

  function AllowOf(handlers: map<string, Handler>): set<string> {
    handlers.Keys + if GET in handlers then {HEAD} else {}
  }

  /** The parameters the request's context gets: what was matched, if the registration collected a name; a
      file server gets none. */
  function Delivered(h: Handler, matched: seq<Param>): seq<Param> {
    if h.Chain? && h.names != [] then matched else []
  }

  ghost function Dispatch(t: Table, verb: string, path: string): Action {
    match RouteMatch.Lookup(t, path)
    case Missing =>
      if !Slash(path) && RedirectsTo(t, path + "/") then Redirect(path + "/") else NotFound
    case Found(p, params) =>
      var handlers := if p in t then t[p].handlers else map[];
      if verb in handlers then Serve(handlers[verb], params)
      else if verb == HEAD && GET in handlers then Serve(handlers[GET], params)
      else if verb == OPTIONS then Options(AllowOf(handlers))
      else MethodNotAllowed(AllowOf(handlers))
  }

  /** The path is answered by a static prefix. */
  ghost predicate RedirectsTo(t: Table, path: string) {
    var o := RouteMatch.Lookup(t, path);
    o.Found? && o.at in t && t[o.at].subtree
  }

  /** Parameters collected earlier change nothing but the parameters. */
  lemma ResolveBefore(t: Table, toks: seq<Token>, slash: bool, before: seq<Param>)
    ensures var o, o' := Resolve(t, toks, slash, []), Resolve(t, toks, slash, before);
            o.Found? == o'.Found? && (o.Found? ==> o.at == o'.at)
  {}

  /** The segments Handle registers: the parser's error is dropped, leaving none. */
  ghost function HandledSegs(path: string): seq<Segment>
    requires Translate(path).Good?
  {
    var segs := Parsed(Translate(path).text);
    if WildcardLast(segs) then segs else []
  }

  ghost function HandledRoute(verb: string, path: string, chain: seq<nat>): Route
    requires Translate(path).Good?
  {
    Route(verb, HandledSegs(path), Chain(chain, Translate(path).names), false)
  }

  /** One call of Handle. */
  datatype Registration = Registration(verb: string, path: string, chain: seq<nat>)

  /** Every path translates and every method is named. */
  ghost predicate Spelled(es: seq<Registration>) {
    forall i | 0 <= i < |es| :: Translate(es[i].path).Good? && es[i].verb != ""
  }

  ghost function Routes(es: seq<Registration>): (rs: seq<Route>)
    requires Spelled(es)
    ensures |rs| == |es|
  {
    seq(|es|, i requires 0 <= i < |es| => HandledRoute(es[i].verb, es[i].path, es[i].chain))
  }

  lemma {:induction false} RegisterPrefix(rs: seq<Route>, n: nat)
    requires n <= |rs| && RegisterAll(rs).Some?
    ensures RegisterAll(rs[..n]).Some?
  {
    if n == |rs| {
      assert rs[..n] == rs;
    } else {
      assert rs[..|rs| - 1][..n] == rs[..n];
      RegisterPrefix(rs[..|rs| - 1], n);
    }
  }

  lemma NoneRegistered(es: seq<Registration>)
    ensures Spelled(es[..0]) && RegisterAll(Routes(es[..0])) == Some(map[])
  {
    assert Routes(es[..0]) == [];
  }

  lemma RoutesNext(es: seq<Registration>, i: nat)
    requires i < |es| && Spelled(es[..i])
    ensures var e := es[i];
            Spelled(es[..i + 1]) <==> Translate(e.path).Good? && e.verb != ""
    ensures var e := es[i];
            Spelled(es[..i + 1]) ==>
              Routes(es[..i + 1]) == Routes(es[..i]) + [HandledRoute(e.verb, e.path, e.chain)]
  {
    hide Translate, HandledRoute;
    var next := es[..i + 1];
    assert next[i] == es[i] && forall k | 0 <= k < i :: es[..i][k] == next[k];
  }

  lemma RoutesPrefix(es: seq<Registration>, n: nat)
    requires n <= |es| && Spelled(es)
    ensures Spelled(es[..n]) && Routes(es[..n]) == Routes(es)[..n]
  {
    hide Translate, HandledRoute;
    assert forall k | 0 <= k < n :: es[..n][k] == es[k];
  }

  lemma RegisterSnoc(rs: seq<Route>, r: Route)
    ensures RegisterAll(rs + [r]) ==
            match RegisterAll(rs)
            case None => None
            case Some(t) => if Accepts(t, r) then Some(Added(t, r)) else None
  {
    assert (rs + [r])[..|rs|] == rs;
  }

  /** The list registers one further exactly when Handle accepts the next; if not, it never registers. */
  lemma RegistersNext(es: seq<Registration>, i: nat, t: Table)
    requires i < |es| && Spelled(es[..i]) && RegisterAll(Routes(es[..i])) == Some(t)
    ensures var e := es[i];
            var fits := Translate(e.path).Good? && e.verb != "" && Accepts(t, HandledRoute(e.verb, e.path, e.chain));
            if fits then
              && Spelled(es[..i + 1])
              && RegisterAll(Routes(es[..i + 1])) == Some(Added(t, HandledRoute(e.verb, e.path, e.chain)))
            else !(Spelled(es) && RegisterAll(Routes(es)).Some?)
  {
    hide RegisterAll, Spelled, Routes, Translate, Accepts, Added, HandledRoute;
    RoutesNext(es, i);
    var e := es[i];
    if Translate(e.path).Good? {
      RegisterSnoc(Routes(es[..i]), HandledRoute(e.verb, e.path, e.chain));
    }
    if Spelled(es) && RegisterAll(Routes(es)).Some? {
      RoutesPrefix(es, i + 1);
      RegisterPrefix(Routes(es), i + 1);
    }
  }

  function StaticPattern(prefix: string): string {
    var p := if prefix == "" then "/" else prefix;
    if HasSuffix(p, "/") then p else p + "/"
  }

  /** The file server behind a static prefix. */
  function StaticFiles(prefix: string): Handler {
    FileServer(TrimSuffix(StaticPattern(prefix), "/"))
  }

  lemma StaticRegisters(t: Table, segs: seq<Segment>, h: Handler)
    requires WellFormed(t) && StaticPaired(t) && WildcardLast(segs)
    ensures Accepts(t, StaticRoute(GET, segs, h)) ==>
            var u := Added(t, StaticRoute(GET, segs, h));
            && WellFormed(u) && Accepts(u, StaticRoute(HEAD, segs, h))
            && WellFormed(Added(u, StaticRoute(HEAD, segs, h)))
            && StaticPaired(Added(u, StaticRoute(HEAD, segs, h)))
  {
    if Accepts(t, StaticRoute(GET, segs, h)) {
      StaticBothOrNeither(t, segs, h);
      AddedWellFormed(t, StaticRoute(GET, segs, h));
      AddedWellFormed(Added(t, StaticRoute(GET, segs, h)), StaticRoute(HEAD, segs, h));
    }
  }

  lemma ExactRegisters(t: Table, r: Route)
    requires WellFormed(t) && StaticPaired(t) && WildcardLast(r.segs) && !r.subtree
    ensures Accepts(t, r) ==> WellFormed(Added(t, r)) && StaticPaired(Added(t, r))
  {
    if Accepts(t, r) {
      AddedWellFormed(t, r);
      ExactKeepsPaired(t, r);
    }
  }

  // ---- the loops over the path --------------------------------------------------------------

  lemma TokensLeft(path: string, idx: nat, toks: seq<Token>, n: nat)
    requires idx <= |path| && n <= |toks| && Tokens(path[idx..]) == toks[n..]
    ensures idx < |path| <==> n < |toks|
  {
    assert |Tokens(path[idx..])| == |toks| - n;
  }

  lemma TokenAt(path: string, idx: nat, next: int, toks: seq<Token>, n: nat)
    requires idx < |path| && n <= |toks| && Tokens(path[idx..]) == toks[n..] && next <= |path|
    requires AfterFirst(path[idx..]) == if next < 0 then "" else path[next..]
    ensures n < |toks| && toks[n] == Token(FirstText(path[idx..]), path[idx..])
    ensures Tokens(path[if next < 0 then |path| else next..]) == toks[n + 1..]
  {
    assert toks[n..][0] == toks[n] && toks[n..][1..] == toks[n + 1..];
    assert path[|path|..] == "";
  }

  lemma SlashRunFrom(path: string, idx: nat, i: nat)
    requires idx <= i <= |path| && (forall k | idx <= k < i :: path[k] == '/') && (i < |path| ==> path[i] != '/')
    ensures SlashRun(path[idx..]) == i - idx && path[idx..][i - idx..] == path[i..]
  {
    SlashRunIs(path[idx..]);
    assert forall k | 0 <= k < |path| - idx :: path[idx..][k] == path[idx + k];
  }

  lemma TextRunFrom(path: string, idx: nat, i: nat)
    requires idx <= i <= |path| && (forall k | idx <= k < i :: path[k] != '/') && (i < |path| ==> path[i] == '/')
    ensures TextRun(path[idx..]) == i - idx
    ensures path[idx..][..i - idx] == path[idx..i] && path[idx..][i - idx..] == path[i..]
  {
    var s := path[idx..];
    TextRunIs(s);
    var n := TextRun(s);
    assert forall k | 0 <= k < |s| :: s[k] == path[idx + k];
    assert forall k | 0 <= k < n :: s[..n][k] == s[k] && s[..n][k] in s[..n];
  }

  lemma FirstTextFrom(path: string, idx: nat, start: nat, i: nat)
    requires idx <= start <= i <= |path| && SlashRun(path[idx..]) == start - idx && TextRun(path[start..]) == i - start
    ensures FirstText(path[idx..]) == path[start..i]
    ensures AfterFirst(path[idx..]) == if i < |path| then path[i + 1..] else ""
  {
    hide SlashRun, TextRun;
    var t := path[idx..][start - idx..];
    assert t == path[start..];
    assert t[..i - start] == path[start..i];
    assert t[i - start..] == path[i..];
  }

  method SkipSlashesFrom(path: string, idx: nat) returns (i: nat)
    requires idx <= |path|
    ensures idx <= i <= |path| && SlashRun(path[idx..]) == i - idx && (i < |path| ==> path[i] != '/')
  {
    i := idx;
    while i < |path| && path[i] == '/'
      invariant idx <= i <= |path|
      invariant forall k | idx <= k < i :: path[k] == '/'
    {
      i := i + 1;
    }
    SlashRunFrom(path, idx, i);
  }

  method SkipTextFrom(path: string, idx: nat) returns (i: nat)
    requires idx <= |path|
    ensures idx <= i <= |path| && TextRun(path[idx..]) == i - idx
  {
    i := idx;
    while i < |path| && path[i] != '/'
      invariant idx <= i <= |path|
      invariant forall k | idx <= k < i :: path[k] != '/'
    {
      i := i + 1;
    }
    TextRunFrom(path, idx, i);
  }

  /** The next text from idx and where the text after it starts; -1 when nothing follows. */
  method NextSegment(path: string, idx: nat) returns (seg: string, next: int)
    requires idx <= |path|
    ensures seg == FirstText(path[idx..])
    ensures -1 <= next <= |path|
    ensures AfterFirst(path[idx..]) == if next < 0 then "" else path[next..]
  {
    hide FirstText, AfterFirst, SlashRun, TextRun;
    var start := SkipSlashesFrom(path, idx);
    if start >= |path| {
      FirstTextFrom(path, idx, start, start);
      return "", -1;
    }
    var end := SkipTextFrom(path, start);
    FirstTextFrom(path, idx, start, end);
    if end >= |path| {
      return path[start..end], -1;
    }
    return path[start..end], end + 1;
  }

  /** NextSegment, read on the texts of the whole path: it yields the n-th and moves past it. */
  method Cut(path: string, idx: nat, ghost toks: seq<Token>, ghost n: nat) returns (seg: string, next: int)
    requires idx < |path| && n < |toks| && Tokens(path[idx..]) == toks[n..]
    ensures toks[n] == Token(seg, path[idx..])
    ensures -1 <= next <= |path|
    ensures Tokens(path[if next < 0 then |path| else next..]) == toks[n + 1..]
  {
    seg, next := NextSegment(path, idx);
    TokenAt(path, idx, next, toks, n);
  }

  lemma RootOrEmpty(t: Table, segs: seq<Segment>)
    requires WellFormed(t)
    ensures [] in t || NamesAgree(t, segs)
    ensures Keys(segs)[..|segs|] == Keys(segs) && (Keys(segs) in t ==> [] in t)
  {
    assert Keys(segs)[..|segs|] == Keys(segs);
  }

  lemma PrefixOnBranch(t: Table, segs: seq<Segment>, i: nat)
    requires WellFormed(t) && i < |segs|
    ensures Keys(segs)[..i + 1] in t ==> Keys(segs)[..i] in t
  {
    if Keys(segs)[..i + 1] in t {
      PrefixesPresent(t, Keys(segs)[..i + 1], i);
      assert Keys(segs)[..i + 1][..i] == Keys(segs)[..i];
    }
  }

  /** Creates a node and makes it the child of `node` at k. */
  method Hang(ghost at: Path, node: RouteNode, k: Key, name: string, ghost e: Entry, ghost kids: Kids)
    returns (n: RouteNode)
    requires Mirrors(node, at, e, kids)
    modifies node
    ensures fresh(n) && n.param == name && Mirrors(n, at + [k], Entry(name, false, map[]), Links(map[], null, null))
    ensures Mirrors(node, at, e, kids.With(k, n))
  {
    n := new RouteNode(at + [k], name);
    node.Attach(k, n);
    LastKey(at, k);
  }

  lemma ParentsUpdated(nodes: map<Path, RouteNode>, next: map<Path, RouteNode>, at: Path, k: Key, n: RouteNode)
    requires next == nodes[at + [k] := n]
    requires at in nodes && forall q {:trigger ParentIn(nodes, q)} | q in nodes :: ParentIn(nodes, q)
    ensures forall q {:trigger ParentIn(next, q)} | q in next :: ParentIn(next, q)
  {
    LastKey(at, k);
    forall q | q in next ensures ParentIn(next, q) {
      if q != at + [k] { assert ParentIn(nodes, q); }
    }
  }

  lemma LinksUpdated(nodes: map<Path, RouteNode>, next: map<Path, RouteNode>, kids: map<Path, Kids>,
                     kids': map<Path, Kids>, at: Path, k: Key, n: RouteNode)
    requires at in nodes && at + [k] !in nodes && next == nodes[at + [k] := n]
    requires forall p {:trigger ParentIn(nodes, p)} | p in nodes :: ParentIn(nodes, p)
    requires AllLinked(nodes, kids) && kids'.Keys == next.Keys
    requires kids' == kids[at := kids[at].With(k, n)][at + [k] := Links(map[], null, null)]
    ensures AllLinked(next, kids')
  {
    var p := at + [k];
    forall q | q in next ensures Linked(next, q, kids'[q]) {
      if q == p {
        forall j: Key ensures NodeAt(next, p + [j]) == null {
          LastKey(p, j);
          assert p + [j] in nodes ==> ParentIn(nodes, p + [j]);
        }
      } else {
        forall j: Key ensures kids'[q].At(j) == NodeAt(next, q + [j]) {
          NodeAtUpdated(nodes, at, k, n, q, j);
          assert Linked(nodes, q, kids[q]);
          assert kids[q].At(j) == NodeAt(nodes, q + [j]);
        }
      }
    }
  }

  lemma {:induction false} GrownPresent(t: Table, segs: seq<Segment>, n: nat)
    requires WellFormed(t) && n <= |segs| && Keys(segs)[..n] in t
    ensures Grown(t, segs, n) == t
  {
    if n > 0 {
      PrefixOnBranch(t, segs, n - 1);
      hide WellFormed, NameAt;
      GrownPresent(t, segs, n - 1);
    }
  }

  lemma NamesStep(t: Table, segs: seq<Segment>, i: nat)
    requires i < |segs|
    ensures var p := Keys(segs)[..i + 1];
            NamesAgreeTo(t, segs, i) ==>
              (NamesAgreeTo(t, segs, i + 1) <==> (p in t ==> t[p].name == NameOf(segs[i])))
    ensures NamesAgree(t, segs) ==> NamesAgreeTo(t, segs, i + 1)
  {
    assert NameAt(segs, i + 1) == NameOf(segs[i]);
  }

  lemma StepOnBranch(t: Table, segs: seq<Segment>, i: nat)
    requires WellFormed(t) && i < |segs|
    ensures var p, g := Keys(segs)[..i + 1], Grown(t, segs, i);
            && p == Keys(segs)[..i] + [KeyOf(segs[i])]
            && (p in g <==> p in t)
            && Grown(t, segs, i + 1) == (if p in t then g else g[p := Entry(NameOf(segs[i]), false, map[])])
            && (p in t ==> Keys(segs)[..i] in t && g[p] == t[p] && (KeyOf(segs[i]).Lit? ==> t[p].name == ""))
  {
    hide WellFormed, Through;
    var p := Keys(segs)[..i + 1];
    assert p == Keys(segs)[..i] + [KeyOf(segs[i])];
    PrefixOnBranch(t, segs, i);
    LiteralUnnamed(t, p);
    GrownAt(t, segs, i, p);
  }

  lemma LiteralUnnamed(t: Table, p: Path)
    requires WellFormed(t) && p != []
    ensures p in t && p[|p| - 1].Lit? ==> t[p].name == ""
  {
  }
}
