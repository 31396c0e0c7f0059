/** What registration and dispatch promise together. */
module DispatchTheorems {
  import opened Wrappers
  import opened Text
  import opened RouteTable
  import opened RouteMatch
  import opened RouteTheorems
  import opened Patterns
  import opened PatternTheorems
  import opened PatternParts
  import opened Router

  // ---- Allow --------------------------------------------------------------------------------

  function Allowed(a: Action): set<string> {
    match a
    case Options(allow) => allow
    case MethodNotAllowed(allow) => allow
    case _ => {}
  }

  /** When a path is known but the method is refused, the Allow list is exact: a method is on it if and
      only if the same path is served for that method. */
  lemma AllowIsExact(t: Table, verb: string, path: string, other: string)
    requires Dispatch(t, verb, path).Options? || Dispatch(t, verb, path).MethodNotAllowed?
    ensures Dispatch(t, other, path).Serve? <==> other in Allowed(Dispatch(t, verb, path))
  {
    hide Lookup;
  }

  // ---- the handler served -------------------------------------------------------------------

  /** The request matches a route by its path and its method, or for HEAD a route for GET. */
  ghost predicate Answers(t: Table, r: Route, verb: string, path: string) {
    FoundAt(t, path, Keys(r.segs)) && (r.verb == verb || (verb == HEAD && r.verb == GET))
  }

  /** A route for HEAD stands where r does. */
  ghost predicate HasHead(rs: set<Route>, r: Route) {
    exists s :: s in rs && Owns(s, Keys(r.segs), HEAD)
  }

  /** A request for a route's own method and a path found at its position is served by its handler, with the
      parameters found; so is HEAD by a route for GET, unless a route for HEAD stands there. */
  lemma RouteServes(t: Table, rs: set<Route>, r: Route, path: string)
    requires Represents(t, rs) && r in rs && FoundAt(t, path, Keys(r.segs))
    ensures Dispatch(t, r.verb, path) == Serve(r.handler, Lookup(t, path).params)
    ensures r.verb == GET && !HasHead(rs, r) ==> Dispatch(t, HEAD, path) == Serve(r.handler, Lookup(t, path).params)
  {
    hide Lookup;
    assert Stored(t, r);
    var p := Keys(r.segs);
    if HEAD in t[p].handlers {
      var s :| s in rs && Owns(s, p, HEAD);
    }
  }

  /** The methods registered at a position, HEAD with every GET. */
  ghost function MethodsAt(rs: set<Route>, p: Path): set<string> {
    var verbs := set r | r in rs && Keys(r.segs) == p :: r.verb;
    verbs + if GET in verbs then {HEAD} else {}
  }

  /** Where a path is found and no route there has the method, the answer lists the methods there: as
      options if they were asked for, and as a refusal otherwise. */
  lemma NoRouteServes(t: Table, rs: set<Route>, p: Path, verb: string, path: string)
    requires Represents(t, rs) && p in t && FoundAt(t, path, p) && verb !in MethodsAt(rs, p)
    ensures Dispatch(t, verb, path) ==
            if verb == "OPTIONS" then Options(MethodsAt(rs, p)) else MethodNotAllowed(MethodsAt(rs, p))
  {
    hide Lookup;
    HandlersAt(t, rs, p);
  }

  lemma HandlersAt(t: Table, rs: set<Route>, p: Path)
    requires Represents(t, rs) && p in t
    ensures t[p].handlers.Keys == set r | r in rs && Keys(r.segs) == p :: r.verb
  {
    forall verb ensures verb in t[p].handlers <==> verb in set r | r in rs && Keys(r.segs) == p :: r.verb {
      if verb in t[p].handlers {
        var r :| r in rs && Owns(r, p, verb);
      }
      if r :| r in rs && Keys(r.segs) == p && r.verb == verb {
        assert Stored(t, r);
      }
    }
  }

  /** A request is served if and only if a route answers it, and then by that route's handler or, for HEAD,
      by the handler of the route for HEAD. */
  lemma ServedIff(t: Table, rs: set<Route>, verb: string, path: string)
    requires WellFormed(t) && Represents(t, rs)
    ensures Dispatch(t, verb, path).Serve? <==> exists r :: r in rs && Answers(t, r, verb, path)
    ensures Lookup(t, path).Missing? <==> Dispatch(t, verb, path).Redirect? || Dispatch(t, verb, path).NotFound?
  {
    hide Lookup, WellFormed, Represents;
    if r :| r in rs && Answers(t, r, verb, path) {
      RouteStored(t, rs, r);
    }
    if Dispatch(t, verb, path).Serve? {
      var p := Lookup(t, path).at;
      var own := if verb in t[p].handlers then verb else GET;
      var r := RouteOf(t, rs, p, own);
      assert Answers(t, r, verb, path);
    }
  }

  lemma RouteStored(t: Table, rs: set<Route>, r: Route)
    requires Represents(t, rs) && r in rs
    ensures Stored(t, r)
  {}

  lemma RouteOf(t: Table, rs: set<Route>, p: Path, verb: string) returns (r: Route)
    requires Represents(t, rs) && p in t && verb in t[p].handlers
    ensures r in rs && Keys(r.segs) == p && r.verb == verb
  {
    r :| r in rs && Owns(r, p, verb);
  }

  // ---- trailing-slash redirects -------------------------------------------------------------

  /** A redirect leads to the path with a slash added, which is served for GET and HEAD by the file
      server and is never redirected again. */
  lemma RedirectServes(t: Table, verb: string, path: string, again: string)
    requires WellFormed(t) && StaticPaired(t) && Dispatch(t, verb, path).Redirect?
    ensures Dispatch(t, verb, path).location == path + "/"
    ensures Dispatch(t, GET, path + "/").Serve? && Dispatch(t, HEAD, path + "/").Serve?
    ensures !Dispatch(t, again, path + "/").Redirect? && !Dispatch(t, again, path + "/").NotFound?
  {
    hide Lookup;
    assert GET in {GET, HEAD} && HEAD in {GET, HEAD};
  }

  lemma SlashAdded(s: string)
    requires s != "" && !Slash(s)
    ensures FirstText(s + "/") == FirstText(s)
    ensures AfterFirst(s + "/") == if AfterFirst(s) == "" then "" else AfterFirst(s) + "/"
    ensures AfterFirst(s) != "" ==> !Slash(AfterFirst(s))
  {
    var n := SlashRun(s);
    SlashRunIs(s);
    assert s[|s| - 1] != '/';
    SlashRunAppend(s);
    var t := s[n..];
    assert (s + "/")[n..] == t + "/";
    var m := TextRun(t);
    TextRunAppend(t);
    assert (t + "/")[..m] == t[..m];
    assert (t + "/")[m..] == t[m..] + "/";
    if t[m..] != "" {
      assert (t[m..] + "/")[1..] == t[m..][1..] + "/";
      assert t[m..][|t[m..]| - 1] == s[|s| - 1];
      TextRunIs(t);
    }
  }

  lemma {:induction false} SlashRunAppend(s: string)
    requires SlashRun(s) < |s|
    ensures SlashRun(s + "/") == SlashRun(s)
  {
    if s[0] == '/' {
      assert (s + "/")[1..] == s[1..] + "/";
      SlashRunAppend(s[1..]);
    }
  }

  lemma {:induction false} TextRunAppend(s: string)
    ensures TextRun(s + "/") == TextRun(s)
  {
    if s != "" && s[0] != '/' {
      assert (s + "/")[1..] == s[1..] + "/";
      TextRunAppend(s[1..]);
    }
  }

  /** Adding the slash does not change the texts, except that the empty path gets an empty text. */
  lemma SlashKeepsTexts(s: string)
    requires !Slash(s)
    ensures Texts(Tokens(s + "/")) == if s == "" then [""] else Texts(Tokens(s))
  {
    if s == "" {
      RootTokens();
      assert "" + "/" == "/";
    } else {
      SlashKeepsAll(s);
    }
  }

  lemma RootTokens()
    ensures Tokens("/") == [Token("", "/")]
  {
    var s := "/";
    SlashRunIs(s);
    assert SlashRun(s[1..]) == 0;
    assert s[SlashRun(s)..] == "" && FirstText(s) == "" && AfterFirst(s) == "";
  }

  lemma {:induction false} SlashKeepsAll(s: string)
    requires s != "" && !Slash(s)
    ensures Texts(Tokens(s + "/")) == Texts(Tokens(s))
    decreases |s|
  {
    SlashAdded(s);
    TokensUnfold(s);
    TokensUnfold(s + "/");
    hide AfterFirst, FirstText;
    var b := AfterFirst(s);
    if b == "" {
      assert Tokens(b) == [];
      assert Tokens(s + "/")[1..] == [];
    } else {
      SlashKeepsAll(b);
    }
    TextsUnfold(s);
    TextsUnfold(s + "/");
  }

  lemma {:induction false} FurthestByTexts(t: Table, at: Path, toks: seq<Token>, toks': seq<Token>)
    requires Texts(toks) == Texts(toks')
    ensures Furthest(t, at, toks) == Furthest(t, at, toks')
    decreases |toks|
  {
    if toks != [] {
      assert toks[0].text == Texts(toks)[0] == Texts(toks')[0] == toks'[0].text;
      assert Texts(toks[1..]) == Texts(toks)[1..] && Texts(toks'[1..]) == Texts(toks')[1..];
      FurthestByTexts(t, at + [Lit(toks[0].text)], toks[1..], toks'[1..]);
      FurthestByTexts(t, at + [Par], toks[1..], toks'[1..]);
    }
  }

  /** Where the walk of a path without trailing slash ends. */
  ghost function WalkedTo(t: Table, path: string): Path {
    Furthest(t, [], Tokens(path))
  }

  lemma DeepestAtEnd(t: Table, g: Path, n: nat)
    requires |g| <= n && DeepestSubtree(t, g, n, false) == None
    ensures DeepestSubtree(t, g, n, true) == if g in t && t[g].subtree && |g| == n then Some(g) else None
  {
    if g != [] { DeepestAbove(t, g[..|g| - 1], n); }
  }

  lemma {:induction false} DeepestAbove(t: Table, g: Path, n: nat)
    requires |g| < n
    ensures DeepestSubtree(t, g, n, true) == DeepestSubtree(t, g, n, false)
    decreases |g|
  {
    if g != [] { DeepestAbove(t, g[..|g| - 1], n); }
  }

  lemma MissDecides(t: Table, g: Path, toks: seq<Token>, toks': seq<Token>)
    requires |g| <= |toks| == |toks'| && WellFormed(t) && g in t
    requires Decide(t, g, toks, false, []).Missing?
    ensures var o := Decide(t, g, toks', true, []);
            (o.Found? && o.at in t && t[o.at].subtree) <==>
            |g| == |toks| && (t[g].subtree || (g + [Wild] in t && t[g + [Wild]].subtree))
  {
    DeepestAtEnd(t, g, |toks|);
  }

  /** The node is a static prefix, or its wildcard is one. */
  ghost predicate EndsStatic(t: Table, g: Path) {
    g in t && (t[g].subtree || (g + [Wild] in t && t[g + [Wild]].subtree))
  }

  /** The path "/" is answered by a static prefix: the walk takes the empty text for a literal or a
      parameter, then comes the wildcard, then the root. */
  ghost predicate RootIsStatic(t: Table)
    requires [] in t
  {
    var g := WalkedTo(t, "/");
    if g != [] && g in t && t[g].subtree then true
    else if g + [Wild] in t then t[g + [Wild]].subtree
    else t[[]].subtree
  }

  /** A path is redirected exactly when nothing answers it and its last text ends on a static prefix, or
      on a node whose wildcard is one; for the empty path the lookup of "/" decides. */
  lemma RedirectIff(t: Table, verb: string, path: string)
    requires WellFormed(t)
    ensures Dispatch(t, verb, path).Redirect? <==>
            && Lookup(t, path).Missing? && !Slash(path) && t != map[]
            && if path == "" then RootIsStatic(t)
               else |WalkedTo(t, path)| == |Tokens(path)| && EndsStatic(t, WalkedTo(t, path))
  {
    SlashEnds(path);
    hide Furthest, Tokens, Texts, Slash, Decide, Follows;
    if t != map[] && !Slash(path) && Lookup(t, path).Missing? {
      if path == "" {
        EmptyRedirects(t);
        assert "" + "/" == "/";
      } else {
        MissRedirects(t, path);
      }
    }
  }

  lemma MissRedirects(t: Table, path: string)
    requires WellFormed(t) && t != map[] && path != "" && !Slash(path) && Lookup(t, path).Missing?
    ensures RedirectsTo(t, path + "/") <==> |WalkedTo(t, path)| == |Tokens(path)| && EndsStatic(t, WalkedTo(t, path))
  {
    hide Furthest, Tokens, Texts, Slash, Decide, Follows;
    EndInTable(t, path);
    SlashEnds(path);
    SlashKeepsTexts(path);
    FurthestByTexts(t, [], Tokens(path), Tokens(path + "/"));
    assert |Tokens(path)| == |Texts(Tokens(path))| == |Tokens(path + "/")|;
    MissDecides(t, WalkedTo(t, path), Tokens(path), Tokens(path + "/"));
  }

  lemma EmptyRedirects(t: Table)
    requires WellFormed(t) && t != map[]
    ensures RedirectsTo(t, "/") <==> RootIsStatic(t)
  {
    hide Tokens, Furthest, Slash, Decide, Follows;
    RootTokens();
    RootEnds();
    EndInTable(t, "/");
    RootDecides(t, WalkedTo(t, "/"));
  }

  lemma RootEnds()
    ensures Slash("/")
  {}

  lemma RootDecides(t: Table, g: Path)
    requires WellFormed(t) && [] in t && g in t && |g| <= 1
    ensures var o := Decide(t, g, [Token("", "/")], true, []);
            (o.Found? && o.at in t && t[o.at].subtree) <==>
            if g != [] && t[g].subtree then true
            else if g + [Wild] in t then t[g + [Wild]].subtree
            else t[[]].subtree
  {
    hide Bindings;
    assert DeepestSubtree(t, [], 1, true) == if t[[]].subtree then Some([]) else None;
    assert g != [] ==> g[..|g| - 1] == [];
  }

  lemma EndInTable(t: Table, path: string)
    requires WellFormed(t) && t != map[]
    ensures WalkedTo(t, path) in t
  {}

  lemma SlashEnds(path: string)
    ensures Slash(path + "/")
  {}

  // ---- Handle -------------------------------------------------------------------------------

  /** Handle registers what a printed pattern says, names included. */
  lemma HandleRoundTrip(verb: string, segs: seq<Segment>, chain: seq<nat>)
    requires Printable(segs)
    ensures Translate(Print(segs)).Good?
    ensures HandledRoute(verb, Print(segs), chain) == Route(verb, segs, Chain(chain, PatternNames(segs)), false)
  {
    PatternRoundTrip(segs);
  }

  /** What is registered is what was parsed if and only if no part of the path is spelled as a wildcard
      with something behind it; in that case the dropped error makes it a route of the root. */
  lemma HandleKeepsIff(path: string)
    requires Translate(path).Good?
    ensures HandledSegs(path) == Parsed(Translate(path).text) <==> !EarlyWildcard(Split(path))
    ensures EarlyWildcard(Split(path)) ==> HandledSegs(path) == []
  {
    ParsesIff(path);
  }

  /** For a brace-free path the dropped parser error does not exist. */
  lemma HandleBraceFree(path: string)
    requires BraceFree(path) && Translate(path).Good?
    ensures HandledSegs(path) == Parsed(Translate(path).text)
  {
    BraceFreeParses(path);
  }

  /** With raw braces it can: `/{a...}/b` is registered as the route of the root. */
  lemma HandleRawBraces(a: string, b: string, path: string)
    requires ValidName(a) && PlainLiteral(b) && path == Slashed(["{" + a + "...}", b])
    ensures Translate(path).Good? && HandledSegs(path) == [] && |Parsed(path)| == 2
  {
    RawBracesEscape(a, b, path);
  }

  /** Register a printed exact pattern, build a path from values for its parameters, and the lookup
      answers with that route and exactly those values, unless a literal sibling spells one of them. */
  lemma RegisterBuildLookup(t: Table, r: Route, values: seq<string>, path: string)
    requires WellFormed(t) && Accepts(t, r) && !r.subtree && Printable(r.segs) && Wild !in Keys(r.segs)
    requires |values| == CountPar(Keys(r.segs)) && PlainTexts(Substitute(Keys(r.segs), values))
    requires path == Slashed(Substitute(Keys(r.segs), values))
    requires Unshadowed(Added(t, r), Keys(r.segs), Tokens(path))
    ensures Translate(Print(r.segs)).Good? && Parsed(Translate(Print(r.segs)).text) == r.segs
    ensures FoundAt(Added(t, r), path, Keys(r.segs))
    ensures Names(Lookup(Added(t, r), path).params) == Translate(Print(r.segs)).names
    ensures Values(Lookup(Added(t, r), path).params) == values
    ensures Dispatch(Added(t, r), r.verb, path) == Serve(r.handler, Lookup(Added(t, r), path).params)
  {
    hide Lookup, FoundAt, Tokens, Added, Accepts, Parsed, Translate, Printable, PlainTexts, Substitute, Slashed,
         Unshadowed;
    PatternRoundTrip(r.segs);
    PrintableLast(r.segs);
    AddedWellFormed(t, r);
    AddedNamed(t, r);
    AddedIsExact(t, r);
    BuildThenLookup(Added(t, r), r.segs, values, path);
    AddedServes(t, r, path);
  }

  /** The same for a pattern that ends in a wildcard, with a tail of texts for it. */
  lemma RegisterBuildLookupTail(t: Table, r: Route, q: Path, values: seq<string>, tail: seq<string>, path: string)
    requires WellFormed(t) && Accepts(t, r) && Printable(r.segs) && Keys(r.segs) == q + [Wild] && Wild !in q
    requires |values| == CountPar(q) && tail != []
    requires PlainTexts(WithTail(q, values, tail)) && path == Slashed(WithTail(q, values, tail))
    requires Unshadowed(Added(t, r), q, Tokens(path)) && WildcardOnly(Added(t, r), q, Tokens(path))
    ensures Translate(Print(r.segs)).Good? && Parsed(Translate(Print(r.segs)).text) == r.segs
    ensures FoundAt(Added(t, r), path, q + [Wild])
    ensures Names(Lookup(Added(t, r), path).params) == Translate(Print(r.segs)).names
    ensures Values(Lookup(Added(t, r), path).params) == values + [if q == [] then path else Joined(tail)]
    ensures Dispatch(Added(t, r), r.verb, path) == Serve(r.handler, Lookup(Added(t, r), path).params)
  {
    hide Lookup, FoundAt, Tokens, Added, Accepts, Parsed, Translate, Printable, PlainTexts, Substitute, Slashed,
         Unshadowed, WildcardOnly, Joined;
    PatternRoundTrip(r.segs);
    PrintableLast(r.segs);
    AddedWellFormed(t, r);
    AddedNamed(t, r);
    BuildThenLookupTail(Added(t, r), r.segs, q, values, tail, path);
    AddedServes(t, r, path);
  }

  lemma AddedServes(t: Table, r: Route, path: string)
    requires Accepts(t, r) && FoundAt(Added(t, r), path, Keys(r.segs))
    ensures Dispatch(Added(t, r), r.verb, path) == Serve(r.handler, Lookup(Added(t, r), path).params)
  {
    hide Lookup, Added;
    AddedAt(t, r, Keys(r.segs));
  }

  lemma PrintableLast(segs: seq<Segment>)
    requires Printable(segs)
    ensures WildcardLast(segs)
  {}

  /** When the handler of a matched route sees the parameters found: exactly when its path holds a colon or
      a star, or the pattern has no parameter. So `/{id}` matches with a parameter that is not delivered. */
  lemma DeliveredIff(t: Table, rs: set<Route>, verb: string, pattern: string, chain: seq<nat>, path: string)
    requires Translate(pattern).Good? && WellFormed(t) && Represents(t, rs)
    requires var r := HandledRoute(verb, pattern, chain);
             && r in rs && (IsExact(t, Keys(r.segs)) || IsWildcard(t, Keys(r.segs)))
             && FoundAt(t, path, Keys(r.segs))
    ensures var r := HandledRoute(verb, pattern, chain);
            Delivered(r.handler, Lookup(t, path).params) == Lookup(t, path).params <==>
            ':' in pattern || '*' in pattern || PatternNames(r.segs) == []
  {
    hide Lookup, FoundAt, Translate, HandledSegs, Tokens, WellFormed,
         Represents, PatternNames, Keys, IsExact, IsWildcard;
    NamesAreMarkers(pattern);
    SomeFoundIff(t, rs, path, HandledRoute(verb, pattern, chain));
  }

  /** A match finds parameters exactly when its pattern has some. */
  lemma SomeFoundIff(t: Table, rs: set<Route>, path: string, r: Route)
    requires WellFormed(t) && Represents(t, rs) && r in rs && FoundAt(t, path, Keys(r.segs))
    requires IsExact(t, Keys(r.segs)) || IsWildcard(t, Keys(r.segs))
    ensures Lookup(t, path).params == [] <==> PatternNames(r.segs) == []
  {
    hide Lookup, Tokens, WellFormed, Represents, Split, NonEmpty, Texts;
    if IsExact(t, Keys(r.segs)) {
      ExactMatchSound(t, rs, path, r);
      assert |Names(Lookup(t, path).params)| == |Lookup(t, path).params|;
    } else {
      var q := Keys(r.segs)[..|r.segs| - 1];
      assert Keys(r.segs) == q + [Wild];
      NamesWithWildcard(r.segs, q);
      WildcardMatchSound(t, rs, path, r, q);
    }
  }

  /** For brace-free paths every parameter found is delivered. */
  lemma BraceFreeDelivers(pattern: string)
    requires BraceFree(pattern) && Translate(pattern).Good?
    ensures ':' in pattern || '*' in pattern || PatternNames(HandledSegs(pattern)) == []
  {
    NamesAreMarkers(pattern);
    NamesKeptIff(pattern);
    HandleBraceFree(pattern);
    if ':' !in pattern && '*' !in pattern {
      forall i | 0 <= i < |Split(pattern)| ensures MarkersOpen(Split(pattern)[i]) {
        PartOfPath(pattern, i);
      }
    }
  }

  /** Of a list that mounts, every entry serves the requests found at its position, with its own chain. */
  lemma MountedServes(es: seq<Registration>, t: Table, i: nat, path: string)
    requires Spelled(es) && RegisterAll(Routes(es)) == Some(t) && i < |es|
    requires FoundAt(t, path, Keys(HandledSegs(es[i].path)))
    ensures Dispatch(t, es[i].verb, path) ==
            Serve(Chain(es[i].chain, Translate(es[i].path).names), Lookup(t, path).params)
  {
    hide Lookup, FoundAt, Translate, RegisterAll, Represents;
    RegistersIffCompatible(Routes(es));
    var r := Routes(es)[i];
    assert r in SetOf(Routes(es));
    RouteServes(t, SetOf(Routes(es)), r, path);
  }

  // ---- static prefixes ----------------------------------------------------------------------

  lemma {:induction false} SplitAppendSlash(s: string)
    ensures Split(s + "/") == Split(s) + [""]
  {
    if s == "" {
      assert s + "/" == "/" && ("/")[1..] == "";
      assert Split("") == [""];
    } else {
      assert (s + "/")[1..] == s[1..] + "/";
      SplitAppendSlash(s[1..]);
    }
  }

  lemma {:induction false} NonEmptyAppend(parts: seq<string>)
    ensures NonEmpty(parts + [""]) == NonEmpty(parts)
  {
    if parts == [] {
      assert ([] + [""])[1..] == [];
    } else {
      assert (parts + [""])[1..] == parts[1..] + [""];
      NonEmptyAppend(parts[1..]);
    }
  }

  /** A static prefix is mounted at the position its own parts spell: the slash that is added says nothing. */
  lemma StaticMounts(prefix: string)
    ensures Parsed(StaticPattern(prefix)) == Parsed(prefix)
  {
    if prefix == "" {
      SplitAppendSlash("");
      NonEmptyAppend(Split(""));
      assert "" + "/" == "/";
    } else if !HasSuffix(prefix, "/") {
      SplitAppendSlash(prefix);
      NonEmptyAppend(Split(prefix));
    }
  }

  /** Literal segments for texts. */
  function Literals(texts: seq<string>): (segs: seq<Segment>)
    ensures |segs| == |texts|
  {
    seq(|texts|, i requires 0 <= i < |texts| => Segment(texts[i], "", false))
  }

  /** For a prefix of plain texts, closed by a slash or not, the segments are those texts, and what the file
      server strips from a path below it leaves the rest, with its leading slash. */
  lemma StaticLiterals(texts: seq<string>, prefix: string, rest: string)
    requires forall i | 0 <= i < |texts| :: PlainLiteral(texts[i])
    requires prefix == Slashed(texts) || prefix == Slashed(texts) + "/"
    ensures Parsed(StaticPattern(prefix)) == Literals(texts)
    ensures var path := Slashed(texts) + "/" + rest;
            StaticFiles(prefix).FileServer? && HasPrefix(path, StaticFiles(prefix).strip)
            && path[|StaticFiles(prefix).strip|..] == "/" + rest
  {
    hide PlainLiteral, ParsePart, Slashed, HasSuffix, HasPrefix, Parsed;
    var base := Slashed(texts);
    PlainParse(texts);
    SlashedEnds(texts);
    NoSlash(base);
    StaticMounts(prefix);
    SlashParse(base);
    SlashStrips(base, prefix, rest);
  }

  lemma NoSlash(base: string)
    requires !Slash(base)
    ensures !HasSuffix(base, "/")
  {}

  lemma SlashParse(base: string)
    ensures Parsed(base + "/") == Parsed(base)
  {
    SplitAppendSlash(base);
    NonEmptyAppend(Split(base));
  }

  lemma SlashStrips(base: string, prefix: string, rest: string)
    requires !HasSuffix(base, "/") && (prefix == base || prefix == base + "/")
    ensures TrimSuffix(StaticPattern(prefix), "/") == base
    ensures HasPrefix(base + "/" + rest, base) && (base + "/" + rest)[|base|..] == "/" + rest
  {
    var closed := base + "/";
    assert closed[..|base|] == base && closed[|base|..] == "/";
    assert base == "" ==> closed == "/";
    assert StaticPattern(prefix) == closed;
    assert (closed + rest)[..|base|] == base && (closed + rest)[|base|..] == "/" + rest;
  }

  lemma PlainParse(texts: seq<string>)
    requires forall i | 0 <= i < |texts| :: PlainLiteral(texts[i])
    ensures Parsed(Slashed(texts)) == Literals(texts)
    ensures forall i | 0 <= i < |texts| :: Slashless(texts[i]) && texts[i] != ""
  {
    hide Slashed, Split, NonEmpty, PlainLiteral, ParsePart;
    forall i | 0 <= i < |texts|
      ensures Slashless(texts[i]) && texts[i] != "" && ParsePart(texts[i]) == Segment(texts[i], "", false)
    {
      PlainPart(texts[i]);
    }
    SplitSlashed(texts);
    NonEmptyIdentity(texts);
    FirstEmpty(texts);
    assert ParseParts(texts) == Literals(texts);
  }

  lemma PlainPart(text: string)
    requires PlainLiteral(text)
    ensures Slashless(text) && text != "" && ParsePart(text) == Segment(text, "", false)
  {
    assert text[0] in text;
  }

  lemma FirstEmpty(texts: seq<string>)
    ensures NonEmpty([""] + texts) == NonEmpty(texts)
  {
    assert ([""] + texts)[1..] == texts;
  }

  /** The table once HandleStatic has registered a prefix. */
  ghost function WithStatic(t: Table, prefix: string): Table {
    var segs := Parsed(StaticPattern(prefix));
    Added(Added(t, StaticRoute(GET, segs, StaticFiles(prefix))), StaticRoute(HEAD, segs, StaticFiles(prefix)))
  }

  /** What is registered for a static prefix serves GET and HEAD for every path found at the position that the
      prefix's own parts spell. */
  lemma StaticServes(t: Table, prefix: string, path: string)
    requires WellFormed(t) && StaticPaired(t)
    requires Accepts(t, StaticRoute(GET, Parsed(prefix), StaticFiles(prefix)))
    requires FoundAt(WithStatic(t, prefix), path, Keys(Parsed(prefix)))
    ensures var u := WithStatic(t, prefix);
            && Dispatch(u, GET, path) == Serve(StaticFiles(prefix), Lookup(u, path).params)
            && Dispatch(u, HEAD, path) == Serve(StaticFiles(prefix), Lookup(u, path).params)
  {
    hide Lookup, Added, WellFormed, StaticPaired, Accepts, Parsed, StaticPattern, StaticFiles;
    StaticMounts(prefix);
    var segs := Parsed(prefix);
    var g := StaticRoute(GET, segs, StaticFiles(prefix));
    AddedAt(t, g, Keys(segs));
    AddedAt(Added(t, g), StaticRoute(HEAD, segs, StaticFiles(prefix)), Keys(segs));
  }

  lemma AddedNamed(t: Table, r: Route)
    requires Accepts(t, r)
    ensures Named(Added(t, r), r.segs)
  {
    AddedNamesAgree(t, r);
    forall i | 0 <= i <= |r.segs| ensures Keys(r.segs)[..i] in Added(t, r) {
      AddedAt(t, r, Keys(r.segs)[..i]);
    }
  }

  lemma AddedIsExact(t: Table, r: Route)
    requires WellFormed(t) && Accepts(t, r) && !r.subtree && Wild !in Keys(r.segs)
    ensures IsExact(Added(t, r), Keys(r.segs))
  {
    var p := Keys(r.segs);
    AddedAt(t, r, p);
    assert r.verb in Added(t, r)[p].handlers;
    if p != [] { assert p[|p| - 1] in p; }
  }
}
