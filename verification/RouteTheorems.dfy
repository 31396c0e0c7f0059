/** Soundness, completeness and round trips of lookups. */
module RouteTheorems {
  import opened Text
  import opened RouteTable
  import opened RouteMatch

  // ---- soundness ----------------------------------------------------------------------------

  function Names(ps: seq<Param>): (r: seq<string>)
    ensures |r| == |ps|
  {
    seq(|ps|, i requires 0 <= i < |ps| => ps[i].name)
  }

  function Values(ps: seq<Param>): (r: seq<string>)
    ensures |r| == |ps|
  {
    seq(|ps|, i requires 0 <= i < |ps| => ps[i].value)
  }

  lemma NamesValuesConcat(a: seq<Param>, b: seq<Param>)
    ensures Names(a + b) == Names(a) + Names(b)
    ensures Values(a + b) == Values(a) + Values(b)
  {}

  function CountPar(p: Path): nat {
    if p == [] then 0 else CountPar(p[..|p| - 1]) + if p[|p| - 1] == Par then 1 else 0
  }

  /** The texts p stands for when its parameters take the given values in order. */
  function Substitute(p: Path, values: seq<string>): (texts: seq<string>)
    requires |values| == CountPar(p)
    requires Wild !in p
    ensures |texts| == |p|
  {
    if p == [] then []
    else
      var n := |p| - 1;
      match p[n]
      case Lit(text) => Substitute(p[..n], values) + [text]
      case Par => Substitute(p[..n], values[..|values| - 1]) + [values[|values| - 1]]
      case Wild => assert false; []
  }

  /** Parameter names along a pattern, in order. */
  function PatternNames(segs: seq<Segment>): seq<string> {
    if segs == [] then []
    else
      var n := |segs| - 1;
      PatternNames(segs[..n]) + if KeyOf(segs[n]).Lit? then [] else [segs[n].param]
  }

  lemma {:induction false} BindingsRebuild(t: Table, p: Path, toks: seq<Token>)
    requires Spells(p, toks)
    ensures |Bindings(t, p, toks)| == CountPar(p) && Wild !in p
    ensures Substitute(p, Values(Bindings(t, p, toks))) == Texts(toks)[..|p|]
    ensures forall v | v in Values(Bindings(t, p, toks)) :: v in Texts(toks)
  {
    if p != [] {
      var n := |p| - 1;
      BindingsRebuild(t, p[..n], toks);
      RebuildStep(t, p, toks);
    }
  }

  lemma RebuildStep(t: Table, p: Path, toks: seq<Token>)
    requires Spells(p, toks) && p != []
    requires var front := p[..|p| - 1];
             var bs := Bindings(t, front, toks);
             && |bs| == CountPar(front) && Wild !in front
             && Substitute(front, Values(bs)) == Texts(toks)[..|p| - 1]
             && forall v | v in Values(bs) :: v in Texts(toks)
    ensures |Bindings(t, p, toks)| == CountPar(p) && Wild !in p
    ensures Substitute(p, Values(Bindings(t, p, toks))) == Texts(toks)[..|p|]
    ensures forall v | v in Values(Bindings(t, p, toks)) :: v in Texts(toks)
  {
    hide Bindings, Values, Texts, Substitute, CountPar;
    var n := |p| - 1;
    var front := p[..n];
    var bs := Bindings(t, front, toks);
    var v := toks[n].text;
    TextsUpTo(toks, n);
    ValuesStep(t, p, toks);
    assert p == front + [p[n]];
    SubstituteSnoc(front, p[n], Values(bs), v);
  }

  lemma TextsUpTo(toks: seq<Token>, n: nat)
    requires n < |toks|
    ensures Texts(toks)[..n + 1] == Texts(toks)[..n] + [toks[n].text] && toks[n].text in Texts(toks)
  {
    assert Texts(toks)[n] == toks[n].text;
  }

  lemma SubstituteSnoc(front: Path, k: Key, values: seq<string>, v: string)
    requires Wild !in front && |values| == CountPar(front) && (k == Lit(v) || k == Par)
    ensures var vs := if k == Par then values + [v] else values;
            && Wild !in front + [k] && |vs| == CountPar(front + [k])
            && Substitute(front + [k], vs) == Substitute(front, values) + [v]
  {
    assert (front + [k])[..|front|] == front && (values + [v])[..|values|] == values;
  }

  lemma ValuesStep(t: Table, p: Path, toks: seq<Token>)
    requires 0 < |p| <= |toks|
    ensures var n := |p| - 1;
            var bs := Bindings(t, p[..n], toks);
            && Values(Bindings(t, p, toks)) == Values(bs) + (if p[n] == Par then [toks[n].text] else [])
            && |Bindings(t, p, toks)| == |bs| + (if p[n] == Par then 1 else 0)
            && (p[n] != Par ==> Values(Bindings(t, p, toks)) == Values(bs))
  {
    var n := |p| - 1;
    var bs := Bindings(t, p[..n], toks);
    var last := if p[n] == Par then [Param(NameIn(t, p), toks[n].text)] else [];
    NamesValuesConcat(bs, last);
    assert bs + [] == bs;
  }

  /** The branch of segs is in the table under the names of segs. */
  ghost predicate Named(t: Table, segs: seq<Segment>) {
    forall i | 0 <= i <= |segs| :: Keys(segs)[..i] in t && t[Keys(segs)[..i]].name == NameAt(segs, i)
  }

  lemma RouteNamed(t: Table, rs: set<Route>, r: Route)
    requires Represents(t, rs) && r in rs
    ensures Named(t, r.segs) && Stored(t, r)
  {
    forall i | 0 <= i <= |r.segs| ensures Keys(r.segs)[..i] in t && t[Keys(r.segs)[..i]].name == NameAt(r.segs, i) {
      assert Through(r.segs, Keys(r.segs)[..i]);
    }
  }

  lemma {:induction false} BindingsNames(t: Table, segs: seq<Segment>, n: nat, toks: seq<Token>)
    requires Named(t, segs) && n <= |segs| && n <= |toks|
    requires Wild !in Keys(segs)[..n]
    ensures Names(Bindings(t, Keys(segs)[..n], toks)) == PatternNames(segs[..n])
  {
    if n > 0 {
      var p := Keys(segs)[..n];
      BindingsNames(t, segs, n - 1, toks);
      assert p[..n - 1] == Keys(segs)[..n - 1];
      assert segs[..n][..n - 1] == segs[..n - 1];
      assert p[n - 1] == KeyOf(segs[n - 1]);
      NamesValuesConcat(Bindings(t, p[..n - 1], toks),
                        if p[n - 1] == Par then [Param(NameIn(t, p), toks[n - 1].text)] else []);
    }
  }

  /** ps binds the names of segs, in order, to values that turn the keys p back into the texts. */
  ghost predicate Binds(ps: seq<Param>, names: seq<string>, p: Path, texts: seq<string>) {
    && Names(ps) == names
    && |ps| == CountPar(p) && Wild !in p
    && Substitute(p, Values(ps)) == texts
  }

  lemma BranchBinds(t: Table, segs: seq<Segment>, n: nat, toks: seq<Token>)
    requires Named(t, segs) && n <= |segs| && Spells(Keys(segs)[..n], toks)
    ensures Binds(Bindings(t, Keys(segs)[..n], toks), PatternNames(segs[..n]), Keys(segs)[..n], Texts(toks)[..n])
    ensures forall v | v in Values(Bindings(t, Keys(segs)[..n], toks)) :: v in Texts(toks)
  {
    BindingsRebuild(t, Keys(segs)[..n], toks);
    BindingsNames(t, segs, n, toks);
  }

  lemma ExactAnswer(t: Table, path: string, p: Path)
    requires WellFormed(t) && IsExact(t, p) && FoundAt(t, path, p)
    ensures !Slash(path) && |p| == |Tokens(path)| && Spells(p, Tokens(path))
    ensures Lookup(t, path).params == Bindings(t, p, Tokens(path))
  {
    ExactFoundIff(t, path, p);
    OnTheWalk(t, p, Tokens(path));
    assert Furthest(t, [], Tokens(path)) == p;
    assert [] + Bindings(t, p, Tokens(path)) == Bindings(t, p, Tokens(path));
  }

  lemma ExactParams(t: Table, path: string, segs: seq<Segment>, ps: seq<Param>)
    requires Named(t, segs) && !Slash(path) && |segs| == |Tokens(path)| && Spells(Keys(segs), Tokens(path))
    requires ps == Bindings(t, Keys(segs), Tokens(path))
    ensures Binds(ps, PatternNames(segs), Keys(segs), NonEmpty(Split(path))) && "" !in Values(ps)
  {
    hide Named, Spells, Tokens, Split, NonEmpty, Bindings, PatternNames, Binds, Slash, Keys, Texts;
    WholeSlices(segs, Texts(Tokens(path)));
    BranchBinds(t, segs, |segs|, Tokens(path));
    TokensAreParts(path);
  }

  lemma WholeSlices(segs: seq<Segment>, texts: seq<string>)
    requires |segs| == |texts|
    ensures Keys(segs)[..|segs|] == Keys(segs) && segs[..|segs|] == segs && texts[..|segs|] == texts
  {}

  /** A found exact route matches the whole path: its parameters are the pattern's names in order with
      non-empty values, and substituting the values back gives the path's parts. */
  lemma ExactMatchSound(t: Table, rs: set<Route>, path: string, r: Route)
    requires WellFormed(t) && Represents(t, rs) && r in rs && IsExact(t, Keys(r.segs))
    requires FoundAt(t, path, Keys(r.segs))
    ensures Binds(Lookup(t, path).params, PatternNames(r.segs), Keys(r.segs), NonEmpty(Split(path)))
    ensures "" !in Values(Lookup(t, path).params)
  {
    RouteNamed(t, rs, r);
    ExactAnswer(t, path, Keys(r.segs));
    ExactParams(t, path, r.segs, Lookup(t, path).params);
  }

  lemma WildcardAnswer(t: Table, path: string, q: Path)
    requires WellFormed(t) && IsWildcard(t, q + [Wild]) && FoundAt(t, path, q + [Wild])
    ensures Spells(q, Tokens(path)) && (|q| == |Tokens(path)| ==> Slash(path))
    ensures Lookup(t, path).params ==
            Bindings(t, q, Tokens(path)) + [Param(NameIn(t, q + [Wild]), RestAt(Tokens(path), |q|))]
  {
    var toks := Tokens(path);
    var g := Furthest(t, [], toks);
    WalkReaches(t, toks);
    WildcardDecided(t, g, toks, Slash(path), q);
    assert q == g;
    DeepestIs(t, g, |toks|, Slash(path));
    LastKey(g, Wild);
    assert [] + Bindings(t, g, toks) == Bindings(t, g, toks);
  }

  /** ps binds the texts before the wildcard and gives the wildcard a suffix of the path. */
  ghost predicate BindsTail(ps: seq<Param>, segs: seq<Segment>, q: Path, path: string) {
    var n := |q|;
    && n < |segs| && n <= |Tokens(path)|
    && |ps| > 0
    && Binds(ps[..|ps| - 1], PatternNames(segs[..n]), q, Texts(Tokens(path))[..n])
    && ps[|ps| - 1].name == segs[n].param
    && HasSuffix(path, ps[|ps| - 1].value)
    && (ps[|ps| - 1].value == "" <==> n == |Tokens(path)|)
    && (ps[|ps| - 1].value == "" ==> Slash(path))
  }

  lemma TailValue(path: string, n: nat)
    requires n <= |Tokens(path)| && (n == |Tokens(path)| ==> Slash(path))
    ensures HasSuffix(path, RestAt(Tokens(path), n))
    ensures RestAt(Tokens(path), n) == "" <==> n == |Tokens(path)|
    ensures RestAt(Tokens(path), n) == "" ==> Slash(path)
  {
    if n < |Tokens(path)| {
      RestIsSuffix(path, n);
      RestNonEmpty(path, n);
    }
  }

  lemma SpelledLength(q: Path, toks: seq<Token>)
    requires Spells(q, toks)
    ensures |q| <= |toks|
  {}

  lemma TailBinds(t: Table, segs: seq<Segment>, q: Path, path: string)
    requires Named(t, segs) && Keys(segs) == q + [Wild]
    requires Spells(q, Tokens(path)) && (|q| == |Tokens(path)| ==> Slash(path))
    ensures BindsTail(Bindings(t, q, Tokens(path)) + [Param(NameIn(t, q + [Wild]), RestAt(Tokens(path), |q|))],
                      segs, q, path)
  {
    hide Named, Spells, Tokens, Bindings, PatternNames, Binds, HasSuffix, Slash, NameIn, RestAt, Texts;
    var n, toks := |q|, Tokens(path);
    SpelledLength(q, toks);
    WildcardName(t, segs, q);
    var bs, last := Bindings(t, q, toks), Param(NameIn(t, q + [Wild]), RestAt(toks, n));
    assert n < |segs|;
    assert Keys(segs)[..n] == q;
    BranchBinds(t, segs, n, toks);
    TailValue(path, n);
    assert (bs + [last])[..|bs + [last]| - 1] == bs;
  }

  lemma WildcardName(t: Table, segs: seq<Segment>, q: Path)
    requires Named(t, segs) && Keys(segs) == q + [Wild]
    ensures NameIn(t, q + [Wild]) == segs[|q|].param
  {
    LastKey(q, Wild);
    assert Keys(segs)[..|q| + 1] == q + [Wild];
    assert KeyOf(segs[|q|]) == Wild;
  }

  /** A found wildcard route matches the texts before the wildcard, its parameters are the pattern's
      names in order, and the wildcard's own value is a suffix of the path, empty exactly where no text is left,
      which is at a closing slash. */
  lemma WildcardMatchSound(t: Table, rs: set<Route>, path: string, r: Route, q: Path)
    requires WellFormed(t) && Represents(t, rs) && r in rs && Keys(r.segs) == q + [Wild]
    requires FoundAt(t, path, q + [Wild])
    ensures BindsTail(Lookup(t, path).params, r.segs, q, path)
  {
    RouteNamed(t, rs, r);
    LastKey(q, Wild);
    WildcardAnswer(t, path, q);
    TailBinds(t, r.segs, q, path);
  }

  lemma {:induction false} RestNonEmpty(s: string, i: nat)
    requires i < |Tokens(s)|
    ensures Tokens(s)[i].rest != ""
    decreases |s|
  {
    TokensUnfold(s);
    hide AfterFirst;
    if i > 0 { RestNonEmpty(AfterFirst(s), i - 1); }
  }

  // ---- completeness -------------------------------------------------------------------------

  ghost predicate HasLiteral(t: Table, p: Path) {
    exists text :: p + [Lit(text)] in t
  }

  /** The children of every node are of one kind: literals, or the parameter, or the wildcard. */
  ghost predicate Unambiguous(t: Table) {
    && (forall p | p + [Par] in t :: !HasLiteral(t, p) && p + [Wild] !in t)
    && (forall p | p + [Wild] in t :: !HasLiteral(t, p))
  }

  /** A registered pattern, exact or wildcard, matches a path without trailing slash. */
  ghost predicate Matches(p: Path, toks: seq<Token>) {
    if p != [] && p[|p| - 1] == Wild then |p| - 1 < |toks| && Spells(p[..|p| - 1], toks)
    else |p| == |toks| && Spells(p, toks)
  }

  ghost predicate IsEntry(t: Table, p: Path) {
    IsExact(t, p) || IsWildcard(t, p)
  }

  lemma NoShadow(t: Table, p: Path, toks: seq<Token>)
    requires WellFormed(t) && Unambiguous(t) && p in t && Spells(p, toks)
    ensures Unshadowed(t, p, toks)
  {
    forall i | 0 <= i < |p| && p[i] == Par ensures p[..i] + [Lit(toks[i].text)] !in t {
      PrefixesPresent(t, p, i + 1);
      assert p[..i + 1] == p[..i] + [Par];
      assert !HasLiteral(t, p[..i]);
    }
  }

  lemma WildcardStandsAlone(t: Table, q: Path, toks: seq<Token>)
    requires Unambiguous(t) && q + [Wild] in t && |q| < |toks|
    ensures WildcardOnly(t, q, toks)
  {
    assert !HasLiteral(t, q);
  }

  lemma ExactMatchFoundIff(t: Table, path: string, p: Path)
    requires WellFormed(t) && Unambiguous(t) && IsExact(t, p) && !Slash(path)
    ensures FoundAt(t, path, p) <==> Matches(p, Tokens(path))
  {
    ExactFoundIff(t, path, p);
    if Spells(p, Tokens(path)) { NoShadow(t, p, Tokens(path)); }
  }

  lemma WildcardMatchFoundIff(t: Table, path: string, q: Path)
    requires WellFormed(t) && Unambiguous(t) && IsWildcard(t, q + [Wild]) && !Slash(path)
    ensures FoundAt(t, path, q + [Wild]) <==> Matches(q + [Wild], Tokens(path))
  {
    LastKey(q, Wild);
    WildcardFoundIff(t, path, q);
    PrefixesPresent(t, q + [Wild], |q|);
    if |q| < |Tokens(path)| { WildcardStandsAlone(t, q, Tokens(path)); }
    if Spells(q, Tokens(path)) { NoShadow(t, q, Tokens(path)); }
  }

  /** On an unambiguous table a path without trailing slash is answered by the one exact or wildcard
      entry that matches it, if there is one, and by no such entry otherwise. */
  lemma MatchFoundIff(t: Table, path: string, p: Path)
    requires WellFormed(t) && Unambiguous(t) && IsEntry(t, p) && !Slash(path)
    ensures FoundAt(t, path, p) <==> Matches(p, Tokens(path))
  {
    if IsExact(t, p) {
      ExactMatchFoundIff(t, path, p);
    } else {
      assert p == p[..|p| - 1] + [Wild];
      WildcardMatchFoundIff(t, path, p[..|p| - 1]);
    }
  }

  lemma MatchIsUnique(t: Table, path: string, p: Path, q: Path)
    requires WellFormed(t) && Unambiguous(t) && IsEntry(t, p) && IsEntry(t, q) && !Slash(path)
    requires Matches(p, Tokens(path)) && Matches(q, Tokens(path))
    ensures p == q
  {
    MatchFoundIff(t, path, p);
    MatchFoundIff(t, path, q);
  }

  // ---- lookups that miss --------------------------------------------------------------------

  function LiteralSegment(text: string): Segment { Segment(text, "", false) }

  function ParamSegment(name: string): Segment { Segment("", name, false) }

  /** A literal sibling hides an entry that takes a parameter there, whatever follows. */
  lemma ShadowedIsMissed(t: Table, path: string, p: Path, i: nat)
    requires WellFormed(t) && IsExact(t, p) && i < |p| && p[i] == Par
    requires i < |Tokens(path)| && p[..i] + [Lit(Tokens(path)[i].text)] in t
    ensures !FoundAt(t, path, p)
  {
    ExactFoundIff(t, path, p);
  }

  function LiteralPair(h: Handler, a: string, b: string): Route {
    Route(GET, [LiteralSegment(a), LiteralSegment(b)], h, false)
  }

  function ParamPair(h: Handler, x: string, c: string): Route {
    Route(GET, [ParamSegment(x), LiteralSegment(c)], h, false)
  }

  lemma RegisteredHolds(rs: seq<Route>, i: nat)
    requires PairwiseCompatible(rs) && i < |rs|
    ensures RegisterAll(rs).Some? && Stored(RegisterAll(rs).value, rs[i]) && Named(RegisterAll(rs).value, rs[i].segs)
  {
    RegistersIffCompatible(rs);
    assert rs[i] in SetOf(rs);
    RouteNamed(RegisterAll(rs).value, SetOf(rs), rs[i]);
  }

  lemma PairsCompatible(r: Route, s: Route, h: Handler, a: string, b: string, x: string, c: string)
    requires r == LiteralPair(h, a, b) && s == ParamPair(h, x, c) && x != ""
    ensures Compatible(r, s)
  {
    assert forall p: Path :: Through(r.segs, p) && p != [] ==> p[0] == Lit(a);
    assert forall p: Path :: Through(s.segs, p) && p != [] ==> p[0] == Par;
    assert Keys(r.segs)[0] != Keys(s.segs)[0];
  }

  lemma PairMatches(p: Path, toks: seq<Token>, a: string, c: string)
    requires p == [Par, Lit(c)] && Texts(toks) == [a, c]
    ensures Matches(p, toks) && toks[0].text == a
  {
    assert toks[0].text == Texts(toks)[0] && toks[1].text == Texts(toks)[1];
  }

  lemma PairHidden(t: Table, path: string, p: Path, a: string)
    requires WellFormed(t) && IsExact(t, p) && |p| == 2 && p[0] == Par && [Lit(a)] in t
    requires |Tokens(path)| > 0 && Tokens(path)[0].text == a
    ensures !FoundAt(t, path, p)
  {
    assert p[..0] + [Lit(a)] == [Lit(a)];
    ShadowedIsMissed(t, path, p, 0);
  }

  lemma PairTable(t: Table, r: Route, s: Route, h: Handler, a: string, b: string, x: string, c: string)
    requires r == LiteralPair(h, a, b) && s == ParamPair(h, x, c) && x != ""
    requires Named(t, r.segs) && Stored(t, s)
    ensures Keys(s.segs) == [Par, Lit(c)] && IsExact(t, Keys(s.segs)) && [Lit(a)] in t
  {
    assert Keys(r.segs)[..1] == [Lit(a)];
  }

  /** The walk never backtracks: with /a/b and /:x/c registered, /a/c matches /:x/c and is not found,
      whatever the texts and the name are. */
  lemma NoBacktracking(h: Handler, a: string, b: string, x: string, c: string, rs: seq<Route>, path: string)
    requires rs == [LiteralPair(h, a, b), ParamPair(h, x, c)] && x != ""
    requires Texts(Tokens(path)) == [a, c]
    ensures RegisterAll(rs).Some?
    ensures IsExact(RegisterAll(rs).value, Keys(rs[1].segs))
    ensures Matches(Keys(rs[1].segs), Tokens(path))
    ensures !FoundAt(RegisterAll(rs).value, path, Keys(rs[1].segs))
  {
    hide Lookup, FoundAt, Tokens, Texts, Stored, Named, IsExact, Matches, Compatible, RegisterAll;
    PairsCompatible(rs[0], rs[1], h, a, b, x, c);
    RegisteredHolds(rs, 0);
    RegisteredHolds(rs, 1);
    RegisteredWellFormed(rs);
    var t, p := RegisterAll(rs).value, Keys(rs[1].segs);
    PairTable(t, rs[0], rs[1], h, a, b, x, c);
    PairMatches(p, Tokens(path), a, c);
    PairHidden(t, path, p, a);
  }

  lemma {:induction false} RegisteredWellFormed(rs: seq<Route>)
    requires RegisterAll(rs).Some? && forall i | 0 <= i < |rs| :: WildcardLast(rs[i].segs)
    ensures WellFormed(RegisterAll(rs).value)
  {
    if rs == [] {
      EmptyWellFormed();
    } else {
      RegisteredWellFormed(rs[..|rs| - 1]);
      AddedWellFormed(RegisterAll(rs[..|rs| - 1]).value, rs[|rs| - 1]);
    }
  }

  // ---- round trip: build a path, look it up -------------------------------------------------

  ghost predicate PlainTexts(texts: seq<string>) {
    forall i | 0 <= i < |texts| :: texts[i] != "" && Slashless(texts[i])
  }

  lemma {:induction false} SlashedEnds(texts: seq<string>)
    requires PlainTexts(texts)
    ensures !Slash(Slashed(texts))
  {
    if texts != [] {
      SlashedEnds(texts[1..]);
      var s, tail := Slashed(texts), Slashed(texts[1..]);
      if tail == "" {
        assert s[|s| - 1] == texts[0][|texts[0]| - 1];
      } else {
        assert s[|s| - 1] == tail[|tail| - 1];
        assert tail[|tail| - 1..] == [tail[|tail| - 1]];
      }
    }
  }

  /** A path built from plain texts is cut back into them. */
  lemma SlashedTokens(texts: seq<string>)
    requires PlainTexts(texts)
    ensures !Slash(Slashed(texts)) && Texts(Tokens(Slashed(texts))) == texts
  {
    SlashedEnds(texts);
    TokensAreParts(Slashed(texts));
    SplitSlashed(texts);
    NonEmptyIdentity(texts);
    assert ([""] + texts)[1..] == texts;
  }

  lemma {:induction false} SubstituteSpells(p: Path, values: seq<string>, toks: seq<Token>)
    requires |values| == CountPar(p) && Wild !in p && |p| <= |toks|
    requires Substitute(p, values) == Texts(toks)[..|p|]
    ensures Spells(p, toks)
  {
    if p != [] {
      var n := |p| - 1;
      var front := p[..n];
      assert Texts(toks)[..|p|][..n] == Texts(toks)[..n];
      assert Substitute(p, values)[n] == toks[n].text;
      match p[n]
      case Lit(text) =>
        assert Substitute(p, values)[..n] == Substitute(front, values);
        SubstituteSpells(front, values, toks);
      case Par =>
        assert Substitute(p, values)[..n] == Substitute(front, values[..|values| - 1]);
        SubstituteSpells(front, values[..|values| - 1], toks);
      case Wild =>
        assert false;
    }
  }

  /** Different values give different texts. */
  lemma {:induction false} SubstituteInjective(p: Path, v: seq<string>, w: seq<string>)
    requires |v| == CountPar(p) == |w| && Wild !in p
    requires Substitute(p, v) == Substitute(p, w)
    ensures v == w
  {
    if p != [] {
      var n := |p| - 1;
      var front := p[..n];
      match p[n]
      case Lit(text) =>
        assert Substitute(p, v)[..n] == Substitute(front, v) && Substitute(p, w)[..n] == Substitute(front, w);
        SubstituteInjective(front, v, w);
      case Par =>
        var v', w' := v[..|v| - 1], w[..|w| - 1];
        assert Substitute(p, v)[..n] == Substitute(front, v') && Substitute(p, w)[..n] == Substitute(front, w');
        SubstituteInjective(front, v', w');
        assert Substitute(p, v)[n] == v[|v| - 1] && Substitute(p, w)[n] == w[|w| - 1];
        assert v == v' + [v[|v| - 1]] && w == w' + [w[|w| - 1]];
      case Wild =>
        assert false;
    }
  }

  lemma BuiltPathSpells(p: Path, values: seq<string>, path: string)
    requires Wild !in p && |values| == CountPar(p)
    requires PlainTexts(Substitute(p, values)) && path == Slashed(Substitute(p, values))
    ensures !Slash(path) && |p| == |Tokens(path)| && Spells(p, Tokens(path))
    ensures NonEmpty(Split(path)) == Substitute(p, values)
  {
    var texts := Substitute(p, values);
    SlashedTokens(texts);
    TokensAreParts(path);
    assert Texts(Tokens(path))[..|p|] == texts;
    SubstituteSpells(p, values, Tokens(path));
  }

  /** A path built from a registered exact pattern and values is answered by that entry, with exactly
      those values under the pattern's names, unless a literal sibling spells one of the values. */
  lemma BuildThenLookup(t: Table, segs: seq<Segment>, values: seq<string>, path: string)
    requires WellFormed(t) && Named(t, segs) && IsExact(t, Keys(segs))
    requires Wild !in Keys(segs) && |values| == CountPar(Keys(segs))
    requires PlainTexts(Substitute(Keys(segs), values)) && path == Slashed(Substitute(Keys(segs), values))
    ensures FoundAt(t, path, Keys(segs)) <==> Unshadowed(t, Keys(segs), Tokens(path))
    ensures FoundAt(t, path, Keys(segs)) ==>
              Names(Lookup(t, path).params) == PatternNames(segs) && Values(Lookup(t, path).params) == values
  {
    BuiltPathSpells(Keys(segs), values, path);
    ExactFoundIff(t, path, Keys(segs));
    hide Lookup, Tokens, PatternNames, Split, NonEmpty, PlainTexts, Named, Bindings;
    if FoundAt(t, path, Keys(segs)) {
      ExactAnswer(t, path, Keys(segs));
      ExactParams(t, path, segs, Lookup(t, path).params);
      SubstituteInjective(Keys(segs), values, Values(Lookup(t, path).params));
    }
  }

  lemma {:induction false} JoinedTail(texts: seq<string>, k: nat)
    requires PlainTexts(texts) && k < |texts|
    ensures k < |Tokens(Joined(texts))| && Tokens(Joined(texts))[k].rest == Joined(texts[k..])
  {
    hide Joined, Tokens, AfterFirst, FirstText, PlainTexts;
    var s, tail := Joined(texts), texts[1..];
    JoinedFirst(s, texts, s);
    TokensUnfold(s);
    if k > 0 {
      PlainTail(texts);
      JoinedTail(tail, k - 1);
      assert Tokens(s)[k] == Tokens(s)[1..][k - 1];
      assert tail[k - 1..] == texts[k..];
    } else {
      assert texts[0..] == texts;
    }
  }

  lemma PlainTail(texts: seq<string>)
    requires PlainTexts(texts) && texts != []
    ensures PlainTexts(texts[1..])
  {
  }

  lemma {:induction false} TextRunExact(a: string, tail: string)
    requires Slashless(a) && (tail == "" || tail[0] == '/')
    ensures TextRun(a + tail) == |a|
  {
    if a != "" {
      assert a == [a[0]] + a[1..];
      assert (a + tail)[1..] == a[1..] + tail;
      TextRunExact(a[1..], tail);
    } else {
      assert a + tail == tail;
    }
  }

  /** Cutting a text off the front, with or without one slash before it. */
  lemma {:induction false} CutFirst(s: string, a: string, tail: string)
    requires a != "" && Slashless(a) && (tail == "" || tail[0] == '/')
    requires s == a + tail || s == "/" + (a + tail)
    ensures AfterFirst(s) == if tail == "" then "" else tail[1..]
  {
    var u := a + tail;
    assert u[0] == a[0] && a[0] in a;
    assert SlashRun(u) == 0;
    assert s[SlashRun(s)..] == u by {
      if s != u { assert s[1..] == u && SlashRun(s) == 1 + SlashRun(u); }
    }
    TextRunExact(a, tail);
    hide SlashRun, TextRun, Slashless;
    assert u[|a|..] == tail;
  }

  lemma {:induction false} JoinedFirst(s: string, texts: seq<string>, u: string)
    requires PlainTexts(texts) && texts != [] && u == Joined(texts) && (s == u || s == "/" + u)
    ensures s != "" && AfterFirst(s) == Joined(texts[1..])
  {
    var a, tail := texts[0], Slashed(texts[1..]);
    assert a != "" && Slashless(a) && u == a + tail;
    assert Joined(texts[1..]) == if tail == "" then "" else tail[1..];
    hide AfterFirst, PlainTexts, Slashless, Slashed, Joined;
    CutFirst(s, a, tail);
  }

  lemma RestFrom(s: string, k: nat)
    requires s != ""
    ensures RestAt(Tokens(s), k) == if k == 0 then s else RestAt(Tokens(AfterFirst(s)), k - 1)
  {
    TokensUnfold(s);
    hide Tokens, AfterFirst, FirstText;
    if 0 < k < |Tokens(s)| { assert Tokens(s)[k] == Tokens(s)[1..][k - 1]; }
  }

  lemma RestOf(toks: seq<Token>, k: nat)
    requires k < |toks|
    ensures RestAt(toks, k) == toks[k].rest
  {}

  /** What a wildcard captures: below the root the remaining texts joined by slashes; directly under
      the root the whole path, leading slash included. */
  lemma {:induction false} WildcardCaptures(texts: seq<string>, k: nat)
    requires PlainTexts(texts) && k < |texts|
    ensures RestAt(Tokens(Slashed(texts)), k) == if k == 0 then Slashed(texts) else Joined(texts[k..])
  {
    hide Slashed, Joined, Tokens, AfterFirst, PlainTexts, RestAt;
    var s, rest := Slashed(texts), texts[1..];
    SlashJoined(texts);
    JoinedFirst(s, texts, Joined(texts));
    RestFrom(s, k);
    if k > 0 {
      PlainTail(texts);
      JoinedTail(rest, k - 1);
      RestOf(Tokens(Joined(rest)), k - 1);
      assert rest[k - 1..] == texts[k..];
    }
  }

  lemma SlashJoined(texts: seq<string>)
    requires texts != []
    ensures Slashed(texts) == "/" + Joined(texts)
  {}

  /** The texts of a path built for a pattern that ends in a wildcard. */
  function WithTail(q: Path, values: seq<string>, tail: seq<string>): seq<string>
    requires |values| == CountPar(q) && Wild !in q
  {
    Substitute(q, values) + tail
  }

  lemma TailPathSpells(q: Path, values: seq<string>, tail: seq<string>, path: string)
    requires |values| == CountPar(q) && Wild !in q && tail != []
    requires PlainTexts(WithTail(q, values, tail)) && path == Slashed(WithTail(q, values, tail))
    ensures !Slash(path) && |q| < |Tokens(path)| && Spells(q, Tokens(path))
    ensures Texts(Tokens(path))[..|q|] == Substitute(q, values)
    ensures RestAt(Tokens(path), |q|) == if q == [] then path else Joined(tail)
  {
    hide Slashed, Joined, Tokens, PlainTexts, RestAt, Slash, Spells, Substitute, Texts;
    var texts := WithTail(q, values, tail);
    SlashedTokens(texts);
    WildcardCaptures(texts, |q|);
    assert texts[..|q|] == Substitute(q, values) && texts[|q|..] == tail;
    assert |Texts(Tokens(path))| == |Tokens(path)|;
    SubstituteSpells(q, values, Tokens(path));
  }

  lemma NamesWithWildcard(segs: seq<Segment>, q: Path)
    requires Keys(segs) == q + [Wild]
    ensures PatternNames(segs) == PatternNames(segs[..|q|]) + [segs[|q|].param] && Keys(segs)[..|q|] == q
  {
    LastKey(q, Wild);
  }

  /** The same for a pattern that ends in a wildcard: a path built from values and a tail of texts is
      answered by it, with those values and the joined tail (directly under the root the whole path), if
      and only if no literal sibling spells a value and only the wildcard can take the tail's first text. */
  lemma BuildThenLookupTail(t: Table, segs: seq<Segment>, q: Path, values: seq<string>, tail: seq<string>, path: string)
    requires WellFormed(t) && Named(t, segs) && Keys(segs) == q + [Wild] && Wild !in q
    requires |values| == CountPar(q) && tail != []
    requires PlainTexts(WithTail(q, values, tail)) && path == Slashed(WithTail(q, values, tail))
    ensures FoundAt(t, path, q + [Wild]) <==> Unshadowed(t, q, Tokens(path)) && WildcardOnly(t, q, Tokens(path))
    ensures FoundAt(t, path, q + [Wild]) ==>
              && Names(Lookup(t, path).params) == PatternNames(segs)
              && Values(Lookup(t, path).params) == values + [if q == [] then path else Joined(tail)]
  {
    TailInTable(t, segs, q);
    hide Lookup, Tokens, PatternNames, PlainTexts, Named, Bindings, Slashed, Joined, Spells, Unshadowed, WildcardOnly,
         FoundAt, Slash, WellFormed, RestAt, Substitute, Keys, Names, Values, WithTail;
    TailPathSpells(q, values, tail, path);
    WildcardFoundIff(t, path, q);
    if FoundAt(t, path, q + [Wild]) {
      WildcardAnswer(t, path, q);
      NamesWithWildcard(segs, q);
      BranchBinds(t, segs, |q|, Tokens(path));
      SubstituteInjective(q, values, Values(Bindings(t, q, Tokens(path))));
      WildcardName(t, segs, q);
      var last := Param(NameIn(t, q + [Wild]), RestAt(Tokens(path), |q|));
      NamesValuesConcat(Bindings(t, q, Tokens(path)), [last]);
      OneParam(last);
    }
  }

  lemma OneParam(p: Param)
    ensures Names([p]) == [p.name] && Values([p]) == [p.value]
  {}

  lemma TailInTable(t: Table, segs: seq<Segment>, q: Path)
    requires Named(t, segs) && Keys(segs) == q + [Wild]
    ensures q in t && IsWildcard(t, q + [Wild])
  {
    LastKey(q, Wild);
    assert Keys(segs)[..|q|] == q && Keys(segs)[..|segs|] == Keys(segs);
    assert |segs| == |q| + 1;
  }

  // ---- what a wildcard captures, on every path ----------------------------------------------

  ghost predicate AllSlashes(z: string) {
    forall i | 0 <= i < |z| :: z[i] == '/'
  }

  lemma {:induction false} SlashRunExact(z: string, tail: string)
    requires AllSlashes(z) && tail != "" && tail[0] != '/'
    ensures SlashRun(z + tail) == |z|
  {
    if z == "" {
      assert z + tail == tail;
    } else {
      assert (z + tail)[1..] == z[1..] + tail;
      SlashRunExact(z[1..], tail);
    }
  }

  /** Slashes, a text, and then nothing or a slash with what follows. */
  lemma FirstOf(z: string, a: string, tail: string)
    requires AllSlashes(z) && a != "" && Slashless(a) && (tail == "" || tail[0] == '/')
    ensures FirstText(z + (a + tail)) == a
    ensures AfterFirst(z + (a + tail)) == if tail == "" then "" else tail[1..]
  {
    var s := z + (a + tail);
    assert a[0] in a;
    SlashRunExact(z, a + tail);
    TextRunExact(a, tail);
    assert s[|z|..] == a + tail && (a + tail)[..|a|] == a && (a + tail)[|a|..] == tail;
  }

  lemma Rejoin(s: string, n: nat, q: nat)
    requires n + q < |s| && s[n + q] == '/'
    ensures s == s[..n] + (s[n..][..q] + ("/" + s[n..][q..][1..]))
  {
  }

  lemma FirstEnds(s: string) returns (z: string, a: string)
    requires AfterFirst(s) != ""
    ensures AllSlashes(z) && a != "" && Slashless(a) && s == z + (a + ("/" + AfterFirst(s)))
  {
    hide SlashRun, TextRun, FirstText, AfterFirst;
    FirstIs(s);
    var n := SlashRun(s);
    var t := s[n..];
    SlashRunIs(s);
    TextRunIs(t);
    var q := TextRun(t);
    assert q < |t| && t[q] == s[n + q];
    Rejoin(s, n, q);
    z, a := s[..n], t[..q];
    assert q > 0;
  }

  lemma FirstIs(s: string)
    ensures var t := s[SlashRun(s)..];
            var u := t[TextRun(t)..];
            AfterFirst(s) == if u == "" then "" else u[1..]
  {
  }

  /** On every path, doubled and closing slashes included, the k-th remainder is the raw path behind the
      one slash that closes the k-th text: what a wildcard captures there is neither trimmed nor merged. */
  lemma {:induction false} WildcardCapturesRaw(s: string, k: nat) returns (n: nat)
    requires k < |Tokens(s)|
    ensures n <= |s| && RestAt(Tokens(s), k) == s[n..] && (k == 0 ==> n == 0)
    ensures k > 0 ==> n >= 2 && s[n - 1] == '/' && s[n - 2] != '/'
                      && NonEmpty(Split(s[..n - 1])) == Texts(Tokens(s))[..k]
    decreases k
  {
    hide FirstText, AfterFirst, Split, NonEmpty, Slash, RestAt, Tokens, Texts;
    TokensEmpty();
    RestFrom(s, k);
    if k == 0 {
      return 0;
    }
    TokensUnfold(s);
    var u := AfterFirst(s);
    assert k - 1 < |Tokens(u)|;
    var n' := WildcardCapturesRaw(u, k - 1);
    n := RawStep(s, k, n');
  }

  lemma RawStep(s: string, k: nat, n': nat) returns (n: nat)
    requires s != "" && AfterFirst(s) != "" && 0 < k <= |Tokens(AfterFirst(s))|
    requires n' <= |AfterFirst(s)| && (k == 1 ==> n' == 0)
    requires var u := AfterFirst(s);
             k > 1 ==> n' >= 2 && u[n' - 1] == '/' && u[n' - 2] != '/'
                       && NonEmpty(Split(u[..n' - 1])) == Texts(Tokens(u))[..k - 1]
    ensures 2 <= n <= |s| && s[n..] == AfterFirst(s)[n'..] && s[n - 1] == '/' && s[n - 2] != '/'
    ensures NonEmpty(Split(s[..n - 1])) == Texts(Tokens(s))[..k]
  {
    hide FirstText, AfterFirst, Split, NonEmpty, Slash, Tokens, Texts, Behind;
    var u := AfterFirst(s);
    var z, a := FirstEnds(s);
    n := |z| + |a| + 1 + n';
    CutBehind(s, z, a, u, n', k);
    PartsBehind(z, a, u, n', k);
    TextsBehind(s, z, a, k);
  }

  lemma TextsBehind(s: string, z: string, a: string, k: nat)
    requires s != "" && AfterFirst(s) != "" && 0 < k <= |Tokens(AfterFirst(s))|
    requires AllSlashes(z) && a != "" && Slashless(a) && s == z + (a + ("/" + AfterFirst(s)))
    ensures k <= |Tokens(s)|
    ensures Texts(Tokens(s))[..k] == [a] + if k == 1 then [] else Texts(Tokens(AfterFirst(s)))[..k - 1]
  {
    hide FirstText, AfterFirst, Slash, Tokens, Texts;
    var texts := Texts(Tokens(AfterFirst(s)));
    FirstOf(z, a, "/" + AfterFirst(s));
    TextsUnfold(s);
    assert ([a] + texts)[..k] == [a] + texts[..k - 1];
  }

  /** The path up to the slash that closes the k-th text. */
  function Behind(z: string, a: string, u: string, n': nat, k: nat): string
    requires n' <= |u| && (k != 1 ==> n' > 0)
  {
    z + (a + if k == 1 then "" else "/" + u[..n' - 1])
  }

  lemma PartsBehind(z: string, a: string, u: string, n': nat, k: nat)
    requires AllSlashes(z) && a != "" && Slashless(a) && n' <= |u| && (k != 1 ==> n' > 0)
    requires var x := Behind(z, a, u, n', k); x != "" && x[|x| - 1] != '/'
    ensures NonEmpty(Split(Behind(z, a, u, n', k))) == [a] + if k == 1 then [] else NonEmpty(Split(u[..n' - 1]))
  {
    hide FirstText, AfterFirst, Split, NonEmpty, SlashRun, TextRun, Slash;
    var tail := if k == 1 then "" else "/" + u[..n' - 1];
    var x := Behind(z, a, u, n', k);
    FirstOf(z, a, tail);
    NotSlash(x);
    FirstTextSplits(x);
    NoParts();
    assert k != 1 ==> tail[1..] == u[..n' - 1];
  }

  lemma CutBehind(s: string, z: string, a: string, u: string, n': nat, k: nat)
    requires s == z + (a + ("/" + u)) && a != "" && Slashless(a) && n' <= |u| && k > 0
    requires if k == 1 then n' == 0 else n' >= 2 && u[n' - 1] == '/' && u[n' - 2] != '/'
    ensures var n := |z| + |a| + 1 + n';
            var x := Behind(z, a, u, n', k);
            && 2 <= n <= |s| && s[n..] == u[n'..] && s[n - 1] == '/' && s[n - 2] != '/'
            && s[..n - 1] == x && x != "" && x[|x| - 1] != '/'
  {
    assert a[|a| - 1] in a;
  }

  lemma TokensEmpty()
    ensures Tokens("") == []
  {
  }

  lemma NotSlash(x: string)
    requires x != "" && x[|x| - 1] != '/'
    ensures !Slash(x)
  {
    assert x[|x| - 1..][0] == x[|x| - 1];
  }
}
