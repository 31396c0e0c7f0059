/** What a lookup means on a table: cut the path into texts, walk as far as texts allow, then decide.
    The theorems say exactly when an entry is found, what its parameters are, and when the table
    leaves no other choice. */
module RouteMatch {
  import opened Wrappers
  import opened Text
  import opened RouteTable

  datatype Param = Param(name: string, value: string)

  /** A text cut from a path together with the raw remainder it was cut from. */
  datatype Token = Token(text: string, rest: string)

  datatype Outcome = Found(at: Path, params: seq<Param>) | Missing

  // ---- cutting a path -----------------------------------------------------------------------

  function SlashRun(s: string): (n: nat)
    ensures n <= |s|
  {
    if s == "" || s[0] != '/' then 0 else 1 + SlashRun(s[1..])
  }

  lemma {:induction false} SlashRunIs(s: string)
    ensures SlashRun(s) < |s| ==> s[SlashRun(s)] != '/'
    ensures forall i | 0 <= i < SlashRun(s) :: s[i] == '/'
  {
    if s != "" && s[0] == '/' {
      SlashRunIs(s[1..]);
      assert forall i | 1 <= i < SlashRun(s) :: s[i] == s[1..][i - 1];
    }
  }

  /** The first text of s, leading slashes skipped. */
  function FirstText(s: string): string {
    var t := s[SlashRun(s)..];
    t[..TextRun(t)]
  }

  /** What follows the first text and its one closing slash. */
  function AfterFirst(s: string): (r: string)
    ensures s != "" ==> |r| < |s|
  {
    var t := s[SlashRun(s)..];
    var u := t[TextRun(t)..];
    if u == "" then "" else u[1..]
  }

  function Tokens(s: string): (ts: seq<Token>)
  {
    if s == "" then [] else [Token(FirstText(s), s)] + Tokens(AfterFirst(s))
  }

  function Texts(ts: seq<Token>): (r: seq<string>)
    ensures |r| == |ts|
    ensures forall i | 0 <= i < |ts| :: r[i] == ts[i].text
  {
    seq(|ts|, i requires 0 <= i < |ts| => ts[i].text)
  }

  lemma TextsCons(a: Token, ts: seq<Token>)
    ensures Texts([a] + ts) == [a.text] + Texts(ts)
  {}

  predicate Slash(path: string) {
    HasSuffix(path, "/")
  }

  lemma {:induction false} SkipSlashes(s: string)
    ensures NonEmpty(Split(s)) == NonEmpty(Split(s[SlashRun(s)..]))
    ensures SlashRun(s) < |s| && Slash(s) ==> Slash(s[SlashRun(s)..])
    ensures SlashRun(s) < |s| && !Slash(s) ==> !Slash(s[SlashRun(s)..])
  {
    if s != "" && s[0] == '/' {
      SkipSlashes(s[1..]);
      assert Split(s) == [""] + Split(s[1..]);
      assert s[SlashRun(s)..] == s[1..][SlashRun(s[1..])..];
    }
  }

  lemma FirstTextSplits(s: string)
    requires s != "" && !Slash(s)
    ensures FirstText(s) != "" && Slashless(FirstText(s))
    ensures AfterFirst(s) != "" ==> !Slash(AfterFirst(s))
    ensures NonEmpty(Split(s)) == [FirstText(s)] + NonEmpty(Split(AfterFirst(s)))
  {
    hide SlashRun, TextRun, Split, NonEmpty;
    var n := SlashRun(s);
    SlashRunIs(s);
    assert s[|s| - 1] != '/';
    TextRunIs(s[n..]);
    SkipSlashes(s);
    var t := s[n..];
    var u := t[TextRun(t)..];
    var a := FirstText(s);
    assert t == a + u;
    NonEmptyCons(a, if u == "" then [] else Split(u[1..]));
    if u == "" {
      assert t == a;
      SplitSlashless(a);
      NoParts();
      assert [a] + [] == [a];
    } else {
      assert u == "/" + u[1..];
      assert t == a + "/" + u[1..];
      SplitAtSlash(a, u[1..]);
      assert t[|t| - 1] == u[|u| - 1];
    }
  }

  lemma NonEmptyCons(a: string, parts: seq<string>)
    ensures NonEmpty([a] + parts) == if a == "" then NonEmpty(parts) else [a] + NonEmpty(parts)
  {
    assert ([a] + parts)[1..] == parts;
  }

  lemma NoParts()
    ensures NonEmpty([]) == [] == NonEmpty(Split(""))
  {
    assert [""][1..] == [];
  }

  /** Without a trailing slash the texts walked over are the non-empty parts of the path, the same
      parts pattern parsing keeps. */
  lemma {:induction false} TokensAreParts(s: string)
    requires !Slash(s)
    ensures Texts(Tokens(s)) == NonEmpty(Split(s))
    decreases |s|
  {
    if s != "" {
      FirstTextSplits(s);
      var b := AfterFirst(s);
      TokensAreParts(b);
      TextsCons(Token(FirstText(s), s), Tokens(b));
    }
  }

  lemma SuffixTransitive(a: string, b: string, c: string)
    requires HasSuffix(a, b) && HasSuffix(b, c)
    ensures HasSuffix(a, c)
  {
    assert a[|a| - |c|..] == a[|a| - |b|..][|b| - |c|..];
  }

  lemma AfterIsSuffix(s: string)
    ensures HasSuffix(s, AfterFirst(s))
  {
    var n := SlashRun(s);
    var t := s[n..];
    var m := TextRun(t);
    if t[m..] != "" { assert t[m..][1..] == s[n + m + 1..]; }
  }

  lemma TokensUnfold(s: string)
    requires s != ""
    ensures |Tokens(s)| == 1 + |Tokens(AfterFirst(s))|
    ensures Tokens(s)[0] == Token(FirstText(s), s) && Tokens(s)[1..] == Tokens(AfterFirst(s))
  {
    hide AfterFirst, FirstText;
  }

  lemma TextsUnfold(s: string)
    requires s != ""
    ensures Texts(Tokens(s)) == [FirstText(s)] + Texts(Tokens(AfterFirst(s)))
  {
    TokensUnfold(s);
    hide AfterFirst, FirstText;
    assert Tokens(s) == [Tokens(s)[0]] + Tokens(s)[1..];
    TextsCons(Tokens(s)[0], Tokens(s)[1..]);
  }

  /** Every remainder is a suffix of the path. */
  lemma {:induction false} RestIsSuffix(s: string, i: nat)
    requires i < |Tokens(s)|
    ensures HasSuffix(s, Tokens(s)[i].rest)
    decreases |s|
  {
    TokensUnfold(s);
    hide AfterFirst, FirstText;
    if i > 0 {
      var b := AfterFirst(s);
      RestIsSuffix(b, i - 1);
      AfterIsSuffix(s);
      SuffixTransitive(s, b, Tokens(b)[i - 1].rest);
    }
  }

  // ---- walking ------------------------------------------------------------------------------

  /** The node the walk reaches from `at`: at every text the literal child is taken if there is one,
      else the parameter child; the walk stops where there is neither or no text is left. */
  ghost function Furthest(t: Table, at: Path, toks: seq<Token>): (p: Path)
    ensures |at| <= |p| <= |at| + |toks| && p[..|at|] == at
    ensures at in t ==> p in t
    decreases |toks|
  {
    if toks == [] then at
    else if at + [Lit(toks[0].text)] in t then Furthest(t, at + [Lit(toks[0].text)], toks[1..])
    else if at + [Par] in t then Furthest(t, at + [Par], toks[1..])
    else at
  }

  ghost function NameIn(t: Table, p: Path): string {
    if p in t then t[p].name else ""
  }

  /** The parameters collected along p. */
  ghost function Bindings(t: Table, p: Path, toks: seq<Token>): seq<Param>
    requires |p| <= |toks|
  {
    if p == [] then []
    else
      var n := |p| - 1;
      Bindings(t, p[..n], toks) + if p[n] == Par then [Param(NameIn(t, p), toks[n].text)] else []
  }

  /** The longest prefix of g that is a subtree node with something of the path left below it. */
  ghost function DeepestSubtree(t: Table, g: Path, ntoks: nat, slash: bool): Option<Path>
    decreases |g|
  {
    if g in t && t[g].subtree && (|g| < ntoks || slash) then Some(g)
    else if g == [] then None
    else DeepestSubtree(t, g[..|g| - 1], ntoks, slash)
  }

  /** An entry sits at the end of the walk and its kind fits the path's last byte. */
  ghost predicate EndsAt(t: Table, g: Path, ntoks: nat, slash: bool) {
    |g| == ntoks && g in t && t[g].handlers != map[] && t[g].subtree == slash
  }

  /** The wildcard child takes over where the walk stopped. */
  ghost predicate WildTakes(t: Table, g: Path, ntoks: nat, slash: bool) {
    g + [Wild] in t && (|g| < ntoks || slash)
  }

  function RestAt(toks: seq<Token>, n: nat): string {
    if n < |toks| then toks[n].rest else ""
  }

  /** The answer once the walk has reached g. */
  ghost function Decide(t: Table, g: Path, toks: seq<Token>, slash: bool, before: seq<Param>): Outcome
    requires |g| <= |toks|
  {
    var ps := before + Bindings(t, g, toks);
    if EndsAt(t, g, |toks|, slash) then Found(g, ps)
    else if WildTakes(t, g, |toks|, slash) then
      Found(g + [Wild], ps + [Param(NameIn(t, g + [Wild]), RestAt(toks, |g|))])
    else
      match DeepestSubtree(t, g, |toks|, slash)
      case Some(p) => Found(p, ps)
      case None => Missing
  }

  /** The meaning of a lookup. */
  ghost function Resolve(t: Table, toks: seq<Token>, slash: bool, before: seq<Param>): Outcome {
    if t == map[] then Missing else Decide(t, Furthest(t, [], toks), toks, slash, before)
  }

  ghost function Lookup(t: Table, path: string): Outcome {
    Resolve(t, Tokens(path), Slash(path), [])
  }

  // ---- the walk -----------------------------------------------------------------------------

  /** p matches the first |p| texts key by key. */
  ghost predicate Spells(p: Path, toks: seq<Token>) {
    |p| <= |toks| && forall i | 0 <= i < |p| :: p[i] == Lit(toks[i].text) || p[i] == Par
  }

  /** Nowhere along p does the table offer a literal child where p takes the parameter. */
  ghost predicate Unshadowed(t: Table, p: Path, toks: seq<Token>) {
    |p| <= |toks| && forall i | 0 <= i < |p| && p[i] == Par :: p[..i] + [Lit(toks[i].text)] !in t
  }

  /** p is on the walk. */
  ghost predicate Follows(t: Table, p: Path, toks: seq<Token>) {
    p in t && Spells(p, toks) && Unshadowed(t, p, toks)
  }

  lemma {:induction false} FurthestFollows(t: Table, at: Path, toks: seq<Token>)
    requires WellFormed(t) && Follows(t, at, toks)
    ensures var g := Furthest(t, at, toks[|at|..]);
            && Follows(t, g, toks)
            && (|g| < |toks| ==> g + [Lit(toks[|g|].text)] !in t && g + [Par] !in t)
    decreases |toks| - |at|
  {
    var rest := toks[|at|..];
    if rest != [] {
      var lit, par := at + [Lit(rest[0].text)], at + [Par];
      assert rest[1..] == toks[|at| + 1..];
      if lit in t {
        FollowsStep(t, at, Lit(rest[0].text), toks);
        FurthestFollows(t, lit, toks);
      } else if par in t {
        FollowsStep(t, at, Par, toks);
        FurthestFollows(t, par, toks);
      }
    }
  }

  lemma FollowsStep(t: Table, at: Path, k: Key, toks: seq<Token>)
    requires Follows(t, at, toks) && |at| < |toks| && at + [k] in t
    requires k == Lit(toks[|at|].text) || (k == Par && at + [Lit(toks[|at|].text)] !in t)
    ensures Follows(t, at + [k], toks)
  {
    var p := at + [k];
    forall i | 0 <= i < |p| && p[i] == Par ensures p[..i] + [Lit(toks[i].text)] !in t {
      assert p[..i] == at[..i];
    }
  }

  lemma FollowsPrefix(t: Table, p: Path, toks: seq<Token>, n: nat)
    requires WellFormed(t) && Follows(t, p, toks) && n <= |p|
    ensures Follows(t, p[..n], toks)
  {
    PrefixesPresent(t, p, n);
    forall i | 0 <= i < n && p[..n][i] == Par ensures p[..n][..i] + [Lit(toks[i].text)] !in t {
      assert p[..n][..i] == p[..i];
    }
  }

  /** One step of the walk. */
  lemma FurthestStep(t: Table, at: Path, k: Key, toks: seq<Token>)
    requires |at| < |toks| && at + [k] in t
    requires k == Lit(toks[|at|].text) || (k == Par && at + [Lit(toks[|at|].text)] !in t)
    ensures Furthest(t, at, toks[|at|..]) == Furthest(t, at + [k], toks[|at| + 1..])
  {
    var rest := toks[|at|..];
    assert rest[0] == toks[|at|] && rest[1..] == toks[|at| + 1..];
  }

  lemma FollowsKey(t: Table, p: Path, toks: seq<Token>, n: nat)
    requires WellFormed(t) && Follows(t, p, toks) && n < |p|
    ensures |p| <= |toks| && p[..n + 1] == p[..n] + [p[n]] && Follows(t, p[..n + 1], toks)
    ensures p[n] == Lit(toks[n].text) || (p[n] == Par && p[..n] + [Lit(toks[n].text)] !in t)
  {
    FollowsPrefix(t, p, toks, n + 1);
  }

  lemma {:induction false} FollowsWithin(t: Table, at: Path, p: Path, toks: seq<Token>)
    requires WellFormed(t) && Follows(t, at, toks) && Follows(t, p, toks) && |at| <= |p| && p[..|at|] == at
    ensures p <= Furthest(t, at, toks[|at|..])
    decreases |toks| - |at|
  {
    hide WellFormed, Follows, Furthest;
    if |at| < |p| {
      FollowsKey(t, p, toks, |at|);
      FollowsIn(t, at + [p[|at|]], toks);
      FurthestStep(t, at, p[|at|], toks);
      FollowsWithin(t, at + [p[|at|]], p, toks);
    } else {
      assert p == at;
      FollowsIn(t, p, toks);
    }
  }

  lemma FollowsIn(t: Table, p: Path, toks: seq<Token>)
    requires Follows(t, p, toks)
    ensures |p| <= |toks| && p in t
  {}

  /** The positions on the walk are exactly the prefixes of the node it reaches. */
  lemma OnTheWalk(t: Table, p: Path, toks: seq<Token>)
    requires WellFormed(t) && t != map[]
    ensures Follows(t, p, toks) <==> p <= Furthest(t, [], toks)
    ensures var g := Furthest(t, [], toks);
            |g| < |toks| ==> g + [Lit(toks[|g|].text)] !in t && g + [Par] !in t
  {
    assert toks[0..] == toks;
    FurthestFollows(t, [], toks);
    var g := Furthest(t, [], toks);
    if Follows(t, p, toks) { FollowsWithin(t, [], p, toks); }
    if p <= g {
      FollowsPrefix(t, g, toks, |p|);
      assert g[..|p|] == p;
    }
  }

  lemma {:induction false} DeepestIs(t: Table, g: Path, n: nat, slash: bool)
    ensures match DeepestSubtree(t, g, n, slash)
            case Some(p) =>
              && p <= g && p in t && t[p].subtree && (|p| < n || slash)
              && forall q | p < q <= g && q in t && t[q].subtree :: !(|q| < n || slash)
            case None => forall q | q <= g && q in t && t[q].subtree :: !(|q| < n || slash)
    decreases |g|
  {
    if !(g in t && t[g].subtree && (|g| < n || slash)) && g != [] {
      var front := g[..|g| - 1];
      DeepestIs(t, front, n, slash);
      forall q | q in t && q <= g ensures q == g || q <= front {
        if q != g { assert |q| < |g|; }
      }
    }
  }

  // ---- when an entry is found ---------------------------------------------------------------

  ghost predicate FoundAt(t: Table, path: string, p: Path) {
    Lookup(t, path).Found? && Lookup(t, path).at == p
  }

  /** At is where the outcome stands. */
  ghost predicate Stands(o: Outcome, p: Path) {
    o.Found? && o.at == p
  }

  lemma FoundByWalk(t: Table, path: string, p: Path)
    requires WellFormed(t) && t != map[]
    ensures var toks := Tokens(path);
            var g := Furthest(t, [], toks);
            && WalkEnd(t, g, toks)
            && (FoundAt(t, path, p) <==> Stands(Decide(t, g, toks, Slash(path), []), p))
  {
    WalkReaches(t, Tokens(path));
  }

  ghost predicate IsExact(t: Table, p: Path) {
    p in t && t[p].handlers != map[] && !t[p].subtree && (p == [] || p[|p| - 1] != Wild)
  }

  ghost predicate IsWildcard(t: Table, p: Path) {
    p in t && p != [] && p[|p| - 1] == Wild
  }

  /** g is where the walk ends: the positions on the walk are its prefixes. */
  ghost predicate WalkEnd(t: Table, g: Path, toks: seq<Token>) {
    && Follows(t, g, toks)
    && (forall q :: Follows(t, q, toks) <==> q <= g)
    && (|g| < |toks| ==> WildcardOnly(t, g, toks))
  }

  /** No literal and no parameter child competes with the wildcard for the next text. */
  ghost predicate WildcardOnly(t: Table, q: Path, toks: seq<Token>) {
    |q| < |toks| && q + [Lit(toks[|q|].text)] !in t && q + [Par] !in t
  }

  lemma WalkReaches(t: Table, toks: seq<Token>)
    requires WellFormed(t) && t != map[]
    ensures WalkEnd(t, Furthest(t, [], toks), toks)
  {
    var g := Furthest(t, [], toks);
    forall q ensures Follows(t, q, toks) <==> q <= g {
      OnTheWalk(t, q, toks);
    }
    OnTheWalk(t, g, toks);
  }

  lemma LastKey(p: Path, k: Key)
    ensures (p + [k])[|p|] == k && (p + [k])[..|p|] == p
  {}

  lemma ExactDecided(t: Table, g: Path, toks: seq<Token>, slash: bool, p: Path)
    requires WellFormed(t) && IsExact(t, p) && WalkEnd(t, g, toks)
    ensures Stands(Decide(t, g, toks, slash, []), p) <==> !slash && |p| == |toks| && p == g
  {
    DeepestIs(t, g, |toks|, slash);
    LastKey(g, Wild);
  }

  /** An exact entry is found exactly when the path has no trailing slash, the entry matches all its
      texts, and no literal sibling stands where the entry takes a parameter. */
  lemma ExactFoundIff(t: Table, path: string, p: Path)
    requires WellFormed(t) && IsExact(t, p)
    ensures FoundAt(t, path, p) <==>
            !Slash(path) && |p| == |Tokens(path)| && Spells(p, Tokens(path)) && Unshadowed(t, p, Tokens(path))
  {
    hide FoundAt, Furthest, Tokens, Slash, Decide, WellFormed, Spells, Unshadowed;
    var toks := Tokens(path);
    var g := Furthest(t, [], toks);
    FoundByWalk(t, path, p);
    ExactDecided(t, g, toks, Slash(path), p);
    assert Follows(t, p, toks) <==> p <= g;
    if Follows(t, p, toks) && |p| == |toks| { assert p == g; }
  }

  lemma WildcardDecided(t: Table, g: Path, toks: seq<Token>, slash: bool, q: Path)
    requires WellFormed(t) && IsWildcard(t, q + [Wild]) && WalkEnd(t, g, toks)
    ensures Stands(Decide(t, g, toks, slash, []), q + [Wild]) <==>
            q == g && (|q| < |toks| || (slash && !t[q].subtree))
  {
    DeepestIs(t, g, |toks|, slash);
    LastKey(g, Wild);
    LastKey(q, Wild);
    hide Follows, Unshadowed, Bindings, DeepestSubtree;
    WildcardOffWalk(t, g, toks, q);
  }

  lemma WildcardOffWalk(t: Table, g: Path, toks: seq<Token>, q: Path)
    requires WalkEnd(t, g, toks)
    ensures !(q + [Wild] <= g)
  {
    LastKey(q, Wild);
    assert Spells(g, toks);
  }

  lemma WalkContinues(t: Table, g: Path, toks: seq<Token>, q: Path)
    requires WellFormed(t) && Follows(t, g, toks) && q < g
    ensures !WildcardOnly(t, q, toks)
  {
    FollowsKey(t, g, toks, |q|);
    hide WellFormed, Follows, Unshadowed;
    FollowsIn(t, g[..|q| + 1], toks);
    assert g[..|q|] == q;
  }

  lemma WildcardEndsWalk(t: Table, g: Path, toks: seq<Token>, q: Path)
    requires WalkEnd(t, g, toks) && WellFormed(t)
    ensures q == g && |q| < |toks| <==> Follows(t, q, toks) && WildcardOnly(t, q, toks)
  {
    if Follows(t, q, toks) && q != g {
      WalkContinues(t, g, toks, q);
    }
  }

  /** A wildcard route below q is found exactly when q is on the walk and either the walk can only
      continue through the wildcard, or the path ends at q with a slash and q itself is no subtree. */
  lemma WildcardFoundIff(t: Table, path: string, q: Path)
    requires WellFormed(t) && IsWildcard(t, q + [Wild])
    ensures FoundAt(t, path, q + [Wild]) <==>
            && Follows(t, q, Tokens(path))
            && (WildcardOnly(t, q, Tokens(path)) || (|q| == |Tokens(path)| && Slash(path) && !t[q].subtree))
  {
    hide FoundAt, Furthest, Tokens, Slash, Decide, WellFormed, WildcardOnly;
    var toks := Tokens(path);
    var g := Furthest(t, [], toks);
    FoundByWalk(t, path, q + [Wild]);
    WildcardDecided(t, g, toks, Slash(path), q);
    WildcardEndsWalk(t, g, toks, q);
    assert Follows(t, q, toks) <==> q <= g;
  }

  /** Nothing on the walk beyond p answers the path: no deeper subtree, no entry where the walk ends,
      no wildcard there. */
  ghost predicate NothingDeeper(t: Table, g: Path, toks: seq<Token>, slash: bool, p: Path) {
    && !EndsAt(t, g, |toks|, slash)
    && !WildTakes(t, g, |toks|, slash)
    && forall q | p < q && Follows(t, q, toks) && t[q].subtree :: |q| == |toks| && !slash
  }

  lemma SubtreeDecided(t: Table, g: Path, toks: seq<Token>, slash: bool, p: Path)
    requires WellFormed(t) && p in t && t[p].subtree && (p == [] || p[|p| - 1] != Wild) && WalkEnd(t, g, toks)
    ensures Stands(Decide(t, g, toks, slash, []), p) <==>
            p <= g && (|p| < |toks| || slash) && (|p| == |toks| || NothingDeeper(t, g, toks, slash, p))
  {
    DeepestIs(t, g, |toks|, slash);
    LastKey(g, Wild);
    var d := DeepestSubtree(t, g, |toks|, slash);
    if p <= g && |p| == |toks| { assert p == g; }
    if p <= g && d.Some? && p != d.value {
      assert p < d.value || d.value < p;
    }
  }

  lemma PrefixFoundIff(t: Table, path: string, p: Path)
    requires WellFormed(t) && p in t && t[p].subtree && (p == [] || p[|p| - 1] != Wild)
    ensures var toks := Tokens(path);
            FoundAt(t, path, p) <==>
            && Follows(t, p, toks)
            && (|p| < |toks| || Slash(path))
            && (|p| == |toks| || NothingDeeper(t, Furthest(t, [], toks), toks, Slash(path), p))
  {
    hide FoundAt, Furthest, Tokens, Slash, Decide, WellFormed, NothingDeeper;
    var toks := Tokens(path);
    var g := Furthest(t, [], toks);
    FoundByWalk(t, path, p);
    SubtreeDecided(t, g, toks, Slash(path), p);
    assert Follows(t, p, toks) <==> p <= g;
  }

  /** A wildcard takes the rest of the path: its parent is on the walk and either only the wildcard can
      take the next text or the path ends there with a slash. */
  ghost predicate TakesRest(t: Table, path: string, q: Path) {
    && Follows(t, q, Tokens(path))
    && (WildcardOnly(t, q, Tokens(path)) || (|q| == |Tokens(path)| && Slash(path) && !t[q].subtree))
  }

  /** A static prefix answers exactly when it is on the walk with something left below it, and it is the
      end of the path or nothing deeper answers: the fallback is the deepest subtree. One that ends in a
      wildcard answers as every wildcard does. */
  lemma SubtreeFoundIff(t: Table, path: string, p: Path)
    requires WellFormed(t) && p in t && t[p].subtree
    ensures FoundAt(t, path, p) <==>
            if IsWildcard(t, p) then TakesRest(t, path, p[..|p| - 1])
            else
              var toks := Tokens(path);
              && Follows(t, p, toks)
              && (|p| < |toks| || Slash(path))
              && (|p| == |toks| || NothingDeeper(t, Furthest(t, [], toks), toks, Slash(path), p))
  {
    if IsWildcard(t, p) {
      assert p == p[..|p| - 1] + [Wild];
      hide FoundAt, Furthest, Tokens, Slash, WellFormed, NothingDeeper, WildcardOnly;
      WildcardFoundIff(t, path, p[..|p| - 1]);
    } else {
      hide FoundAt, Furthest, Tokens, Slash, WellFormed, NothingDeeper;
      PrefixFoundIff(t, path, p);
    }
  }

  // ---- walking step by step -----------------------------------------------------------------

  /** The walk over toks has come to `at` with these parameters. */
  ghost predicate Walking(t: Table, at: Path, toks: seq<Token>, before: seq<Param>, params: seq<Param>) {
    && |at| <= |toks|
    && at in t
    && Furthest(t, [], toks) == Furthest(t, at, toks[|at|..])
    && params == before + Bindings(t, at, toks)
  }

  /** The walk can go no further. */
  ghost predicate Stuck(t: Table, at: Path, toks: seq<Token>) {
    |at| < |toks| ==> at + [Lit(toks[|at|].text)] !in t && at + [Par] !in t
  }

  lemma WalkStarts(t: Table, toks: seq<Token>, before: seq<Param>)
    requires [] in t
    ensures Walking(t, [], toks, before, before)
  {
    assert toks[0..] == toks;
    assert before + [] == before;
  }

  lemma WalkSteps(t: Table, at: Path, k: Key, toks: seq<Token>, before: seq<Param>, params: seq<Param>)
    requires Walking(t, at, toks, before, params) && |at| < |toks| && at + [k] in t
    requires k == Lit(toks[|at|].text) || (k == Par && at + [Lit(toks[|at|].text)] !in t)
    ensures var more := if k == Par then params + [Param(t[at + [k]].name, toks[|at|].text)] else params;
            Walking(t, at + [k], toks, before, more)
  {
    LastKey(at, k);
    FurthestStep(t, at, k, toks);
    hide Furthest;
    assert Bindings(t, at + [k], toks) ==
           Bindings(t, at, toks) + if k == Par then [Param(NameIn(t, at + [k]), toks[|at|].text)] else [];
  }

  lemma WalkEnds(t: Table, at: Path, toks: seq<Token>, slash: bool, before: seq<Param>, params: seq<Param>)
    requires Walking(t, at, toks, before, params) && Stuck(t, at, toks)
    ensures Furthest(t, [], toks) == at
    ensures EndsAt(t, at, |toks|, slash) ==> Resolve(t, toks, slash, before) == Found(at, params)
    ensures !EndsAt(t, at, |toks|, slash) && WildTakes(t, at, |toks|, slash) ==>
              Resolve(t, toks, slash, before) ==
              Found(at + [Wild], params + [Param(t[at + [Wild]].name, RestAt(toks, |at|))])
    ensures !EndsAt(t, at, |toks|, slash) && !WildTakes(t, at, |toks|, slash) ==>
              Resolve(t, toks, slash, before) ==
              match DeepestSubtree(t, at, |toks|, slash)
              case Some(p) => Found(p, params)
              case None => Missing
  {
    if |at| < |toks| { assert toks[|at|..][0] == toks[|at|]; }
  }
}
