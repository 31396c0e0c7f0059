/** Translation works part by part. From that follow, for every path that translates, exactly when the
    translated pattern parses, and exactly when the parser finds the names the translator collected. */
module PatternParts {
  import opened Text
  import opened RouteTable
  import opened RouteTheorems
  import opened Patterns
  import opened PatternTheorems

  // ---- one part -----------------------------------------------------------------------------

  /** A raw part spelled `{...}` with three dots before the closing brace. */
  predicate SpellsWildcard(part: string) {
    HasPrefix(part, "{") && HasSuffix(part, "...}")
  }

  lemma EndsInDots(s: string)
    ensures HasSuffix(s, "...}") <==>
            |s| >= 4 && s[|s| - 4] == '.' && s[|s| - 3] == '.' && s[|s| - 2] == '.' && s[|s| - 1] == '}'
  {
    if |s| >= 4 {
      assert s[|s| - 4..] == [s[|s| - 4], s[|s| - 3], s[|s| - 2], s[|s| - 1]];
      assert "...}" == ['.', '.', '.', '}'];
    }
  }

  lemma DotsAtEnd(s: string)
    ensures HasSuffix(s, "...") <==> |s| >= 3 && s[|s| - 3] == '.' && s[|s| - 2] == '.' && s[|s| - 1] == '.'
  {
    if |s| >= 3 {
      assert s[|s| - 3..] == [s[|s| - 3], s[|s| - 2], s[|s| - 1]];
      assert "..." == ['.', '.', '.'];
    }
  }

  lemma BraceEnds(s: string)
    ensures HasSuffix(s, "}") <==> s != "" && s[|s| - 1] == '}'
    ensures HasPrefix(s, "{") <==> s != "" && s[0] == '{'
  {
    if s != "" {
      assert s[|s| - 1..] == [s[|s| - 1]] && s[..1] == [s[0]];
    }
  }

  lemma SpellsWildcardIs(part: string)
    ensures ParsePart(part).wildcard <==> SpellsWildcard(part)
  {
    EndsInDots(part);
    BraceEnds(part);
    if HasPrefix(part, "{") && HasSuffix(part, "}") {
      var body := part[1..];
      BraceEnds(body);
      assert body[|body| - 1] == part[|part| - 1];
      var name := TrimSuffix(body, "}");
      assert name == part[1..|part| - 1];
      DotsAtEnd(name);
      hide HasSuffix, HasPrefix, TrimSuffix;
    }
  }

  lemma {:induction false} ParamRunCut(s: string, tail: string)
    requires tail == "" || EndsParam(tail[0])
    ensures ParamRun(s + tail) == ParamRun(s)
  {
    if s == "" {
      assert s + tail == tail;
    } else if !EndsParam(s[0]) {
      assert (s + tail)[1..] == s[1..] + tail;
      ParamRunCut(s[1..], tail);
    }
  }

  lemma {:induction false} ParamRunPlain(s: string)
    ensures ParamRun(s) < |s| ==> EndsParam(s[ParamRun(s)])
    ensures forall c | c in s[..ParamRun(s)] :: !EndsParam(c)
  {
    if s != "" && !EndsParam(s[0]) {
      ParamRunPlain(s[1..]);
      assert s[..ParamRun(s)] == [s[0]] + s[1..][..ParamRun(s[1..])];
    }
  }

  /** Translation of a path that starts with a parameter. */
  lemma ParamFirst(a: string)
    requires a != "" && a[0] == ':'
    ensures var n := ParamRun(a[1..]);
            var name, rest := a[1..][..n], a[1 + n..];
            && a == ":" + name + rest
            && (forall c | c in name :: !EndsParam(c)) && (rest == "" || EndsParam(rest[0]))
            && Translate(a) == if ValidName(name) then Translate(rest).After("{" + name + "}", [name]) else Bad
  {
    var n := ParamRun(a[1..]);
    ParamRunPlain(a[1..]);
    assert a == ":" + a[1..][..n] + a[1 + n..];
  }

  lemma ParamFirstCut(a: string, tail: string)
    requires a != "" && a[0] == ':' && (tail == "" || EndsParam(tail[0]))
    ensures var n := ParamRun(a[1..]);
            var name, rest := a[1..][..n], a[1 + n..];
            Translate(a + tail) ==
            if ValidName(name) then Translate(rest + tail).After("{" + name + "}", [name]) else Bad
  {
    var s := a + tail;
    var n := ParamRun(a[1..]);
    assert s[1..] == a[1..] + tail;
    ParamRunCut(a[1..], tail);
    assert s[1..][..n] == a[1..][..n] && s[1 + n..] == a[1 + n..] + tail;
  }

  /** What comes before a slash translates on its own, and must not hold a star. */
  ghost predicate Cuts(a: string, b: string) {
    Translate(a + ("/" + b)) ==
    if Translate(a).Bad? || '*' in a then Bad else Translate(b).After(Translate(a).text + "/", Translate(a).names)
  }

  lemma CutsBehind(piece: string, names: seq<string>, rest: string, b: string, whole: Translation, first: Translation)
    requires Cuts(rest, b)
    requires whole == Translate(rest + ("/" + b)).After(piece, names) && first == Translate(rest).After(piece, names)
    ensures whole == if first.Bad? || '*' in rest then Bad else Translate(b).After(first.text + "/", first.names)
  {
    var t := Translate(rest);
    if t.Good? && '*' !in rest {
      AfterAssociative(Translate(b), piece, names, t.text + "/", t.names);
      assert piece + (t.text + "/") == piece + t.text + "/";
    }
  }

  lemma {:induction false} TranslateCut(a: string, b: string)
    requires Slashless(a)
    ensures Cuts(a, b)
    decreases |a|
  {
    var tail := "/" + b;
    if a == "" {
      assert a + tail == tail && tail[1..] == b;
      assert "" + "/" == "/";
    } else if a[0] == ':' {
      ParamFirst(a);
      ParamFirstCut(a, tail);
      var n := ParamRun(a[1..]);
      var name, rest := a[1..][..n], a[1 + n..];
      assert '*' in name ==> EndsParam('*');
      hide Translate, ParamRun;
      TranslateCut(rest, b);
      if ValidName(name) {
        CutsBehind("{" + name + "}", [name], rest, b, Translate(a + tail), Translate(a));
      }
    } else if a[0] == '*' {
      var s := a + tail;
      assert s[1..] == a[1..] + tail && s[1..][|a| - 1] == '/';
    } else {
      assert (a + tail)[0] == a[0] && (a + tail)[1..] == a[1..] + tail;
      assert a == [a[0]] + a[1..];
      TranslateCut(a[1..], b);
      CutsBehind([a[0]], [], a[1..], b, Translate(a + tail), Translate(a));
    }
  }

  /** A part translates to one part, empty only if it is. */
  lemma {:induction false} PartStays(a: string)
    requires Slashless(a) && Translate(a).Good?
    ensures Slashless(Translate(a).text) && (Translate(a).text == "" <==> a == "")
    decreases |a|
  {
    if a != "" && a[0] == ':' {
      var n := ParamRun(a[1..]);
      NameSlashless(a[1..][..n]);
      PartStays(a[1 + n..]);
    } else if a != "" && a[0] == '*' {
      assert Slashless(a[1..]);
    } else if a != "" {
      PartStays(a[1..]);
    }
  }

  lemma EndOf(x: string, y: string)
    ensures y != "" ==> (x + y)[|x + y| - 1] == y[|y| - 1]
    ensures |y| >= 2 ==> (x + y)[|x + y| - 2] == y[|y| - 2]
  {
  }

  lemma CharFirst(a: string)
    requires a != "" && a[0] != ':' && a[0] != '*'
    ensures a == [a[0]] + a[1..] && Translate(a) == Translate(a[1..]).After([a[0]], [])
  {
  }

  /** What follows a parameter inside a part without stars is empty or another parameter. */
  lemma ParamRest(a: string, piece: string, rest: string)
    requires a == piece + rest && Slashless(a) && '*' !in a && (rest == "" || EndsParam(rest[0]))
    ensures Slashless(rest) && '*' !in rest && (rest != "" ==> rest[0] == ':' && ':' in rest)
  {
    assert forall c | c in rest :: c in a;
    assert rest != "" ==> rest[0] in rest;
  }

  /** A part with a colon ends in a name, and its translation in that name and a brace. */
  lemma {:induction false} ColonEnds(a: string)
    requires ':' in a && '*' !in a && Slashless(a) && Translate(a).Good?
    ensures a[|a| - 1] != '}'
    ensures EndsNamed(Translate(a).text)
    decreases |a|
  {
    hide Translate, ParamRun, Slashless, EndsParam, EndsNamed, ValidName;
    if a[0] == ':' {
      ParamFirst(a);
      var n := ParamRun(a[1..]);
      var name, rest := a[1..][..n], a[1 + n..];
      ParamRest(a, ":" + name, rest);
      NamedEnd(name);
      if rest == "" {
        StarFreeLiteral("");
        assert a == ":" + name;
        EndOf(":", name);
        assert Translate(a).text == "{" + name + "}";
      } else {
        ColonEnds(rest);
        EndOf(":" + name, rest);
        NamedBehind("{" + name + "}", Translate(rest).text);
      }
    } else {
      CharFirst(a);
      RestSlashless(a, a[1..]);
      ColonEnds(a[1..]);
      EndOf([a[0]], a[1..]);
      NamedBehind([a[0]], Translate(a[1..]).text);
    }
  }

  predicate EndsNamed(t: string) {
    |t| >= 2 && t[|t| - 1] == '}' && t[|t| - 2] != '.'
  }

  lemma NamedBehind(x: string, t: string)
    requires EndsNamed(t)
    ensures EndsNamed(x + t)
  {
    EndOf(x, t);
  }

  lemma RestSlashless(a: string, rest: string)
    requires Slashless(a) && forall c | c in rest :: c in a
    ensures Slashless(rest)
  {
  }

  lemma NamedEnd(name: string)
    requires ValidName(name)
    ensures name != "" && name[|name| - 1] != '}' && EndsNamed("{" + name + "}")
  {
    assert NameChar(name[|name| - 1]);
  }

  lemma StarFreeLiteral(a: string)
    requires ':' !in a && '*' !in a
    ensures Translate(a) == Good(a, [])
  {
    TranslateLiteral(a, "");
    assert a + "" == a;
  }

  /** Translation neither makes nor unmakes a wildcard before the last part. */
  lemma WildcardStays(a: string)
    requires Slashless(a) && '*' !in a && Translate(a).Good?
    ensures ParsePart(Translate(a).text).wildcard <==> SpellsWildcard(a)
  {
    SpellsWildcardIs(Translate(a).text);
    if ':' in a {
      ColonEnds(a);
      EndsInDots(Translate(a).text);
      EndsInDots(a);
    } else {
      StarFreeLiteral(a);
    }
  }

  // ---- all parts ----------------------------------------------------------------------------

  function NamesOfParts(parts: seq<string>): seq<string> {
    if parts == [] then []
    else (match Translate(parts[0]) case Good(_, names) => names case Bad => []) + NamesOfParts(parts[1..])
  }

  /** ts are the translations of ps, and only the last of ps may hold a star. */
  ghost predicate TranslatedTo(ps: seq<string>, ts: seq<string>) {
    && |ps| == |ts|
    && forall i | 0 <= i < |ps| ::
         && Slashless(ps[i]) && Translate(ps[i]).Good? && ts[i] == Translate(ps[i]).text
         && (i < |ps| - 1 ==> '*' !in ps[i])
  }

  /** The parts of the translation are the translations of the parts. */
  lemma {:induction false} TranslatesByParts(path: string)
    requires Translate(path).Good?
    ensures TranslatedTo(Split(path), Split(Translate(path).text))
    ensures Translate(path).names == NamesOfParts(Split(path))
    decreases |path|
  {
    var n := TextRun(path);
    TextRunIs(path);
    if n == |path| {
      assert path[..n] == path;
      SplitSlashless(path);
      PartStays(path);
      SplitSlashless(Translate(path).text);
      assert NamesOfParts([path]) == Translate(path).names + NamesOfParts([path][1..]);
    } else {
      var a, b := path[..n], path[n + 1..];
      assert path == a + ("/" + b) == a + "/" + b;
      TranslateCut(a, b);
      PartStays(a);
      SplitAtSlash(a, b);
      var ta, tb := Translate(a), Translate(b);
      assert Translate(path).text == ta.text + "/" + tb.text;
      SplitAtSlash(ta.text, tb.text);
      TranslatesByParts(b);
      var ps := Split(b);
      assert ([a] + ps)[1..] == ps;
      hide Split, Translate;
      TranslatedCons(a, ta.text, ps, Split(tb.text));
    }
  }

  lemma TranslatedCons(a: string, t: string, ps: seq<string>, ts: seq<string>)
    requires Slashless(a) && '*' !in a && Translate(a).Good? && t == Translate(a).text && TranslatedTo(ps, ts)
    ensures TranslatedTo([a] + ps, [t] + ts)
  {
  }

  // ---- when the pattern parses --------------------------------------------------------------

  ghost predicate WildcardBefore(parts: seq<string>) {
    exists i, j :: 0 <= i < j < |parts| && ParsePart(parts[i]).wildcard && parts[j] != ""
  }

  lemma {:induction false} AllEmpty(parts: seq<string>)
    ensures NonEmpty(parts) == [] <==> forall j | 0 <= j < |parts| :: parts[j] == ""
  {
    if parts != [] {
      AllEmpty(parts[1..]);
      assert forall j | 1 <= j < |parts| :: parts[j] == parts[1..][j - 1];
    }
  }

  lemma ParsedCons(parts: seq<string>)
    requires parts != []
    ensures var segs := ParseParts(NonEmpty(parts[1..]));
            ParseParts(NonEmpty(parts)) == if parts[0] == "" then segs else [ParsePart(parts[0])] + segs
  {
  }

  lemma {:induction false} LastIff(parts: seq<string>)
    ensures WildcardLast(ParseParts(NonEmpty(parts))) <==> !WildcardBefore(parts)
  {
    if parts != [] {
      var rest := parts[1..];
      ParsedCons(parts);
      AllEmpty(rest);
      SpellsWildcardIs("");
      var segs := ParseParts(NonEmpty(rest));
      assert segs == [] <==> NonEmpty(rest) == [];
      hide ParseParts, NonEmpty, ParsePart, WildcardLast, WildcardBefore;
      LastIff(rest);
      BeforeCons(parts);
      WildcardLastCons(ParsePart(parts[0]), segs);
    }
  }

  lemma BeforeCons(parts: seq<string>)
    requires parts != []
    ensures var rest := parts[1..];
            WildcardBefore(parts) <==>
            WildcardBefore(rest) || (ParsePart(parts[0]).wildcard && exists j :: 0 <= j < |rest| && rest[j] != "")
  {
    hide ParsePart;
    var rest := parts[1..];
    assert forall k | 0 <= k < |rest| :: rest[k] == parts[k + 1];
    if WildcardBefore(parts) {
      var i, j :| 0 <= i < j < |parts| && ParsePart(parts[i]).wildcard && parts[j] != "";
      assert rest[j - 1] == parts[j];
      assert i > 0 ==> rest[i - 1] == parts[i];
    }
    if WildcardBefore(rest) {
      var i, j :| 0 <= i < j < |rest| && ParsePart(rest[i]).wildcard && rest[j] != "";
      assert parts[i + 1] == rest[i] && parts[j + 1] == rest[j];
    }
    if ParsePart(parts[0]).wildcard && exists j :: 0 <= j < |rest| && rest[j] != "" {
      var j :| 0 <= j < |rest| && rest[j] != "";
      assert parts[j + 1] == rest[j];
    }
  }

  lemma WildcardLastCons(s: Segment, segs: seq<Segment>)
    ensures WildcardLast([s] + segs) <==> WildcardLast(segs) && (segs == [] || !s.wildcard)
  {
    var all := [s] + segs;
    assert all[0] == s && forall i | 0 <= i < |segs| :: all[i + 1] == segs[i];
    if WildcardLast(all) {
      forall i | 0 <= i < |segs| - 1 ensures !segs[i].wildcard { assert all[i + 1] == segs[i]; }
      assert segs != [] ==> !all[0].wildcard;
    }
  }

  /** A part spelled as a wildcard has something behind it. */
  ghost predicate EarlyWildcard(parts: seq<string>) {
    exists i, j :: 0 <= i < j < |parts| && SpellsWildcard(parts[i]) && parts[j] != ""
  }

  lemma EarlyStays(ps: seq<string>, ts: seq<string>)
    requires TranslatedTo(ps, ts)
    ensures WildcardBefore(ts) <==> EarlyWildcard(ps)
  {
    forall i, j | 0 <= i < j < |ps|
      ensures ParsePart(ts[i]).wildcard <==> SpellsWildcard(ps[i])
      ensures ts[j] != "" <==> ps[j] != ""
    {
      WildcardStays(ps[i]);
      PartStays(ps[j]);
    }
    hide Translate, ParsePart, SpellsWildcard, TranslatedTo;
  }

  /** A path that translates also parses if and only if no part of it is spelled as a wildcard with
      something behind it. */
  lemma ParsesIff(path: string)
    requires Translate(path).Good?
    ensures WildcardLast(Parsed(Translate(path).text)) <==> !EarlyWildcard(Split(path))
  {
    TranslatesByParts(path);
    EarlyStays(Split(path), Split(Translate(path).text));
    LastIff(Split(Translate(path).text));
  }

  predicate BraceFree(path: string) {
    '{' !in path && '}' !in path
  }

  lemma {:induction false} PartOfPath(path: string, i: nat)
    requires i < |Split(path)|
    ensures forall c | c in Split(path)[i] :: c in path
    decreases |path|
  {
    if path != "" {
      var r := Split(path[1..]);
      if path[0] == '/' {
        if i > 0 { PartOfPath(path[1..], i - 1); }
      } else {
        PartOfPath(path[1..], i);
      }
    }
  }

  /** A brace-free path that translates also parses. */
  lemma BraceFreeParses(path: string)
    requires BraceFree(path) && Translate(path).Good?
    ensures WildcardLast(Parsed(Translate(path).text))
  {
    ParsesIff(path);
    forall i | 0 <= i < |Split(path)| ensures !SpellsWildcard(Split(path)[i]) {
      PartOfPath(path, i);
      BraceEnds(Split(path)[i]);
    }
  }

  /** With raw braces the parser can fail: `/{a...}/b` translates to itself and does not parse. */
  lemma RawBracesEscape(a: string, b: string, path: string)
    requires ValidName(a) && PlainLiteral(b) && path == Slashed(["{" + a + "...}", b])
    ensures Translate(path) == Good(path, []) && !WildcardLast(Parsed(path))
    ensures |Parsed(path)| == 2
  {
    var wild := "{" + a + "...}";
    RawBracesParts(a, b, wild, path);
    StarFreeLiteral(path);
    var texts := [wild, b];
    SplitSlashed(texts);
    NonEmptyIdentity(texts);
    var parts := [""] + texts;
    assert parts[1..] == texts && parts[1] == wild && parts[2] == b;
    assert EarlyWildcard(Split(path));
    ParsesIff(path);
  }

  lemma RawBracesParts(a: string, b: string, wild: string, path: string)
    requires ValidName(a) && PlainLiteral(b) && wild == "{" + a + "...}" && path == Slashed([wild, b])
    ensures ':' !in path && '*' !in path
    ensures SpellsWildcard(wild) && wild != "" && Slashless(wild) && b != "" && Slashless(b)
  {
    NameSlashless(a);
    EndsInDots(wild);
    BraceEnds(wild);
    assert [wild, b][1..] == [b] && Slashed([b]) == "/" + b;
    assert path == "/" + wild + "/" + b;
    forall c | c in a ensures c != ':' && c != '*' {
      var i :| 0 <= i < |a| && a[i] == c;
      assert NameChar(c);
    }
  }

  // ---- when the names are kept --------------------------------------------------------------

  /** A colon or a star stands at the start of its part or nowhere in it. */
  predicate MarkersOpen(part: string) {
    forall k | 1 <= k < |part| :: part[k] != ':' && part[k] != '*'
  }

  ghost predicate AllOpen(parts: seq<string>) {
    forall i | 0 <= i < |parts| :: MarkersOpen(parts[i])
  }

  lemma {:induction false} NamesAreMarkers(a: string)
    requires Translate(a).Good?
    ensures Translate(a).names == [] <==> ':' !in a && '*' !in a
    decreases |a|
  {
    if a != "" && a[0] != ':' && a[0] != '*' {
      CharFirst(a);
      NamesAreMarkers(a[1..]);
    }
  }

  /** The names the parser finds in a part. */
  function Found(a: string): seq<string>
    requires Translate(a).Good?
  {
    if a == "" then [] else NamesOf(ParsePart(Translate(a).text))
  }

  lemma BracedName(name: string)
    requires ValidName(name)
    ensures NamesOf(ParsePart("{" + name + "}")) == [name] == NamesOf(ParsePart("{" + name + "...}"))
  {
    ParseCanonical(Segment("", name, false));
    ParseCanonical(Segment("", name, true));
    assert CanonSegment(Segment("", name, false)) == "{" + name + "}";
    assert CanonSegment(Segment("", name, true)) == "{" + name + "...}";
  }

  /** In a brace-free part the parser finds the translator's names, or fewer. */
  lemma PartNames(a: string)
    requires Slashless(a) && BraceFree(a) && Translate(a).Good?
    ensures if MarkersOpen(a) then Found(a) == Translate(a).names else |Found(a)| < |Translate(a).names|
  {
    if a == "" {
      StarFreeLiteral("");
    } else if a[0] == ':' {
      hide Translate, ParamRun, ParsePart, Found, MarkersOpen;
      ParamFirst(a);
      var n := ParamRun(a[1..]);
      var name, rest := a[1..][..n], a[1 + n..];
      BracedName(name);
      NamesAreMarkers(rest);
      ParamNames(a, name, rest);
    } else if a[0] == '*' {
      StarNames(a);
    } else {
      CharNames(a);
    }
  }

  lemma StarNames(a: string)
    requires a != "" && a[0] == '*' && Slashless(a) && Translate(a).Good?
    ensures MarkersOpen(a) && Found(a) == Translate(a).names
  {
    var name := a[1..];
    TextRunIs(name);
    assert TextRun(name) == |name| && name[..|name|] == name;
    BracedName(name);
    NameOpens(name);
    hide ParsePart;
    assert forall k | 1 <= k < |a| :: a[k] == name[k - 1];
  }

  lemma CharNames(a: string)
    requires a != "" && a[0] != ':' && a[0] != '*' && BraceFree(a) && Translate(a).Good?
    ensures if MarkersOpen(a) then Found(a) == Translate(a).names else |Found(a)| < |Translate(a).names|
  {
    CharFirst(a);
    var tail := a[1..];
    NamesAreMarkers(tail);
    assert a[0] in a;
    hide Translate;
    BraceEnds(Translate(a).text);
    assert forall k | 1 <= k < |a| :: a[k] == tail[k - 1];
  }

  lemma NameOpens(name: string)
    requires ValidName(name)
    ensures forall i | 0 <= i < |name| :: name[i] != ':' && name[i] != '*'
  {
    assert forall i | 0 <= i < |name| :: NameChar(name[i]);
  }

  lemma ParamNames(a: string, name: string, rest: string)
    requires a == ":" + name + rest && ValidName(name) && Translate(rest).Good? && Slashless(a)
    requires Translate(a) == Translate(rest).After("{" + name + "}", [name])
    requires rest == "" || EndsParam(rest[0])
    requires Translate(rest).names == [] <==> ':' !in rest && '*' !in rest
    requires NamesOf(ParsePart("{" + name + "}")) == [name]
    ensures if MarkersOpen(a) then Found(a) == Translate(a).names else |Found(a)| < |Translate(a).names|
  {
    NameOpens(name);
    if rest == "" {
      StarFreeLiteral("");
      assert Translate(a).text == "{" + name + "}" && Translate(a).names == [name];
      assert forall k | 1 <= k < |a| :: a[k] == name[k - 1];
    } else {
      assert a[1 + |name|] == rest[0] && rest[0] in a && rest[0] in rest;
      assert |Translate(rest).names| > 0;
    }
  }

  lemma {:induction false} NamesByParts(ps: seq<string>, ts: seq<string>)
    requires TranslatedTo(ps, ts) && forall i | 0 <= i < |ps| :: BraceFree(ps[i])
    ensures var found := PatternNames(ParseParts(NonEmpty(ts)));
            if AllOpen(ps) then found == NamesOfParts(ps) else |found| < |NamesOfParts(ps)|
    decreases |ps|
  {
    if ps != [] {
      var a, qs, us := ps[0], ps[1..], ts[1..];
      assert TranslatedTo(qs, us);
      NamesByParts(qs, us);
      PartNames(a);
      PartStays(a);
      ParsedCons(ts);
      var segs := ParseParts(NonEmpty(us));
      PatternNamesCons(ParsePart(ts[0]), segs);
      assert PatternNames(ParseParts(NonEmpty(ts))) == Found(a) + PatternNames(segs);
      assert NamesOfParts(ps) == Translate(a).names + NamesOfParts(qs);
      assert AllOpen(ps) <==> MarkersOpen(a) && AllOpen(qs) by { OpenCons(ps); }
    }
  }

  lemma OpenCons(ps: seq<string>)
    requires ps != []
    ensures AllOpen(ps) <==> MarkersOpen(ps[0]) && AllOpen(ps[1..])
  {
    hide MarkersOpen;
    assert forall i | 0 <= i < |ps| - 1 :: ps[1..][i] == ps[i + 1];
    if MarkersOpen(ps[0]) && AllOpen(ps[1..]) {
      forall i | 0 <= i < |ps| ensures MarkersOpen(ps[i]) {
        if i > 0 { assert MarkersOpen(ps[1..][i - 1]); }
      }
    }
    if AllOpen(ps) {
      forall i | 0 <= i < |ps| - 1 ensures MarkersOpen(ps[1..][i]) { assert MarkersOpen(ps[i + 1]); }
    }
  }

  /** For a brace-free path that translates, the names of the parsed pattern are those the translator
      collected if and only if every colon and every star opens its part and is the only one in it. */
  lemma NamesKeptIff(path: string)
    requires BraceFree(path) && Translate(path).Good?
    ensures PatternNames(Parsed(Translate(path).text)) == Translate(path).names <==> AllOpen(Split(path))
  {
    TranslatesByParts(path);
    forall i | 0 <= i < |Split(path)| ensures BraceFree(Split(path)[i]) {
      PartOfPath(path, i);
    }
    hide Translate, Split, ParseParts, NonEmpty, PatternNames, NamesOfParts, AllOpen, TranslatedTo;
    NamesByParts(Split(path), Split(Translate(path).text));
  }
}
