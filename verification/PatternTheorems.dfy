/** Printing and parsing patterns are inverse. */
module PatternTheorems {
  import opened Text
  import opened RouteTable
  import opened RouteTheorems
  import opened Patterns

  // ---- printing -----------------------------------------------------------------------------

  predicate PlainLiteral(text: string) {
    text != "" && forall c | c in text :: c != '/' && c != ':' && c != '*' && c != '{' && c != '}'
  }

  predicate PrintableSegment(s: Segment) {
    || (PlainLiteral(s.literal) && s.param == "" && !s.wildcard)
    || (s.literal == "" && ValidName(s.param))
  }

  ghost predicate Printable(segs: seq<Segment>) {
    WildcardLast(segs) && forall i | 0 <= i < |segs| :: PrintableSegment(segs[i])
  }

  /** Gin-style spelling of a segment. */
  function PrintSegment(s: Segment): string {
    if s.wildcard then "*" + s.param else if s.param != "" then ":" + s.param else s.literal
  }

  function Print(segs: seq<Segment>): string {
    if segs == [] then "" else "/" + PrintSegment(segs[0]) + Print(segs[1..])
  }

  /** Canonical spelling of a segment. */
  function CanonSegment(s: Segment): string {
    if s.wildcard then "{" + s.param + "...}" else if s.param != "" then "{" + s.param + "}" else s.literal
  }

  function CanonTexts(segs: seq<Segment>): (r: seq<string>)
    ensures |r| == |segs|
    ensures forall i | 0 <= i < |segs| :: r[i] == CanonSegment(segs[i])
  {
    seq(|segs|, i requires 0 <= i < |segs| => CanonSegment(segs[i]))
  }

  // ---- translating what was printed ---------------------------------------------------------

  lemma {:induction false} TranslateLiteral(text: string, rest: string)
    requires ':' !in text && '*' !in text
    ensures Translate(text + rest) == Translate(rest).After(text, [])
  {
    if text == "" {
      assert text + rest == rest;
      if Translate(rest).Good? {
        assert "" + Translate(rest).text == Translate(rest).text && [] + Translate(rest).names == Translate(rest).names;
      }
    } else {
      assert text[0] in text;
      assert (text + rest)[1..] == text[1..] + rest;
      TranslateLiteral(text[1..], rest);
      AfterAssociative(Translate(rest), [text[0]], [], text[1..], []);
      assert [text[0]] + text[1..] == text;
    }
  }

  lemma {:induction false} NameRuns(name: string, rest: string)
    requires forall i | 0 <= i < |name| :: NameChar(name[i])
    requires rest == "" || rest[0] == '/'
    ensures ParamRun(name + rest) == |name| == TextRun(name + rest)
  {
    if name == "" {
      assert name + rest == rest;
    } else {
      assert (name + rest)[1..] == name[1..] + rest;
      NameRuns(name[1..], rest);
    }
  }

  lemma TranslateParam(name: string, rest: string)
    requires ValidName(name) && (rest == "" || rest[0] == '/')
    ensures Translate(":" + name + rest) == Translate(rest).After("{" + name + "}", [name])
  {
    var s := ":" + name + rest;
    NameRuns(name, rest);
    assert s[1..] == name + rest;
    assert (name + rest)[..|name|] == name;
    assert s[1 + |name|..] == rest;
  }

  lemma TranslateWildcard(name: string)
    requires ValidName(name)
    ensures Translate("*" + name) == Good("{" + name + "...}", [name])
  {
    var s := "*" + name;
    NameRuns(name, "");
    assert s[1..] == name && name + "" == name && name[..|name|] == name;
    NameSlashless(name);
  }

  lemma NameSlashless(name: string)
    requires ValidName(name)
    ensures Slashless(name) && '{' !in name && '}' !in name && '.' !in name
  {
    forall c | c in name ensures NameChar(c) {
      var i :| 0 <= i < |name| && name[i] == c;
    }
  }

  lemma {:induction false} PatternNamesCons(s: Segment, segs: seq<Segment>)
    ensures PatternNames([s] + segs) == NamesOf(s) + PatternNames(segs)
  {
    var all, n := [s] + segs, |segs|;
    if n == 0 {
      assert all[..0] == [] && PatternNames(all[..0]) == [];
    } else {
      PatternNamesCons(s, segs[..n - 1]);
      assert all[..n] == [s] + segs[..n - 1];
      assert all[n] == segs[n - 1];
    }
  }

  function NamesOf(s: Segment): seq<string> {
    if KeyOf(s).Lit? then [] else [s.param]
  }

  lemma TranslateSlash(s: Segment, rest: string)
    requires PrintableSegment(s) && (rest == "" || rest[0] == '/') && (s.wildcard ==> rest == "")
    ensures Translate("/" + PrintSegment(s) + rest) == Translate(rest).After("/" + CanonSegment(s), NamesOf(s))
  {
    var one := PrintSegment(s) + rest;
    assert "/" + PrintSegment(s) + rest == "/" + one && ("/" + one)[1..] == one;
    TranslateOne(s, rest);
    AfterAssociative(Translate(rest), "/", [], CanonSegment(s), NamesOf(s));
    assert [] + NamesOf(s) == NamesOf(s);
  }

  lemma CanonCons(s: Segment, segs: seq<Segment>)
    ensures Slashed(CanonTexts([s] + segs)) == "/" + CanonSegment(s) + Slashed(CanonTexts(segs))
  {
    assert CanonTexts([s] + segs)[1..] == CanonTexts(segs);
  }

  lemma {:induction false} TranslatePrinted(segs: seq<Segment>)
    requires Printable(segs)
    ensures Translate(Print(segs)) == Good(Slashed(CanonTexts(segs)), PatternNames(segs))
  {
    if segs != [] {
      var s, rest := segs[0], segs[1..];
      assert segs == [s] + rest;
      forall i | 0 <= i < |rest| - 1 ensures !rest[i].wildcard { assert rest[i] == segs[i + 1]; }
      TranslatePrinted(rest);
      CanonCons(s, rest);
      PatternNamesCons(s, rest);
      assert s.wildcard ==> rest == [];
      TranslateSlash(s, Print(rest));
    }
  }

  lemma TranslateOne(s: Segment, rest: string)
    requires PrintableSegment(s) && (rest == "" || rest[0] == '/') && (s.wildcard ==> rest == "")
    ensures Translate(PrintSegment(s) + rest) ==
            Translate(rest).After(CanonSegment(s), NamesOf(s))
  {
    if s.wildcard {
      TranslateWildcard(s.param);
      assert PrintSegment(s) + rest == PrintSegment(s);
      assert CanonSegment(s) + "" == CanonSegment(s);
    } else if s.param != "" {
      TranslateParam(s.param, rest);
    } else {
      TranslateLiteral(s.literal, rest);
    }
  }

  lemma ParseBraced(name: string)
    requires '}' !in name
    ensures ParsePart("{" + name + "}") ==
            if HasSuffix(name, "...") then Segment("", TrimSuffix(name, "..."), true) else Segment("", name, false)
  {
    var part := "{" + name + "}";
    assert part[..1] == "{" && part[|part| - 1..] == "}";
    assert part[1..] == name + "}";
    assert (name + "}")[..|name|] == name && (name + "}")[|name|..] == "}";
  }

  lemma ParseCanonical(s: Segment)
    requires PrintableSegment(s)
    ensures ParsePart(CanonSegment(s)) == s && CanonSegment(s) != "" && Slashless(CanonSegment(s))
  {
    if s.wildcard {
      NameSlashless(s.param);
      hide ParsePart, ValidName;
      var name := s.param + "...";
      assert CanonSegment(s) == "{" + name + "}";
      assert name[|s.param|..] == "..." && name[..|s.param|] == s.param;
      ParseBraced(name);
    } else if s.param != "" {
      NameSlashless(s.param);
      assert s.param[|s.param| - 1] in s.param;
      hide ParsePart, ValidName;
      assert !HasSuffix(s.param, "...") by {
        assert s.param[|s.param| - 1] != '.';
      }
      ParseBraced(s.param);
    } else {
      assert CanonSegment(s)[0] in CanonSegment(s);
    }
  }

  /** Printing a list of segments and running the translator and the parser gives the segments back,
      together with their names in order. */
  lemma PatternRoundTrip(segs: seq<Segment>)
    requires Printable(segs)
    ensures var t := Translate(Print(segs));
            && t.Good?
            && Parsed(t.text) == segs
            && t.names == PatternNames(segs)
            && WildcardLast(Parsed(t.text))
  {
    TranslatePrinted(segs);
    var texts := CanonTexts(segs);
    forall i | 0 <= i < |texts| ensures ParsePart(texts[i]) == segs[i] && texts[i] != "" && Slashless(texts[i]) {
      ParseCanonical(segs[i]);
    }
    SplitSlashed(texts);
    NonEmptyIdentity(texts);
    assert ([""] + texts)[1..] == texts;
    assert ParseParts(texts) == segs;
  }
}
