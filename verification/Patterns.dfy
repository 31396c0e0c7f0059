/** Route patterns: the gin-style spelling, its translation to the canonical spelling with braces, and
    the parser that cuts the canonical spelling into segments. */
module Patterns {
  import opened Text
  import opened RouteTable
  import opened RouteTheorems

  // ---- specification ------------------------------------------------------------------------

  predicate NameChar(c: char) {
    'a' <= c <= 'z' || 'A' <= c <= 'Z' || '0' <= c <= '9' || c == '_'
  }

  predicate ValidName(name: string) {
    name != "" && forall i | 0 <= i < |name| :: NameChar(name[i])
  }

  /** The characters of a name, one by one. */
  lemma NameChars(c: char)
    ensures NameChar(c) <==>
            c in "abcdefghijklmnopqrstuvwxyz" || c in "ABCDEFGHIJKLMNOPQRSTUVWXYZ" || c in "0123456789" || c == '_'
  {
    InRange(c, "abcdefghijklmnopqrstuvwxyz", 'a');
    InRange(c, "ABCDEFGHIJKLMNOPQRSTUVWXYZ", 'A');
    InRange(c, "0123456789", '0');
  }

  lemma InRange(c: char, all: string, first: char)
    requires all != "" && forall i | 0 <= i < |all| :: all[i] as int == first as int + i
    ensures c in all <==> first <= c && c as int < first as int + |all|
  {
    if first <= c && c as int < first as int + |all| {
      assert all[c as int - first as int] == c;
    }
  }

  datatype Translation = Good(text: string, names: seq<string>) | Bad {
    /** The translation of a path that starts with a piece translated to `text`, binding `names`. */
    function After(text: string, names: seq<string>): Translation {
      if Bad? then Bad else Good(text + this.text, names + this.names)
    }
  }

  predicate EndsParam(c: char) {
    c == '/' || c == ':' || c == '*'
  }

  /** Length of the parameter name at the start of s. */
  function ParamRun(s: string): (n: nat)
    ensures n <= |s|
  {
    if s == "" || EndsParam(s[0]) then 0 else 1 + ParamRun(s[1..])
  }

  /** `:name` becomes `{name}`, a final `*name` becomes `{name...}`, everything else stays. */
  function Translate(path: string): Translation {
    if path == "" then Good("", [])
    else if path[0] == ':' then
      var n := ParamRun(path[1..]);
      var name := path[1..][..n];
      if ValidName(name) then Translate(path[1 + n..]).After("{" + name + "}", [name]) else Bad
    else if path[0] == '*' then
      var name := path[1..];
      if ValidName(path[1..][..TextRun(path[1..])]) && Slashless(name) then Good("{" + name + "...}", [name]) else Bad
    else Translate(path[1..]).After([path[0]], [])
  }

  function ParsePart(part: string): Segment {
    if HasPrefix(part, "{") && HasSuffix(part, "}") then
      var name := TrimSuffix(part[1..], "}");
      if HasSuffix(name, "...") then Segment("", TrimSuffix(name, "..."), true) else Segment("", name, false)
    else Segment(part, "", false)
  }

  function ParseParts(parts: seq<string>): (segs: seq<Segment>)
    ensures |segs| == |parts|
    ensures forall i | 0 <= i < |parts| :: segs[i] == ParsePart(parts[i])
  {
    seq(|parts|, i requires 0 <= i < |parts| => ParsePart(parts[i]))
  }

  /** The segments of a canonical pattern. */
  function Parsed(pattern: string): seq<Segment> {
    ParseParts(NonEmpty(Split(pattern)))
  }

  // ---- the loops of the source --------------------------------------------------------------

  method ValidParamName(name: string) returns (ok: bool)
    ensures ok <==> ValidName(name)
  {
    if name == "" { return false; }
    for i := 0 to |name|
      invariant forall k | 0 <= k < i :: NameChar(name[k])
    {
      if !NameChar(name[i]) { return false; }
    }
    return true;
  }

  lemma AfterAssociative(t: Translation, a: string, m: seq<string>, b: string, n: seq<string>)
    ensures t.After(b, n).After(a, m) == t.After(a + b, m + n)
  {
    if t.Good? {
      assert a + (b + t.text) == (a + b) + t.text;
      assert m + (n + t.names) == (m + n) + t.names;
    }
  }

  /** The end of the parameter name that starts at i. */
  method ScanParam(path: string, i: nat) returns (j: nat)
    requires i <= |path|
    ensures j == i + ParamRun(path[i..])
  {
    j := i;
    while j < |path| && path[j] != '/' && path[j] != ':' && path[j] != '*'
      invariant i <= j <= |path|
      invariant ParamRun(path[i..]) == (j - i) + ParamRun(path[j..])
    {
      assert path[j..][1..] == path[j + 1..];
      j := j + 1;
    }
  }

  /** The end of the wildcard name that starts at i. */
  method ScanWildcard(path: string, i: nat) returns (j: nat)
    requires i <= |path|
    ensures j == i + TextRun(path[i..])
  {
    j := i;
    while j < |path| && path[j] != '/'
      invariant i <= j <= |path|
      invariant TextRun(path[i..]) == (j - i) + TextRun(path[j..])
    {
      assert path[j..][1..] == path[j + 1..];
      j := j + 1;
    }
  }

  lemma TranslateAt(path: string, i: nat)
    requires i < |path|
    ensures var n := ParamRun(path[i + 1..]);
            var name := path[i + 1..i + 1 + n];
            path[i] == ':' ==>
              Translate(path[i..]) ==
              (if ValidName(name) then Translate(path[i + 1 + n..]).After("{" + name + "}", [name]) else Bad)
    ensures var n := TextRun(path[i + 1..]);
            var name := path[i + 1..i + 1 + n];
            path[i] == '*' ==>
              Translate(path[i..]) ==
              (if ValidName(name) && i + 1 + n == |path| then Good("{" + name + "...}", [name]) else Bad)
    ensures path[i] != ':' && path[i] != '*' ==> Translate(path[i..]) == Translate(path[i + 1..]).After([path[i]], [])
  {
    var rest := path[i..];
    assert rest[1..] == path[i + 1..];
    var n := ParamRun(path[i + 1..]);
    assert rest[1 + n..] == path[i + 1 + n..] && rest[1..][..n] == path[i + 1..i + 1 + n];
    var m := TextRun(path[i + 1..]);
    assert rest[1..][..m] == path[i + 1..i + 1 + m];
    TextRunIs(rest[1..]);
    if i + 1 + m < |path| { assert rest[1..][m] == '/'; } else { assert path[i + 1..i + 1 + m] == rest[1..]; }
  }

  lemma ParamStep(path: string, i: nat, j: nat, b: string, names: seq<string>)
    requires i < j <= |path| && path[i] == ':' && j == i + 1 + ParamRun(path[i + 1..])
    ensures var name := path[i + 1..j];
            Translate(path[i..]).After(b, names) ==
            if ValidName(name) then Translate(path[j..]).After(b + ("{" + name + "}"), names + [name]) else Bad
  {
    TranslateAt(path, i);
    hide Translate, ParamRun, ValidName;
    var name := path[i + 1..j];
    AfterAssociative(Translate(path[j..]), b, names, "{" + name + "}", [name]);
  }

  lemma WildcardStep(path: string, i: nat, j: nat, b: string, names: seq<string>)
    requires i < j <= |path| && path[i] == '*' && j == i + 1 + TextRun(path[i + 1..])
    ensures var name := path[i + 1..j];
            Translate(path[i..]).After(b, names) ==
            if ValidName(name) && j == |path| then Good(b + ("{" + name + "...}"), names + [name]) else Bad
  {
    TranslateAt(path, i);
  }

  lemma CharStep(path: string, i: nat, b: string, names: seq<string>)
    requires i < |path| && path[i] != ':' && path[i] != '*'
    ensures Translate(path[i..]).After(b, names) == Translate(path[i + 1..]).After(b + [path[i]], names)
  {
    TranslateAt(path, i);
    hide Translate;
    AfterAssociative(Translate(path[i + 1..]), b, names, [path[i]], []);
    assert names + [] == names;
  }

  lemma NothingAround(t: Translation)
    ensures t.After("", []) == t
  {
    if t.Good? { assert "" + t.text == t.text && [] + t.names == t.names; }
  }

  method TranslateGinPattern(path: string) returns (translated: string, params: seq<string>, ok: bool)
    ensures Translate(path) == if ok then Good(translated, params) else Bad
  {
    translated, params := "", [];
    var i := 0;
    assert path[0..] == path;
    NothingAround(Translate(path));
    while i < |path|
      invariant 0 <= i <= |path|
      invariant Translate(path) == Translate(path[i..]).After(translated, params)
    {
      hide Translate, ParamRun, TextRun, ValidName, Translation.After;
      if path[i] == ':' {
        var j := ScanParam(path, i + 1);
        var name := path[i + 1..j];
        ParamStep(path, i, j, translated, params);
        var valid := ValidParamName(name);
        if !valid { return "", [], false; }
        params := params + [name];
        translated := translated + ("{" + name + "}");
        i := j;
      } else if path[i] == '*' {
        var j := ScanWildcard(path, i + 1);
        var name := path[i + 1..j];
        WildcardStep(path, i, j, translated, params);
        var valid := ValidParamName(name);
        if !valid { return "", [], false; }
        if j < |path| { return "", [], false; }
        params := params + [name];
        translated := translated + ("{" + name + "...}");
        return translated, params, true;
      } else {
        CharStep(path, i, translated, params);
        translated := translated + [path[i]];
        i := i + 1;
      }
    }
    return translated, params, true;
  }

  lemma ParsedStep(segs: seq<Segment>, parts: seq<string>, i: nat)
    requires i < |parts|
    ensures segs + ParseParts(NonEmpty(parts[i..])) ==
            segs + (if parts[i] == "" then [] else [ParsePart(parts[i])]) + ParseParts(NonEmpty(parts[i + 1..]))
  {
    assert parts[i..][1..] == parts[i + 1..];
    ParsePartsCons(parts[i], NonEmpty(parts[i + 1..]));
  }

  lemma ParsePartsCons(part: string, parts: seq<string>)
    ensures ParseParts([part] + parts) == [ParsePart(part)] + ParseParts(parts)
  {}

  method CutParts(parts: seq<string>) returns (segs: seq<Segment>)
    ensures segs == ParseParts(NonEmpty(parts))
  {
    segs := [];
    assert parts[0..] == parts;
    for i := 0 to |parts|
      invariant ParseParts(NonEmpty(parts)) == segs + ParseParts(NonEmpty(parts[i..]))
    {
      ParsedStep(segs, parts, i);
      var part := parts[i];
      if part == "" {
        continue;
      }
      if HasPrefix(part, "{") && HasSuffix(part, "}") {
        var name := TrimSuffix(part[1..], "}");
        if HasSuffix(name, "...") {
          segs := segs + [Segment("", TrimSuffix(name, "..."), true)];
          continue;
        }
        segs := segs + [Segment("", name, false)];
        continue;
      }
      segs := segs + [Segment(part, "", false)];
    }
  }

  method ParsePattern(pattern: string) returns (segs: seq<Segment>, ok: bool)
    ensures ok <==> WildcardLast(Parsed(pattern))
    ensures segs == if ok then Parsed(pattern) else []
  {
    hide ParseParts, NonEmpty, Split;
    segs := CutParts(Split(pattern));
    for i := 0 to |segs|
      invariant forall k | 0 <= k < i && k != |segs| - 1 :: !segs[k].wildcard
    {
      if segs[i].wildcard && i != |segs| - 1 {
        return [], false;
      }
    }
    return segs, true;
  }
}
