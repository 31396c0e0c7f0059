/** Strings as sequences of bytes, with the few operations of Go's `strings` package used by the router. */
module Text {

  predicate HasPrefix(s: string, p: string) {
    |p| <= |s| && s[..|p|] == p
  }

  predicate HasSuffix(s: string, p: string) {
    |p| <= |s| && s[|s| - |p|..] == p
  }

  function TrimSuffix(s: string, p: string): string {
    if HasSuffix(s, p) then s[..|s| - |p|] else s
  }

  predicate Slashless(s: string) {
    '/' !in s
  }

  /** The length of what comes before the first slash. */
  function TextRun(s: string): (n: nat)
    ensures n <= |s|
  {
    if s == "" || s[0] == '/' then 0 else 1 + TextRun(s[1..])
  }

  lemma {:induction false} TextRunIs(s: string)
    ensures TextRun(s) < |s| ==> s[TextRun(s)] == '/'
    ensures Slashless(s[..TextRun(s)])
  {
    if s != "" && s[0] != '/' {
      TextRunIs(s[1..]);
      assert s[..TextRun(s)] == [s[0]] + s[1..][..TextRun(s[1..])];
    }
  }

  /** strings.Split(s, "/"). */
  function Split(s: string): (parts: seq<string>)
    ensures |parts| >= 1
  {
    if s == "" then [""]
    else
      var r := Split(s[1..]);
      if s[0] == '/' then [""] + r else [[s[0]] + r[0]] + r[1..]
  }

  function NonEmpty(parts: seq<string>): (r: seq<string>)
    ensures forall i | 0 <= i < |r| :: r[i] != ""
  {
    if parts == [] then []
    else if parts[0] == "" then NonEmpty(parts[1..])
    else [parts[0]] + NonEmpty(parts[1..])
  }

  lemma {:induction false} SplitSlashless(s: string)
    requires Slashless(s)
    ensures Split(s) == [s]
  {
    if s != "" {
      SplitSlashless(s[1..]);
      assert s == [s[0]] + s[1..];
    }
  }

  /** The text before the first slash is the first part. */
  lemma {:induction false} SplitAtSlash(a: string, b: string)
    requires Slashless(a)
    ensures Split(a + "/" + b) == [a] + Split(b)
  {
    var s := a + "/" + b;
    if a == "" {
      assert s[1..] == b;
    } else {
      SplitAtSlash(a[1..], b);
      assert s[1..] == a[1..] + "/" + b;
      assert a == [a[0]] + a[1..];
    }
  }

  /** Slash-terminated spelling of a list of texts: each one preceded by a slash. */
  function Slashed(texts: seq<string>): string {
    if texts == [] then "" else "/" + texts[0] + Slashed(texts[1..])
  }

  /** Spelling of a list of texts with slashes only between them. */
  function Joined(texts: seq<string>): string {
    if texts == [] then "" else texts[0] + Slashed(texts[1..])
  }

  lemma {:induction false} SplitSlashed(texts: seq<string>)
    requires forall i | 0 <= i < |texts| :: Slashless(texts[i])
    ensures Split(Slashed(texts)) == [""] + texts
  {
    if texts != [] {
      SplitSlashed(texts[1..]);
      SplitSlashedStep(texts[0], texts[1..]);
      assert texts == [texts[0]] + texts[1..];
    }
  }

  lemma SplitSlashedStep(first: string, rest: seq<string>)
    requires Slashless(first) && Split(Slashed(rest)) == [""] + rest
    ensures Split(Slashed([first] + rest)) == [""] + ([first] + rest)
  {
    var tail := Slashed(rest);
    SlashedCons(first, rest);
    SplitAtSlash("", first + tail);
    assert "" + "/" + (first + tail) == "/" + first + tail;
    hide Split, Slashed;
    if tail == "" {
      SplitSlashless(first);
      assert first + tail == first;
      SlashedEmpty(rest);
    } else {
      SlashedStarts(rest);
      assert first + tail == first + "/" + tail[1..] && tail == "" + "/" + tail[1..];
      SplitAtSlash(first, tail[1..]);
      SplitAtSlash("", tail[1..]);
      assert ([""] + Split(tail[1..]))[1..] == ([""] + rest)[1..];
    }
  }

  lemma SlashedCons(first: string, rest: seq<string>)
    ensures Slashed([first] + rest) == "/" + first + Slashed(rest)
  {
    assert ([first] + rest)[1..] == rest;
  }

  lemma SlashedEmpty(texts: seq<string>)
    requires Slashed(texts) == ""
    ensures texts == []
  {}

  lemma SlashedStarts(texts: seq<string>)
    requires Slashed(texts) != ""
    ensures Slashed(texts)[0] == '/'
  {}

  lemma NonEmptyIdentity(texts: seq<string>)
    requires forall i | 0 <= i < |texts| :: texts[i] != ""
    ensures NonEmpty(texts) == texts
  {
    if texts != [] {
      NonEmptyIdentity(texts[1..]);
    }
  }
}
