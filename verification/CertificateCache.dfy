/** The certificate provider: a certificate cached under the modification times of its two files, while others
    rewrite the files between any two of its file operations. */
module CertificateCache {
  import opened Wrappers

  // ---- files --------------------------------------------------------------------------------

  /** A file: its content, if it exists, and the time of its last write; `past` remembers what was written at
      which time. */
  datatype File = File(content: Option<string>, mtime: int, past: map<int, string>)

  datatype Disk = Disk(cert: File, key: File)

  datatype Change =
    | WriteCert(mtime: int, content: string)
    | WriteKey(mtime: int, content: string)
    | RemoveCert
    | RemoveKey

  function Written(f: File, mtime: int, content: string): File {
    File(Some(content), mtime, f.past[mtime := content])
  }

  function Changed(d: Disk, c: Change): Disk {
    match c
    case WriteCert(t, s) => d.(cert := Written(d.cert, t, s))
    case WriteKey(t, s) => d.(key := Written(d.key, t, s))
    case RemoveCert => d.(cert := d.cert.(content := None))
    case RemoveKey => d.(key := d.key.(content := None))
  }

  function AllChanged(d: Disk, cs: seq<Change>): Disk
    decreases |cs|
  {
    if cs == [] then d else AllChanged(Changed(d, cs[0]), cs[1..])
  }

  /** Every rewrite gives a file a time it never had; it need not be a later one. */
  predicate Clocked(d: Disk, cs: seq<Change>)
    decreases |cs|
  {
    cs != [] ==>
      && (cs[0].WriteCert? ==> cs[0].mtime !in d.cert.past)
      && (cs[0].WriteKey? ==> cs[0].mtime !in d.key.past)
      && Clocked(Changed(d, cs[0]), cs[1..])
  }

  ghost predicate Recorded(f: File) {
    f.content.Some? ==> f.mtime in f.past && f.past[f.mtime] == f.content.value
  }

  /** A file later on: nothing once recorded is lost, and its time is the old one or was not in use. */
  ghost predicate Later(f: File, g: File) {
    && Recorded(f) && Recorded(g)
    && (g.mtime == f.mtime || g.mtime !in f.past)
    && forall t | t in f.past :: t in g.past && g.past[t] == f.past[t]
  }

  lemma {:induction false} ChangesAreLater(d: Disk, cs: seq<Change>)
    requires Recorded(d.cert) && Recorded(d.key) && Clocked(d, cs)
    ensures Later(d.cert, AllChanged(d, cs).cert) && Later(d.key, AllChanged(d, cs).key)
    decreases |cs|
  {
    if cs != [] {
      ChangesAreLater(Changed(d, cs[0]), cs[1..]);
    }
  }

  // ---- one call -----------------------------------------------------------------------------

  /** A parsed key pair; what tls.LoadX509KeyPair makes of two contents is a parameter. */
  datatype Certificate = Certificate(chain: seq<string>, privateKey: string)

  datatype Cached = Cached(cert: Option<Certificate>, mtimeCert: int, mtimeKey: int)

  datatype Outcome = Served(cert: Certificate, hit: bool) | Failed

  type Parser = (string, string) -> Option<Certificate>

  /** One call, with the changes that come between its first and second Stat, before its first read, and
      before its second read. */
  function Call(parse: Parser, p: Cached, d: Disk,
                e1: seq<Change>, e2: seq<Change>, e3: seq<Change>): (Cached, Outcome) {
    if d.cert.content.None? then (p, Failed)
    else
      var d1 := AllChanged(d, e1);
      if d1.key.content.None? then (p, Failed)
      else if p.cert.Some? && d.cert.mtime == p.mtimeCert && d1.key.mtime == p.mtimeKey then
        (p, Served(p.cert.value, true))
      else
        var d2 := AllChanged(d1, e2);
        var d3 := AllChanged(d2, e3);
        if d2.cert.content.None? || d3.key.content.None? then (p, Failed)
        else
          match parse(d2.cert.content.value, d3.key.content.value)
          case None => (p, Failed)
          case Some(c) => (Cached(Some(c), d.cert.mtime, d1.key.mtime), Served(c, false))
  }

  /** The files as the process sees them. */
  class Files {
    var disk: Disk

    constructor (disk: Disk)
      ensures this.disk == disk
    {
      this.disk := disk;
    }

    /** What others do to the files. */
    method Meanwhile(cs: seq<Change>)
      modifies this
      ensures disk == AllChanged(old(disk), cs)
    {
      for i := 0 to |cs|
        invariant AllChanged(old(disk), cs) == AllChanged(disk, cs[i..])
      {
        assert cs[i..][1..] == cs[i + 1..];
        disk := Changed(disk, cs[i]);
      }
    }
  }

  class Provider {
    const files: Files
    const parse: Parser
    var cert: Option<Certificate>
    var mtimeCert: int
    var mtimeKey: int

    constructor (files: Files, parse: Parser)
      ensures this.files == files && this.parse == parse && Now() == EMPTY
    {
      this.files, this.parse, cert, mtimeCert, mtimeKey := files, parse, None, 0, 0;
    }

    ghost function Now(): Cached
      reads this
    {
      Cached(cert, mtimeCert, mtimeKey)
    }

    /** getCertificate, under its mutex; the files change in between as given. */
    method GetCertificate(e1: seq<Change>, e2: seq<Change>, e3: seq<Change>) returns (r: Outcome)
      modifies this, files
      ensures (Now(), r) == Call(parse, old(Now()), old(files.disk), e1, e2, e3)
    {
      if files.disk.cert.content.None? {
        return Failed;
      }
      var infoCert := files.disk.cert.mtime;
      files.Meanwhile(e1);
      if files.disk.key.content.None? {
        return Failed;
      }
      var infoKey := files.disk.key.mtime;
      if cert.Some? && infoCert == mtimeCert && infoKey == mtimeKey {
        return Served(cert.value, true);
      }
      files.Meanwhile(e2);
      var certBytes := files.disk.cert.content;
      if certBytes.None? {
        return Failed;
      }
      files.Meanwhile(e3);
      var keyBytes := files.disk.key.content;
      if keyBytes.None? {
        return Failed;
      }
      var loaded := parse(certBytes.value, keyBytes.value);
      if loaded.None? {
        return Failed;
      }
      cert := loaded;
      mtimeCert := infoCert;
      mtimeKey := infoKey;
      return Served(loaded.value, false);
    }
  }

  // ---- runs ---------------------------------------------------------------------------------

  const EMPTY := Cached(None, 0, 0)

  /** A call and the changes around it: before it, at its three gaps, which all have passed by its end. */
  datatype Round = Round(e0: seq<Change>, e1: seq<Change>, e2: seq<Change>, e3: seq<Change>)

  function AfterRound(d: Disk, r: Round): Disk {
    AllChanged(AllChanged(AllChanged(AllChanged(d, r.e0), r.e1), r.e2), r.e3)
  }

  predicate ClockedRound(d: Disk, r: Round) {
    var d0 := AllChanged(d, r.e0);
    var d1 := AllChanged(d0, r.e1);
    var d2 := AllChanged(d1, r.e2);
    Clocked(d, r.e0) && Clocked(d0, r.e1) && Clocked(d1, r.e2) && Clocked(d2, r.e3)
  }

  datatype World = World(p: Cached, d: Disk)

  /** The provider and the files after any number of calls, from an empty cache. */
  function Run(parse: Parser, d: Disk, rs: seq<Round>): World {
    if rs == [] then World(EMPTY, d)
    else
      var w := Run(parse, d, rs[..|rs| - 1]);
      var r := rs[|rs| - 1];
      World(Call(parse, w.p, AllChanged(w.d, r.e0), r.e1, r.e2, r.e3).0, AfterRound(w.d, r))
  }

  predicate ClockedRun(parse: Parser, d: Disk, rs: seq<Round>) {
    rs == [] || (ClockedRun(parse, d, rs[..|rs| - 1]) && ClockedRound(Run(parse, d, rs[..|rs| - 1]).d, rs[|rs| - 1]))
  }

  /** The cached certificate comes from these versions, which are the cached ones wherever the file still
      has the cached time. */
  ghost predicate From(parse: Parser, p: Cached, d: Disk, vc: int, vk: int) {
    && vc in d.cert.past && vk in d.key.past
    && p.mtimeCert in d.cert.past && p.mtimeKey in d.key.past
    && (d.cert.mtime == p.mtimeCert ==> vc == p.mtimeCert)
    && (d.key.mtime == p.mtimeKey ==> vk == p.mtimeKey)
    && parse(d.cert.past[vc], d.key.past[vk]) == p.cert
  }

  ghost predicate Coherent(parse: Parser, p: Cached, d: Disk) {
    && Recorded(d.cert) && Recorded(d.key)
    && (p.cert.Some? ==> exists vc, vk :: From(parse, p, d, vc, vk))
  }

  lemma CoherentLater(parse: Parser, p: Cached, d: Disk, e: Disk)
    requires Coherent(parse, p, d) && Later(d.cert, e.cert) && Later(d.key, e.key)
    ensures Coherent(parse, p, e)
  {
    if p.cert.Some? {
      var vc, vk :| From(parse, p, d, vc, vk);
      assert From(parse, p, e, vc, vk);
    }
  }

  /** A hit serves what loading would have given from the certificate as of the first Stat and the key as of
      the second; and the cache stays coherent, whatever changes when. */
  lemma CallIsFresh(parse: Parser, p: Cached, d: Disk, e1: seq<Change>, e2: seq<Change>, e3: seq<Change>)
    requires Coherent(parse, p, d)
    requires var d1 := AllChanged(d, e1);
             var d2 := AllChanged(d1, e2);
             Clocked(d, e1) && Clocked(d1, e2) && Clocked(d2, e3)
    ensures var d1 := AllChanged(d, e1);
            var d2 := AllChanged(d1, e2);
            var d3 := AllChanged(d2, e3);
            var (p', r) := Call(parse, p, d, e1, e2, e3);
            && Coherent(parse, p', d3)
            && (r.Failed? ==> p' == p)
            && (r.Served? && r.hit ==>
                  && p' == p
                  && d.cert.content.Some? && d1.key.content.Some?
                  && parse(d.cert.content.value, d1.key.content.value) == Some(r.cert))
            && (r.Served? && !r.hit ==>
                  && d2.cert.content.Some? && d3.key.content.Some?
                  && parse(d2.cert.content.value, d3.key.content.value) == Some(r.cert))
  {
    var d1 := AllChanged(d, e1);
    var d2 := AllChanged(d1, e2);
    var d3 := AllChanged(d2, e3);
    var (p', r) := Call(parse, p, d, e1, e2, e3);
    ChangesAreLater(d, e1);
    ChangesAreLater(d1, e2);
    ChangesAreLater(d2, e3);
    hide AllChanged, Clocked;
    CoherentLater(parse, p, d, d3);
    if r.Served? && r.hit {
      var vc, vk :| From(parse, p, d, vc, vk);
      assert vc == d.cert.mtime;
      assert vk == d1.key.mtime;
    } else if r.Served? {
      assert From(parse, p', d3, d2.cert.mtime, d3.key.mtime);
    }
  }

  /** The cache is coherent after every run in which each rewrite gives an unused time. */
  lemma {:induction false} RunCoherent(parse: Parser, d: Disk, rs: seq<Round>)
    requires Recorded(d.cert) && Recorded(d.key) && ClockedRun(parse, d, rs)
    ensures Coherent(parse, Run(parse, d, rs).p, Run(parse, d, rs).d)
  {
    if rs != [] {
      RunCoherent(parse, d, rs[..|rs| - 1]);
      var w := Run(parse, d, rs[..|rs| - 1]);
      var r := rs[|rs| - 1];
      ChangesAreLater(w.d, r.e0);
      CoherentLater(parse, w.p, w.d, AllChanged(w.d, r.e0));
      CallIsFresh(parse, w.p, AllChanged(w.d, r.e0), r.e1, r.e2, r.e3);
    }
  }

  /** In every such run a hit is fresh. */
  lemma HitIsFresh(parse: Parser, d: Disk, rs: seq<Round>, r: Round)
    requires Recorded(d.cert) && Recorded(d.key) && ClockedRun(parse, d, rs + [r])
    ensures var w := Run(parse, d, rs);
            var d0 := AllChanged(w.d, r.e0);
            var d1 := AllChanged(d0, r.e1);
            var out := Call(parse, w.p, d0, r.e1, r.e2, r.e3).1;
            out.Served? && out.hit ==>
              && d0.cert.content.Some? && d1.key.content.Some?
              && parse(d0.cert.content.value, d1.key.content.value) == Some(out.cert)
  {
    assert (rs + [r])[..|rs|] == rs;
    RunCoherent(parse, d, rs);
    var w := Run(parse, d, rs);
    ChangesAreLater(w.d, r.e0);
    CoherentLater(parse, w.p, w.d, AllChanged(w.d, r.e0));
    CallIsFresh(parse, w.p, AllChanged(w.d, r.e0), r.e1, r.e2, r.e3);
  }

  // ---- quiet calls --------------------------------------------------------------------------

  /** What loading gives from files at rest. */
  function Load(parse: Parser, d: Disk): Option<Certificate> {
    if d.cert.content.None? || d.key.content.None? then None
    else parse(d.cert.content.value, d.key.content.value)
  }

  /** While the files rest a call serves exactly what loading them gives, and after at most one reload every
      call is a hit: a change between Stat and load costs one reload, never a stale certificate. */
  lemma OneMoreReload(parse: Parser, p: Cached, d: Disk)
    requires Coherent(parse, p, d)
    ensures var (p1, r1) := Call(parse, p, d, [], [], []);
            var (p2, r2) := Call(parse, p1, d, [], [], []);
            && r1 == (match Load(parse, d) case Some(c) => Served(c, r1.Served? && r1.hit) case None => Failed)
            && (Load(parse, d).Some? ==> r2 == Served(Load(parse, d).value, true))
            && p2 == p1
  {
    CallIsFresh(parse, p, d, [], [], []);
  }

  /** Behind a load the next quiet call is a hit if and only if both files still have the times they had at the
      two Stats: a change between Stat and load is loaded, and costs one reload more. */
  lemma NextHitsIff(parse: Parser, p: Cached, d: Disk, e1: seq<Change>, e2: seq<Change>, e3: seq<Change>)
    requires Call(parse, p, d, e1, e2, e3).1.Served? && !Call(parse, p, d, e1, e2, e3).1.hit
    ensures var d1 := AllChanged(d, e1);
            var d3 := AllChanged(AllChanged(d1, e2), e3);
            var next := Call(parse, Call(parse, p, d, e1, e2, e3).0, d3, [], [], []).1;
            d3.cert.content.Some? && d3.key.content.Some? ==>
              (next.Served? && next.hit <==> d3.cert.mtime == d.cert.mtime && d3.key.mtime == d1.key.mtime)
  {
    hide Clocked;
  }

  /** One rewrite of the certificate or the key. */
  predicate IsWrite(c: Change) {
    c.WriteCert? || c.WriteKey?
  }

  /** The rewrite gives its file another time or leaves its content as it is. */
  predicate Noticeable(d: Disk, c: Change)
    requires IsWrite(c)
  {
    var f := if c.WriteCert? then d.cert else d.key;
    c.mtime != f.mtime || f.content == Some(c.content)
  }

  /** After a quiet load, a rewrite, and another quiet call: that call answers as loading the files would. */
  ghost predicate Seen(parse: Parser, d: Disk, c: Change) {
    var p := Call(parse, EMPTY, d, [], [], []).0;
    var r := Call(parse, p, Changed(d, c), [], [], []).1;
    match Load(parse, Changed(d, c))
    case Some(x) => r.Served? && r.cert == x
    case None => r.Failed?
  }

  lemma NoticeableIsSeen(parse: Parser, d: Disk, c: Change)
    requires IsWrite(c) && d.cert.content.Some? && d.key.content.Some? && Noticeable(d, c)
    ensures Seen(parse, d, c)
  {
  }

  /** A parser that tells the old pair of contents from every other. */
  function Distinguishing(d: Disk): Parser
    requires d.cert.content.Some? && d.key.content.Some?
  {
    var pair := (d.cert.content.value, d.key.content.value);
    (c: string, k: string) => Some(Certificate([], if (c, k) == pair then "old" else "new"))
  }

  /** A rewrite of either file is seen by the next quiet call, whatever the contents parse to, if and only
      if its time differs from the one the cache was loaded under or its content is the same. */
  lemma RewriteSeenIff(d: Disk, c: Change)
    requires IsWrite(c) && d.cert.content.Some? && d.key.content.Some?
    ensures (forall parse: Parser :: Seen(parse, d, c)) <==> Noticeable(d, c)
  {
    if Noticeable(d, c) {
      forall parse: Parser ensures Seen(parse, d, c) {
        NoticeableIsSeen(parse, d, c);
      }
    } else {
      var parse := Distinguishing(d);
      assert "old"[0] != "new"[0];
      assert !Seen(parse, d, c);
    }
  }

  /** A rewrite under the time the cache was loaded under is not seen: the old certificate is served. */
  lemma SameTimeServesStale(parse: Parser, before: string, now: string, key: string, t: int)
    requires parse(before, key).Some? && parse(now, key) != parse(before, key)
    ensures var empty := Disk(File(None, t - 1, map[]), File(None, t - 1, map[]));
            var d := Changed(Changed(empty, WriteCert(t, before)), WriteKey(t, key));
            var w := Run(parse, d, [Round([], [], [], [])]);
            var out := Call(parse, w.p, AllChanged(w.d, [WriteCert(t, now)]), [], [], []).1;
            && !Clocked(w.d, [WriteCert(t, now)])
            && out == Served(parse(before, key).value, true)
            && Load(parse, AllChanged(w.d, [WriteCert(t, now)])) != Some(out.cert)
  {
    var none := File(None, t - 1, map[]);
    var d := Changed(Changed(Disk(none, none), WriteCert(t, before)), WriteKey(t, key));
    var r := Round([], [], [], []);
    var rs := [r];
    assert rs[..0] == [];
    assert Run(parse, d, rs[..0]) == World(EMPTY, d);
    assert Run(parse, d, rs) == World(Call(parse, EMPTY, d, [], [], []).0, d);
    var cs := [WriteCert(t, now)];
    assert cs[1..] == [];
    assert AllChanged(d, cs) == Changed(d, cs[0]);
  }
}
