/** The compressing response writer: it buffers until it knows whether compression pays, and must not lose
    or reorder a byte. Compression itself is abstract: what the compressor sends is a sequence of pieces a
    reader can take apart again. */
module GzipWriter {

  import opened Wrappers
  import opened Text

  /** What arrives on the connection: plain bytes, or parts of one gzip stream. */
  datatype Piece = Plain(bytes: string) | Packed(bytes: string) | Flushed | Trailer

  const DEFAULT_MIN_SIZE := 1024
  const GZIP := "gzip"

  // ---- content types ------------------------------------------------------------------------

  /** The part of a content type before its parameters. */
  function MediaType(ct: string): string {
    if ct == "" || ct[0] == ';' then "" else [ct[0]] + MediaType(ct[1..])
  }

  predicate Compressible(ct: string) {
    ct == "" ||
    var m := MediaType(ct);
    || HasPrefix(m, "text/") || m == "application/json" || HasPrefix(m, "application/javascript")
    || HasPrefix(m, "application/xml") || m == "application/xhtml+xml" || m == "image/svg+xml"
  }

  /** Parameters behind a media type change nothing. */
  lemma ParametersIgnored(m: string, params: string)
    requires m != "" && ';' !in m
    ensures Compressible(m + ";" + params) == Compressible(m)
  {
    MediaTypeIs(m, ";" + params);
    MediaTypeIs(m, "");
    assert m + "" == m && m + ";" + params == m + (";" + params);
  }

  /** The library's own JSON responses, which name their charset, are worth compressing. */
  lemma JsonCompressed()
    ensures Compressible("application/json; charset=utf-8")
  {
    hide MediaType;
    WholeType("application/json");
    ParametersIgnored("application/json", " charset=utf-8");
    assert "application/json" + ";" + " charset=utf-8" == "application/json; charset=utf-8";
  }

  /** Images are not, other than SVG. */
  lemma ImagesSent(kind: string)
    requires ';' !in kind && kind != "svg+xml"
    ensures !Compressible("image/" + kind)
  {
    var m := "image/" + kind;
    hide MediaType, HasPrefix;
    WholeType(m);
    assert m[0] == 'i' && m[6..] == kind && "image/svg+xml"[6..] == "svg+xml";
    NoPrefix(m, "text/", 0);
    NoPrefix(m, "application/javascript", 0);
    NoPrefix(m, "application/xml", 0);
    assert "application/json"[0] == 'a' && "application/xhtml+xml"[0] == 'a';
  }

  lemma WholeType(m: string)
    requires ';' !in m
    ensures MediaType(m) == m
  {
    MediaTypeIs(m, "");
    assert m + "" == m;
  }

  lemma NoPrefix(t: string, p: string, i: nat)
    requires i < |t| && i < |p| && t[i] != p[i]
    ensures !HasPrefix(t, p)
  {
    assert |p| <= |t| ==> t[..|p|][i] == t[i];
  }

  lemma {:induction false} MediaTypeIs(m: string, rest: string)
    requires ';' !in m && (rest == "" || rest[0] == ';')
    ensures MediaType(m + rest) == m
  {
    if m == "" {
      assert m + rest == rest;
    } else {
      assert (m + rest)[1..] == m[1..] + rest && m == [m[0]] + m[1..];
      MediaTypeIs(m[1..], rest);
    }
  }

  // ---- states and steps ---------------------------------------------------------------------

  datatype Op = SetType(ct: string) | Header(code: int) | Write(p: string) | Flush

  /** The writer's fields and the connection behind it. `encoding` is the Content-Encoding header, empty
      when absent; `calls` are the statuses forwarded. */
  datatype World = World(ctype: string, encoding: string, vary: bool, calls: seq<int>, pieces: seq<Piece>,
                         wroteHead: bool, started: bool, decided: bool, compress: bool, minSize: nat, buf: string)

  function Decide(w: World): World {
    if w.decided then w else w.(decided := true, compress := Compressible(w.ctype))
  }

  /** Turns the stream on and forwards the status. */
  function Start(w: World, code: int): World {
    w.(wroteHead := true, encoding := GZIP, vary := true, started := true, calls := w.calls + [code])
  }

  function AfterHeader(w: World, code: int): World {
    if w.wroteHead then w
    else
      var d := Decide(w);
      if d.compress then Start(d, code) else d.(wroteHead := true, encoding := "", calls := d.calls + [code])
  }

  /** Starts the stream if no header went out, and drains the buffer into it. */
  function StartGzip(w: World, code: int): World {
    if w.wroteHead then w
    else
      var s := Start(w, code);
      if w.buf == "" then s else s.(pieces := s.pieces + [Packed(w.buf)], buf := "")
  }

  function AfterWrite(w: World, p: string): World {
    var d := Decide(w);
    if !d.compress then d.(pieces := d.pieces + [Plain(p)])
    else if d.started then d.(pieces := d.pieces + [Packed(p)])
    else
      var b := d.(buf := d.buf + p);
      if |b.buf| >= b.minSize then StartGzip(b, 200) else b
  }

  function AfterFlush(w: World): World {
    var s := if !w.started && w.buf != "" then StartGzip(w, 200) else w;
    if s.started then s.(pieces := s.pieces + [Flushed]) else s
  }

  function After(w: World, op: Op): World {
    match op
    case SetType(ct) => w.(ctype := ct)
    case Header(code) => AfterHeader(w, code)
    case Write(p) => AfterWrite(w, p)
    case Flush => AfterFlush(w)
  }

  function AfterAll(w: World, ops: seq<Op>): World
    decreases |ops|
  {
    if ops == [] then w else AfterAll(After(w, ops[0]), ops[1..])
  }

  function Closed(w: World): World {
    if w.started then w.(pieces := w.pieces + [Trailer])
    else if w.buf != "" then w.(encoding := "", pieces := w.pieces + [Plain(w.buf)], buf := "")
    else w
  }

  /** A writer not used yet before a connection on which nothing was sent. */
  function Fresh(ctype: string, minSize: nat): World {
    World(ctype, "", false, [], [], false, false, false, false, minSize, "")
  }

  // ---- the writer ---------------------------------------------------------------------------

  class Connection {
    var ctype: string
    var encoding: string
    var vary: bool
    var calls: seq<int>
    var pieces: seq<Piece>

    constructor (ctype: string)
      ensures this.ctype == ctype && encoding == "" && !vary && calls == [] && pieces == []
    {
      this.ctype, encoding, vary, calls, pieces := ctype, "", false, [], [];
    }

    /** The connection behind a writer that has not been used yet. */
    ghost function Wrapped(minSize: nat): World
      reads this
    {
      World(ctype, encoding, vary, calls, pieces, false, false, false, false, minSize, "")
    }
  }

  class Writer {
    const inner: Connection
    const minSize: nat
    var wroteHead: bool
    var started: bool
    var decided: bool
    var compress: bool
    var buf: string

    constructor (inner: Connection, minSize: nat)
      ensures this.inner == inner && this.minSize == minSize
      ensures !wroteHead && !started && !decided && !compress && buf == ""
    {
      this.inner, this.minSize := inner, minSize;
      wroteHead, started, decided, compress, buf := false, false, false, false, "";
    }

    ghost function Now(): World
      reads this, inner
    {
      World(inner.ctype, inner.encoding, inner.vary, inner.calls, inner.pieces,
            wroteHead, started, decided, compress, minSize, buf)
    }

    /** Decides once, from the content type set by then. */
    method IsCompressible() returns (yes: bool)
      modifies this
      ensures Now() == Decide(old(Now())) && yes == compress
    {
      if decided {
        return compress;
      }
      decided := true;
      compress := Compressible(inner.ctype);
      return compress;
    }

    method WriteHeader(code: int)
      modifies this, inner
      ensures Now() == AfterHeader(old(Now()), code)
    {
      if !wroteHead {
        wroteHead := true;
        var yes := IsCompressible();
        if !yes {
          inner.encoding := "";
          inner.calls := inner.calls + [code];
          return;
        }
        inner.encoding := GZIP;
        inner.vary := true;
        started := true;
        inner.calls := inner.calls + [code];
      }
    }

    method BeginGzip(code: int)
      modifies this, inner
      ensures Now() == StartGzip(old(Now()), code)
    {
      if !wroteHead {
        wroteHead := true;
        inner.encoding := GZIP;
        inner.vary := true;
        started := true;
        inner.calls := inner.calls + [code];
        if |buf| > 0 {
          inner.pieces := inner.pieces + [Packed(buf)];
          buf := "";
        }
      }
    }

    method Write(p: string)
      modifies this, inner
      ensures Now() == AfterWrite(old(Now()), p)
    {
      var yes := IsCompressible();
      if !yes {
        inner.pieces := inner.pieces + [Plain(p)];
        return;
      }
      if !started {
        buf := buf + p;
        if |buf| >= minSize {
          BeginGzip(200);
        }
        return;
      }
      inner.pieces := inner.pieces + [Packed(p)];
    }

    method Flush()
      modifies this, inner
      ensures Now() == AfterFlush(old(Now()))
    {
      if !started && |buf| > 0 {
        BeginGzip(200);
      }
      if started {
        inner.pieces := inner.pieces + [Flushed];
      }
    }

    method Close()
      modifies this, inner
      ensures Now() == Closed(old(Now()))
    {
      if started {
        inner.pieces := inner.pieces + [Trailer];
        return;
      }
      if |buf| > 0 {
        inner.encoding := "";
        inner.pieces := inner.pieces + [Plain(buf)];
        buf := "";
      }
    }

    method Do(op: Op)
      modifies this, inner
      ensures Now() == After(old(Now()), op)
    {
      match op
      case SetType(ct) => inner.ctype := ct;
      case Header(code) => WriteHeader(code);
      case Write(p) => Write(p);
      case Flush => Flush();
    }
  }

  function MinSizeOf(option: int): nat {
    if option <= 0 then DEFAULT_MIN_SIZE else option
  }

  /** The middleware around a handler that returns: every operation goes through the writer, then Close. */
  method Serve(conn: Connection, option: int, ops: seq<Op>) returns (gw: Writer)
    modifies conn
    ensures gw.inner == conn && fresh(gw)
    ensures gw.Now() == Closed(AfterAll(old(conn.Wrapped(MinSizeOf(option))), ops))
  {
    var minSize := option;
    if minSize <= 0 {
      minSize := DEFAULT_MIN_SIZE;
    }
    gw := new Writer(conn, minSize);
    assert ops[0..] == ops;
    for i := 0 to |ops|
      invariant gw.inner == conn && fresh(gw)
      invariant AfterAll(old(conn.Wrapped(MinSizeOf(option))), ops) == AfterAll(gw.Now(), ops[i..])
    {
      assert ops[i..][1..] == ops[i + 1..];
      gw.Do(ops[i]);
    }
    gw.Close();
  }

  // ---- conservation -------------------------------------------------------------------------

  /** The bytes of pieces that are all of the stream's body, or None. */
  function Unpack(pieces: seq<Piece>): Option<string> {
    if pieces == [] then Some("")
    else
      var n := |pieces| - 1;
      match (Unpack(pieces[..n]), pieces[n])
      case (Some(s), Packed(p)) => Some(s + p)
      case (Some(s), Flushed) => Some(s)
      case _ => None
  }

  function Join(pieces: seq<Piece>): Option<string> {
    if pieces == [] then Some("")
    else
      var n := |pieces| - 1;
      match (Join(pieces[..n]), pieces[n])
      case (Some(s), Plain(p)) => Some(s + p)
      case _ => None
  }

  /** What the client reads, going by the Content-Encoding header: a whole gzip stream closed once at its
      end, or plain bytes. */
  function Received(encoding: string, pieces: seq<Piece>): Option<string> {
    if encoding == GZIP then
      if pieces != [] && pieces[|pieces| - 1] == Trailer then Unpack(pieces[..|pieces| - 1]) else None
    else if encoding == "" then Join(pieces)
    else None
  }

  function Written(ops: seq<Op>): string {
    if ops == [] then ""
    else (if ops[0].Write? then ops[0].p else "") + Written(ops[1..])
  }

  /** `done` is what has been written so far; in a started stream `buf` is what a late header left behind. */
  ghost predicate Keeps(w: World, done: string) {
    && w.minSize > 0
    && |w.calls| == (if w.wroteHead then 1 else 0)
    && (w.vary <==> w.started)
    && (w.started ==> w.wroteHead && w.decided && w.compress && w.encoding == GZIP)
    && (!w.started ==> w.encoding == "")
    && (w.wroteHead ==> w.decided && w.started == w.compress)
    && (!w.decided ==> done == "" && w.buf == "" && w.pieces == [])
    && (w.decided && !w.compress ==> w.buf == "" && Join(w.pieces) == Some(done))
    && (w.decided && w.compress && !w.started ==> w.pieces == [] && w.buf == done && |w.buf| < w.minSize)
    && (w.started ==>
          var u := Unpack(w.pieces);
          u.Some? && w.buf + u.value == done)
  }

  lemma UnpackSnoc(pieces: seq<Piece>, p: Piece)
    ensures Unpack(pieces + [p]) ==
            match (Unpack(pieces), p)
            case (Some(s), Packed(b)) => Some(s + b)
            case (Some(s), Flushed) => Some(s)
            case _ => None
  {
    assert (pieces + [p])[..|pieces|] == pieces;
  }

  lemma JoinSnoc(pieces: seq<Piece>, p: Piece)
    ensures Join(pieces + [p]) ==
            match (Join(pieces), p)
            case (Some(s), Plain(b)) => Some(s + b)
            case _ => None
  {
    assert (pieces + [p])[..|pieces|] == pieces;
  }

  lemma StepKeeps(w: World, done: string, op: Op)
    requires Keeps(w, done)
    ensures Keeps(After(w, op), done + if op.Write? then op.p else "")
  {
    match op
    case SetType(ct) => assert done + "" == done;
    case Header(code) => assert done + "" == done;
    case Write(p) => WriteKeeps(w, done, p);
    case Flush =>
      assert done + "" == done;
      UnpackSnoc(w.pieces, Flushed);
      UnpackSnoc([Packed(w.buf)], Flushed);
      UnpackSnoc([], Packed(w.buf));
      assert [] + [Packed(w.buf)] == [Packed(w.buf)];
      assert "" + w.buf == w.buf;
  }

  lemma WriteKeeps(w: World, done: string, p: string)
    requires Keeps(w, done)
    ensures Keeps(AfterWrite(w, p), done + p)
  {
    var d := Decide(w);
    assert Keeps(d, done);
    if !d.compress {
      JoinSnoc(d.pieces, Plain(p));
    } else if d.started {
      UnpackSnoc(d.pieces, Packed(p));
      var u := Unpack(d.pieces).value;
      assert d.buf + (u + p) == (d.buf + u) + p;
    } else {
      UnpackSnoc([], Packed(d.buf + p));
      assert [] + [Packed(d.buf + p)] == [Packed(d.buf + p)];
      assert "" + (d.buf + p) == d.buf + p;
    }
  }

  lemma {:induction false} RunKeeps(w: World, done: string, ops: seq<Op>)
    requires Keeps(w, done)
    ensures Keeps(AfterAll(w, ops), done + Written(ops))
    decreases |ops|
  {
    hide After, Keeps;
    if ops == [] {
      assert done + "" == done;
    } else {
      var p := if ops[0].Write? then ops[0].p else "";
      StepKeeps(w, done, ops[0]);
      RunKeeps(After(w, ops[0]), done + p, ops[1..]);
      assert done + (p + Written(ops[1..])) == (done + p) + Written(ops[1..]);
    }
  }

  /** Whatever the operations: the client can always read the response, and reads everything written
      except what a late header stranded in the buffer; compressed exactly when Content-Encoding says so, and
      then with Vary; at most one status is forwarded. */
  lemma ReceivedIs(ctype: string, minSize: nat, ops: seq<Op>)
    requires minSize > 0
    ensures var w := AfterAll(Fresh(ctype, minSize), ops);
            var c := Closed(w);
            && Received(c.encoding, c.pieces).Some?
            && Written(ops) == (if w.started then w.buf else "") + Received(c.encoding, c.pieces).value
            && (c.encoding == GZIP <==> w.started) && (c.vary <==> w.started)
            && |c.calls| <= 1
  {
    var w := AfterAll(Fresh(ctype, minSize), ops);
    assert Keeps(Fresh(ctype, minSize), "");
    RunKeeps(Fresh(ctype, minSize), "", ops);
    assert "" + Written(ops) == Written(ops);
    var c := Closed(w);
    if w.started {
      assert c.pieces[..|w.pieces|] == w.pieces;
    } else {
      JoinSnoc(w.pieces, Plain(w.buf));
      assert "" + w.buf == w.buf;
      var r := Received(c.encoding, c.pieces).value;
      assert "" + r == r;
    }
  }

  lemma {:induction false} AfterAllSnoc(w: World, ops: seq<Op>, op: Op)
    ensures AfterAll(w, ops + [op]) == After(AfterAll(w, ops), op)
    decreases |ops|
  {
    if ops == [] {
      assert ops + [op] == [op] && [op][1..] == [];
      assert AfterAll(After(w, op), []) == After(w, op);
    } else {
      assert (ops + [op])[1..] == ops[1..] + [op];
      AfterAllSnoc(After(w, ops[0]), ops[1..], op);
    }
  }

  /** A flush at any moment leaves nothing waiting: all that was written is with the client, in a stream that
      was flushed behind it or as plain bytes, again except what a late header stranded. */
  lemma FlushSendsAll(ctype: string, minSize: nat, ops: seq<Op>)
    requires minSize > 0
    ensures var w := AfterAll(Fresh(ctype, minSize), ops + [Flush]);
            if w.started then
              && w.pieces != [] && w.pieces[|w.pieces| - 1] == Flushed
              && Unpack(w.pieces).Some? && w.buf + Unpack(w.pieces).value == Written(ops)
            else w.buf == "" && Join(w.pieces) == Some(Written(ops))
  {
    hide AfterAll;
    var w := AfterAll(Fresh(ctype, minSize), ops);
    assert Keeps(Fresh(ctype, minSize), "");
    RunKeeps(Fresh(ctype, minSize), "", ops);
    assert "" + Written(ops) == Written(ops);
    AfterAllSnoc(Fresh(ctype, minSize), ops, Flush);
    StepKeeps(w, Written(ops), Flush);
    assert Written(ops) + "" == Written(ops);
  }

  // ---- when a byte is lost ------------------------------------------------------------------

  /** A header that comes while bytes wait in the buffer. */
  predicate Strands(w: World, op: Op) {
    op.Header? && !w.wroteHead && w.buf != ""
  }

  predicate EverStrands(w: World, ops: seq<Op>)
    decreases |ops|
  {
    ops != [] && (Strands(w, ops[0]) || EverStrands(After(w, ops[0]), ops[1..]))
  }

  lemma {:induction false} StrandedIff(w: World, done: string, ops: seq<Op>)
    requires Keeps(w, done)
    ensures var v := AfterAll(w, ops);
            v.started && v.buf != "" <==> (w.started && w.buf != "") || EverStrands(w, ops)
    decreases |ops|
  {
    hide After, Keeps, Strands;
    if ops != [] {
      StepKeeps(w, done, ops[0]);
      StepStrands(w, done, ops[0]);
      StrandedIff(After(w, ops[0]), done + if ops[0].Write? then ops[0].p else "", ops[1..]);
    }
  }

  lemma StepStrands(w: World, done: string, op: Op)
    requires Keeps(w, done)
    ensures var u := After(w, op);
            u.started && u.buf != "" <==> (w.started && w.buf != "") || Strands(w, op)
  {
    hide Unpack, Join;
    if w.started {
      assert After(w, op).started && After(w, op).buf == w.buf;
    }
  }

  /** The operations before the first header, or all of them. */
  function Unheaded(ops: seq<Op>): (n: nat)
    ensures n <= |ops| && (n < |ops| ==> ops[n].Header?)
  {
    if ops == [] || ops[0].Header? then 0 else 1 + Unheaded(ops[1..])
  }

  /** The content type at the first write. */
  function TypeAtWrite(ctype: string, ops: seq<Op>): string
    decreases |ops|
  {
    if ops == [] || ops[0].Write? then ctype
    else TypeAtWrite(if ops[0].SetType? then ops[0].ct else ctype, ops[1..])
  }

  /** A flush comes behind a write that is not empty. */
  ghost predicate FlushBehind(ops: seq<Op>) {
    exists i, j :: 0 <= i < j < |ops| && ops[i].Write? && ops[i].p != "" && ops[j].Flush?
  }

  /** What a caller can see of an operation list that loses bytes: a header comes, and before the first
      one some bytes were written, fewer than the threshold, none of them flushed, under a content type
      worth compressing at the first write. */
  ghost predicate LateHeader(ctype: string, minSize: nat, ops: seq<Op>) {
    var n := Unheaded(ops);
    var before := ops[..n];
    && n < |ops|
    && 0 < |Written(before)| < minSize
    && !FlushBehind(before)
    && Compressible(TypeAtWrite(ctype, before))
  }

  ghost predicate HasFlush(ops: seq<Op>) {
    exists j :: 0 <= j < |ops| && ops[j].Flush?
  }

  lemma FlushCons(op: Op, ops: seq<Op>)
    ensures HasFlush([op] + ops) <==> op.Flush? || HasFlush(ops)
  {
    var all := [op] + ops;
    assert all[0] == op && forall k | 0 <= k < |ops| :: all[k + 1] == ops[k];
    if HasFlush(ops) {
      var j :| 0 <= j < |ops| && ops[j].Flush?;
      assert all[j + 1] == ops[j];
    }
    if HasFlush(all) {
      var j :| 0 <= j < |all| && all[j].Flush?;
      if j > 0 { assert ops[j - 1] == all[j]; }
    }
  }

  lemma BehindCons(op: Op, ops: seq<Op>)
    ensures FlushBehind([op] + ops) <==> FlushBehind(ops) || (op.Write? && op.p != "" && HasFlush(ops))
    ensures HasFlush([op] + ops) <==> op.Flush? || HasFlush(ops)
  {
    FlushCons(op, ops);
    var all := [op] + ops;
    assert all[0] == op && forall k | 0 <= k < |ops| :: all[k + 1] == ops[k];
    if FlushBehind(all) {
      var i, j :| 0 <= i < j < |all| && all[i].Write? && all[i].p != "" && all[j].Flush?;
      assert ops[j - 1] == all[j];
      if i > 0 { assert ops[i - 1] == all[i]; }
    }
    if FlushBehind(ops) {
      var i, j :| 0 <= i < j < |ops| && ops[i].Write? && ops[i].p != "" && ops[j].Flush?;
      assert all[i + 1] == ops[i] && all[j + 1] == ops[j];
    }
    if HasFlush(ops) {
      var j :| 0 <= j < |ops| && ops[j].Flush?;
      assert all[j + 1] == ops[j];
    }
  }

  /** One operation further that is no header. */
  lemma UnheadedCons(ops: seq<Op>)
    requires ops != [] && !ops[0].Header?
    ensures Unheaded(ops) == 1 + Unheaded(ops[1..])
    ensures ops[..Unheaded(ops)] == [ops[0]] + ops[1..][..Unheaded(ops[1..])]
  {
  }

  lemma WrittenCons(op: Op, ops: seq<Op>)
    ensures |Written([op] + ops)| == (if op.Write? then |op.p| else 0) + |Written(ops)|
  {
    assert ([op] + ops)[1..] == ops;
  }

  /** Nothing is stranded once the header is out. */
  lemma {:induction false} HeaderOut(w: World, ops: seq<Op>)
    requires w.wroteHead
    ensures !EverStrands(w, ops)
    decreases |ops|
  {
    if ops != [] {
      HeaderOut(After(w, ops[0]), ops[1..]);
    }
  }

  /** Nothing waits where nothing is compressed. */
  lemma {:induction false} PlainStrandsNothing(w: World, ops: seq<Op>)
    requires w.decided && !w.compress && w.buf == ""
    ensures !EverStrands(w, ops)
    decreases |ops|
  {
    if ops != [] {
      PlainStrandsNothing(After(w, ops[0]), ops[1..]);
    }
  }

  /** With bytes waiting: a header before a flush and before the threshold strands them. */
  lemma {:induction false} WaitingStrands(w: World, ops: seq<Op>)
    requires !w.wroteHead && !w.started && w.decided && w.compress && 0 < |w.buf| < w.minSize
    ensures var n := Unheaded(ops);
            EverStrands(w, ops) <==> n < |ops| && |w.buf| + |Written(ops[..n])| < w.minSize && !HasFlush(ops[..n])
    decreases |ops|
  {
    if ops == [] || ops[0].Header? {
      assert ops[..0] == [];
    } else {
      var op, u, tail := ops[0], After(w, ops[0]), ops[1..];
      UnheadedCons(ops);
      WrittenCons(op, tail[..Unheaded(tail)]);
      BehindCons(op, tail[..Unheaded(tail)]);
      assert !Strands(w, op);
      if u.wroteHead {
        HeaderOut(u, tail);
      } else {
        WaitingStrands(u, tail);
      }
    }
  }

  /** With nothing waiting: exactly the lists that lose bytes strand some. */
  lemma {:induction false} EmptyStrands(w: World, ops: seq<Op>)
    requires !w.wroteHead && !w.started && w.buf == "" && w.minSize > 0 && (w.decided ==> w.compress)
    ensures var n := Unheaded(ops);
            EverStrands(w, ops) <==>
            && n < |ops| && 0 < |Written(ops[..n])| < w.minSize && !FlushBehind(ops[..n])
            && (w.decided || Compressible(TypeAtWrite(w.ctype, ops[..n])))
    decreases |ops|
  {
    if ops == [] {
    } else if ops[0].Header? {
      assert ops[..0] == [];
      HeaderOut(After(w, ops[0]), ops[1..]);
    } else {
      EmptyStrandsBehind(w, ops);
    }
  }

  lemma TypeCons(ctype: string, op: Op, ops: seq<Op>)
    ensures TypeAtWrite(ctype, [op] + ops) ==
            if op.Write? then ctype else TypeAtWrite(if op.SetType? then op.ct else ctype, ops)
  {
    assert ([op] + ops)[1..] == ops;
  }

  /** The first write, with nothing waiting before it. */
  lemma FirstWrite(w: World, p: string)
    requires !w.wroteHead && !w.started && w.buf == "" && w.minSize > 0 && (w.decided ==> w.compress)
    ensures var u := After(w, Write(p));
            && u.decided && u.minSize == w.minSize && u.compress == (w.decided || Compressible(w.ctype))
            && (!u.compress ==> u.buf == "")
            && (u.compress ==> u.wroteHead == u.started == (|p| >= w.minSize) && (!u.wroteHead ==> u.buf == p))
  {
    assert "" + p == p;
  }

  lemma EmptyStrandsBehind(w: World, ops: seq<Op>)
    requires !w.wroteHead && !w.started && w.buf == "" && w.minSize > 0 && (w.decided ==> w.compress)
    requires ops != [] && !ops[0].Header?
    ensures var n := Unheaded(ops);
            EverStrands(w, ops) <==>
            && n < |ops| && 0 < |Written(ops[..n])| < w.minSize && !FlushBehind(ops[..n])
            && (w.decided || Compressible(TypeAtWrite(w.ctype, ops[..n])))
    decreases |ops|, 0
  {
    hide Compressible, EverStrands, TypeAtWrite, Written, Unheaded, FlushBehind, HasFlush;
    var op, u, tail := ops[0], After(w, ops[0]), ops[1..];
    var m := Unheaded(tail);
    UnheadedCons(ops);
    WrittenCons(op, tail[..m]);
    BehindCons(op, tail[..m]);
    TypeCons(w.ctype, op, tail[..m]);
    EverCons(w, ops);
    if op.Write? {
      FirstWrite(w, op.p);
      hide After;
      if !u.compress {
        PlainStrandsNothing(u, tail);
      } else if op.p == "" {
        EmptyStrands(u, tail);
      } else if u.wroteHead {
        HeaderOut(u, tail);
      } else {
        WaitingStrands(u, tail);
        FlushFree(tail[..m]);
      }
    } else {
      EmptyStrands(u, tail);
    }
  }

  lemma EverCons(w: World, ops: seq<Op>)
    requires ops != [] && !Strands(w, ops[0])
    ensures EverStrands(w, ops) <==> EverStrands(After(w, ops[0]), ops[1..])
  {
  }

  lemma FlushFree(ops: seq<Op>)
    ensures FlushBehind(ops) ==> HasFlush(ops)
  {
  }

  /** The body is conserved if and only if the operation list is not one that loses bytes. */
  lemma ConservedIff(ctype: string, minSize: nat, ops: seq<Op>)
    requires minSize > 0
    ensures var c := Closed(AfterAll(Fresh(ctype, minSize), ops));
            Received(c.encoding, c.pieces) == Some(Written(ops)) <==> !LateHeader(ctype, minSize, ops)
  {
    StrandsNothingIff(ctype, minSize, ops);
    EmptyStrands(Fresh(ctype, minSize), ops);
  }

  lemma StrandsNothingIff(ctype: string, minSize: nat, ops: seq<Op>)
    requires minSize > 0
    ensures var c := Closed(AfterAll(Fresh(ctype, minSize), ops));
            Received(c.encoding, c.pieces) == Some(Written(ops)) <==> !EverStrands(Fresh(ctype, minSize), ops)
  {
    var w := AfterAll(Fresh(ctype, minSize), ops);
    var c := Closed(w);
    ReceivedIs(ctype, minSize, ops);
    StrandedIff(Fresh(ctype, minSize), "", ops);
    var r := Received(c.encoding, c.pieces).value;
    if w.started && w.buf != "" {
      assert |w.buf + r| > |r|;
    } else {
      assert "" + r == r;
    }
  }

  // ---- the status and the encoding ----------------------------------------------------------

  /** The operations before the first header start the stream by themselves: the threshold is reached, or
      bytes are flushed. */
  ghost predicate StartsStream(minSize: nat, before: seq<Op>) {
    |Written(before)| >= minSize || FlushBehind(before)
  }

  /** The status of the first header, if there is one. */
  function FirstCode(ops: seq<Op>): seq<int> {
    var n := Unheaded(ops);
    if n < |ops| then [ops[n].code] else []
  }

  /** From w the operations forward these statuses, and the stream is started in the end or not. */
  ghost predicate Sends(w: World, ops: seq<Op>, codes: seq<int>, started: bool) {
    AfterAll(w, ops).calls == w.calls + codes && AfterAll(w, ops).started == started
  }

  lemma {:induction false} HeaderSent(w: World, ops: seq<Op>)
    requires w.wroteHead && (w.started ==> w.decided && w.compress)
    requires w.decided && (w.compress ==> w.started)
    ensures Sends(w, ops, [], w.started)
    decreases |ops|
  {
    if ops != [] {
      HeaderSent(After(w, ops[0]), ops[1..]);
    } else {
      assert w.calls + [] == w.calls;
    }
  }

  lemma FirstCodeCons(ops: seq<Op>)
    ensures ops == [] ==> FirstCode(ops) == []
    ensures ops != [] ==> FirstCode(ops) == if ops[0].Header? then [ops[0].code] else FirstCode(ops[1..])
  {
  }

  lemma SendsCons(w: World, ops: seq<Op>, codes: seq<int>, more: seq<int>, started: bool)
    requires ops != [] && After(w, ops[0]).calls == w.calls + codes && Sends(After(w, ops[0]), ops[1..], more, started)
    ensures Sends(w, ops, codes + more, started)
  {
    assert (w.calls + codes) + more == w.calls + (codes + more);
  }

  lemma SendsNothing(w: World)
    ensures Sends(w, [], [], w.started)
  {
    assert w.calls + [] == w.calls;
  }

  /** Where nothing is compressed the first header is forwarded. */
  lemma {:induction false} PlainSends(w: World, ops: seq<Op>)
    requires w.decided && !w.compress && !w.wroteHead && !w.started && w.buf == ""
    ensures Sends(w, ops, FirstCode(ops), false)
    decreases |ops|
  {
    hide FirstCode, Sends;
    FirstCodeCons(ops);
    if ops == [] {
      SendsNothing(w);
    } else if ops[0].Header? {
      HeaderSent(After(w, ops[0]), ops[1..]);
      SendsCons(w, ops, [ops[0].code], [], false);
      assert [ops[0].code] + [] == [ops[0].code];
    } else {
      assert w.calls + [] == w.calls && [] + FirstCode(ops[1..]) == FirstCode(ops[1..]);
      PlainSends(After(w, ops[0]), ops[1..]);
      SendsCons(w, ops, [], FirstCode(ops[1..]), false);
    }
  }

  /** A header before anything else, where the answer is compressed. */
  lemma HeaderSends(w: World, ops: seq<Op>, code: int)
    requires !w.wroteHead && !w.started && ops != [] && ops[0] == Header(code)
    ensures Sends(w, ops, [code], Decide(w).compress)
  {
    HeaderSent(After(w, ops[0]), ops[1..]);
    SendsCons(w, ops, [code], [], Decide(w).compress);
    assert [code] + [] == [code];
  }

  /** With bytes waiting: 200 if the threshold is reached or a flush comes before the first header. */
  lemma {:induction false} WaitingSends(w: World, ops: seq<Op>)
    requires !w.wroteHead && !w.started && w.decided && w.compress && 0 < |w.buf| < w.minSize
    ensures var n := Unheaded(ops);
            var starts := |w.buf| + |Written(ops[..n])| >= w.minSize || HasFlush(ops[..n]);
            Sends(w, ops, if starts then [200] else FirstCode(ops), starts || FirstCode(ops) != [])
    decreases |ops|
  {
    hide Sends, FirstCode, Written, HasFlush, FlushBehind, Unheaded;
    FirstCodeCons(ops);
    NothingBefore(ops);
    if ops == [] {
      SendsNothing(w);
    } else if ops[0].Header? {
      HeaderSends(w, ops, ops[0].code);
    } else {
      var op, u, tail := ops[0], After(w, ops[0]), ops[1..];
      UnheadedCons(ops);
      WrittenCons(op, tail[..Unheaded(tail)]);
      FlushCons(op, tail[..Unheaded(tail)]);
      if u.wroteHead {
        HeaderSent(u, tail);
        SendsCons(w, ops, [200], [], true);
        assert [200] + [] == [200];
      } else {
        WaitingSends(u, tail);
        var before := tail[..Unheaded(tail)];
        var starts := |u.buf| + |Written(before)| >= w.minSize || HasFlush(before);
        var codes := if starts then [200] else FirstCode(tail);
        assert w.calls + [] == w.calls && [] + codes == codes;
        assert u.minSize == w.minSize && !op.Flush?;
        assert |u.buf| == |w.buf| + if op.Write? then |op.p| else 0;
        SendsCons(w, ops, [], codes, starts || FirstCode(tail) != []);
      }
    }
  }

  lemma NothingBefore(ops: seq<Op>)
    ensures ops == [] || ops[0].Header? ==>
              Unheaded(ops) == 0 && Written(ops[..0]) == "" && !HasFlush(ops[..0]) && !FlushBehind(ops[..0])
  {}

  lemma FirstWriteCalls(w: World, p: string)
    requires !w.wroteHead && !w.started && w.buf == "" && w.minSize > 0 && (w.decided ==> w.compress)
    ensures var u := After(w, Write(p));
            && u.calls == w.calls + (if u.wroteHead then [200] else []) && u.started == u.wroteHead
            && (!u.compress ==> !u.wroteHead) && (u.compress ==> u.wroteHead == (|p| >= w.minSize))
  {
    assert "" + p == p && w.calls + [] == w.calls;
  }

  /** With nothing waiting. */
  lemma {:induction false} EmptySends(w: World, ops: seq<Op>)
    requires !w.wroteHead && !w.started && w.buf == "" && w.minSize > 0 && (w.decided ==> w.compress)
    ensures var before := ops[..Unheaded(ops)];
            var worth := w.decided || Compressible(TypeAtWrite(w.ctype, before));
            var starts := StartsStream(w.minSize, before);
            Sends(w, ops, if worth && starts then [200] else FirstCode(ops), worth && (starts || FirstCode(ops) != []))
    decreases |ops|
  {
    hide Sends, FirstCode, Written, HasFlush, FlushBehind, Unheaded, TypeAtWrite, Compressible;
    FirstCodeCons(ops);
    NothingBefore(ops);
    if ops == [] {
      SendsNothing(w);
    } else if ops[0].Header? {
      HeaderSends(w, ops, ops[0].code);
      TypeBefore(w.ctype);
      assert ops[..0] == [];
    } else if ops[0].Write? {
      EmptySendsWrite(w, ops);
    } else {
      var op, tail := ops[0], ops[1..];
      var before := tail[..Unheaded(tail)];
      UnheadedCons(ops);
      WrittenCons(op, before);
      BehindCons(op, before);
      TypeCons(w.ctype, op, before);
      var u := After(w, op);
      EmptySends(u, tail);
      var worth := u.decided || Compressible(TypeAtWrite(u.ctype, before));
      var starts := StartsStream(w.minSize, before);
      var codes := if worth && starts then [200] else FirstCode(tail);
      assert w.calls + [] == w.calls && [] + codes == codes;
      SendsCons(w, ops, [], codes, worth && (starts || FirstCode(tail) != []));
    }
  }

  lemma TypeBefore(ctype: string)
    ensures TypeAtWrite(ctype, []) == ctype
  {}

  lemma EmptySendsWrite(w: World, ops: seq<Op>)
    requires !w.wroteHead && !w.started && w.buf == "" && w.minSize > 0 && (w.decided ==> w.compress)
    requires ops != [] && ops[0].Write?
    ensures var before := ops[..Unheaded(ops)];
            var worth := w.decided || Compressible(TypeAtWrite(w.ctype, before));
            var starts := StartsStream(w.minSize, before);
            Sends(w, ops, if worth && starts then [200] else FirstCode(ops), worth && (starts || FirstCode(ops) != []))
    decreases |ops|, 0
  {
    hide Sends, FirstCode, Written, HasFlush, FlushBehind, Unheaded, TypeAtWrite, Compressible;
    var op, u, tail := ops[0], After(w, ops[0]), ops[1..];
    var before := tail[..Unheaded(tail)];
    FirstCodeCons(ops);
    UnheadedCons(ops);
    WrittenCons(op, before);
    BehindCons(op, before);
    TypeCons(w.ctype, op, before);
    FirstWrite(w, op.p);
    FirstWriteCalls(w, op.p);
    hide After;
    var starts := StartsStream(w.minSize, [op] + before);
    var codes := if u.compress && starts then [200] else FirstCode(tail);
    var on := u.compress && (starts || FirstCode(tail) != []);
    if u.wroteHead {
      HeaderSent(u, tail);
      SendsCons(w, ops, [200], [], true);
      assert [200] + [] == [200];
    } else {
      assert w.calls + [] == w.calls && [] + codes == codes;
      if !u.compress {
        PlainSends(u, tail);
      } else if op.p == "" {
        EmptySends(u, tail);
      } else {
        WaitingSends(u, tail);
        FlushFree(before);
      }
      SendsCons(w, ops, [], codes, on);
    }
  }

  /** Which status is forwarded, for all operations: 200 if the operations before the first header start the
      stream and the content type at the first write is worth compressing, and otherwise the first header's, if
      there is one. The answer is compressed in the first case, and in the second if the content type there
      is worth it. */
  lemma StatusIs(ctype: string, minSize: nat, ops: seq<Op>)
    requires minSize > 0
    ensures var n := Unheaded(ops);
            var before := ops[..n];
            var worth, starts := Compressible(TypeAtWrite(ctype, before)), StartsStream(minSize, before);
            var c := Closed(AfterAll(Fresh(ctype, minSize), ops));
            && c.calls == (if worth && starts then [200] else if n < |ops| then [ops[n].code] else [])
            && (c.encoding == GZIP <==> worth && (starts || n < |ops|))
  {
    hide AfterAll, Compressible, TypeAtWrite, StartsStream, Unheaded;
    EmptySends(Fresh(ctype, minSize), ops);
    ReceivedIs(ctype, minSize, ops);
    assert [] + FirstCode(ops) == FirstCode(ops) && [] + [200] == [200];
  }

  /** All headers come before all writes. */
  ghost predicate HeaderFirst(ops: seq<Op>) {
    forall i, j | 0 <= i < j < |ops| && ops[i].Write? :: !ops[j].Header?
  }

  lemma {:induction false} NothingBeforeHeader(ops: seq<Op>)
    requires HeaderFirst(ops) && Unheaded(ops) < |ops|
    ensures Written(ops[..Unheaded(ops)]) == ""
  {
    var n := Unheaded(ops);
    forall i | 0 <= i < n ensures !ops[..n][i].Write? {
      assert ops[..n][i] == ops[i];
    }
    NoWrites(ops[..n]);
  }

  lemma {:induction false} NoWrites(ops: seq<Op>)
    requires forall i | 0 <= i < |ops| :: !ops[i].Write?
    ensures Written(ops) == ""
  {
    if ops != [] {
      assert forall i | 0 <= i < |ops| - 1 :: ops[1..][i] == ops[i + 1];
      NoWrites(ops[1..]);
    }
  }

  /** For every sequence of writes, flushes and header changes in which the status comes before the first
      write, the client reads exactly what was written. */
  lemma HeaderFirstConserves(ctype: string, minSize: nat, ops: seq<Op>)
    requires minSize > 0 && HeaderFirst(ops)
    ensures var c := Closed(AfterAll(Fresh(ctype, minSize), ops));
            Received(c.encoding, c.pieces) == Some(Written(ops))
  {
    if Unheaded(ops) < |ops| {
      NothingBeforeHeader(ops);
    }
    ConservedIff(ctype, minSize, ops);
  }

  /** The loss is real: any text shorter than the threshold, written before the status, never arrives. */
  lemma LateHeaderLoses(p: string, code: int, minSize: nat)
    requires p != "" && |p| < minSize
    ensures var c := Closed(AfterAll(Fresh("", minSize), [Write(p), Header(code)]));
            Written([Write(p), Header(code)]) == p && Received(c.encoding, c.pieces) == Some("")
  {
    var w0 := Fresh("", minSize);
    var ops := [Write(p), Header(code)];
    var w1 := After(w0, Write(p));
    assert w1.buf == p by { assert "" + p == p; }
    var w2 := After(w1, Header(code));
    assert ops[1..] == [Header(code)] && ops[1..][1..] == [];
    assert AfterAll(w2, []) == w2;
    assert AfterAll(w1, ops[1..]) == AfterAll(w2, ops[1..][1..]);
    assert AfterAll(w0, ops) == AfterAll(w1, ops[1..]);
    assert Closed(w2).pieces == [Trailer];
    assert Written(ops[1..]) == "" by { assert Written(ops[1..][1..]) == ""; }
    assert Written(ops) == p by { assert p + "" == p; }
  }
}
