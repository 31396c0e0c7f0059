/** The request metrics under concurrency. Every atomic operation of the middleware is one step; requests run
    the steps of their own list in order, interleaved in any way with each other. */
module Metrics {
  import opened Wrappers

  // ---- counters and operations --------------------------------------------------------------

  datatype Protocol = Http1 | Http2 | Http3

  /** Per-route and per-group counters live in tables of their own. */
  datatype Kind = Routes | Groups

  datatype Field = Requests | Errors5xx | DurationNs | Samples

  datatype Counter =
    | Total(field: Field)
    | InFlight
    | Status(hundreds: int)
    | OfProtocol(protocol: Protocol, field: Field)
    | Named(kind: Kind, name: string, field: Field)

  datatype Op =
    | Add(counter: Counter, delta: int)
    | Load(kind: Kind, name: string)
    | LoadOrStore(kind: Kind, name: string)
    | AddTo(kind: Kind, name: string, field: Field, delta: int)

  /** What all requests share: the fixed counters, the two tables, and the counters they point to. */
  datatype Shared =
    Shared(plain: map<Counter, int>, tables: map<(Kind, string), nat>, cells: map<(nat, Field), int>, next: nat)

  const EMPTY := Shared(map[], map[], map[], 0)

  function Get<K>(m: map<K, int>, k: K): int {
    if k in m then m[k] else 0
  }

  /** One atomic operation. `cell` is the local variable that holds the counters a request has looked up. */
  function Exec(sh: Shared, cell: Option<nat>, op: Op): (Shared, Option<nat>) {
    match op
    case Add(c, d) => (sh.(plain := sh.plain[c := Get(sh.plain, c) + d]), cell)
    case Load(kind, name) =>
      (sh, if (kind, name) in sh.tables then Some(sh.tables[(kind, name)]) else None)
    case LoadOrStore(kind, name) =>
      if cell.Some? then (sh, cell)
      else if (kind, name) in sh.tables then (sh, Some(sh.tables[(kind, name)]))
      else (sh.(tables := sh.tables[(kind, name) := sh.next], next := sh.next + 1), Some(sh.next))
    case AddTo(kind, name, f, d) =>
      if cell.None? then (sh, cell)
      else (sh.(cells := sh.cells[(cell.value, f) := Get(sh.cells, (cell.value, f)) + d]), cell)
  }

  /** What a counter reads: a name that no request has stored yet reads nothing. */
  function Reading(sh: Shared, c: Counter): int {
    match c
    case Named(kind, name, f) =>
      if (kind, name) in sh.tables then Get(sh.cells, (sh.tables[(kind, name)], f)) else 0
    case _ => Get(sh.plain, c)
  }

  // ---- requests -----------------------------------------------------------------------------

  /** A request as the middleware sees it: how the handler ends, the status it leaves, the time it takes. */
  datatype Request = Request(panicked: bool, status: int, elapsed: nat, proto: string, route: string, group: string)

  function Hundreds(status: int): int {
    if status < 200 then 1 else if status < 300 then 2 else if status < 400 then 3 else if status < 500 then 4 else 5
  }

  function FinalStatus(r: Request): int {
    if r.panicked then 500 else r.status
  }

  function ProtocolOf(proto: string): Option<Protocol> {
    if proto == "HTTP/1.0" || proto == "HTTP/1.1" then Some(Http1)
    else if proto == "HTTP/2.0" then Some(Http2)
    else if proto == "HTTP/3.0" then Some(Http3)
    else None
  }

  function Before(r: Request): seq<Op> {
    [Add(Total(Requests), 1), Add(InFlight, 1)]
  }

  function Timing(r: Request): seq<Op> {
    [Add(InFlight, -1), Add(Total(DurationNs), r.elapsed), Add(Total(Samples), 1)]
  }

  function StatusOps(status: int): seq<Op> {
    [Add(Status(Hundreds(status)), 1)] + if status >= 500 then [Add(Total(Errors5xx), 1)] else []
  }

  function ProtocolOps(r: Request): seq<Op> {
    match ProtocolOf(r.proto)
    case Some(p) =>
      [Add(OfProtocol(p, Requests), 1), Add(OfProtocol(p, DurationNs), r.elapsed), Add(OfProtocol(p, Samples), 1)]
    case None => []
  }

  function RecordOps(kind: Kind, name: string, status: int, elapsed: nat): seq<Op> {
    if name == "" then []
    else
      [Load(kind, name), LoadOrStore(kind, name),
       AddTo(kind, name, Requests, 1), AddTo(kind, name, DurationNs, elapsed), AddTo(kind, name, Samples, 1)]
      + if status >= 500 then [AddTo(kind, name, Errors5xx, 1)] else []
  }

  function After(r: Request): seq<Op> {
    Timing(r) + (StatusOps(FinalStatus(r)) + ((if r.panicked then [] else ProtocolOps(r))
      + (RecordOps(Routes, r.route, FinalStatus(r), r.elapsed)
         + RecordOps(Groups, r.group, FinalStatus(r), r.elapsed))))
  }

  /** All operations of one request; the handler runs between Before and After. */
  function Program(r: Request): seq<Op> {
    Before(r) + After(r)
  }

  // ---- the middleware -----------------------------------------------------------------------

  function ExecAll(sh: Shared, cell: Option<nat>, ops: seq<Op>): (Shared, Option<nat>) {
    if ops == [] then (sh, cell)
    else
      var n := |ops| - 1;
      var (sh', cell') := ExecAll(sh, cell, ops[..n]);
      Exec(sh', cell', ops[n])
  }

  /** The middleware's counters. `done` records the atomic operations of the requests run so far, and `cell`
      the counters looked up last; both are there for the proof only. */
  class Collector {
    var plain: map<Counter, int>
    var tables: map<(Kind, string), nat>
    var cells: map<(nat, Field), int>
    var next: nat
    ghost var cell: Option<nat>
    ghost var done: seq<Op>

    constructor ()
      ensures Valid() && done == []
    {
      plain, tables, cells, next, cell, done := map[], map[], map[], 0, None, [];
    }

    ghost function Now(): Shared
      reads this
    {
      Shared(plain, tables, cells, next)
    }

    ghost predicate Valid()
      reads this
    {
      (Now(), cell) == ExecAll(EMPTY, None, done)
    }

    method Add(c: Counter, delta: int)
      requires Valid()
      modifies this
      ensures Valid() && done == old(done) + [Op.Add(c, delta)]
    {
      plain := plain[c := Get(plain, c) + delta];
      done := done + [Op.Add(c, delta)];
    }

    method AddTo(kind: Kind, name: string, stat: nat, f: Field, delta: int)
      requires Valid() && cell == Some(stat)
      modifies this
      ensures Valid() && cell == Some(stat) && done == old(done) + [Op.AddTo(kind, name, f, delta)]
    {
      cells := cells[(stat, f) := Get(cells, (stat, f)) + delta];
      done := done + [Op.AddTo(kind, name, f, delta)];
    }

    method LoadOrStore(kind: Kind, name: string) returns (stat: nat)
      requires Valid() && cell == None
      modifies this
      ensures Valid() && cell == Some(stat) && done == old(done) + [Op.LoadOrStore(kind, name)]
    {
      if (kind, name) in tables {
        stat := tables[(kind, name)];
      } else {
        stat := next;
        tables := tables[(kind, name) := stat];
        next := next + 1;
      }
      cell := Some(stat);
      done := done + [Op.LoadOrStore(kind, name)];
    }

    /** routeStat and groupStat. */
    method Stat(kind: Kind, name: string) returns (stat: nat)
      requires Valid()
      modifies this
      ensures Valid() && cell == Some(stat) && done == old(done) + [Load(kind, name), Op.LoadOrStore(kind, name)]
    {
      ghost var before := done;
      done := done + [Load(kind, name)];
      if (kind, name) in tables {
        stat := tables[(kind, name)];
        cell := Some(stat);
        done := done + [Op.LoadOrStore(kind, name)];
        assert done[..|done| - 1] == before + [Load(kind, name)];
        return;
      }
      cell := None;
      stat := LoadOrStore(kind, name);
    }

    method RecordNamed(kind: Kind, name: string, status: int, elapsed: nat)
      requires Valid()
      modifies this
      ensures Valid() && done == old(done) + RecordOps(kind, name, status, elapsed)
    {
      hide ExecAll, Exec, Valid;
      if name != "" {
        var s := Stat(kind, name);
        AddTo(kind, name, s, Requests, 1);
        AddTo(kind, name, s, DurationNs, elapsed);
        AddTo(kind, name, s, Samples, 1);
        if status >= 500 {
          AddTo(kind, name, s, Errors5xx, 1);
        }
      }
    }

    method RecordRoute(r: Request, status: int)
      requires Valid()
      modifies this
      ensures Valid()
      ensures done == old(done) + RecordOps(Routes, r.route, status, r.elapsed)
              + RecordOps(Groups, r.group, status, r.elapsed)
    {
      hide ExecAll, Exec, Valid, RecordOps;
      RecordNamed(Routes, r.route, status, r.elapsed);
      RecordNamed(Groups, r.group, status, r.elapsed);
    }

    method Enter(r: Request)
      requires Valid()
      modifies this
      ensures Valid() && done == old(done) + Before(r)
    {
      hide ExecAll, Exec, Valid;
      Add(Total(Requests), 1);
      Add(InFlight, 1);
    }

    method RecordTiming(r: Request)
      requires Valid()
      modifies this
      ensures Valid() && done == old(done) + Timing(r)
    {
      hide ExecAll, Exec, Valid;
      Add(InFlight, -1);
      Add(Total(DurationNs), r.elapsed);
      Add(Total(Samples), 1);
    }

    method RecordStatus(status: int)
      requires Valid()
      modifies this
      ensures Valid() && done == old(done) + StatusOps(status)
    {
      hide ExecAll, Exec, Valid;
      Add(Status(Hundreds(status)), 1);
      if status >= 500 {
        Add(Total(Errors5xx), 1);
      }
    }

    method RecordProtocol(r: Request)
      requires Valid()
      modifies this
      ensures Valid() && done == old(done) + ProtocolOps(r)
    {
      hide ExecAll, Exec, Valid;
      match ProtocolOf(r.proto) {
        case Some(p) =>
          Add(OfProtocol(p, Requests), 1);
          Add(OfProtocol(p, DurationNs), r.elapsed);
          Add(OfProtocol(p, Samples), 1);
        case None =>
      }
    }

    /** One request from its first counter to its last, panicking or not: its operations are its program. */
    method Handle(r: Request)
      requires Valid()
      modifies this
      ensures Valid() && done == old(done) + Program(r)
    {
      hide ExecAll, Exec, Valid, RecordOps, StatusOps, ProtocolOps, Timing, Before;
      Enter(r);
      RecordTiming(r);
      var status := r.status;
      if r.panicked {
        status := 500;
        RecordStatus(status);
        RecordRoute(r, status);
        return;
      }
      RecordStatus(status);
      RecordProtocol(r);
      RecordRoute(r, status);
    }
  }

  // ---- interleavings ------------------------------------------------------------------------

  datatype Thread = Thread(req: Request, pc: nat, cell: Option<nat>)

  datatype State = State(sh: Shared, threads: seq<Thread>)

  datatype Move = Arrive(r: Request) | Advance(i: nat)

  function Next(st: State, m: Move): State {
    match m
    case Arrive(r) => st.(threads := st.threads + [Thread(r, 0, None)])
    case Advance(i) =>
      if i < |st.threads| && st.threads[i].pc < |Program(st.threads[i].req)| then
        var th := st.threads[i];
        var (sh', cell') := Exec(st.sh, th.cell, Program(th.req)[th.pc]);
        State(sh', st.threads[i := Thread(th.req, th.pc + 1, cell')])
      else st
  }

  /** The state after any schedule of arrivals and steps, starting with counters that read nothing. */
  function Reached(moves: seq<Move>): State {
    if moves == [] then State(EMPTY, []) else Next(Reached(moves[..|moves| - 1]), moves[|moves| - 1])
  }

  // ---- sums over requests -------------------------------------------------------------------

  function Sum(ths: seq<Thread>, f: Thread -> int): int {
    if ths == [] then 0 else Sum(ths[..|ths| - 1], f) + f(ths[|ths| - 1])
  }

  lemma SumSnoc(ths: seq<Thread>, th: Thread, f: Thread -> int)
    ensures Sum(ths + [th], f) == Sum(ths, f) + f(th)
  {
    assert (ths + [th])[..|ths|] == ths;
  }

  lemma {:induction false} SumUpdate(ths: seq<Thread>, i: nat, th: Thread, f: Thread -> int)
    requires i < |ths|
    ensures Sum(ths[i := th], f) == Sum(ths, f) - f(ths[i]) + f(th)
  {
    var n := |ths| - 1;
    if i == n {
      assert ths[i := th][..n] == ths[..n];
    } else {
      SumUpdate(ths[..n], i, th, f);
      assert ths[i := th][..n] == ths[..n][i := th];
    }
  }

  // ---- what operations add up to ------------------------------------------------------------

  function Delta(op: Op, c: Counter): int {
    match op
    case Add(c', d) => if c' == c then d else 0
    case AddTo(kind, name, f, d) => if Named(kind, name, f) == c then d else 0
    case _ => 0
  }

  function Deltas(ops: seq<Op>, c: Counter): int {
    if ops == [] then 0 else Deltas(ops[..|ops| - 1], c) + Delta(ops[|ops| - 1], c)
  }

  /** What a request has added to a counter so far. */
  function Done(th: Thread, c: Counter): int {
    if th.pc <= |Program(th.req)| then Deltas(Program(th.req)[..th.pc], c) else 0
  }

  function DoneTo(c: Counter): Thread -> int {
    (th: Thread) => Done(th, c)
  }

  // ---- accounting ---------------------------------------------------------------------------

  /** Counters are only added to after they have been looked up under the same name. */
  ghost predicate PlacedAt(ops: seq<Op>, j: nat)
    requires j < |ops|
  {
    match ops[j]
    case Add(c, d) => !c.Named?
    case Load(kind, name) => true
    case LoadOrStore(kind, name) => j > 0 && ops[j - 1] == Load(kind, name)
    case AddTo(kind, name, f, d) => j > 0 && Binds(ops[j - 1], kind, name)
  }

  predicate Binds(op: Op, kind: Kind, name: string) {
    (op.LoadOrStore? || op.AddTo?) && op.kind == kind && op.name == name
  }

  ghost predicate Placed(ops: seq<Op>) {
    forall j: nat | j < |ops| :: PlacedAt(ops, j)
  }

  lemma PlacedConcat(a: seq<Op>, b: seq<Op>)
    requires Placed(a) && Placed(b)
    ensures Placed(a + b)
  {
    forall j: nat | j < |a + b| ensures PlacedAt(a + b, j) {
      if j < |a| {
        assert PlacedAt(a, j);
      } else {
        assert PlacedAt(b, j - |a|);
        if j > |a| { assert (a + b)[j - 1] == b[j - |a| - 1]; }
      }
    }
  }

  lemma RecordPlaced(kind: Kind, name: string, status: int, elapsed: nat)
    ensures Placed(RecordOps(kind, name, status, elapsed))
  {
  }

  lemma ProgramPlaced(r: Request)
    ensures Placed(Program(r))
  {
    var status := FinalStatus(r);
    var byRoute := RecordOps(Routes, r.route, status, r.elapsed);
    var byGroup := RecordOps(Groups, r.group, status, r.elapsed);
    RecordPlaced(Routes, r.route, status, r.elapsed);
    RecordPlaced(Groups, r.group, status, r.elapsed);
    hide RecordOps;
    PlacedConcat(byRoute, byGroup);
    var protocol := if r.panicked then [] else ProtocolOps(r);
    assert Placed(protocol);
    PlacedConcat(protocol, byRoute + byGroup);
    assert Placed(StatusOps(status));
    PlacedConcat(StatusOps(status), protocol + (byRoute + byGroup));
    assert Placed(Timing(r)) && Placed(Before(r));
    PlacedConcat(Timing(r), StatusOps(status) + (protocol + (byRoute + byGroup)));
    PlacedConcat(Before(r), After(r));
  }

  /** No two names share counters, and counters not handed out yet read nothing. */
  ghost predicate Apart(sh: Shared) {
    && (forall x, y | x in sh.tables && y in sh.tables && sh.tables[x] == sh.tables[y] :: x == y)
    && (forall x | x in sh.tables :: sh.tables[x] < sh.next)
    && (forall x | x in sh.cells :: x.0 < sh.next)
  }

  /** What a request last looked up is what the table holds. */
  ghost predicate Bound(sh: Shared, th: Thread) {
    var ops := Program(th.req);
    && th.pc <= |ops|
    && (th.pc > 0 ==> BoundBy(sh, th.cell, ops[th.pc - 1]))
  }

  ghost predicate BoundBy(sh: Shared, cell: Option<nat>, last: Op) {
    !last.Add? && (last.Load? ==> cell.Some?) ==>
      (last.kind, last.name) in sh.tables && cell == Some(sh.tables[(last.kind, last.name)])
  }

  ghost predicate Accounted(st: State, c: Counter) {
    Reading(st.sh, c) == Sum(st.threads, DoneTo(c))
  }

  ghost predicate Inv(st: State) {
    && Apart(st.sh)
    && (forall th | th in st.threads :: Bound(st.sh, th))
    && (forall c :: Accounted(st, c))
  }

  lemma ExecKeeps(sh: Shared, cell: Option<nat>, ops: seq<Op>, j: nat)
    requires Apart(sh) && Placed(ops) && j < |ops| && (j > 0 ==> BoundBy(sh, cell, ops[j - 1]))
    ensures var (sh', cell') := Exec(sh, cell, ops[j]);
            && Apart(sh') && BoundBy(sh', cell', ops[j])
            && forall x | x in sh.tables :: x in sh'.tables && sh'.tables[x] == sh.tables[x]
  {
    assert PlacedAt(ops, j);
  }

  /** One atomic operation adds to every counter exactly what it says. */
  lemma ExecAdds(sh: Shared, cell: Option<nat>, ops: seq<Op>, j: nat, c: Counter)
    requires Apart(sh) && Placed(ops) && j < |ops| && (j > 0 ==> BoundBy(sh, cell, ops[j - 1]))
    ensures Reading(Exec(sh, cell, ops[j]).0, c) == Reading(sh, c) + Delta(ops[j], c)
  {
    assert PlacedAt(ops, j);
    if ops[j].AddTo? {
      assert BoundBy(sh, cell, ops[j - 1]);
    }
  }

  lemma DoneGrows(th: Thread, cell: Option<nat>, c: Counter)
    requires th.pc < |Program(th.req)|
    ensures Done(Thread(th.req, th.pc + 1, cell), c) == Done(th, c) + Delta(Program(th.req)[th.pc], c)
  {
    var ops := Program(th.req);
    assert ops[..th.pc + 1][..th.pc] == ops[..th.pc];
  }

  lemma AdvanceKeeps(st: State, i: nat)
    requires Inv(st) && i < |st.threads| && st.threads[i].pc < |Program(st.threads[i].req)|
    ensures Inv(Next(st, Advance(i)))
  {
    var th := st.threads[i];
    var ops := Program(th.req);
    ProgramPlaced(th.req);
    var st' := Next(st, Advance(i));
    assert th in st.threads && Bound(st.sh, th);
    hide Program, Exec;
    forall c ensures Accounted(st', c) {
      ExecAdds(st.sh, th.cell, ops, th.pc, c);
      DoneGrows(th, st'.threads[i].cell, c);
      SumUpdate(st.threads, i, st'.threads[i], DoneTo(c));
      assert Accounted(st, c);
    }
    ExecKeeps(st.sh, th.cell, ops, th.pc);
    forall x | x in st'.threads ensures Bound(st'.sh, x) {
      if x != st'.threads[i] {
        assert x in st.threads;
      }
    }
  }

  lemma ArriveKeeps(st: State, r: Request)
    requires Inv(st)
    ensures Inv(Next(st, Arrive(r)))
  {
    var st' := Next(st, Arrive(r));
    forall c ensures Accounted(st', c) {
      SumSnoc(st.threads, Thread(r, 0, None), DoneTo(c));
      assert Accounted(st, c);
      assert Program(r)[..0] == [];
    }
  }

  /** Whatever the interleaving, every counter, the lazily created ones included, reads exactly the sum of
      what the requests have added to it: racing first uses of a name lose nothing. */
  lemma {:induction false} EveryCountKept(moves: seq<Move>)
    ensures Inv(Reached(moves))
    ensures forall c :: Reading(Reached(moves).sh, c) == Sum(Reached(moves).threads, DoneTo(c))
  {
    if moves == [] {
      forall c ensures Accounted(State(EMPTY, []), c) {}
    } else {
      var st := Reached(moves[..|moves| - 1]);
      EveryCountKept(moves[..|moves| - 1]);
      match moves[|moves| - 1]
      case Arrive(r) => ArriveKeeps(st, r);
      case Advance(i) =>
        if i < |st.threads| && st.threads[i].pc < |Program(st.threads[i].req)| {
          AdvanceKeeps(st, i);
        }
    }
    forall c ensures Reading(Reached(moves).sh, c) == Sum(Reached(moves).threads, DoneTo(c)) {
      assert Accounted(Reached(moves), c);
    }
  }

  // ---- what the counters say ----------------------------------------------------------------

  lemma {:induction false} DeltasConcat(a: seq<Op>, b: seq<Op>, c: Counter)
    ensures Deltas(a + b, c) == Deltas(a, c) + Deltas(b, c)
  {
    if b == [] {
      assert a + b == a;
    } else {
      DeltasConcat(a, b[..|b| - 1], c);
      assert (a + b)[..|a + b| - 1] == a + b[..|b| - 1];
    }
  }

  lemma {:induction false} Untouched(ops: seq<Op>, c: Counter)
    requires forall op | op in ops :: Delta(op, c) == 0
    ensures Deltas(ops, c) == 0
  {
    if ops != [] {
      Untouched(ops[..|ops| - 1], c);
    }
  }

  /** The operations every request has in common. */
  function Head(r: Request): seq<Op> {
    Before(r) + Timing(r)
  }

  function Rest(r: Request): seq<Op> {
    (if r.panicked then [] else ProtocolOps(r))
    + (RecordOps(Routes, r.route, FinalStatus(r), r.elapsed) + RecordOps(Groups, r.group, FinalStatus(r), r.elapsed))
  }

  lemma ProgramSplits(r: Request)
    ensures Program(r) == Head(r) + (StatusOps(FinalStatus(r)) + Rest(r)) && |Head(r)| == 5
  {
  }

  function Min(a: nat, b: nat): nat {
    if a < b then a else b
  }

  lemma PrefixDeltas(a: seq<Op>, b: seq<Op>, k: nat, c: Counter)
    requires k <= |a| + |b|
    ensures Deltas((a + b)[..k], c) == Deltas(a[..Min(k, |a|)], c) + Deltas(b[..k - Min(k, |a|)], c)
  {
    var p := Min(k, |a|);
    assert (a + b)[..k] == a[..p] + b[..k - p];
    DeltasConcat(a[..p], b[..k - p], c);
  }

  /** A prefix of the program, in its three parts. */
  lemma DoneSplits(th: Thread, c: Counter) returns (h: nat, s: nat, t: nat)
    requires th.pc <= |Program(th.req)|
    ensures h == Min(th.pc, 5) && h <= |Head(th.req)|
    ensures s == Min(th.pc - h, |StatusOps(FinalStatus(th.req))|)
    ensures t == th.pc - h - s && t <= |Rest(th.req)|
    ensures Done(th, c) ==
            Deltas(Head(th.req)[..h], c)
            + (Deltas(StatusOps(FinalStatus(th.req))[..s], c) + Deltas(Rest(th.req)[..t], c))
  {
    var r := th.req;
    hide Program, Head, StatusOps, Rest, Deltas;
    ProgramSplits(r);
    var st := StatusOps(FinalStatus(r));
    h := Min(th.pc, 5);
    s := Min(th.pc - h, |st|);
    t := th.pc - h - s;
    PrefixDeltas(Head(r), st + Rest(r), th.pc, c);
    PrefixDeltas(st, Rest(r), th.pc - h, c);
  }

  /** What a request at a given point has added to a counter that no name or protocol qualifies. */
  function Fixed(th: Thread, c: Counter): int {
    match c
    case Total(Requests) => if th.pc >= 1 then 1 else 0
    case InFlight => if th.pc == 2 then 1 else 0
    case Total(DurationNs) => if th.pc >= 4 then th.req.elapsed else 0
    case Total(Samples) => if th.pc >= 5 then 1 else 0
    case Status(h) => if th.pc >= 6 && Hundreds(FinalStatus(th.req)) == h then 1 else 0
    case Total(Errors5xx) => if th.pc >= 7 && FinalStatus(th.req) >= 500 then 1 else 0
    case _ => 0
  }

  lemma RestUntouched(r: Request, c: Counter)
    requires c.Total? || c.InFlight? || c.Status?
    ensures forall op | op in Rest(r) :: Delta(op, c) == 0
  {
  }

  lemma {:induction false} HeadDeltas(r: Request, k: nat, c: Counter)
    requires k <= 5 && (c.Total? || c.InFlight? || c.Status?)
    ensures |Head(r)| == 5 && Deltas(Head(r)[..k], c) == Fixed(Thread(r, k, None), c)
  {
    if k > 0 {
      HeadDeltas(r, k - 1, c);
      assert Head(r)[..k][..k - 1] == Head(r)[..k - 1];
    }
  }

  lemma {:induction false} StatusDeltas(status: int, s: nat, c: Counter)
    requires s <= |StatusOps(status)|
    ensures Deltas(StatusOps(status)[..s], c) ==
            match c
            case Status(h) => if s >= 1 && Hundreds(status) == h then 1 else 0
            case Total(Errors5xx) => if s >= 2 then 1 else 0
            case _ => 0
  {
    if s > 0 {
      StatusDeltas(status, s - 1, c);
      assert StatusOps(status)[..s][..s - 1] == StatusOps(status)[..s - 1];
    }
  }

  lemma FixedPart(th: Thread, c: Counter)
    requires th.pc <= |Program(th.req)| && (c.Total? || c.InFlight? || c.Status?)
    ensures Done(th, c) == Fixed(th, c)
  {
    var r := th.req;
    var status := FinalStatus(r);
    var h, s, t := DoneSplits(th, c);
    RestUntouched(r, c);
    assert forall op | op in Rest(r)[..t] :: op in Rest(r);
    assert |StatusOps(status)| == if status >= 500 then 2 else 1;
    hide Program, Done, Deltas, Rest, Delta, Head, StatusOps;
    Untouched(Rest(r)[..t], c);
    HeadDeltas(r, h, c);
    StatusDeltas(status, s, c);
  }

  // ---- at every moment ----------------------------------------------------------------------

  /** Counted as a request, and not yet as a sample. */
  function InProgress(): Thread -> int {
    (th: Thread) => if 1 <= th.pc < 5 then 1 else 0
  }

  /** Between the two changes of the in-flight gauge: the handler is running. */
  function InHandler(): Thread -> int {
    (th: Thread) => if th.pc == 2 then 1 else 0
  }

  lemma {:induction false} SumsBalance(ths: seq<Thread>)
    requires forall th | th in ths :: th.pc <= |Program(th.req)|
    ensures Sum(ths, DoneTo(Total(Requests))) == Sum(ths, DoneTo(Total(Samples))) + Sum(ths, InProgress())
    ensures Sum(ths, DoneTo(InFlight)) == Sum(ths, InHandler())
    ensures 0 <= Sum(ths, InHandler()) <= Sum(ths, InProgress())
    ensures 0 <= Sum(ths, DoneTo(Total(Errors5xx))) <= Sum(ths, DoneTo(Status(5))) <= Sum(ths, DoneTo(Total(Samples)))
  {
    if ths != [] {
      var th := ths[|ths| - 1];
      SumsBalance(ths[..|ths| - 1]);
      FixedPart(th, Total(Requests));
      FixedPart(th, Total(Samples));
      FixedPart(th, InFlight);
      FixedPart(th, Total(Errors5xx));
      FixedPart(th, Status(5));
    }
  }

  /** At every moment of every run: requests are samples plus requests in progress, the gauge is the number
      of running handlers, and server errors never exceed the 5xx class. */
  lemma AlwaysBalanced(moves: seq<Move>)
    ensures var st := Reached(moves);
            && Reading(st.sh, Total(Requests)) == Reading(st.sh, Total(Samples)) + Sum(st.threads, InProgress())
            && Reading(st.sh, InFlight) == Sum(st.threads, InHandler())
            && 0 <= Reading(st.sh, InFlight) <= Sum(st.threads, InProgress())
            && 0 <= Reading(st.sh, Total(Errors5xx)) <= Reading(st.sh, Status(5)) <= Reading(st.sh, Total(Samples))
  {
    EveryCountKept(moves);
    var st := Reached(moves);
    assert forall th | th in st.threads :: Bound(st.sh, th);
    SumsBalance(st.threads);
  }

  // ---- when all requests have ended ---------------------------------------------------------

  function NameOf(r: Request, kind: Kind): string {
    if kind == Routes then r.route else r.group
  }

  function Amount(f: Field, elapsed: nat, failed: bool): int {
    match f
    case Requests => 1
    case Samples => 1
    case DurationNs => elapsed
    case Errors5xx => if failed then 1 else 0
  }

  /** What a finished request has added to the counters of a protocol or a name. */
  function Share(r: Request, c: Counter): int {
    match c
    case OfProtocol(p, f) => if !r.panicked && ProtocolOf(r.proto) == Some(p) then Amount(f, r.elapsed, false) else 0
    case Named(kind, name, f) =>
      if name != "" && NameOf(r, kind) == name then Amount(f, r.elapsed, FinalStatus(r) >= 500) else 0
    case _ => 0
  }

  lemma {:induction false} RecordDeltas(kind: Kind, name: string, status: int, elapsed: nat, k: nat, c: Counter)
    requires k <= |RecordOps(kind, name, status, elapsed)|
    ensures Deltas(RecordOps(kind, name, status, elapsed)[..k], c) ==
            if !c.Named? || c.kind != kind || c.name != name then 0
            else
              match c.field
              case Requests => if k >= 3 then 1 else 0
              case DurationNs => if k >= 4 then elapsed else 0
              case Samples => if k >= 5 then 1 else 0
              case Errors5xx => if k >= 6 then 1 else 0
  {
    if k > 0 {
      RecordDeltas(kind, name, status, elapsed, k - 1, c);
      assert RecordOps(kind, name, status, elapsed)[..k][..k - 1] == RecordOps(kind, name, status, elapsed)[..k - 1];
    }
  }

  lemma {:induction false} ProtocolDeltas(r: Request, k: nat, c: Counter)
    requires k <= |ProtocolOps(r)|
    ensures Deltas(ProtocolOps(r)[..k], c) ==
            if !c.OfProtocol? || ProtocolOf(r.proto) != Some(c.protocol) then 0
            else
              match c.field
              case Requests => if k >= 1 then 1 else 0
              case DurationNs => if k >= 2 then r.elapsed else 0
              case Samples => if k >= 3 then 1 else 0
              case Errors5xx => 0
  {
    if k > 0 {
      ProtocolDeltas(r, k - 1, c);
      assert ProtocolOps(r)[..k][..k - 1] == ProtocolOps(r)[..k - 1];
    }
  }

  lemma RecordShare(kind: Kind, name: string, status: int, elapsed: nat, c: Counter)
    ensures Deltas(RecordOps(kind, name, status, elapsed), c) ==
            if c.Named? && c.kind == kind && c.name == name && name != ""
            then Amount(c.field, elapsed, status >= 500) else 0
  {
    var ops := RecordOps(kind, name, status, elapsed);
    RecordDeltas(kind, name, status, elapsed, |ops|, c);
    assert ops[..|ops|] == ops;
  }

  lemma ProtocolShare(r: Request, c: Counter)
    ensures Deltas(ProtocolOps(r), c) ==
            if c.OfProtocol? && ProtocolOf(r.proto) == Some(c.protocol) then Amount(c.field, r.elapsed, false) else 0
  {
    var ops := ProtocolOps(r);
    ProtocolDeltas(r, |ops|, c);
    assert ops[..|ops|] == ops;
  }

  lemma RestShare(r: Request, c: Counter)
    requires c.OfProtocol? || c.Named?
    ensures Deltas(Rest(r), c) == Share(r, c)
  {
    var status := FinalStatus(r);
    var protocol := if r.panicked then [] else ProtocolOps(r);
    var byRoute := RecordOps(Routes, r.route, status, r.elapsed);
    var byGroup := RecordOps(Groups, r.group, status, r.elapsed);
    assert Deltas([], c) == 0;
    assert Rest(r) == protocol + (byRoute + byGroup);
    hide RecordOps, ProtocolOps, Deltas, Delta, Rest, ProtocolOf, FinalStatus, Amount;
    DeltasConcat(protocol, byRoute + byGroup, c);
    DeltasConcat(byRoute, byGroup, c);
    RecordShare(Routes, r.route, status, r.elapsed, c);
    RecordShare(Groups, r.group, status, r.elapsed, c);
    ProtocolShare(r, c);
  }

  ghost predicate Ended(th: Thread) {
    th.pc == |Program(th.req)|
  }

  lemma FinishedShare(th: Thread, c: Counter)
    requires Ended(th) && (c.OfProtocol? || c.Named?)
    ensures Done(th, c) == Share(th.req, c)
  {
    var r := th.req;
    ProgramSplits(r);
    var st := StatusOps(FinalStatus(r));
    assert Program(r)[..th.pc] == Program(r);
    assert (forall op | op in Head(r) :: Delta(op, c) == 0) && forall op | op in st :: Delta(op, c) == 0;
    RestShare(r, c);
    hide Program, Head, Rest, StatusOps, Share, Delta, Deltas;
    DeltasConcat(Head(r), st + Rest(r), c);
    DeltasConcat(st, Rest(r), c);
    Untouched(Head(r), c);
    Untouched(st, c);
  }

  /** A request that no protocol counts. */
  function Unattributed(): Thread -> int {
    (th: Thread) => if th.req.panicked || ProtocolOf(th.req.proto) == None then 1 else 0
  }

  lemma {:induction false} SumsAtRest(ths: seq<Thread>)
    requires forall th | th in ths :: Ended(th)
    ensures Sum(ths, DoneTo(Total(Requests))) == |ths| == Sum(ths, DoneTo(Total(Samples)))
    ensures Sum(ths, DoneTo(InFlight)) == 0
    ensures Sum(ths, DoneTo(Status(1))) + Sum(ths, DoneTo(Status(2))) + Sum(ths, DoneTo(Status(3)))
            + Sum(ths, DoneTo(Status(4))) + Sum(ths, DoneTo(Status(5))) == |ths|
    ensures Sum(ths, DoneTo(Total(Errors5xx))) == Sum(ths, DoneTo(Status(5)))
    ensures Sum(ths, DoneTo(OfProtocol(Http1, Requests))) + Sum(ths, DoneTo(OfProtocol(Http2, Requests)))
            + Sum(ths, DoneTo(OfProtocol(Http3, Requests))) + Sum(ths, Unattributed()) == |ths|
  {
    if ths != [] {
      var th := ths[|ths| - 1];
      SumsAtRest(ths[..|ths| - 1]);
      EndsLate(th.req);
      RestFixed(th);
      RestProtocols(th);
    }
  }

  lemma EndsLate(r: Request)
    ensures |Program(r)| >= if FinalStatus(r) >= 500 then 7 else 6
  {
  }

  lemma RestFixed(th: Thread)
    requires Ended(th)
    ensures Done(th, Total(Requests)) == Done(th, Total(Samples)) == 1 && Done(th, InFlight) == 0
    ensures Done(th, Status(1)) + Done(th, Status(2)) + Done(th, Status(3))
            + Done(th, Status(4)) + Done(th, Status(5)) == 1
    ensures Done(th, Total(Errors5xx)) == Done(th, Status(5))
  {
    EndsLate(th.req);
    FixedPart(th, Total(Requests));
    FixedPart(th, Total(Samples));
    FixedPart(th, InFlight);
    FixedPart(th, Total(Errors5xx));
    FixedPart(th, Status(1));
    FixedPart(th, Status(2));
    FixedPart(th, Status(3));
    FixedPart(th, Status(4));
    FixedPart(th, Status(5));
  }

  lemma RestProtocols(th: Thread)
    requires Ended(th)
    ensures Done(th, OfProtocol(Http1, Requests)) + Done(th, OfProtocol(Http2, Requests))
            + Done(th, OfProtocol(Http3, Requests))
            + Unattributed()(th) == 1
  {
    FinishedShare(th, OfProtocol(Http1, Requests));
    FinishedShare(th, OfProtocol(Http2, Requests));
    FinishedShare(th, OfProtocol(Http3, Requests));
  }

  /** When all requests have ended, in whatever order they ran: nothing is in flight, every request has one
      status class, server errors are the 5xx class, and the requests no protocol counts are exactly the
      panicked ones and those of unknown protocols. */
  lemma AtRest(moves: seq<Move>)
    requires forall th | th in Reached(moves).threads :: Ended(th)
    ensures var st := Reached(moves);
            var requests := Reading(st.sh, Total(Requests));
            && requests == |st.threads| == Reading(st.sh, Total(Samples))
            && Reading(st.sh, InFlight) == 0
            && requests == Reading(st.sh, Status(1)) + Reading(st.sh, Status(2)) + Reading(st.sh, Status(3))
                           + Reading(st.sh, Status(4)) + Reading(st.sh, Status(5))
            && Reading(st.sh, Total(Errors5xx)) == Reading(st.sh, Status(5))
            && requests == Reading(st.sh, OfProtocol(Http1, Requests)) + Reading(st.sh, OfProtocol(Http2, Requests))
                           + Reading(st.sh, OfProtocol(Http3, Requests)) + Sum(st.threads, Unattributed())
  {
    EveryCountKept(moves);
    SumsAtRest(Reached(moves).threads);
  }

  /** What a request that has ended owes to each counter. A panic counts as status 500 and for no protocol. */
  function Owed(r: Request, c: Counter): int {
    var final := if r.panicked then 500 else r.status;
    match c
    case Total(Requests) => 1
    case Total(Samples) => 1
    case Total(DurationNs) => r.elapsed
    case Total(Errors5xx) => if final >= 500 then 1 else 0
    case InFlight => 0
    case Status(h) =>
      if || (h == 1 && final < 200) || (h == 2 && 200 <= final < 300) || (h == 3 && 300 <= final < 400)
         || (h == 4 && 400 <= final < 500) || (h == 5 && 500 <= final)
      then 1 else 0
    case OfProtocol(p, f) =>
      var counts := (match p
                     case Http1 => r.proto == "HTTP/1.0" || r.proto == "HTTP/1.1"
                     case Http2 => r.proto == "HTTP/2.0"
                     case Http3 => r.proto == "HTTP/3.0");
      if r.panicked || !counts then 0
      else (match f case Requests => 1 case Samples => 1 case DurationNs => r.elapsed case Errors5xx => 0)
    case Named(kind, name, f) =>
      var own := (match kind case Routes => r.route case Groups => r.group);
      if own != name || name == "" then 0
      else
        match f
        case Requests => 1
        case Samples => 1
        case DurationNs => r.elapsed
        case Errors5xx => if final >= 500 then 1 else 0
  }

  function OwedTo(c: Counter): Thread -> int {
    (th: Thread) => Owed(th.req, c)
  }

  lemma ShareIsOwed(r: Request, c: Counter)
    requires c.OfProtocol? || c.Named?
    ensures Share(r, c) == Owed(r, c)
  {
  }

  lemma FinishedOwed(th: Thread, c: Counter)
    requires Ended(th)
    ensures Done(th, c) == Owed(th.req, c)
  {
    hide Program, Done, Share;
    if c.OfProtocol? || c.Named? {
      FinishedShare(th, c);
      ShareIsOwed(th.req, c);
    } else {
      EndsLate(th.req);
      FixedPart(th, c);
    }
  }

  lemma {:induction false} OwedAtRest(ths: seq<Thread>, c: Counter)
    requires forall th | th in ths :: Ended(th)
    ensures Sum(ths, DoneTo(c)) == Sum(ths, OwedTo(c))
  {
    if ths != [] {
      OwedAtRest(ths[..|ths| - 1], c);
      FinishedOwed(ths[|ths| - 1], c);
    }
  }

  /** When all requests have ended, every counter reads exactly what the requests owe to it, said of each
      request alone: the totals, each status class, each protocol, and each route and group with its own
      requests, their time and their server errors, however many requests raced to create its counters. */
  lemma CountersAtRest(moves: seq<Move>, c: Counter)
    requires forall th | th in Reached(moves).threads :: Ended(th)
    ensures Reading(Reached(moves).sh, c) == Sum(Reached(moves).threads, OwedTo(c))
  {
    EveryCountKept(moves);
    OwedAtRest(Reached(moves).threads, c);
  }
}
