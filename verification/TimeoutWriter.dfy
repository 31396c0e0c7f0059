/** The timeout middleware with the write-once header of the request context. A deadline is the number of
    calls a wrapper gets before it passes; every number is covered, for every wrapper of a chain. */
module TimeoutWriter {
  import opened Text
  import opened JsonEnvelope

  // ---- writers as values --------------------------------------------------------------------

  /** One call on a response writer. A flush is found by unwrapping, past every wrapper. */
  datatype Send = Header(code: int) | Bytes(p: string) | Flushed

  /** A connection, with every status it is asked to send (the first one counts), or a wrapper around a
      writer. */
  datatype Chain =
    | Connection(statuses: seq<int>, body: string)
    | Layer(deadline: nat, polls: nat, timedOut: bool, wroteHeader: bool, below: Chain)

  /** A body byte or a flush without a status sends 200 first. */
  function Implied(statuses: seq<int>): seq<int> {
    if statuses == [] then [200] else statuses
  }

  /** A wrapper passes calls on until its deadline and drops them afterwards. */
  function Pass(c: Chain, send: Send): Chain {
    match c
    case Connection(statuses, body) =>
      (match send
       case Header(code) => Connection(statuses + [code], body)
       case Bytes(p) => Connection(Implied(statuses), body + p)
       case Flushed => Connection(Implied(statuses), body))
    case Layer(deadline, polls, timedOut, wroteHeader, below) =>
      if send.Flushed? then Layer(deadline, polls, timedOut, wroteHeader, Pass(below, send))
      else if deadline <= polls then Layer(deadline, polls + 1, true, wroteHeader, below)
      else Layer(deadline, polls + 1, timedOut, wroteHeader || send.Header?, Pass(below, send))
  }

  function PassAll(c: Chain, sends: seq<Send>): Chain {
    if sends == [] then c else Pass(PassAll(c, sends[..|sends| - 1]), sends[|sends| - 1])
  }

  lemma PassOne(c: Chain, send: Send)
    ensures PassAll(c, [send]) == Pass(c, send)
  {
    assert [send][..0] == [];
  }

  lemma {:induction false} PassConcat(c: Chain, a: seq<Send>, b: seq<Send>)
    ensures PassAll(c, a + b) == PassAll(PassAll(c, a), b)
  {
    if b == [] {
      assert a + b == a;
    } else {
      assert (a + b)[..|a + b| - 1] == a + b[..|b| - 1];
      PassConcat(c, a, b[..|b| - 1]);
    }
  }

  // ---- writers ------------------------------------------------------------------------------

  /** A response writer: the connection, whose `inner` is null, or a timeout's wrapper of another one. */
  class ResponseWriter {
    const inner: ResponseWriter?
    const deadline: nat
    ghost const depth: nat
    ghost const Repr: set<ResponseWriter>
    var polls: nat
    var timedOut: bool
    var wroteHeader: bool
    var statuses: seq<int>
    var body: string

    ghost predicate Valid()
      decreases depth
    {
      if inner == null then Repr == {this}
      else inner.depth < depth && this !in inner.Repr && Repr == {this} + inner.Repr && inner.Valid()
    }

    ghost function Now(): Chain
      requires Valid()
      reads Repr
      decreases depth
    {
      if inner == null then Connection(statuses, body)
      else Layer(deadline, polls, timedOut, wroteHeader, inner.Now())
    }

    constructor Connect()
      ensures Valid() && fresh(Repr) && inner == null && Now() == Connection([], "")
    {
      inner, deadline, depth, Repr := null, 0, 0, {this};
      polls, timedOut, wroteHeader, statuses, body := 0, false, false, [], "";
    }

    constructor Wrap(inner: ResponseWriter, deadline: nat)
      requires inner.Valid()
      ensures this.inner == inner && this.deadline == deadline && Valid() && Repr == {this} + inner.Repr
      ensures Now() == Layer(deadline, 0, false, false, old(inner.Now()))
    {
      this.inner, this.deadline, depth, Repr := inner, deadline, inner.depth + 1, {this} + inner.Repr;
      polls, timedOut, wroteHeader, statuses, body := 0, false, false, [], "";
    }

    /** ctx.Done() as a wrapper's select statements see it: once true, always true. */
    method Done() returns (done: bool)
      modifies `polls
      ensures done == (deadline <= old(polls)) && polls == old(polls) + 1
    {
      done := deadline <= polls;
      polls := polls + 1;
    }

    method WriteHeader(code: int)
      requires Valid()
      modifies Repr
      ensures Now() == Pass(old(Now()), Header(code))
      decreases depth
    {
      if inner == null {
        statuses := statuses + [code];
        return;
      }
      var done := Done();
      if done {
        timedOut := true;
      } else {
        wroteHeader := true;
        inner.WriteHeader(code);
      }
    }

    method Write(p: string)
      requires Valid()
      modifies Repr
      ensures Now() == Pass(old(Now()), Bytes(p))
      decreases depth
    {
      if inner == null {
        statuses := if statuses == [] then [200] else statuses;
        body := body + p;
        return;
      }
      var done := Done();
      if done {
        timedOut := true;
      } else {
        inner.Write(p);
      }
    }

    /** Flush through Unwrap. */
    method Flush()
      requires Valid()
      modifies Repr
      ensures Now() == Pass(old(Now()), Flushed)
      decreases depth
    {
      if inner == null {
        statuses := if statuses == [] then [200] else statuses;
        return;
      }
      inner.Flush();
    }
  }
  // ---- what a handler does ------------------------------------------------------------------

  const UNAVAILABLE := 503

  /** What a handler does to its response. Through the context: a response method (a header unless one was
      written, then the body in one or more writes), a bare status, or a file, whose header is sent in any
      case. Around it, straight to the writer of the moment: a header, some bytes or a flush. And it may be
      another timeout, around what the handlers behind that one do. */
  datatype Op =
    | Reply(code: int, chunks: seq<string>)
    | Status(code: int)
    | File(code: int, chunks: seq<string>)
    | RawHeader(code: int)
    | Raw(bytes: string)
    | Flush
    | Timeout(limit: int, deadline: nat, message: string, requestId: string, timestamp: int, ops: seq<Op>)

  /** The context's own record of the header, and whether the chain was aborted. */
  datatype Note = Note(wrote: bool, status: int, aborted: bool)

  const START := Note(false, 0, false)

  /** The calls made on the writer, and the record behind them. */
  datatype Run = Run(sends: seq<Send>, note: Note)

  function AllBytes(chunks: seq<string>): seq<Send> {
    seq(|chunks|, i requires 0 <= i < |chunks| => Bytes(chunks[i]))
  }

  function Noted(note: Note, code: int): Note {
    note.(wrote := true, status := code)
  }

  /** How often a wrapper looks at its deadline. */
  function Polls(sends: seq<Send>): (n: nat)
    ensures n <= |sends|
  {
    if sends == [] then 0
    else Polls(sends[..|sends| - 1]) + if sends[|sends| - 1].Flushed? then 0 else 1
  }

  /** The calls that come through a wrapper: every flush, and the others before its deadline. */
  function Passed(sends: seq<Send>, deadline: nat): seq<Send> {
    if sends == [] then []
    else
      var front, last := sends[..|sends| - 1], sends[|sends| - 1];
      Passed(front, deadline) + if last.Flushed? || Polls(front) < deadline then [last] else []
  }

  predicate HasHeader(sends: seq<Send>) {
    exists i :: 0 <= i < |sends| && sends[i].Header?
  }

  /** A call was dropped, and no header came through. */
  predicate CutOff(sends: seq<Send>, deadline: nat) {
    deadline < Polls(sends) && !HasHeader(Passed(sends, deadline))
  }

  function LastWord(message: string, requestId: string, timestamp: int): seq<Send> {
    [Header(UNAVAILABLE), Bytes(Envelope(UNAVAILABLE, message, Absent, requestId, timestamp))]
  }

  /** What an operation does, a timeout's included: the calls of the handlers behind it up to its deadline,
      and then the 503 envelope if they were cut off. */
  function Does(op: Op, note: Note): Run
    decreases op
  {
    match op
    case Reply(code, chunks) =>
      Run((if note.wrote then [] else [Header(code)]) + AllBytes(chunks),
          if note.wrote then note else Noted(note, code))
    case Status(code) =>
      if note.wrote then Run([], note) else Run([Header(code)], Noted(note, code))
    case File(code, chunks) => Run([Header(code)] + AllBytes(chunks), Noted(note, code))
    case RawHeader(code) => Run([Header(code)], note)
    case Raw(bytes) => Run([Bytes(bytes)], note)
    case Flush => Run([Flushed], note)
    case Timeout(limit, deadline, message, requestId, timestamp, ops) =>
      var run := DoesAll(ops, note);
      if limit <= 0 then run
      else if CutOff(run.sends, deadline) then
        Run(Passed(run.sends, deadline) + LastWord(message, requestId, timestamp), Note(true, UNAVAILABLE, true))
      else Run(Passed(run.sends, deadline), run.note)
  }

  function DoesAll(ops: seq<Op>, note: Note): Run
    decreases ops
  {
    if ops == [] then Run([], note)
    else
      var front := DoesAll(ops[..|ops| - 1], note);
      var last := Does(ops[|ops| - 1], front.note);
      Run(front.sends + last.sends, last.note)
  }

  // ---- a wrapper cuts the calls in two ------------------------------------------------------

  lemma HeaderSnoc(front: seq<Send>, last: Send)
    ensures HasHeader(front + [last]) <==> HasHeader(front) || last.Header?
  {
    var all := front + [last];
    assert all[|front|] == last && forall i | 0 <= i < |front| :: all[i] == front[i];
    if HasHeader(front) {
      var i :| 0 <= i < |front| && front[i].Header?;
      assert all[i].Header?;
    }
  }

  lemma PassSnoc(c: Chain, sends: seq<Send>, send: Send)
    ensures PassAll(c, sends + [send]) == Pass(PassAll(c, sends), send)
  {
    assert (sends + [send])[..|sends|] == sends;
  }

  /** Whatever a wrapper is around, the writer below gets the calls before the deadline and every flush,
      and nothing else, and the wrapper's two flags say what was dropped and what came through. */
  lemma {:induction false} LayerCuts(sends: seq<Send>, deadline: nat, below: Chain)
    ensures PassAll(Layer(deadline, 0, false, false, below), sends) ==
            Layer(deadline, Polls(sends), deadline < Polls(sends), HasHeader(Passed(sends, deadline)),
                  PassAll(below, Passed(sends, deadline)))
  {
    hide Pass, Polls, Passed, HasHeader;
    if sends == [] {
      NoCalls(deadline);
    } else {
      var front, last := sends[..|sends| - 1], sends[|sends| - 1];
      assert front + [last] == sends;
      LayerCuts(front, deadline, below);
      PassedSnoc(front, last, deadline);
      PassSnoc(below, Passed(front, deadline), last);
      LayerStep(front, last, deadline, PassAll(below, Passed(front, deadline)));
    }
  }

  lemma NoCalls(deadline: nat)
    ensures Polls([]) == 0 && Passed([], deadline) == [] && !HasHeader([])
  {
  }

  lemma PassedSnoc(front: seq<Send>, last: Send, deadline: nat)
    ensures Polls(front + [last]) == Polls(front) + if last.Flushed? then 0 else 1
    ensures Passed(front + [last], deadline) ==
            if last.Flushed? || Polls(front) < deadline then Passed(front, deadline) + [last]
            else Passed(front, deadline)
  {
    assert (front + [last])[..|front|] == front;
    assert Passed(front, deadline) + [] == Passed(front, deadline);
  }

  lemma LayerStep(front: seq<Send>, last: Send, deadline: nat, below: Chain)
    ensures var polls, passed := Polls(front), Passed(front, deadline);
            var through := last.Flushed? || polls < deadline;
            Pass(Layer(deadline, polls, deadline < polls, HasHeader(passed), below), last) ==
            Layer(deadline, Polls(front + [last]), deadline < Polls(front + [last]),
                  HasHeader(Passed(front + [last], deadline)), if through then Pass(below, last) else below)
  {
    PassedSnoc(front, last, deadline);
    hide Polls, Passed, HasHeader;
    HeaderSnoc(Passed(front, deadline), last);
  }

  lemma CutOffIs(sends: seq<Send>, deadline: nat)
    ensures CutOff(sends, deadline) <==> deadline < Polls(sends) && !HasHeader(Passed(sends, deadline))
  {
  }

  lemma TimeoutDoes(limit: int, deadline: nat, message: string, requestId: string, timestamp: int, ops: seq<Op>,
                    note: Note)
    ensures Does(Timeout(limit, deadline, message, requestId, timestamp, ops), note) ==
            var run := DoesAll(ops, note);
            if limit <= 0 then run
            else if CutOff(run.sends, deadline) then
              Run(Passed(run.sends, deadline) + LastWord(message, requestId, timestamp), Note(true, UNAVAILABLE, true))
            else Run(Passed(run.sends, deadline), run.note)
  {
    hide DoesAll, Passed, CutOff, LastWord;
  }

  /** A response on a fresh write state. */
  lemma AnswerIs(envelope: string, note: Note)
    requires !note.wrote
    ensures Does(Reply(UNAVAILABLE, [envelope]), note) ==
            Run([Header(UNAVAILABLE), Bytes(envelope)], note.(wrote := true, status := UNAVAILABLE))
  {
    assert AllBytes([envelope]) == [Bytes(envelope)];
  }

  lemma AbortKept(code: int, envelope: string, note: Note)
    ensures var run := Does(Reply(code, [envelope]), note);
            Does(Reply(code, [envelope]), note.(aborted := true)) == Run(run.sends, run.note.(aborted := true))
  {
  }

  // ---- the context and the middleware -------------------------------------------------------

  class Context {
    var writer: ResponseWriter
    var wrote: bool
    var status: int
    var aborted: bool

    /** Acquired for a request: nothing written yet. */
    constructor (writer: ResponseWriter)
      ensures this.writer == writer && Record() == START
    {
      this.writer, wrote, status, aborted := writer, false, 0, false;
    }

    function Record(): (note: Note)
      reads this
    {
      Note(wrote, status, aborted)
    }

    /** writeHeader: only the first status of a context is written. */
    method WriteHeader(code: int)
      requires writer.Valid()
      modifies `wrote, `status, writer.Repr
      ensures var run := Does(Status(code), old(Record()));
              writer.Now() == PassAll(old(writer.Now()), run.sends) && Record() == run.note
    {
      if wrote {
        return;
      }
      PassOne(writer.Now(), Header(code));
      wrote := true;
      status := code;
      writer.WriteHeader(code);
    }

    /** The body of a response, in its writes. */
    method WriteAll(chunks: seq<string>)
      requires writer.Valid()
      modifies writer.Repr
      ensures writer.Now() == PassAll(old(writer.Now()), AllBytes(chunks))
    {
      ghost var all := AllBytes(chunks);
      for i := 0 to |chunks|
        invariant writer.Now() == PassAll(old(writer.Now()), all[..i])
      {
        assert all[..i + 1] == all[..i] + [Bytes(chunks[i])];
        PassSnoc(old(writer.Now()), all[..i], Bytes(chunks[i]));
        writer.Write(chunks[i]);
      }
      assert all[..|chunks|] == all;
    }

    /** File: everything goes through a recorder of the status, past the context's own check. */
    method ServeFile(code: int, chunks: seq<string>)
      requires writer.Valid()
      modifies `wrote, `status, writer.Repr
      ensures var run := Does(File(code, chunks), old(Record()));
              writer.Now() == PassAll(old(writer.Now()), run.sends) && Record() == run.note
    {
      PassOne(writer.Now(), Header(code));
      PassConcat(writer.Now(), [Header(code)], AllBytes(chunks));
      writer.WriteHeader(code);
      WriteAll(chunks);
      status := code;
      wrote := true;
    }

    method Respond(code: int, chunks: seq<string>)
      requires writer.Valid()
      modifies `wrote, `status, writer.Repr
      ensures var run := Does(Reply(code, chunks), old(Record()));
              writer.Now() == PassAll(old(writer.Now()), run.sends) && Record() == run.note
    {
      PassConcat(writer.Now(), Does(Status(code), Record()).sends, AllBytes(chunks));
      WriteHeader(code);
      WriteAll(chunks);
    }

    method Do(op: Op)
      requires writer.Valid()
      modifies this, writer.Repr
      ensures writer == old(writer)
      ensures var run := Does(op, old(Record()));
              writer.Now() == PassAll(old(writer.Now()), run.sends) && Record() == run.note
      decreases op
    {
      match op
      case Reply(code, chunks) =>
        Respond(code, chunks);
      case Status(code) =>
        WriteHeader(code);
      case File(code, chunks) =>
        ServeFile(code, chunks);
      case RawHeader(code) =>
        PassOne(writer.Now(), Header(code));
        writer.WriteHeader(code);
      case Raw(bytes) =>
        PassOne(writer.Now(), Bytes(bytes));
        writer.Write(bytes);
      case Flush =>
        PassOne(writer.Now(), Flushed);
        writer.Flush();
      case Timeout(limit, deadline, message, requestId, timestamp, ops) =>
        Serve(limit, deadline, message, requestId, timestamp, ops);
    }

    /** next.ServeHTTP: what the handlers do, in order. */
    method Handle(ops: seq<Op>)
      requires writer.Valid()
      modifies this, writer.Repr
      ensures writer == old(writer)
      ensures var run := DoesAll(ops, old(Record()));
              writer.Now() == PassAll(old(writer.Now()), run.sends) && Record() == run.note
      decreases ops, 0
    {
      hide Does;
      for i := 0 to |ops|
        invariant writer == old(writer)
        invariant writer.Now() == PassAll(old(writer.Now()), DoesAll(ops[..i], old(Record())).sends)
        invariant Record() == DoesAll(ops[..i], old(Record())).note
      {
        ghost var run := DoesAll(ops[..i], old(Record()));
        assert ops[..i + 1][..i] == ops[..i];
        PassConcat(old(writer.Now()), run.sends, Does(ops[i], run.note).sends);
        Do(ops[i]);
      }
      assert ops[..|ops|] == ops;
    }

    method ResetWriteState()
      modifies `wrote, `status
      ensures !wrote && status == 0
    {
      wrote, status := false, 0;
    }

    /** AbortWithStatusJSON: abort the chain, then the header and the envelope. */
    method AbortWithStatusJSON(code: int, envelope: string)
      requires writer.Valid()
      modifies `wrote, `status, `aborted, writer.Repr
      ensures var run := Does(Reply(code, [envelope]), old(Record()));
              && writer.Now() == PassAll(old(writer.Now()), run.sends)
              && Record() == run.note.(aborted := true)
    {
      hide Does, PassAll;
      AbortKept(code, envelope, Record());
      aborted := true;
      Respond(code, [envelope]);
    }

    /** The handlers behind a wrapper of the writer of the moment, which is put back behind them. */
    method HandleTimed(deadline: nat, ops: seq<Op>) returns (cutOff: bool)
      requires writer.Valid()
      modifies this, writer.Repr
      ensures writer == old(writer)
      ensures var run := DoesAll(ops, old(Record()));
              && writer.Now() == PassAll(old(writer.Now()), Passed(run.sends, deadline))
              && Record() == run.note && cutOff == CutOff(run.sends, deadline)
      decreases ops, 1
    {
      hide DoesAll, PassAll, Passed, Polls, HasHeader, CutOff;
      ghost var sends := DoesAll(ops, Record()).sends;
      LayerCuts(sends, deadline, writer.Now());
      CutOffIs(sends, deadline);
      var origin := writer;
      var tw := new ResponseWriter.Wrap(origin, deadline);
      writer := tw;
      Handle(ops);
      writer := origin;
      cutOff := tw.timedOut && !tw.wroteHeader;
    }

    /** The middleware around handlers that return, whatever the writer of the moment is. */
    method Serve(limit: int, deadline: nat, message: string, requestId: string, timestamp: int, ops: seq<Op>)
      requires writer.Valid()
      modifies this, writer.Repr
      ensures writer == old(writer)
      ensures var run := Does(Timeout(limit, deadline, message, requestId, timestamp, ops), old(Record()));
              writer.Now() == PassAll(old(writer.Now()), run.sends) && Record() == run.note
      decreases ops, 2
    {
      hide Does, DoesAll, PassAll, Passed, CutOff;
      TimeoutDoes(limit, deadline, message, requestId, timestamp, ops, Record());
      if limit <= 0 {
        Handle(ops);
        return;
      }
      ghost var passed := Passed(DoesAll(ops, Record()).sends, deadline);
      PassConcat(writer.Now(), passed, LastWord(message, requestId, timestamp));
      var cutOff := HandleTimed(deadline, ops);
      if cutOff {
        ResetWriteState();
        var envelope := WriteStandardized(UNAVAILABLE, message, Absent, requestId, timestamp);
        AnswerIs(envelope, Record());
        AbortWithStatusJSON(UNAVAILABLE, envelope);
      }
    }
  }

  // ---- what the connection gets -------------------------------------------------------------

  const CONNECTED := Connection([], "")

  lemma {:induction false} StaysConnection(sends: seq<Send>)
    ensures PassAll(CONNECTED, sends).Connection?
  {
    if sends != [] {
      StaysConnection(sends[..|sends| - 1]);
    }
  }

  /** What a connection makes of calls that all reach it. */
  function Delivered(sends: seq<Send>): (c: Chain)
    ensures c.Connection?
  {
    StaysConnection(sends);
    PassAll(CONNECTED, sends)
  }

  lemma DeliveredSnoc(sends: seq<Send>, last: Send)
    ensures Delivered(sends + [last]) == Pass(Delivered(sends), last)
  {
    PassSnoc(CONNECTED, sends, last);
  }

  /** The response to a request behind a timeout, if that is where its deadline falls. */
  function Answer(op: Op, deadline: nat): (c: Chain)
    requires op.Timeout?
    ensures c.Connection?
  {
    Delivered(Does(op.(deadline := deadline), START).sends)
  }

  function Word(op: Op): string
    requires op.Timeout?
  {
    Envelope(UNAVAILABLE, op.message, Absent, op.requestId, op.timestamp)
  }

  /** For all handlers, nested timeouts and flushes included, and every deadline: the connection gets the
      calls up to the deadline and the flushes, and then the 503 envelope if some were cut off and no header
      was among those delivered. */
  lemma ServedIs(op: Op, deadline: nat)
    requires op.Timeout?
    ensures var sends := DoesAll(op.ops, START).sends;
            var r := Delivered(Passed(sends, deadline));
            Answer(op, deadline) ==
            if op.limit <= 0 then Delivered(sends)
            else if CutOff(sends, deadline) then Connection(r.statuses + [503], r.body + Word(op))
            else r
  {
    hide DoesAll, CutOff, Passed;
    var p := Passed(DoesAll(op.ops, START).sends, deadline);
    TimeoutDoes(op.limit, deadline, op.message, op.requestId, op.timestamp, op.ops, START);
    DeliveredSnoc(p, Header(UNAVAILABLE));
    DeliveredSnoc(p + [Header(UNAVAILABLE)], Bytes(Word(op)));
    assert p + [Header(UNAVAILABLE)] + [Bytes(Word(op))] == p + LastWord(op.message, op.requestId, op.timestamp);
  }

  // ---- handlers that respond through the context --------------------------------------------

  /** No header, bytes or flush around the context, behind inner timeouts neither. */
  ghost predicate ThroughContext(op: Op)
    decreases op
  {
    match op
    case RawHeader(_) => false
    case Raw(_) => false
    case Flush => false
    case Timeout(_, _, _, _, _, ops) => AllThroughContext(ops)
    case _ => true
  }

  ghost predicate AllThroughContext(ops: seq<Op>)
    decreases ops
  {
    forall i | 0 <= i < |ops| :: ThroughContext(ops[i])
  }

  ghost predicate Unflushed(sends: seq<Send>) {
    forall i | 0 <= i < |sends| :: !sends[i].Flushed?
  }

  lemma {:induction false} UnflushedPassed(sends: seq<Send>, deadline: nat)
    requires Unflushed(sends)
    ensures Polls(sends) == |sends|
    ensures Passed(sends, deadline) == if deadline < |sends| then sends[..deadline] else sends
  {
    if sends != [] {
      var front, last := sends[..|sends| - 1], sends[|sends| - 1];
      UnflushedPassed(front, deadline);
      assert front + [last] == sends;
      if deadline < |front| { assert front[..deadline] == sends[..deadline]; }
    }
  }

  /** Calls through the context start with a header, unless the context's own has been written. */
  ghost predicate StartsWell(run: Run, note: Note) {
    && Unflushed(run.sends)
    && (note.wrote ==> run.note.wrote)
    && (!note.wrote ==> if run.sends == [] then !run.note.wrote else run.note.wrote && run.sends[0].Header?)
  }

  lemma {:induction false} DoesWell(op: Op, note: Note)
    requires ThroughContext(op)
    ensures StartsWell(Does(op, note), note)
    decreases op
  {
    match op
    case Timeout(limit, deadline, _, _, _, ops) =>
      AllDoWell(ops, note);
      TimedWell(DoesAll(ops, note), note, deadline);
    case _ =>
  }

  lemma {:induction false} AllDoWell(ops: seq<Op>, note: Note)
    requires AllThroughContext(ops)
    ensures StartsWell(DoesAll(ops, note), note)
    decreases ops
  {
    if ops != [] {
      AllDoWell(ops[..|ops| - 1], note);
      DoesWell(ops[|ops| - 1], DoesAll(ops[..|ops| - 1], note).note);
    }
  }

  lemma TimedWell(run: Run, note: Note, deadline: nat)
    requires StartsWell(run, note)
    ensures !CutOff(run.sends, deadline) ==> StartsWell(Run(Passed(run.sends, deadline), run.note), note)
    ensures Unflushed(Passed(run.sends, deadline))
    ensures CutOff(run.sends, deadline) && !note.wrote ==> Passed(run.sends, deadline) == []
  {
    UnflushedPassed(run.sends, deadline);
    var p := Passed(run.sends, deadline);
    if run.sends != [] && deadline > 0 {
      assert p[0] == run.sends[0];
    }
  }

  /** The body delivered up to some call is a prefix of the body delivered in all. */
  lemma {:induction false} BodyGrows(sends: seq<Send>, n: nat)
    requires n <= |sends|
    ensures HasPrefix(Delivered(sends).body, Delivered(sends[..n]).body)
  {
    if n == |sends| {
      assert sends[..n] == sends;
    } else {
      var front := sends[..|sends| - 1];
      assert front[..n] == sends[..n];
      BodyGrows(front, n);
      DeliveredSnoc(front, sends[|sends| - 1]);
      assert front + [sends[|sends| - 1]] == sends;
    }
  }

  /** Behind a header the statuses are its code and those of later headers. */
  lemma {:induction false} StatusesBehind(sends: seq<Send>)
    requires sends != [] && sends[0].Header?
    ensures var r := Delivered(sends);
            && r.statuses != [] && r.statuses[0] == sends[0].code
            && (|r.statuses| == 1 <==> !HasHeader(sends[1..]))
  {
    var n := |sends| - 1;
    assert sends[..n] + [sends[n]] == sends;
    DeliveredSnoc(sends[..n], sends[n]);
    if n == 0 {
      assert sends[..0] == [];
    } else {
      StatusesBehind(sends[..n]);
      assert sends[1..] == sends[..n][1..] + [sends[n]];
      HeaderSnoc(sends[..n][1..], sends[n]);
    }
  }

  /** A timeout around calls that start with a header: the 503 if the deadline has passed before them, and
      otherwise a prefix of the calls. */
  lemma CallsCut(sends: seq<Send>, deadline: nat)
    requires Unflushed(sends) && sends != [] && sends[0].Header?
    ensures CutOff(sends, deadline) <==> deadline == 0
    ensures var p := Passed(sends, deadline);
            if deadline == 0 then p == []
            else
              && 0 < |p| <= |sends| && p[0] == sends[0] && p == sends[..|p|]
              && (HasHeader(p[1..]) ==> HasHeader(sends[1..]))
              && HasPrefix(Delivered(sends).body, Delivered(p).body)
  {
    UnflushedPassed(sends, deadline);
    var p := Passed(sends, deadline);
    if deadline > 0 {
      assert p[0] == sends[0] && p == sends[..|p|];
      assert forall i | 0 <= i < |p| - 1 :: p[1..][i] == sends[1..][i];
      BodyGrows(sends, |p|);
    }
  }

  // ---- what the handlers wrote --------------------------------------------------------------

  function Concat(chunks: seq<string>): string {
    if chunks == [] then "" else chunks[0] + Concat(chunks[1..])
  }

  /** No inner timeouts. */
  ghost predicate Flat(ops: seq<Op>) {
    forall i | 0 <= i < |ops| :: !ops[i].Timeout?
  }

  /** What handlers without inner timeouts write, piece by piece, in order. */
  function OwnText(ops: seq<Op>): string {
    if ops == [] then ""
    else
      (match ops[0]
       case Reply(_, chunks) => Concat(chunks)
       case File(_, chunks) => Concat(chunks)
       case Raw(bytes) => bytes
       case _ => "")
      + OwnText(ops[1..])
  }

  /** The bytes among the calls. */
  function TextOf(sends: seq<Send>): string {
    if sends == [] then ""
    else (if sends[0].Bytes? then sends[0].p else "") + TextOf(sends[1..])
  }

  lemma {:induction false} TextConcat(a: seq<Send>, b: seq<Send>)
    ensures TextOf(a + b) == TextOf(a) + TextOf(b)
  {
    if a == [] {
      assert a + b == b;
    } else {
      assert (a + b)[1..] == a[1..] + b;
      TextConcat(a[1..], b);
    }
  }

  lemma TextSnoc(sends: seq<Send>, last: Send)
    ensures TextOf(sends + [last]) == TextOf(sends) + if last.Bytes? then last.p else ""
  {
    TextConcat(sends, [last]);
    assert [last][1..] == [];
  }

  lemma {:induction false} DeliveredText(sends: seq<Send>)
    ensures Delivered(sends).body == TextOf(sends)
  {
    if sends != [] {
      var front, last := sends[..|sends| - 1], sends[|sends| - 1];
      assert front + [last] == sends;
      DeliveredText(front);
      DeliveredSnoc(front, last);
      TextSnoc(front, last);
      assert TextOf(front) + "" == TextOf(front);
    }
  }

  lemma {:induction false} BytesText(chunks: seq<string>)
    ensures TextOf(AllBytes(chunks)) == Concat(chunks)
  {
    if chunks != [] {
      assert AllBytes(chunks)[1..] == AllBytes(chunks[1..]);
      BytesText(chunks[1..]);
    }
  }

  lemma OneText(op: Op, note: Note)
    requires !op.Timeout?
    ensures TextOf(Does(op, note).sends) == OwnText([op])
  {
    assert [op][1..] == [];
    match op
    case Reply(code, chunks) =>
      BytesText(chunks);
      TextConcat([Header(code)], AllBytes(chunks));
      assert [] + AllBytes(chunks) == AllBytes(chunks);
      assert TextOf([Header(code)]) == "" by { assert [Header(code)][1..] == []; }
      assert "" + Concat(chunks) == Concat(chunks);
    case File(code, chunks) =>
      BytesText(chunks);
      TextConcat([Header(code)], AllBytes(chunks));
      assert TextOf([Header(code)]) == "" by { assert [Header(code)][1..] == []; }
      assert "" + Concat(chunks) == Concat(chunks);
    case Raw(bytes) => assert [Bytes(bytes)][1..] == [];
    case Status(code) => assert [Header(code)][1..] == [];
    case RawHeader(code) => assert [Header(code)][1..] == [];
    case Flush => assert [Flushed][1..] == [];
  }

  lemma {:induction false} OwnConcat(a: seq<Op>, b: seq<Op>)
    ensures OwnText(a + b) == OwnText(a) + OwnText(b)
  {
    if a == [] {
      assert a + b == b;
    } else {
      assert (a + b)[1..] == a[1..] + b;
      OwnConcat(a[1..], b);
    }
  }

  lemma {:induction false} AllText(ops: seq<Op>, note: Note)
    requires Flat(ops)
    ensures Delivered(DoesAll(ops, note).sends).body == OwnText(ops)
  {
    hide Does, OwnText, TextOf;
    DeliveredText(DoesAll(ops, note).sends);
    if ops == [] {
      NoText();
    } else {
      var front, last := ops[..|ops| - 1], ops[|ops| - 1];
      assert front + [last] == ops;
      var run := DoesAll(front, note);
      AllText(front, note);
      DeliveredText(run.sends);
      OneText(last, run.note);
      TextConcat(run.sends, Does(last, run.note).sends);
      OwnConcat(front, [last]);
    }
  }

  lemma NoText()
    ensures TextOf([]) == "" && OwnText([]) == ""
  {}

  /** The statuses handlers without inner timeouts send: the first response's through the context, every
      file's, and every one sent around the context. */
  function OwnCodes(ops: seq<Op>, wrote: bool): seq<int> {
    if ops == [] then []
    else
      match ops[0]
      case File(code, _) => [code] + OwnCodes(ops[1..], true)
      case Reply(code, _) => (if wrote then [] else [code]) + OwnCodes(ops[1..], true)
      case Status(code) => (if wrote then [] else [code]) + OwnCodes(ops[1..], true)
      case RawHeader(code) => [code] + OwnCodes(ops[1..], wrote)
      case _ => OwnCodes(ops[1..], wrote)
  }

  predicate Responds(ops: seq<Op>) {
    exists i :: 0 <= i < |ops| && (ops[i].Reply? || ops[i].Status? || ops[i].File?)
  }

  /** The headers among the calls. */
  function CodesOf(sends: seq<Send>): seq<int> {
    if sends == [] then []
    else (if sends[0].Header? then [sends[0].code] else []) + CodesOf(sends[1..])
  }

  lemma {:induction false} CodesConcat(a: seq<Send>, b: seq<Send>)
    ensures CodesOf(a + b) == CodesOf(a) + CodesOf(b)
  {
    if a == [] {
      assert a + b == b;
    } else {
      assert (a + b)[1..] == a[1..] + b && (a + b)[0] == a[0];
      CodesConcat(a[1..], b);
      var head := if a[0].Header? then [a[0].code] else [];
      IntsAssoc(head, CodesOf(a[1..]), CodesOf(b));
    }
  }

  lemma IntsAssoc(a: seq<int>, b: seq<int>, c: seq<int>)
    ensures a + (b + c) == (a + b) + c
  {}

  lemma CodesOne(send: Send)
    ensures CodesOf([send]) == if send.Header? then [send.code] else []
  {
    assert [send][1..] == [];
  }

  lemma {:induction false} DeliveredCodes(sends: seq<Send>)
    ensures Delivered(sends).statuses ==
            (if sends != [] && !sends[0].Header? then [200] else []) + CodesOf(sends)
    ensures Delivered(sends).statuses == [] ==> sends == []
  {
    hide CodesOf, Delivered;
    if sends == [] {
      NothingDelivered();
      NoCodesOf();
    } else {
      var front, last := sends[..|sends| - 1], sends[|sends| - 1];
      assert front + [last] == sends;
      DeliveredCodes(front);
      DeliveredSnoc(front, last);
      CodesConcat(front, [last]);
      CodesOne(last);
      NoCodesOf();
      assert front != [] ==> front[0] == sends[0];
      IntsAssoc(if !sends[0].Header? then [200] else [], CodesOf(front), CodesOf([last]));
    }
  }

  lemma NoCodesOf()
    ensures CodesOf([]) == []
  {}

  lemma {:induction false} BytesNoCode(chunks: seq<string>)
    ensures CodesOf(AllBytes(chunks)) == []
  {
    if chunks != [] {
      assert AllBytes(chunks)[1..] == AllBytes(chunks[1..]);
      BytesNoCode(chunks[1..]);
    }
  }

  lemma OneCodes(op: Op, note: Note)
    requires !op.Timeout?
    ensures CodesOf(Does(op, note).sends) == OwnCodes([op], note.wrote)
    ensures Does(op, note).note.wrote <==> note.wrote || Responds([op])
  {
    hide Responds, CodesOf;
    NoCodesOf();
    RespondsOne(op);
    assert [op][1..] == [] && [op][0] == op;
    match op
    case Reply(code, chunks) =>
      BytesNoCode(chunks);
      CodesOne(Header(code));
      CodesConcat([Header(code)], AllBytes(chunks));
      assert [] + AllBytes(chunks) == AllBytes(chunks);
    case File(code, chunks) =>
      BytesNoCode(chunks);
      CodesOne(Header(code));
      CodesConcat([Header(code)], AllBytes(chunks));
    case Raw(bytes) => CodesOne(Bytes(bytes));
    case Status(code) => CodesOne(Header(code));
    case RawHeader(code) => CodesOne(Header(code));
    case Flush => CodesOne(Flushed);
  }

  lemma RespondsOne(op: Op)
    ensures Responds([op]) <==> op.Reply? || op.Status? || op.File?
  {
    assert [op][0] == op;
  }

  lemma RespondsCons(op: Op, ops: seq<Op>)
    ensures Responds([op] + ops) <==> op.Reply? || op.Status? || op.File? || Responds(ops)
  {
    var all := [op] + ops;
    assert all[0] == op && forall i | 0 <= i < |ops| :: all[i + 1] == ops[i];
  }

  lemma {:induction false} OwnCodesConcat(a: seq<Op>, b: seq<Op>, wrote: bool)
    ensures OwnCodes(a + b, wrote) == OwnCodes(a, wrote) + OwnCodes(b, wrote || Responds(a))
    ensures Responds(a + b) <==> Responds(a) || Responds(b)
  {
    if a == [] {
      assert a + b == b;
    } else {
      assert (a + b)[1..] == a[1..] + b && a == [a[0]] + a[1..] && a + b == [a[0]] + (a[1..] + b);
      RespondsCons(a[0], a[1..]);
      RespondsCons(a[0], a[1..] + b);
      hide Responds;
      OwnCodesConcat(a[1..], b, wrote || a[0].Reply? || a[0].Status? || a[0].File?);
    }
  }

  lemma {:induction false} AllCodes(ops: seq<Op>, note: Note)
    requires Flat(ops)
    ensures CodesOf(DoesAll(ops, note).sends) == OwnCodes(ops, note.wrote)
    ensures DoesAll(ops, note).note.wrote <==> note.wrote || Responds(ops)
  {
    hide Does, OwnCodes, CodesOf, Responds;
    if ops == [] {
      NoCodes();
    } else {
      var front, last := ops[..|ops| - 1], ops[|ops| - 1];
      assert front + [last] == ops;
      var run := DoesAll(front, note);
      AllCodes(front, note);
      OneCodes(last, run.note);
      CodesConcat(run.sends, Does(last, run.note).sends);
      OwnCodesConcat(front, [last], note.wrote);
    }
  }

  lemma NoCodes()
    ensures CodesOf([]) == [] && forall wrote :: OwnCodes([], wrote) == []
    ensures !Responds([])
  {}

  /** The status the context ends up with: the first response's, until a file replaces it. */
  function OwnStatus(ops: seq<Op>, status: int, wrote: bool): int {
    if ops == [] then status
    else
      match ops[0]
      case File(code, _) => OwnStatus(ops[1..], code, true)
      case Reply(code, _) => OwnStatus(ops[1..], if wrote then status else code, true)
      case Status(code) => OwnStatus(ops[1..], if wrote then status else code, true)
      case _ => OwnStatus(ops[1..], status, wrote)
  }

  lemma {:induction false} OwnStatusSnoc(ops: seq<Op>, last: Op, status: int, wrote: bool)
    ensures OwnStatus(ops + [last], status, wrote) ==
            OwnStatus([last], OwnStatus(ops, status, wrote), wrote || Responds(ops))
  {
    if ops == [] {
      assert ops + [last] == [last];
    } else {
      assert (ops + [last])[1..] == ops[1..] + [last] && ops == [ops[0]] + ops[1..];
      RespondsCons(ops[0], ops[1..]);
      hide Responds;
      match ops[0]
      case File(code, _) => OwnStatusSnoc(ops[1..], last, code, true);
      case Reply(code, _) => OwnStatusSnoc(ops[1..], last, if wrote then status else code, true);
      case Status(code) => OwnStatusSnoc(ops[1..], last, if wrote then status else code, true);
      case _ => OwnStatusSnoc(ops[1..], last, status, wrote);
    }
  }

  lemma OneNoted(op: Op, note: Note)
    requires !op.Timeout?
    ensures Does(op, note).note ==
            Note(note.wrote || Responds([op]), OwnStatus([op], note.status, note.wrote), note.aborted)
  {
    RespondsOne(op);
    assert [op][1..] == [];
  }

  /** The context's record after handlers without inner timeouts: whether one responded, and the status. */
  lemma {:induction false} AllNoted(ops: seq<Op>, note: Note)
    requires Flat(ops)
    ensures DoesAll(ops, note).note ==
            Note(note.wrote || Responds(ops), OwnStatus(ops, note.status, note.wrote), note.aborted)
  {
    hide Does, OwnStatus, Responds;
    if ops == [] {
      NoneNoted(note);
    } else {
      var front, last := ops[..|ops| - 1], ops[|ops| - 1];
      assert front + [last] == ops;
      AllNoted(front, note);
      OneNoted(last, DoesAll(front, note).note);
      OwnStatusSnoc(front, last, note.status, note.wrote);
      OwnCodesConcat(front, [last], note.wrote);
    }
  }

  lemma NoneNoted(note: Note)
    ensures OwnStatus([], note.status, note.wrote) == note.status && !Responds([])
  {}

  /** Undisturbed, handlers without inner timeouts deliver exactly the statuses they send, behind an implied
      200 if bytes or a flush come first, and exactly the text they write. */
  lemma OwnResponse(ops: seq<Op>)
    requires Flat(ops)
    ensures var sends := DoesAll(ops, START).sends;
            var implied := if sends != [] && !sends[0].Header? then [200] else [];
            Delivered(sends) == Connection(implied + OwnCodes(ops, false), OwnText(ops))
  {
    hide DoesAll, OwnCodes, OwnText, Delivered;
    AllText(ops, START);
    AllCodes(ops, START);
    DeliveredCodes(DoesAll(ops, START).sends);
  }

  /** Wherever the deadline falls, handlers that respond through the context, inner timeouts included, lead
      to one of three responses: nothing if they do nothing, exactly the 503 envelope with no byte of theirs
      if the deadline has passed before their first call, and otherwise their own first status with a prefix
      of their own bytes; without inner timeouts that is a prefix of what they wrote, and all of it once the
      deadline lies behind their last call. */
  lemma NeverMixed(op: Op, deadline: nat)
    requires op.Timeout? && op.limit > 0 && AllThroughContext(op.ops)
    ensures var sends, r := DoesAll(op.ops, START).sends, Answer(op, deadline);
            if sends == [] then r == CONNECTED
            else if deadline == 0 then r == Connection([503], Word(op))
            else
              && sends[0].Header? && r.statuses != [] && r.statuses[0] == sends[0].code
              && (!HasHeader(sends[1..]) ==> |r.statuses| == 1)
              && HasPrefix(Delivered(sends).body, r.body)
              && (Flat(op.ops) ==> HasPrefix(OwnText(op.ops), r.body))
              && (Flat(op.ops) && |sends| <= deadline ==> r.body == OwnText(op.ops))
  {
    hide Does, DoesAll, CutOff, Answer, OwnText, Delivered;
    var sends := DoesAll(op.ops, START).sends;
    if Flat(op.ops) { AllText(op.ops, START); }
    ServedIs(op, deadline);
    AllDoWell(op.ops, START);
    UnflushedPassed(sends, deadline);
    NothingDelivered();
    if sends == [] {
      CutOffIs([], deadline);
    } else {
      CallsCut(sends, deadline);
      if deadline == 0 {
        assert [] + [UNAVAILABLE] == [UNAVAILABLE] && "" + Word(op) == Word(op);
      } else {
        StatusesBehind(Passed(sends, deadline));
      }
    }
  }

  /** At most one status is forwarded wherever the deadline falls, if and only if no call behind the first
      one is a header. */
  lemma OneStatusIff(op: Op)
    requires op.Timeout? && op.limit > 0 && AllThroughContext(op.ops)
    ensures var sends := DoesAll(op.ops, START).sends;
            (forall deadline :: |Answer(op, deadline).statuses| <= 1) <==> sends == [] || !HasHeader(sends[1..])
  {
    hide Does, DoesAll, CutOff, Answer, HasHeader;
    var sends := DoesAll(op.ops, START).sends;
    forall deadline ensures sends == [] || !HasHeader(sends[1..]) ==> |Answer(op, deadline).statuses| <= 1 {
      NeverMixed(op, deadline);
    }
    AllDoWell(op.ops, START);
    if sends != [] {
      ServedIs(op, |sends|);
      UnflushedPassed(sends, |sends|);
      StatusesBehind(sends);
      CallsCut(sends, |sends|);
      assert HasHeader(sends[1..]) ==> |Answer(op, |sends|).statuses| > 1;
    }
  }

  // ---- without inner timeouts ---------------------------------------------------------------

  /** Responses, statuses and files. */
  ghost predicate Plain(ops: seq<Op>) {
    forall i | 0 <= i < |ops| :: ops[i].Reply? || ops[i].Status? || ops[i].File?
  }

  /** A file is sent behind another response. */
  ghost predicate LaterFile(ops: seq<Op>) {
    exists i :: 1 <= i < |ops| && ops[i].File?
  }

  lemma HeaderConcat(a: seq<Send>, b: seq<Send>)
    ensures HasHeader(a + b) <==> HasHeader(a) || HasHeader(b)
  {
    var all := a + b;
    assert (forall i | 0 <= i < |a| :: all[i] == a[i]) && forall i | 0 <= i < |b| :: all[|a| + i] == b[i];
    if HasHeader(a) {
      var i :| 0 <= i < |a| && a[i].Header?;
      assert all[i].Header?;
    }
    if HasHeader(b) {
      var i :| 0 <= i < |b| && b[i].Header?;
      assert all[|a| + i].Header?;
    }
  }

  lemma FileSnoc(ops: seq<Op>)
    requires |ops| > 1
    ensures LaterFile(ops) <==> LaterFile(ops[..|ops| - 1]) || ops[|ops| - 1].File?
  {
    var front := ops[..|ops| - 1];
    assert forall i | 0 <= i < |front| :: front[i] == ops[i];
    if LaterFile(front) {
      var i :| 1 <= i < |front| && front[i].File?;
      assert ops[i].File?;
    }
  }

  /** The first call is the header of the first response, and another one comes only with a later file. */
  lemma {:induction false} PlainSends(ops: seq<Op>)
    requires ops != [] && Plain(ops)
    ensures var run := DoesAll(ops, START);
            && AllThroughContext(ops) && run.note.wrote
            && run.sends != [] && run.sends[0] == Header(ops[0].code)
            && (HasHeader(run.sends[1..]) <==> LaterFile(ops))
  {
    var n := |ops| - 1;
    if n == 0 {
      assert ops[..0] == [];
      assert DoesAll(ops, START) == Does(ops[0], START);
    } else {
      PlainSends(ops[..n]);
      FileSnoc(ops);
      var front := DoesAll(ops[..n], START);
      var last := Does(ops[n], front.note);
      assert (front.sends + last.sends)[1..] == front.sends[1..] + last.sends;
      HeaderConcat(front.sends[1..], last.sends);
      if ops[n].File? { assert last.sends[0].Header?; }
    }
  }

  /** For plain handlers: the status of the first response and the start of what all responses wrote, which is
      all of it once the deadline lies behind the last call. */
  lemma PlainAnswer(op: Op, deadline: nat)
    requires op.Timeout? && op.limit > 0 && op.ops != [] && Plain(op.ops) && deadline > 0
    ensures var r := Answer(op, deadline);
            && r.statuses != [] && r.statuses[0] == op.ops[0].code
            && HasPrefix(OwnText(op.ops), r.body)
            && (|DoesAll(op.ops, START).sends| <= deadline ==> r.body == OwnText(op.ops))
  {
    hide Answer, OwnText, DoesAll, Delivered, HasHeader, HasPrefix;
    PlainSends(op.ops);
    NeverMixed(op, deadline);
  }

  /** For plain handlers: at most one status wherever the deadline falls, if and only if no file is sent
      behind another response. */
  lemma PlainOneStatusIff(op: Op)
    requires op.Timeout? && op.limit > 0 && Plain(op.ops)
    ensures (forall deadline :: |Answer(op, deadline).statuses| <= 1) <==> !LaterFile(op.ops)
  {
    hide Answer;
    if op.ops != [] {
      PlainSends(op.ops);
    }
    OneStatusIff(op);
  }

  // ---- a timeout inside another -------------------------------------------------------------

  /** Two timeouts, one inside the other, wherever their deadlines fall: still one response, which is the
      outer 503, or the start of the inner 503, or the start of the handler's own. */
  lemma NestedNeverMixed(outer: Op, inner: Op, deadline: nat)
    requires outer.Timeout? && inner.Timeout? && outer.limit > 0 && inner.limit > 0 && outer.ops == [inner]
    requires inner.ops != [] && Plain(inner.ops) && !LaterFile(inner.ops)
    ensures var r := Answer(outer, deadline);
            if deadline == 0 then r == Connection([503], Word(outer))
            else if inner.deadline == 0 then r.statuses == [503] && HasPrefix(Word(inner), r.body)
            else
              && r.statuses == [inner.ops[0].code]
              && HasPrefix(OwnText(inner.ops), r.body)
  {
    hide Does, DoesAll, Answer, HasHeader, Word, OwnText;
    PlainSends(inner.ops);
    AllText(inner.ops, START);
    assert ThroughContext(inner) && AllThroughContext(outer.ops);
    NeverMixed(outer, deadline);
    OnlyOne(inner);
    InnerCalls(inner);
    if deadline > 0 && inner.deadline > 0 {
      var calls := Does(inner, START).sends;
      PrefixChains(Delivered(DoesAll(inner.ops, START).sends).body, Delivered(calls).body,
                   Answer(outer, deadline).body);
    }
  }

  lemma OnlyOne(op: Op)
    ensures DoesAll([op], START) == Does(op, START)
  {
    assert [op][..0] == [];
    assert [] + Does(op, START).sends == Does(op, START).sends;
  }

  lemma PrefixChains(a: string, b: string, c: string)
    requires HasPrefix(a, b) && HasPrefix(b, c)
    ensures HasPrefix(a, c)
  {
    assert b[..|c|] == a[..|b|][..|c|];
  }

  /** The calls a timeout around plain handlers makes: one header, and then nothing but bytes. */
  lemma InnerCalls(op: Op)
    requires op.Timeout? && op.limit > 0 && op.ops != [] && Plain(op.ops) && !LaterFile(op.ops)
    ensures var own, calls := DoesAll(op.ops, START).sends, Does(op, START).sends;
            && calls != [] && !HasHeader(calls[1..])
            && if op.deadline == 0 then calls[0] == Header(UNAVAILABLE) && Delivered(calls).body == Word(op)
               else calls[0] == Header(op.ops[0].code) && HasPrefix(Delivered(own).body, Delivered(calls).body)
  {
    hide Does, DoesAll, CutOff, Passed, Polls, Delivered;
    var own := DoesAll(op.ops, START).sends;
    PlainSends(op.ops);
    AllDoWell(op.ops, START);
    CallsCut(own, op.deadline);
    TimeoutDoes(op.limit, op.deadline, op.message, op.requestId, op.timestamp, op.ops, START);
    if op.deadline == 0 {
      var word := LastWord(op.message, op.requestId, op.timestamp);
      assert [] + word == word;
      DeliveredSnoc([], Header(UNAVAILABLE));
      DeliveredSnoc([Header(UNAVAILABLE)], Bytes(Word(op)));
      NothingDelivered();
      assert [] + [Header(UNAVAILABLE)] == [Header(UNAVAILABLE)];
      assert [Header(UNAVAILABLE)] + [Bytes(Word(op))] == word;
      assert "" + Word(op) == Word(op);
    }
  }

  lemma NothingDelivered()
    ensures Delivered([]) == CONNECTED
  {
  }

  // ---- handlers that write around the context -----------------------------------------------

  /** How many writes of bytes come before the first header. */
  function Lead(sends: seq<Send>): nat {
    if sends == [] then 0
    else
      var front := sends[..|sends| - 1];
      Lead(front) + if sends[|sends| - 1].Bytes? && !HasHeader(front) then 1 else 0
  }

  ghost predicate HasFlush(sends: seq<Send>) {
    exists i :: 0 <= i < |sends| && sends[i].Flushed?
  }

  /** The middleware adds its 503 to a response that had already begun. */
  ghost predicate Mixed(op: Op, deadline: nat)
    requires op.Timeout?
  {
    var c := PassAll(Layer(deadline, 0, false, false, CONNECTED), DoesAll(op.ops, START).sends);
    && op.limit > 0 && c.Layer? && c.timedOut && !c.wroteHeader
    && c.below.Connection? && c.below.statuses != []
  }

  lemma {:induction false} SomethingDelivered(sends: seq<Send>)
    ensures Delivered(sends).statuses != [] <==> sends != []
  {
    if sends != [] {
      var n := |sends| - 1;
      SomethingDelivered(sends[..n]);
    }
  }

  lemma FlushSnoc(front: seq<Send>, last: Send)
    ensures HasFlush(front + [last]) <==> HasFlush(front) || last.Flushed?
  {
    var all := front + [last];
    assert all[|front|] == last && forall i | 0 <= i < |front| :: all[i] == front[i];
    if HasFlush(front) {
      var i :| 0 <= i < |front| && front[i].Flushed?;
      assert all[i].Flushed?;
    }
  }

  lemma {:induction false} LeadIs(sends: seq<Send>, deadline: nat)
    ensures if HasHeader(sends) then Lead(sends) < Polls(sends) else Lead(sends) == Polls(sends)
    ensures HasHeader(Passed(sends, deadline)) <==> HasHeader(sends) && Lead(sends) < deadline
    ensures Passed(sends, deadline) != [] <==> HasFlush(sends) || (0 < deadline && 0 < Polls(sends))
  {
    if sends != [] {
      var front, last := sends[..|sends| - 1], sends[|sends| - 1];
      assert front + [last] == sends;
      LeadIs(front, deadline);
      HeaderSnoc(front, last);
      FlushSnoc(front, last);
      HeaderSnoc(Passed(front, deadline), last);
      assert Passed(front, deadline) + [] == Passed(front, deadline);
    }
  }

  /** Exactly when a response is mixed, for all handlers: the deadline passes before the first header, if
      any, and before the last call, and a byte or a flush gets through. */
  lemma MixedIff(op: Op, deadline: nat)
    requires op.Timeout? && op.limit > 0
    ensures var sends := DoesAll(op.ops, START).sends;
            Mixed(op, deadline) <==>
            deadline <= Lead(sends) && deadline < Polls(sends) && (deadline > 0 || HasFlush(sends))
  {
    hide DoesAll, Passed, HasHeader, HasFlush, Lead;
    var sends := DoesAll(op.ops, START).sends;
    LayerCuts(sends, deadline, CONNECTED);
    LeadIs(sends, deadline);
    SomethingDelivered(Passed(sends, deadline));
  }

  /** Exactly which handlers some deadline mixes: those that write bytes before any header and go on, and
      those that flush and write anything. */
  lemma MixedSometimesIff(op: Op)
    requires op.Timeout? && op.limit > 0
    ensures var sends := DoesAll(op.ops, START).sends;
            (exists deadline :: Mixed(op, deadline)) <==>
            (Lead(sends) > 0 && Polls(sends) > 1) || (HasFlush(sends) && Polls(sends) > 0)
  {
    hide DoesAll, HasFlush, Lead, Mixed;
    MixedIff(op, 0);
    MixedIff(op, 1);
    forall deadline ensures Mixed(op, deadline) ==> deadline == 0 || Mixed(op, 1) {
      MixedIff(op, deadline);
    }
  }

  lemma TwoCalls(a: Op, b: Op)
    ensures var run := Does(a, START);
            DoesAll([a, b], START).sends == run.sends + Does(b, run.note).sends
  {
    hide Does;
    OnlyOne(a);
    assert [a, b][..1] == [a];
    assert DoesAll([a, b], START).sends == DoesAll([a], START).sends + Does(b, DoesAll([a], START).note).sends;
  }

  /** Of two calls the first comes through, and the second is dropped. */
  lemma OnePassed(first: Send, second: Send, deadline: nat)
    requires if first.Flushed? then deadline == 0 else deadline == 1
    requires !second.Flushed?
    ensures Passed([first, second], deadline) == [first]
    ensures CutOff([first, second], deadline) <==> !first.Header?
    ensures Delivered([first]) == Pass(CONNECTED, first)
  {
    assert [first, second][..1] == [first] && [first][..0] == [];
    assert Passed([first], deadline) == [first];
    PassOne(CONNECTED, first);
  }

  /** It happens: some bytes around the context, then the deadline, then a status. */
  lemma MixedHappens(op: Op, p: string, code: int)
    requires op.Timeout? && op.limit > 0 && op.ops == [Raw(p), RawHeader(code)]
    ensures Answer(op, 1) == Connection([200, 503], p + Word(op))
  {
    hide Answer, Word, CutOff, Passed;
    TwoCalls(Raw(p), RawHeader(code));
    assert [Bytes(p)] + [Header(code)] == [Bytes(p), Header(code)];
    OnePassed(Bytes(p), Header(code), 1);
    ServedIs(op, 1);
    assert [200] + [UNAVAILABLE] == [200, UNAVAILABLE] && "" + p == p;
  }

  /** And with every header sent through the context: when the deadline has passed, a flush still starts the
      response, and the status behind it is dropped. */
  lemma FlushMixes(op: Op, code: int)
    requires op.Timeout? && op.limit > 0 && op.ops == [Flush, Status(code)]
    ensures Answer(op, 0) == Connection([200, 503], Word(op))
  {
    hide Answer, Word, CutOff, Passed;
    TwoCalls(Flush, Status(code));
    assert [Flushed] + [Header(code)] == [Flushed, Header(code)];
    OnePassed(Flushed, Header(code), 0);
    ServedIs(op, 0);
    assert [200] + [UNAVAILABLE] == [200, UNAVAILABLE] && "" + Word(op) == Word(op);
  }
}
