/** The handler chain: an index machine that the handlers it runs re-enter through Next, and the
    nested-call specification it implements. */
module HandlerChain {
  import opened Wrappers

  /** What a handler does, as a finite script; it may look at the abort flag. */
  datatype Script =
    | Return
    | Effect(tag: nat, rest: Script)
    | CallNext(rest: Script)
    | CallAbort(rest: Script)
    | IfAborted(yes: Script, no: Script)

  datatype Event = Start(i: nat) | Finish(i: nat) | Did(i: nat, tag: nat) | Aborted(i: nat)

  type Log = seq<Event>

  // ---- the nested-call specification --------------------------------------------------------

  datatype Ran = Ran(log: Log, called: bool, aborted: bool)

  /** Runs the handlers from i on as nested calls: handler i, inside it (or after it) everything else. */
  function Rest(hs: seq<Script>, i: nat, aborted: bool): (r: Ran)
    requires i <= |hs|
    decreases |hs| - i, 0, Return
  {
    if i == |hs| || aborted then Ran([], true, aborted)
    else
      var b := Body(hs, i, hs[i], false, false);
      var after := if b.called then Ran([], true, b.aborted) else Rest(hs, i + 1, b.aborted);
      Ran([Start(i)] + b.log + [Finish(i)] + after.log, true, after.aborted)
  }

  /** Runs the remaining script of handler i; `called` says that the rest of the chain has been run. */
  function Body(hs: seq<Script>, i: nat, s: Script, called: bool, aborted: bool): (r: Ran)
    requires i < |hs|
    decreases |hs| - i - 1, 1, s
  {
    match s
    case Return => Ran([], called, aborted)
    case Effect(tag, rest) =>
      var r := Body(hs, i, rest, called, aborted);
      r.(log := [Did(i, tag)] + r.log)
    case CallAbort(rest) =>
      var r := Body(hs, i, rest, called, true);
      r.(log := [Aborted(i)] + r.log)
    case IfAborted(yes, no) =>
      Body(hs, i, if aborted then yes else no, called, aborted)
    case CallNext(rest) =>
      if called then Body(hs, i, rest, true, aborted)
      else
        var n := Rest(hs, i + 1, aborted);
        var r := Body(hs, i, rest, true, n.aborted);
        r.(log := n.log + r.log)
  }

  /** The specification one handler further. */
  lemma RestStep(hs: seq<Script>, i: nat)
    requires i < |hs|
    ensures var b := Body(hs, i, hs[i], false, false);
            var after := if b.called then Ran([], true, b.aborted) else Rest(hs, i + 1, b.aborted);
            Rest(hs, i, false) == Ran([Start(i)] + b.log + [Finish(i)] + after.log, true, after.aborted)
  {}

  lemma RestDone(hs: seq<Script>, i: nat, aborted: bool)
    requires i <= |hs| && (i == |hs| || aborted)
    ensures Rest(hs, i, aborted) == Ran([], true, aborted)
  {}

  /** From handler `first` on the specification asks for what has been logged since `before` and what is
      left from `index` on. */
  ghost predicate Pends(hs: seq<Script>, before: Log, first: nat, was: bool, index: nat, log: Log, aborted: bool)
    requires first <= |hs|
  {
    var whole := Rest(hs, first, was);
    var rest := Rest(hs, if index <= |hs| then index else |hs|, aborted);
    before + whole.log == log + rest.log && whole.aborted == rest.aborted
  }

  lemma PendsStart(hs: seq<Script>, before: Log, first: nat, was: bool)
    requires first <= |hs|
    ensures Pends(hs, before, first, was, first, before, was)
  {}

  /** One handler has run, and the chain behind it too if it called Next. */
  lemma PendsStep(hs: seq<Script>, before: Log, first: nat, was: bool, i: nat, log: Log,
                  next: nat, log': Log, aborted: bool)
    requires first <= |hs| && i < |hs| && Pends(hs, before, first, was, i, log, false)
    requires next >= i && (next > i ==> aborted || next >= |hs|)
    requires var b := Body(hs, i, hs[i], false, false);
             log' == log + [Start(i)] + b.log + [Finish(i)] && aborted == b.aborted && b.called == (next > i)
    ensures Pends(hs, before, first, was, next + 1, log', aborted)
  {
    hide Rest, Body;
    RestStep(hs, i);
    if next > i {
      RestDone(hs, if next + 1 <= |hs| then next + 1 else |hs|, aborted);
    }
    var b := Body(hs, i, hs[i], false, false);
    var after := if b.called then Ran([], true, b.aborted) else Rest(hs, i + 1, b.aborted);
    LogsJoin(log, [Start(i)], b.log, [Finish(i)], after.log);
  }

  lemma LogsJoin(a: Log, b: Log, c: Log, d: Log, e: Log)
    ensures a + (b + c + d + e) == a + b + c + d + e
  {}

  lemma PendsEnd(hs: seq<Script>, before: Log, first: nat, was: bool, index: nat, log: Log, aborted: bool)
    requires first <= |hs| && Pends(hs, before, first, was, index, log, aborted) && (index >= |hs| || aborted)
    ensures var r := Rest(hs, first, was); log == before + r.log && aborted == r.aborted
  {
    RestDone(hs, if index <= |hs| then index else |hs|, aborted);
  }

  // ---- the machine --------------------------------------------------------------------------

  /** The fields of a context that the chain does not use; writers, requests, values and networks are known by
      number. */
  datatype Carried = Carried(
    writer: Option<nat>, request: Option<nat>, params: seq<(string, string)>, values: map<string, nat>,
    route: string, group: string, trusted: seq<nat>, status: int, wrote: bool, maxBody: int)

  class Context {
    var handlers: seq<Script>
    var index: int
    var aborted: bool
    ghost var log: Log

    var carried: Carried

    /** Nothing of an earlier request: what a context just made for this writer and request is. */
    ghost predicate New(w: Option<nat>, r: Option<nat>)
      reads this
    {
      && carried.writer == w && carried.request == r && carried.params == [] && carried.values == map[]
      && carried.route == "" && carried.group == "" && carried.trusted == []
      && carried.status == 0 && !carried.wrote && carried.maxBody == 0
      && handlers == [] && index == -1 && !aborted && log == []
    }

    constructor (w: Option<nat>, r: Option<nat>)
      ensures New(w, r)
    {
      carried := Carried(w, r, [], map[], "", "", [], 0, false, 0);
      handlers, index, aborted, log := [], -1, false, [];
    }

    /** Reset of a pooled context; whatever it held is gone. */
    method Reset()
      modifies this
      ensures New(None, None)
    {
      carried := carried.(writer := None, request := None, params := [], values := map[], route := "", group := "",
                          trusted := [], status := 0, wrote := false, maxBody := 0);
      handlers, index, aborted, log := [], -1, false, [];
    }

    /** A context from the pool cannot be told from a new one. */
    method Acquire(w: nat, r: nat)
      modifies this
      ensures New(Some(w), Some(r))
      ensures carried == Carried(Some(w), Some(r), [], map[], "", "", [], 0, false, 0) && !aborted && index == -1
    {
      Reset();
      carried := carried.(writer := Some(w), request := Some(r));
    }

    method SetHandlers(hs: seq<Script>)
      modifies `handlers
      ensures handlers == hs
    {
      handlers := hs;
    }

    method Abort()
      modifies `aborted
      ensures aborted
    {
      aborted := true;
    }

    ghost function Left(): nat
      reads this
    {
      if index < |handlers| then |handlers| - index else 0
    }

    /** Runs the chain from the start. */
    method Run()
      modifies `index, `aborted, `log
      ensures var r := Rest(handlers, 0, old(aborted)); log == old(log) + r.log && aborted == r.aborted
    {
      index := -1;
      Next();
    }

    /** What the router does with a pooled context: bind it to the request, give it the chain, run it. */
    method Serve(w: nat, r: nat, hs: seq<Script>)
      modifies this
      ensures var run := Rest(hs, 0, false); log == run.log && aborted == run.aborted
    {
      Acquire(w, r);
      SetHandlers(hs);
      Run();
    }

    /** Continues the chain behind the current handler. Afterwards everything behind it has run, or the
        chain is aborted. */
    method Next()
      requires -1 <= index
      modifies `index, `aborted, `log
      ensures index > old(index) && (aborted || index >= |handlers|)
      ensures old(index) + 1 <= |handlers| ==>
                var r := Rest(handlers, old(index) + 1, old(aborted));
                log == old(log) + r.log && aborted == r.aborted
      ensures old(index) + 1 > |handlers| ==> log == old(log) && aborted == old(aborted)
      decreases Left(), 0, Return
    {
      hide Rest, Body, Pends;
      index := index + 1;
      ghost var first := index;
      if first <= |handlers| { PendsStart(handlers, log, first, aborted); }
      while index < |handlers| && !aborted
        invariant first <= index
        invariant first <= |handlers| ==> Pends(handlers, old(log), first, old(aborted), index, log, aborted)
        invariant first > |handlers| ==> log == old(log) && aborted == old(aborted)
        decreases |handlers| - index
      {
        ghost var i, logged := index, log;
        Call(index);
        PendsStep(handlers, old(log), first, old(aborted), i, logged, index, log, aborted);
        index := index + 1;
      }
      if first <= |handlers| { PendsEnd(handlers, old(log), first, old(aborted), index, log, aborted); }
    }

    /** handlers[i](c), with its start and end noted. */
    method Call(i: nat)
      requires i == index < |handlers| && !aborted
      modifies `index, `aborted, `log
      ensures index >= i && (index > i ==> aborted || index >= |handlers|)
      ensures var b := Body(handlers, i, handlers[i], false, false);
              && log == old(log) + [Start(i)] + b.log + [Finish(i)]
              && aborted == b.aborted
              && b.called == (index > i)
      decreases Left(), 2, Return
    {
      log := log + [Start(i)];
      Exec(i, handlers[i]);
      log := log + [Finish(i)];
    }

    /** Executes a script on behalf of handler i. */
    method Exec(i: nat, s: Script)
      requires i <= index && i < |handlers|
      requires index > i ==> aborted || index >= |handlers|
      modifies `index, `aborted, `log
      ensures index >= i && (index > i ==> aborted || index >= |handlers|)
      ensures var b := Body(handlers, i, s, old(index) > i, old(aborted));
              log == old(log) + b.log && aborted == b.aborted && b.called == (index > i)
      decreases Left(), 1, s
    {
      match s
      case Return =>
      case Effect(tag, rest) =>
        log := log + [Did(i, tag)];
        Exec(i, rest);
      case CallAbort(rest) =>
        log := log + [Aborted(i)];
        Abort();
        Exec(i, rest);
      case IfAborted(yes, no) =>
        if aborted { Exec(i, yes); } else { Exec(i, no); }
      case CallNext(rest) =>
        Next();
        Exec(i, rest);
    }
  }

  // ---- what a run looks like ----------------------------------------------------------------

  /** The handlers started, in order. */
  function Starts(log: Log): seq<nat> {
    if log == [] then []
    else (if log[0].Start? then [log[0].i] else []) + Starts(log[1..])
  }

  lemma {:induction false} StartsConcat(a: Log, b: Log)
    ensures Starts(a + b) == Starts(a) + Starts(b)
  {
    if a == [] {
      assert a + b == b;
    } else {
      assert (a + b)[1..] == a[1..] + b && (a + b)[0] == a[0];
      StartsConcat(a[1..], b);
      var head := if a[0].Start? then [a[0].i] else [];
      assert head + (Starts(a[1..]) + Starts(b)) == (head + Starts(a[1..])) + Starts(b);
    }
  }

  /** from, from + 1, ..., up to but not including `to`. */
  function Range(from: nat, to: nat): (r: seq<nat>)
    requires from <= to
    ensures |r| == to - from
  {
    seq(to - from, k requires 0 <= k < to - from => from + k)
  }

  lemma RangeJoins(a: nat, b: nat, c: nat)
    requires a <= b <= c
    ensures Range(a, b) + Range(b, c) == Range(a, c)
  {}

  /** One end of the started range for the rest of the chain, the other for a handler's body. */
  ghost predicate StartsUpTo(log: Log, from: nat, n: nat, all: bool) {
    var m := |Starts(log)|;
    from + m <= n && Starts(log) == Range(from, from + m) && (all ==> from + m == n)
  }

  lemma {:induction false} RestStarts(hs: seq<Script>, i: nat, aborted: bool)
    requires i <= |hs|
    ensures var r := Rest(hs, i, aborted); StartsUpTo(r.log, i, |hs|, !r.aborted)
    decreases |hs| - i, 0, Return
  {
    if i < |hs| && !aborted {
      var b := Body(hs, i, hs[i], false, false);
      BodyStarts(hs, i, hs[i], false, false);
      var after := if b.called then Ran([], true, b.aborted) else Rest(hs, i + 1, b.aborted);
      if !b.called { RestStarts(hs, i + 1, b.aborted); }
      StartsAround(i, b.log, after.log);
      var m, k := |Starts(b.log)|, |Starts(after.log)|;
      RangeJoins(i, i + 1, i + 1 + m);
      if !b.called { RangeJoins(i, i + 1, i + 1 + k); }
      assert Range(i, i + 1) == [i];
    }
  }

  lemma StartsAround(i: nat, inner: Log, after: Log)
    ensures Starts([Start(i)] + inner + [Finish(i)] + after) == [i] + Starts(inner) + Starts(after)
  {
    StartsConcat([Start(i)] + inner + [Finish(i)], after);
    StartsConcat([Start(i)] + inner, [Finish(i)]);
    StartsConcat([Start(i)], inner);
    assert Starts([Start(i)]) == [i] && Starts([Finish(i)]) == [];
  }

  /** A body starts a range of later handlers, if it calls Next for the first time, and none otherwise. */
  lemma {:induction false} BodyStarts(hs: seq<Script>, i: nat, s: Script, called: bool, aborted: bool)
    requires i < |hs|
    ensures var b := Body(hs, i, s, called, aborted);
            && StartsUpTo(b.log, i + 1, |hs|, !called && b.called && !b.aborted)
            && (called || !b.called ==> Starts(b.log) == [])
            && (called ==> b.called)
    decreases |hs| - i - 1, 1, s
  {
    match s
    case Return =>
    case Effect(tag, rest) =>
      BodyStarts(hs, i, rest, called, aborted);
    case CallAbort(rest) =>
      BodyStarts(hs, i, rest, called, true);
    case IfAborted(yes, no) =>
      BodyStarts(hs, i, if aborted then yes else no, called, aborted);
    case CallNext(rest) =>
      if called {
        BodyStarts(hs, i, rest, true, aborted);
      } else {
        var n := Rest(hs, i + 1, aborted);
        RestStarts(hs, i + 1, aborted);
        BodyStarts(hs, i, rest, true, n.aborted);
        BodyKeepsAbort(hs, i, rest, true, n.aborted);
        StartsConcat(n.log, Body(hs, i, rest, true, n.aborted).log);
      }
  }

  ghost predicate NoAbortIn(log: Log) {
    forall e | e in log :: !e.Aborted?
  }

  /** The flag is raised exactly by an abort in the log, and never lowered. */
  lemma {:induction false} RestKeepsAbort(hs: seq<Script>, i: nat, aborted: bool)
    requires i <= |hs|
    ensures var r := Rest(hs, i, aborted); r.aborted <==> aborted || !NoAbortIn(r.log)
    decreases |hs| - i, 0, Return
  {
    if i < |hs| && !aborted {
      var b := Body(hs, i, hs[i], false, false);
      BodyKeepsAbort(hs, i, hs[i], false, false);
      if !b.called { RestKeepsAbort(hs, i + 1, b.aborted); }
    }
  }

  lemma {:induction false} BodyKeepsAbort(hs: seq<Script>, i: nat, s: Script, called: bool, aborted: bool)
    requires i < |hs|
    ensures var b := Body(hs, i, s, called, aborted); b.aborted <==> aborted || !NoAbortIn(b.log)
    decreases |hs| - i - 1, 1, s
  {
    match s
    case Return =>
    case Effect(tag, rest) =>
      BodyKeepsAbort(hs, i, rest, called, aborted);
    case CallAbort(rest) =>
      BodyKeepsAbort(hs, i, rest, called, true);
      var log := Body(hs, i, s, called, aborted).log;
      assert log[0] == Aborted(i) && log[0] in log;
    case IfAborted(yes, no) =>
      BodyKeepsAbort(hs, i, if aborted then yes else no, called, aborted);
    case CallNext(rest) =>
      if called {
        BodyKeepsAbort(hs, i, rest, true, aborted);
      } else {
        var n := Rest(hs, i + 1, aborted);
        RestKeepsAbort(hs, i + 1, aborted);
        BodyKeepsAbort(hs, i, rest, true, n.aborted);
      }
  }

  ghost predicate NoStartIn(log: Log) {
    forall e | e in log :: !e.Start?
  }

  /** Nothing starts after an abort. */
  ghost predicate NoStartAfterAbort(log: Log) {
    forall j, k | 0 <= j < k < |log| && log[j].Aborted? :: !log[k].Start?
  }

  lemma QuietConcat(a: Log, b: Log)
    requires NoStartAfterAbort(a) && NoStartAfterAbort(b) && (NoAbortIn(a) || NoStartIn(b))
    ensures NoStartAfterAbort(a + b)
  {
    forall j, k | 0 <= j < k < |a + b| && (a + b)[j].Aborted? ensures !(a + b)[k].Start? {
      if j < |a| <= k { assert a[j] in a && b[k - |a|] in b; }
    }
  }

  lemma {:induction false} RestQuiet(hs: seq<Script>, i: nat, aborted: bool)
    requires i <= |hs|
    ensures var r := Rest(hs, i, aborted); NoStartAfterAbort(r.log) && (aborted ==> NoStartIn(r.log))
    decreases |hs| - i, 0, Return
  {
    if i < |hs| && !aborted {
      var b := Body(hs, i, hs[i], false, false);
      BodyQuiet(hs, i, hs[i], false, false);
      BodyKeepsAbort(hs, i, hs[i], false, false);
      var after := if b.called then Ran([], true, b.aborted) else Rest(hs, i + 1, b.aborted);
      if !b.called { RestQuiet(hs, i + 1, b.aborted); }
      QuietConcat([Start(i)], b.log);
      QuietConcat([Start(i)] + b.log, [Finish(i)]);
      assert b.aborted || NoAbortIn([Start(i)] + b.log + [Finish(i)]);
      QuietConcat([Start(i)] + b.log + [Finish(i)], after.log);
    }
  }

  lemma {:induction false} BodyQuiet(hs: seq<Script>, i: nat, s: Script, called: bool, aborted: bool)
    requires i < |hs|
    ensures var b := Body(hs, i, s, called, aborted);
            NoStartAfterAbort(b.log) && (aborted || called ==> NoStartIn(b.log))
    decreases |hs| - i - 1, 1, s
  {
    match s
    case Return =>
    case Effect(tag, rest) =>
      BodyQuiet(hs, i, rest, called, aborted);
      QuietConcat([Did(i, tag)], Body(hs, i, rest, called, aborted).log);
    case CallAbort(rest) =>
      BodyQuiet(hs, i, rest, called, true);
      QuietConcat([Aborted(i)], Body(hs, i, rest, called, true).log);
    case IfAborted(yes, no) =>
      BodyQuiet(hs, i, if aborted then yes else no, called, aborted);
    case CallNext(rest) =>
      if called {
        BodyQuiet(hs, i, rest, true, aborted);
      } else {
        var n := Rest(hs, i + 1, aborted);
        RestQuiet(hs, i + 1, aborted);
        BodyQuiet(hs, i, rest, true, n.aborted);
        QuietConcat(n.log, Body(hs, i, rest, true, n.aborted).log);
      }
  }

  // ---- nesting ------------------------------------------------------------------------------

  /** Replays the events on a stack of running handlers: a start pushes, a finish pops its own start,
      and everything else is done by the handler on top. None when the events are not nested. */
  datatype Stack = Broken | Running(handlers: seq<nat>)

  function Replay(log: Log, st: seq<nat>): Stack {
    if log == [] then Running(st)
    else
      match log[0]
      case Start(i) => Replay(log[1..], st + [i])
      case Finish(i) =>
        if st != [] && st[|st| - 1] == i then Replay(log[1..], st[..|st| - 1]) else Broken
      case Did(i, _) =>
        if st != [] && st[|st| - 1] == i then Replay(log[1..], st) else Broken
      case Aborted(i) =>
        if st != [] && st[|st| - 1] == i then Replay(log[1..], st) else Broken
  }

  lemma {:induction false} ReplayConcat(a: Log, b: Log, st: seq<nat>)
    ensures Replay(a + b, st) == match Replay(a, st) case Broken => Broken case Running(mid) => Replay(b, mid)
    decreases |a|
  {
    if a == [] {
      assert a + b == b;
    } else {
      assert (a + b)[1..] == a[1..] + b;
      match a[0]
      case Start(i) => ReplayConcat(a[1..], b, st + [i]);
      case Finish(i) => if st != [] { ReplayConcat(a[1..], b, st[..|st| - 1]); }
      case Did(i, _) => ReplayConcat(a[1..], b, st);
      case Aborted(i) => ReplayConcat(a[1..], b, st);
    }
  }

  lemma {:induction false} RestNested(hs: seq<Script>, i: nat, aborted: bool, st: seq<nat>)
    requires i <= |hs|
    ensures Replay(Rest(hs, i, aborted).log, st) == Running(st)
    decreases |hs| - i, 0, Return
  {
    if i < |hs| && !aborted {
      var b := Body(hs, i, hs[i], false, false);
      BodyNested(hs, i, hs[i], false, false, st);
      var after := if b.called then Ran([], true, b.aborted) else Rest(hs, i + 1, b.aborted);
      if !b.called { RestNested(hs, i + 1, b.aborted, st); }
      CallNested(i, b.log, st);
      ReplayConcat([Start(i)] + b.log + [Finish(i)], after.log, st);
    }
  }

  lemma CallNested(i: nat, inner: Log, st: seq<nat>)
    requires Replay(inner, st + [i]) == Running(st + [i])
    ensures Replay([Start(i)] + inner + [Finish(i)], st) == Running(st)
  {
    ReplayConcat([Start(i)] + inner, [Finish(i)], st);
    ReplayConcat([Start(i)], inner, st);
    assert (st + [i])[..|st|] == st;
    assert Replay([Start(i)], st) == Running(st + [i]);
    assert Replay([Finish(i)], st + [i]) == Running(st);
  }

  lemma {:induction false} BodyNested(hs: seq<Script>, i: nat, s: Script, called: bool, aborted: bool, st: seq<nat>)
    requires i < |hs|
    ensures Replay(Body(hs, i, s, called, aborted).log, st + [i]) == Running(st + [i])
    decreases |hs| - i - 1, 1, s
  {
    var top := st + [i];
    match s
    case Return =>
    case Effect(tag, rest) =>
      BodyNested(hs, i, rest, called, aborted, st);
      ReplayConcat([Did(i, tag)], Body(hs, i, rest, called, aborted).log, top);
      assert Replay([Did(i, tag)], top) == Running(top);
    case CallAbort(rest) =>
      BodyNested(hs, i, rest, called, true, st);
      ReplayConcat([Aborted(i)], Body(hs, i, rest, called, true).log, top);
      assert Replay([Aborted(i)], top) == Running(top);
    case IfAborted(yes, no) =>
      BodyNested(hs, i, if aborted then yes else no, called, aborted, st);
    case CallNext(rest) =>
      if called {
        BodyNested(hs, i, rest, true, aborted, st);
      } else {
        var n := Rest(hs, i + 1, aborted);
        RestNested(hs, i + 1, aborted, top);
        BodyNested(hs, i, rest, true, n.aborted, st);
        ReplayConcat(n.log, Body(hs, i, rest, true, n.aborted).log, top);
      }
  }

  // ---- each handler's script is carried out -------------------------------------------------

  /** The steps of a script, read alone, up to its first Next; `aborted` is the flag it starts under. */
  function Before(s: Script, i: nat, aborted: bool): Log {
    match s
    case Return => []
    case Effect(tag, rest) => [Did(i, tag)] + Before(rest, i, aborted)
    case CallAbort(rest) => [Aborted(i)] + Before(rest, i, true)
    case IfAborted(yes, no) => Before(if aborted then yes else no, i, aborted)
    case CallNext(_) => []
  }

  /** The steps behind the first Next, during which somebody aborted or not. */
  function Behind(s: Script, i: nat, aborted: bool, late: bool): Log {
    match s
    case Return => []
    case Effect(_, rest) => Behind(rest, i, aborted, late)
    case CallAbort(rest) => Behind(rest, i, true, late)
    case IfAborted(yes, no) => Behind(if aborted then yes else no, i, aborted, late)
    case CallNext(rest) => Steps(rest, i, aborted || late)
  }

  /** All steps of a script whose calls of Next find nothing left to run. */
  function Steps(s: Script, i: nat, aborted: bool): Log {
    match s
    case Return => []
    case Effect(tag, rest) => [Did(i, tag)] + Steps(rest, i, aborted)
    case CallAbort(rest) => [Aborted(i)] + Steps(rest, i, true)
    case IfAborted(yes, no) => Steps(if aborted then yes else no, i, aborted)
    case CallNext(rest) => Steps(rest, i, aborted)
  }

  predicate ReachesNext(s: Script, aborted: bool) {
    match s
    case Return => false
    case Effect(_, rest) => ReachesNext(rest, aborted)
    case CallAbort(rest) => ReachesNext(rest, true)
    case IfAborted(yes, no) => ReachesNext(if aborted then yes else no, aborted)
    case CallNext(_) => true
  }

  /** Steps of handler i, and no starts or ends. */
  ghost predicate StepsOf(log: Log, i: nat) {
    forall e | e in log :: e == Aborted(i) || (e.Did? && e.i == i)
  }

  ghost predicate NoneOf(log: Log, i: nat) {
    forall e | e in log :: e.i != i
  }

  ghost predicate AllLater(log: Log, i: nat) {
    forall e | e in log :: e.i > i
  }

  /** The steps of handler i in a log. */
  function Own(log: Log, i: nat): Log {
    if log == [] then []
    else (if (log[0].Did? || log[0].Aborted?) && log[0].i == i then [log[0]] else []) + Own(log[1..], i)
  }

  lemma {:induction false} StepsAreOwn(s: Script, i: nat, aborted: bool)
    ensures StepsOf(Steps(s, i, aborted), i)
  {
    match s
    case Return =>
    case Effect(_, rest) => StepsAreOwn(rest, i, aborted);
    case CallAbort(rest) => StepsAreOwn(rest, i, true);
    case IfAborted(yes, no) => StepsAreOwn(if aborted then yes else no, i, aborted);
    case CallNext(rest) => StepsAreOwn(rest, i, aborted);
  }

  lemma {:induction false} PartsAreOwn(s: Script, i: nat, aborted: bool, late: bool)
    ensures StepsOf(Before(s, i, aborted), i) && StepsOf(Behind(s, i, aborted, late), i)
    ensures !ReachesNext(s, aborted) ==> Behind(s, i, aborted, late) == []
  {
    match s
    case Return =>
    case Effect(_, rest) => PartsAreOwn(rest, i, aborted, late);
    case CallAbort(rest) => PartsAreOwn(rest, i, true, late);
    case IfAborted(yes, no) => PartsAreOwn(if aborted then yes else no, i, aborted, late);
    case CallNext(rest) => StepsAreOwn(rest, i, aborted || late);
  }

  lemma {:induction false} CalledBodyIs(hs: seq<Script>, i: nat, s: Script, aborted: bool)
    requires i < |hs|
    ensures Body(hs, i, s, true, aborted).log == Steps(s, i, aborted) && Body(hs, i, s, true, aborted).called
    decreases s
  {
    match s
    case Return =>
    case Effect(_, rest) => CalledBodyIs(hs, i, rest, aborted);
    case CallAbort(rest) => CalledBodyIs(hs, i, rest, true);
    case IfAborted(yes, no) => CalledBodyIs(hs, i, if aborted then yes else no, aborted);
    case CallNext(rest) => CalledBodyIs(hs, i, rest, aborted);
  }

  /** The flag a script's first Next, or its end, finds. */
  predicate FlagAt(s: Script, aborted: bool) {
    match s
    case Return => aborted
    case Effect(_, rest) => FlagAt(rest, aborted)
    case CallAbort(rest) => FlagAt(rest, true)
    case IfAborted(yes, no) => FlagAt(if aborted then yes else no, aborted)
    case CallNext(_) => aborted
  }

  lemma {:induction false} FlagIs(s: Script, i: nat, aborted: bool)
    ensures FlagAt(s, aborted) <==> aborted || !NoAbortIn(Before(s, i, aborted))
  {
    match s
    case Return =>
    case Effect(tag, rest) =>
      FlagIs(rest, i, aborted);
      assert Before(s, i, aborted) == [Did(i, tag)] + Before(rest, i, aborted);
    case CallAbort(rest) =>
      FlagIs(rest, i, true);
      assert Before(s, i, aborted)[0] == Aborted(i);
    case IfAborted(yes, no) =>
      FlagIs(if aborted then yes else no, i, aborted);
    case CallNext(rest) =>
  }

  /** What a script's first Next runs. */
  function Inside(hs: seq<Script>, i: nat, s: Script, aborted: bool): Log
    requires i < |hs|
  {
    if ReachesNext(s, aborted) then Rest(hs, i + 1, FlagAt(s, aborted)).log else []
  }

  /** The body is its own steps before the first Next, what that Next runs, and its own steps behind. */
  ghost predicate Divides(hs: seq<Script>, i: nat, s: Script, aborted: bool)
    requires i < |hs|
  {
    var b, inner := Body(hs, i, s, false, aborted), Inside(hs, i, s, aborted);
    && b.called == ReachesNext(s, aborted)
    && b.log == Before(s, i, aborted) + inner + Behind(s, i, aborted, !NoAbortIn(inner))
  }

  /** The script takes one step, which may be silent, and goes on with `rest` under `flag`. */
  predicate StepsTo(i: nat, s: Script, aborted: bool, rest: Script, flag: bool, step: Log) {
    match s
    case Effect(tag, r) => rest == r && flag == aborted && step == [Did(i, tag)]
    case CallAbort(r) => rest == r && flag && step == [Aborted(i)]
    case IfAborted(yes, no) => rest == (if aborted then yes else no) && flag == aborted && step == []
    case _ => false
  }

  lemma BodySteps(hs: seq<Script>, i: nat, s: Script, aborted: bool, rest: Script, flag: bool, step: Log)
    requires i < |hs| && StepsTo(i, s, aborted, rest, flag, step)
    ensures var b, r := Body(hs, i, s, false, aborted), Body(hs, i, rest, false, flag);
            b.log == step + r.log && b.called == r.called
  {
    hide Rest;
    var r := Body(hs, i, rest, false, flag);
    assert [] + r.log == r.log;
  }

  lemma PartsStep(i: nat, s: Script, aborted: bool, rest: Script, flag: bool, step: Log, late: bool)
    requires StepsTo(i, s, aborted, rest, flag, step)
    ensures Before(s, i, aborted) == step + Before(rest, i, flag)
    ensures Behind(s, i, aborted, late) == Behind(rest, i, flag, late)
    ensures ReachesNext(s, aborted) == ReachesNext(rest, flag) && FlagAt(s, aborted) == FlagAt(rest, flag)
  {
    assert [] + Before(rest, i, flag) == Before(rest, i, flag);
  }

  lemma DividesStep(hs: seq<Script>, i: nat, s: Script, aborted: bool, rest: Script, flag: bool, step: Log)
    requires i < |hs| && Divides(hs, i, rest, flag) && StepsTo(i, s, aborted, rest, flag, step)
    ensures Divides(hs, i, s, aborted)
  {
    hide NoAbortIn, Rest, Body, Before, Behind, ReachesNext, FlagAt, StepsTo;
    var inner := Inside(hs, i, rest, flag);
    BodySteps(hs, i, s, aborted, rest, flag, step);
    PartsStep(i, s, aborted, rest, flag, step, !NoAbortIn(inner));
    LogsShift(step, Before(rest, i, flag), inner, Behind(rest, i, flag, !NoAbortIn(inner)));
  }

  lemma LogsShift(a: Log, b: Log, c: Log, d: Log)
    ensures a + (b + c + d) == (a + b) + c + d
  {}

  lemma DividesNext(hs: seq<Script>, i: nat, rest: Script, aborted: bool)
    requires i < |hs|
    ensures Divides(hs, i, CallNext(rest), aborted)
  {
    hide NoAbortIn, Rest, Steps;
    var n := Rest(hs, i + 1, aborted);
    RestKeepsAbort(hs, i + 1, aborted);
    CalledBodyIs(hs, i, rest, n.aborted);
    StepsFlag(i, rest, aborted, n);
    assert [] + n.log == n.log;
  }

  lemma StepsFlag(i: nat, rest: Script, aborted: bool, n: Ran)
    requires n.aborted <==> aborted || !NoAbortIn(n.log)
    ensures Behind(CallNext(rest), i, aborted, !NoAbortIn(n.log)) == Steps(rest, i, n.aborted)
  {}

  lemma {:induction false} BodyIs(hs: seq<Script>, i: nat, s: Script, aborted: bool)
    requires i < |hs|
    ensures Divides(hs, i, s, aborted)
    decreases s
  {
    hide Divides;
    match s
    case Return => DividesReturn(hs, i, aborted);
    case Effect(tag, rest) =>
      BodyIs(hs, i, rest, aborted);
      DividesStep(hs, i, s, aborted, rest, aborted, [Did(i, tag)]);
    case CallAbort(rest) =>
      BodyIs(hs, i, rest, true);
      DividesStep(hs, i, s, aborted, rest, true, [Aborted(i)]);
    case IfAborted(yes, no) =>
      BodyIs(hs, i, if aborted then yes else no, aborted);
      DividesStep(hs, i, s, aborted, if aborted then yes else no, aborted, []);
    case CallNext(rest) => DividesNext(hs, i, rest, aborted);
  }

  lemma DividesReturn(hs: seq<Script>, i: nat, aborted: bool)
    requires i < |hs|
    ensures Divides(hs, i, Return, aborted)
  {}

  /** One handler around, or before, the rest of the chain. */
  lemma OneLevel(hs: seq<Script>, j: nat) returns (u: Log, v: Log, flag: bool)
    requires j < |hs|
    ensures Rest(hs, j, false).log == u + Rest(hs, j + 1, flag).log + v && (flag <==> !NoAbortIn(u))
    ensures OnlyOf(u, j) && OnlyOf(v, j)
  {
    hide Body, Rest, Before, Behind, NoAbortIn, StepsOf, OnlyOf, ReachesNext, FlagAt;
    var before, inner := Before(hs[j], j, false), Inside(hs, j, hs[j], false);
    var behind := Behind(hs[j], j, false, !NoAbortIn(inner));
    flag := FlagAt(hs[j], false);
    FlagIs(hs[j], j, false);
    BodyIs(hs, j, hs[j], false);
    PartsAreOwn(hs[j], j, false, !NoAbortIn(inner));
    RestStep(hs, j);
    NoAbortYet(hs, j);
    Framed(j, before);
    Framed(j, behind);
    LogsSplit(j, before, inner, behind);
    if ReachesNext(hs[j], false) {
      u, v := [Start(j)] + before, behind + [Finish(j)];
    } else {
      assert before + [] + [] == before;
      u, v := [Start(j)] + before + [Finish(j)], [];
    }
  }

  ghost predicate OnlyOf(log: Log, j: nat) {
    forall e | e in log :: e.i == j
  }

  lemma Framed(j: nat, steps: Log)
    requires StepsOf(steps, j)
    ensures OnlyOf([Start(j)] + steps, j) && OnlyOf([Start(j)] + steps + [Finish(j)], j)
    ensures OnlyOf(steps + [Finish(j)], j) && OnlyOf([], j)
    ensures NoAbortIn([Start(j)] + steps) == NoAbortIn(steps) == NoAbortIn([Start(j)] + steps + [Finish(j)])
  {
    assert forall e | e in steps :: e in [Start(j)] + steps && e in [Start(j)] + steps + [Finish(j)];
  }

  /** Without a Next the flag behind a body is what its steps make it. */
  lemma NoAbortYet(hs: seq<Script>, j: nat)
    requires j < |hs|
    ensures !ReachesNext(hs[j], false) ==>
              Body(hs, j, hs[j], false, false).aborted == FlagAt(hs[j], false)
  {
    hide Body, Before, Behind, NoAbortIn, FlagAt;
    BodyIs(hs, j, hs[j], false);
    BodyKeepsAbort(hs, j, hs[j], false, false);
    FlagIs(hs[j], j, false);
    var late := !NoAbortIn(Inside(hs, j, hs[j], false));
    PartsAreOwn(hs[j], j, false, late);
    var before := Before(hs[j], j, false);
    assert before + [] + [] == before;
  }

  lemma {:induction false} RestLater(hs: seq<Script>, j: nat, aborted: bool)
    requires j <= |hs|
    ensures forall e | e in Rest(hs, j, aborted).log :: e.i >= j
    decreases |hs| - j
  {
    if j == |hs| || aborted {
      RestDone(hs, j, aborted);
    } else {
      var u, v, flag := OneLevel(hs, j);
      RestLater(hs, j + 1, flag);
    }
  }

  /** In the log of a run that started handler i: what came before it, what its first Next ran, and what
      came after it. */
  ghost predicate CarriesOut(hs: seq<Script>, i: nat, log: Log, a: Log, inner: Log, c: Log)
    requires i < |hs|
  {
    var before := Before(hs[i], i, false);
    && log == a + ([Start(i)] + before + inner + Behind(hs[i], i, false, !NoAbortIn(inner)) + [Finish(i)]) + c
    && NoneOf(a, i) && NoAbortIn(a) && AllLater(inner, i) && NoneOf(c, i)
    && if ReachesNext(hs[i], false) && NoAbortIn(before) && i + 1 < |hs| then
         inner != [] && inner[0] == Start(i + 1) && (NoAbortIn(inner) ==> Starts(inner) == Range(i + 1, |hs|))
       else inner == []
  }

  lemma OneCarriedOut(hs: seq<Script>, i: nat) returns (inner: Log, c: Log)
    requires i < |hs|
    ensures CarriesOut(hs, i, Rest(hs, i, false).log, [], inner, c)
  {
    hide Body, Rest, Before, Behind, FlagAt, NoAbortIn, ReachesNext;
    var before, flag := Before(hs[i], i, false), FlagAt(hs[i], false);
    inner := Inside(hs, i, hs[i], false);
    var b := Body(hs, i, hs[i], false, false);
    FlagIs(hs[i], i, false);
    BodyIs(hs, i, hs[i], false);
    RestStep(hs, i);
    InnerRuns(hs, i + 1, flag);
    RestLater(hs, i + 1, b.aborted);
    RestLater(hs, i + 1, flag);
    EmptyLog(i);
    c := if b.called then [] else Rest(hs, i + 1, b.aborted).log;
    var mid := [Start(i)] + b.log + [Finish(i)];
    assert [] + mid == mid;
    LogsSplit(i, before, inner, Behind(hs[i], i, false, !NoAbortIn(inner)));
  }

  lemma EmptyLog(i: nat)
    ensures NoAbortIn([]) && NoneOf([], i)
  {}

  lemma LogsSplit(i: nat, before: Log, inner: Log, behind: Log)
    ensures [Start(i)] + (before + inner + behind) + [Finish(i)] ==
            [Start(i)] + before + inner + behind + [Finish(i)]
  {}

  lemma InnerRuns(hs: seq<Script>, j: nat, aborted: bool)
    requires j <= |hs|
    ensures var log := Rest(hs, j, aborted).log;
            if !aborted && j < |hs| then
              log != [] && log[0] == Start(j) && (NoAbortIn(log) ==> Starts(log) == Range(j, |hs|))
            else log == []
  {
    RestStarts(hs, j, aborted);
    RestKeepsAbort(hs, j, aborted);
  }

  lemma {:induction false} CarriedOutFrom(hs: seq<Script>, j: nat, i: nat) returns (a: Log, inner: Log, c: Log)
    requires j <= i < |hs|
    ensures var log := Rest(hs, j, false).log;
            if Start(i) in log then CarriesOut(hs, i, log, a, inner, c) else NoneOf(log, i)
    decreases i - j
  {
    hide Rest, CarriesOut, OnlyOf, NoneOf;
    if j == i {
      a := [];
      inner, c := OneCarriedOut(hs, i);
      OneStarts(hs, i);
    } else {
      var u, v, flag := OneLevel(hs, j);
      RestDone(hs, j + 1, true);
      a, inner, c := CarriedOutFrom(hs, j + 1, i);
      OthersOnly(u, j, i);
      OthersOnly(v, j, i);
      if !flag && Start(i) in Rest(hs, j + 1, false).log {
        Wider(hs, i, Rest(hs, j + 1, false).log, a, inner, c, u, v);
      }
      EmptyLog(i);
      NoneAround(u, Rest(hs, j + 1, flag).log, v, i);
      a, c := u + a, c + v;
    }
  }

  lemma OneStarts(hs: seq<Script>, i: nat)
    requires i < |hs|
    ensures Start(i) in Rest(hs, i, false).log
  {
    hide Body;
    RestStep(hs, i);
  }

  lemma OthersOnly(log: Log, j: nat, i: nat)
    requires OnlyOf(log, j) && j != i
    ensures NoneOf(log, i) && Start(i) !in log
  {}

  lemma NoneAround(u: Log, log: Log, v: Log, i: nat)
    requires NoneOf(u, i) && NoneOf(v, i)
    ensures NoneOf(log, i) ==> NoneOf(u + log + v, i)
  {}

  lemma Wider(hs: seq<Script>, i: nat, log: Log, a: Log, inner: Log, c: Log, u: Log, v: Log)
    requires i < |hs| && CarriesOut(hs, i, log, a, inner, c) && NoneOf(u, i) && NoneOf(v, i) && NoAbortIn(u)
    ensures CarriesOut(hs, i, u + log + v, u + a, inner, c + v)
  {
    hide Before, Behind, Starts, Range, ReachesNext;
    var mid := [Start(i)] + Before(hs[i], i, false) + inner + Behind(hs[i], i, false, !NoAbortIn(inner)) + [Finish(i)];
    assert u + (a + mid + c) + v == (u + a) + mid + (c + v);
  }

  /** Every handler's script is carried out to its end, in order and once, if the handler starts, and no step
      of it otherwise: its steps up to its first Next, then everything that Next runs, which is nothing of its
      own and all of the rest of the chain unless somebody aborts, then the steps behind. Whether a test of
      the flag finds an abort depends on the handler's own aborts before it and those that Next ran. */
  lemma ScriptCarriedOut(hs: seq<Script>, i: nat) returns (a: Log, inner: Log, c: Log)
    requires i < |hs|
    ensures var log := Rest(hs, 0, false).log;
            if Start(i) in log then
              && CarriesOut(hs, i, log, a, inner, c)
              && Own(log, i) == Before(hs[i], i, false) + Behind(hs[i], i, false, !NoAbortIn(inner))
            else NoneOf(log, i)
  {
    a, inner, c := CarriedOutFrom(hs, 0, i);
    var log := Rest(hs, 0, false).log;
    hide Rest, Before, Behind, Own;
    if Start(i) in log {
      var before, behind := Before(hs[i], i, false), Behind(hs[i], i, false, !NoAbortIn(inner));
      PartsAreOwn(hs[i], i, false, !NoAbortIn(inner));
      OwnAround(a, i, before, inner, behind, c);
    }
  }

  lemma {:induction false} OwnConcat(a: Log, b: Log, i: nat)
    ensures Own(a + b, i) == Own(a, i) + Own(b, i)
  {
    if a == [] {
      assert a + b == b;
    } else {
      assert (a + b)[1..] == a[1..] + b;
      OwnConcat(a[1..], b, i);
    }
  }

  lemma {:induction false} OwnAll(log: Log, i: nat)
    ensures StepsOf(log, i) ==> Own(log, i) == log
    ensures NoneOf(log, i) ==> Own(log, i) == []
  {
    if log != [] {
      assert log[0] in log && log == [log[0]] + log[1..];
      OwnAll(log[1..], i);
    }
  }

  lemma OwnAlone(i: nat)
    ensures Own([Start(i)], i) == [] && Own([Finish(i)], i) == []
  {
    assert [Start(i)][1..] == [] && [Finish(i)][1..] == [];
  }

  lemma OwnAround(a: Log, i: nat, before: Log, inner: Log, behind: Log, c: Log)
    requires NoneOf(a, i) && AllLater(inner, i) && NoneOf(c, i) && StepsOf(before, i) && StepsOf(behind, i)
    ensures Own(a + ([Start(i)] + before + inner + behind + [Finish(i)]) + c, i) == before + behind
  {
    var mid := [Start(i)] + before + inner + behind + [Finish(i)];
    OwnAlone(i);
    hide Own;
    OwnConcat(a + mid, c, i);
    OwnConcat(a, mid, i);
    OwnConcat([Start(i)] + before + inner + behind, [Finish(i)], i);
    OwnConcat([Start(i)] + before + inner, behind, i);
    OwnConcat([Start(i)] + before, inner, i);
    OwnConcat([Start(i)], before, i);
    OwnAll(a, i);
    OwnAll(before, i);
    OwnAll(inner, i);
    OwnAll(behind, i);
    OwnAll(c, i);
  }

  // ---- the theorem about Run ----------------------------------------------------------------

  /** For every list of handlers: a run starts handlers 0, 1, 2, ... in order, each once; it starts all
      of them unless somebody aborts; nothing starts after an abort; and all events are properly nested,
      each effect and abort belonging to the innermost running handler. */
  lemma RunTheorem(hs: seq<Script>)
    ensures var r := Rest(hs, 0, false);
            && Starts(r.log) == Range(0, |Starts(r.log)|) && |Starts(r.log)| <= |hs|
            && (NoAbortIn(r.log) ==> Starts(r.log) == Range(0, |hs|))
            && (r.aborted <==> !NoAbortIn(r.log))
            && NoStartAfterAbort(r.log)
            && Replay(r.log, []) == Running([])
  {
    RestStarts(hs, 0, false);
    RestKeepsAbort(hs, 0, false);
    RestQuiet(hs, 0, false);
    RestNested(hs, 0, false, []);
  }

  predicate NeverAborts(s: Script) {
    match s
    case Return => true
    case Effect(_, rest) => NeverAborts(rest)
    case CallNext(rest) => NeverAborts(rest)
    case CallAbort(_) => false
    case IfAborted(yes, no) => NeverAborts(yes) && NeverAborts(no)
  }

  lemma {:induction false} QuietRest(hs: seq<Script>, i: nat)
    requires i <= |hs| && forall s | s in hs :: NeverAborts(s)
    ensures !Rest(hs, i, false).aborted
    decreases |hs| - i, 0, Return
  {
    if i < |hs| {
      QuietBody(hs, i, hs[i], false);
      if !Body(hs, i, hs[i], false, false).called { QuietRest(hs, i + 1); }
    }
  }

  lemma {:induction false} QuietBody(hs: seq<Script>, i: nat, s: Script, called: bool)
    requires i < |hs| && NeverAborts(s) && forall s | s in hs :: NeverAborts(s)
    ensures !Body(hs, i, s, called, false).aborted
    decreases |hs| - i - 1, 1, s
  {
    match s
    case Return =>
    case Effect(_, rest) => QuietBody(hs, i, rest, called);
    case IfAborted(_, no) => QuietBody(hs, i, no, called);
    case CallNext(rest) =>
      if !called { QuietRest(hs, i + 1); }
      QuietBody(hs, i, rest, true);
  }

  /** When no handler can abort, every handler runs exactly once, whether or not handlers call Next. */
  lemma AllRun(hs: seq<Script>)
    requires forall s | s in hs :: NeverAborts(s)
    ensures Starts(Rest(hs, 0, false).log) == Range(0, |hs|)
  {
    QuietRest(hs, 0);
    RestStarts(hs, 0, false);
  }
}
