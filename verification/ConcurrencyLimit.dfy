/** The concurrency limiter: a compare-and-swap loop that takes a slot, and a deferred release. Loads, swaps
    and releases of any number of requests interleave in any way. */
module ConcurrencyLimit {

  /** Where a request is: before its load, between load and swap, in its handler, turned away, or finished. */
  datatype Phase = Start | Loaded(current: int) | Holding | Refused | Ended(panicked: bool)

  datatype State = State(active: int, rejected: nat, phases: seq<Phase>)

  /** Step runs the next atomic operation of an acquiring request, End the deferred release. */
  datatype Move = Arrive | Step(i: nat) | End(i: nat, panicked: bool)

  function Next(max: int, st: State, m: Move): State {
    match m
    case Arrive => st.(phases := st.phases + [Start])
    case End(i, panicked) =>
      if i < |st.phases| && st.phases[i] == Holding then
        st.(active := st.active - 1, phases := st.phases[i := Ended(panicked)])
      else st
    case Step(i) =>
      if i >= |st.phases| then st
      else
        match st.phases[i]
        case Start => st.(phases := st.phases[i := if max <= 0 then Holding else Loaded(st.active)])
        case Loaded(current) =>
          if current >= max then st.(rejected := st.rejected + 1, phases := st.phases[i := Refused])
          else if st.active == current then st.(active := current + 1, phases := st.phases[i := Holding])
          else st.(phases := st.phases[i := Start])
        case _ => st
  }

  /** The state after any schedule. */
  function Reached(max: int, moves: seq<Move>): State {
    if moves == [] then State(0, 0, []) else Next(max, Reached(max, moves[..|moves| - 1]), moves[|moves| - 1])
  }

  lemma ReachedSnoc(max: int, moves: seq<Move>, m: Move)
    ensures Reached(max, moves + [m]) == Next(max, Reached(max, moves), m)
  {
    assert (moves + [m])[..|moves|] == moves;
  }

  function Count(phases: seq<Phase>, p: Phase -> bool): nat {
    if phases == [] then 0
    else Count(phases[..|phases| - 1], p) + if p(phases[|phases| - 1]) then 1 else 0
  }

  function Holds(): Phase -> bool {
    (p: Phase) => p == Holding
  }

  function IsRefused(): Phase -> bool {
    (p: Phase) => p == Refused
  }

  function HasEnded(): Phase -> bool {
    (p: Phase) => p.Ended?
  }

  lemma OthersLeave(max: int, st: State, m: Move, i: nat)
    requires i < |st.phases| && m != Step(i) && !(m.End? && m.i == i)
    ensures i < |Next(max, st, m).phases| && Next(max, st, m).phases[i] == st.phases[i]
  {
  }

  // ---- the limiter --------------------------------------------------------------------------

  /** The limiter with the requests around it. `moves` records the atomic operations, for the proof only. */
  class Limiter {
    const max: int
    var active: int
    var rejected: nat
    var phases: seq<Phase>
    ghost var moves: seq<Move>

    constructor (max: int)
      ensures this.max == max && Valid() && moves == []
    {
      this.max, active, rejected, phases, moves := max, 0, 0, [], [];
    }

    function Now(): State
      reads this
    {
      State(active, rejected, phases)
    }

    ghost predicate Valid()
      reads this
    {
      Now() == Reached(max, moves)
    }

    /** What the other requests do between two operations of this one. */
    method Interfere(i: nat, ms: seq<Move>)
      requires Valid() && i < |phases| && forall m | m in ms :: m != Step(i) && !(m.End? && m.i == i)
      modifies this
      ensures Valid() && i < |phases| && phases[i] == old(phases[i]) && moves == old(moves) + ms
      ensures ms == [] ==> active == old(active)
    {
      hide Reached, Next;
      for k := 0 to |ms|
        invariant Valid() && i < |phases| && phases[i] == old(phases[i]) && moves == old(moves) + ms[..k]
        invariant ms == [] ==> active == old(active)
      {
        ReachedSnoc(max, moves, ms[k]);
        OthersLeave(max, Now(), ms[k], i);
        assert ms[k] in ms && ms[..k + 1] == ms[..k] + [ms[k]];
        var st := Next(max, Now(), ms[k]);
        active, rejected, phases := st.active, st.rejected, st.phases;
        moves := moves + [ms[k]];
      }
    }

    /** TryAcquire by request i: others[n] is what comes in the n-th gap between its operations, after a load
        and after a failed swap. */
    method TryAcquire(i: nat, others: seq<seq<Move>>) returns (ok: bool)
      requires Valid() && i < |phases| && phases[i] == Start
      requires forall ms, m | ms in others && m in ms :: m != Step(i) && !(m.End? && m.i == i)
      modifies this
      ensures Valid() && i < |phases| && phases[i] == (if ok then Holding else Refused)
      ensures old(moves) <= moves
    {
      hide Reached;
      if max <= 0 {
        ReachedSnoc(max, moves, Step(i));
        phases := phases[i := Holding];
        moves := moves + [Step(i)];
        return true;
      }
      var n := 0;
      while true
        invariant Valid() && i < |phases| && phases[i] == Start && old(moves) <= moves && n <= |others|
        decreases |others| - n
      {
        var current := active;
        ReachedSnoc(max, moves, Step(i));
        phases := phases[i := Loaded(current)];
        moves := moves + [Step(i)];
        if n < |others| {
          Interfere(i, others[n]);
          n := n + 1;
        }
        ReachedSnoc(max, moves, Step(i));
        if current >= max {
          rejected := rejected + 1;
          phases := phases[i := Refused];
          moves := moves + [Step(i)];
          return false;
        }
        moves := moves + [Step(i)];
        if active == current {
          active := current + 1;
          phases := phases[i := Holding];
          return true;
        }
        phases := phases[i := Start];
        if n < |others| {
          Interfere(i, others[n]);
          n := n + 1;
        }
      }
    }

    method Release(i: nat, panicked: bool)
      requires Valid() && i < |phases| && phases[i] == Holding
      modifies this
      ensures Valid() && active == old(active) - 1 && rejected == old(rejected)
      ensures phases == old(phases)[i := Ended(panicked)] && moves == old(moves) + [End(i, panicked)]
    {
      hide Reached;
      ReachedSnoc(max, moves, End(i, panicked));
      active := active - 1;
      phases := phases[i := Ended(panicked)];
      moves := moves + [End(i, panicked)];
    }
  }

  // ---- slots --------------------------------------------------------------------------------

  lemma CountSnoc(phases: seq<Phase>, x: Phase, p: Phase -> bool)
    ensures Count(phases + [x], p) == Count(phases, p) + if p(x) then 1 else 0
  {
    assert (phases + [x])[..|phases|] == phases;
  }

  lemma {:induction false} CountUpdate(phases: seq<Phase>, i: nat, x: Phase, p: Phase -> bool)
    requires i < |phases|
    ensures Count(phases[i := x], p) == Count(phases, p) - (if p(phases[i]) then 1 else 0) + (if p(x) then 1 else 0)
  {
    var n := |phases| - 1;
    if i == n {
      assert phases[i := x][..n] == phases[..n];
    } else {
      CountUpdate(phases[..n], i, x, p);
      assert phases[i := x][..n] == phases[..n][i := x];
    }
  }

  lemma {:induction false} CountNone(phases: seq<Phase>, p: Phase -> bool)
    requires forall x | x in phases :: !p(x)
    ensures Count(phases, p) == 0
  {
    if phases != [] {
      CountNone(phases[..|phases| - 1], p);
    }
  }

  /** How one move changes a count. */
  lemma CountNext(max: int, st: State, m: Move, p: Phase -> bool)
    ensures var st' := Next(max, st, m);
            Count(st'.phases, p) ==
            if m.Arrive? then Count(st.phases, p) + (if p(Start) then 1 else 0)
            else if m.i >= |st.phases| then Count(st.phases, p)
            else Count(st.phases, p) - (if p(st.phases[m.i]) then 1 else 0) + (if p(st'.phases[m.i]) then 1 else 0)
  {
    if m.Arrive? {
      CountSnoc(st.phases, Start, p);
    } else if m.i < |st.phases| {
      CountUpdate(st.phases, m.i, Next(max, st, m).phases[m.i], p);
      assert Next(max, st, m).phases == st.phases[m.i := Next(max, st, m).phases[m.i]];
    }
  }

  ghost predicate Inv(max: int, st: State) {
    && st.active == Count(st.phases, Holds()) <= max
    && st.rejected == Count(st.phases, IsRefused())
    && forall i | 0 <= i < |st.phases| && st.phases[i].Loaded? :: 0 <= st.phases[i].current <= max
  }

  lemma NextKeeps(max: int, st: State, m: Move)
    requires max > 0 && Inv(max, st)
    ensures Inv(max, Next(max, st, m))
  {
    hide Count;
    CountNext(max, st, m, Holds());
    CountNext(max, st, m, IsRefused());
  }

  /** With a positive limit, under every interleaving: the counter is the number of requests holding a slot,
      it stays within the limit, and every refused request was counted once. */
  lemma {:induction false} SlotsCounted(max: int, moves: seq<Move>)
    requires max > 0
    ensures var st := Reached(max, moves);
            && st.active == Count(st.phases, Holds())
            && 0 <= st.active <= max
            && st.rejected == Count(st.phases, IsRefused())
    ensures Inv(max, Reached(max, moves))
  {
    if moves != [] {
      SlotsCounted(max, moves[..|moves| - 1]);
      NextKeeps(max, Reached(max, moves[..|moves| - 1]), moves[|moves| - 1]);
    }
  }

  /** Once no request holds a slot, whether handlers returned or panicked, the counter is back at zero. */
  lemma FreeAtRest(max: int, moves: seq<Move>)
    requires max > 0 && forall p | p in Reached(max, moves).phases :: p.Refused? || p.Ended?
    ensures Reached(max, moves).active == 0
  {
    SlotsCounted(max, moves);
    CountNone(Reached(max, moves).phases, Holds());
  }

  // ---- without a limit ----------------------------------------------------------------------

  ghost predicate Drifted(st: State) {
    && st.active + Count(st.phases, HasEnded()) == 0
    && st.rejected == 0
    && forall p | p in st.phases :: p.Start? || p.Holding? || p.Ended?
  }

  /** Without a limit nothing is counted on the way in, but every release still counts down. */
  lemma {:induction false} UnlimitedDrifts(max: int, moves: seq<Move>)
    requires max <= 0
    ensures Drifted(Reached(max, moves))
  {
    if moves != [] {
      UnlimitedDrifts(max, moves[..|moves| - 1]);
      DriftNext(max, Reached(max, moves[..|moves| - 1]), moves[|moves| - 1]);
    }
  }

  lemma DriftNext(max: int, st: State, m: Move)
    requires max <= 0 && Drifted(st)
    ensures Drifted(Next(max, st, m))
  {
    CountNext(max, st, m, HasEnded());
    if !m.Arrive? && m.i < |st.phases| {
      assert st.phases[m.i] in st.phases;
    }
  }

  ghost predicate NeverNegative(max: int) {
    forall moves :: Reached(max, moves).active >= 0
  }

  /** The counter is what it says, a number of requests, exactly when there is a limit. */
  lemma CounterSoundIff(max: int)
    ensures NeverNegative(max) <==> max > 0
  {
    hide Reached;
    if max > 0 {
      forall moves ensures Reached(max, moves).active >= 0 {
        SlotsCounted(max, moves);
      }
    } else {
      OneRequestDrifts(max);
      assert Reached(max, [Arrive, Step(0), End(0, false)]).active < 0;
    }
  }

  lemma ReachedStart(max: int)
    ensures Reached(max, []) == State(0, 0, [])
  {
  }

  lemma OneRequestDrifts(max: int)
    requires max <= 0
    ensures Reached(max, [Arrive, Step(0), End(0, false)]).active == -1
  {
    hide Reached;
    ReachedStart(max);
    ReachedSnoc(max, [], Arrive);
    assert [] + [Arrive] == [Arrive];
    ReachedSnoc(max, [Arrive], Step(0));
    assert [Arrive] + [Step(0)] == [Arrive, Step(0)];
    ReachedSnoc(max, [Arrive, Step(0)], End(0, false));
    assert [Arrive, Step(0)] + [End(0, false)] == [Arrive, Step(0), End(0, false)];
  }

  // ---- what a refusal and a failed swap mean ------------------------------------------------

  /** Request i loaded the counter at move k, when it read `value`, and has done nothing since. */
  ghost predicate LoadedAt(max: int, moves: seq<Move>, i: nat, k: nat, value: int) {
    && k < |moves| && moves[k] == Step(i)
    && Reached(max, moves[..k]).active == value
    && i < |Reached(max, moves[..k]).phases| && Reached(max, moves[..k]).phases[i] == Start
    && forall j | k < j < |moves| :: moves[j] != Step(i)
  }

  lemma {:induction false} LoadFound(max: int, moves: seq<Move>, i: nat) returns (k: nat)
    requires max > 0 && i < |Reached(max, moves).phases| && Reached(max, moves).phases[i].Loaded?
    ensures LoadedAt(max, moves, i, k, Reached(max, moves).phases[i].current)
  {
    var n := |moves| - 1;
    var st := Reached(max, moves[..n]);
    if moves[n] == Step(i) {
      k := n;
    } else {
      k := LoadFound(max, moves[..n], i);
      assert moves[..n][..k] == moves[..k];
      assert forall j | k < j < n :: moves[..n][j] == moves[j];
    }
  }

  lemma ReachedLast(max: int, moves: seq<Move>)
    ensures Reached(max, moves) ==
            if moves == [] then State(0, 0, []) else Next(max, Reached(max, moves[..|moves| - 1]), moves[|moves| - 1])
  {
  }

  lemma RefusedNow(max: int, st: State, m: Move, i: nat)
    requires i < |Next(max, st, m).phases| && Next(max, st, m).phases[i] == Refused
    ensures i < |st.phases|
    ensures st.phases[i] == Refused || (m == Step(i) && st.phases[i].Loaded? && st.phases[i].current >= max)
  {
  }

  /** A refused request read a full limiter: at its load as many requests held a slot as the limit allows. */
  lemma {:induction false} RefusedWhenFull(max: int, moves: seq<Move>, i: nat) returns (k: nat)
    requires max > 0 && i < |Reached(max, moves).phases| && Reached(max, moves).phases[i] == Refused
    ensures k < |moves| && moves[k] == Step(i)
    ensures i < |Reached(max, moves[..k]).phases| && Reached(max, moves[..k]).phases[i] == Start
    ensures Count(Reached(max, moves[..k]).phases, Holds()) == max
  {
    hide Reached, Next, Count, Holds;
    ReachedLast(max, moves);
    var n := |moves| - 1;
    var st := Reached(max, moves[..n]);
    RefusedNow(max, st, moves[n], i);
    if i < |st.phases| && st.phases[i] == Refused {
      k := RefusedWhenFull(max, moves[..n], i);
      assert moves[..n][..k] == moves[..k];
    } else {
      k := LoadFound(max, moves[..n], i);
      SlotsCounted(max, moves[..n]);
      assert moves[..n][..k] == moves[..k];
      SlotsCounted(max, moves[..k]);
    }
  }

  /** Somewhere between two moments at which the counter differs, a move changes it. */
  lemma {:induction false} ChangeFound(max: int, moves: seq<Move>, from: nat) returns (j: nat)
    requires from <= |moves| && Reached(max, moves[..from]).active != Reached(max, moves).active
    ensures from <= j < |moves|
    ensures Reached(max, moves[..j]).active != Reached(max, moves[..j + 1]).active
    decreases |moves|
  {
    hide Reached;
    assert moves[..|moves|] == moves;
    var n := |moves| - 1;
    if Reached(max, moves[..n]).active != Reached(max, moves).active {
      j := n;
    } else {
      assert moves[..n][..from] == moves[..from];
      j := ChangeFound(max, moves[..n], from);
      assert moves[..n][..j] == moves[..j] && moves[..n][..j + 1] == moves[..j + 1];
    }
  }

  /** A swap fails only because another request took or gave back a slot after the load: a request retries
      only when some other has made progress. */
  lemma FailedSwapBlames(max: int, moves: seq<Move>, i: nat) returns (k: nat, j: nat)
    requires max > 0 && i < |Reached(max, moves).phases| && Reached(max, moves).phases[i].Loaded?
    requires Reached(max, moves).phases[i].current < max
    requires Next(max, Reached(max, moves), Step(i)).phases[i] != Holding
    ensures LoadedAt(max, moves, i, k, Reached(max, moves).phases[i].current)
    ensures k < j < |moves| && moves[j] != Step(i)
    ensures Reached(max, moves[..j]).active != Reached(max, moves[..j + 1]).active
  {
    k := LoadFound(max, moves, i);
    ReachedSnoc(max, moves[..k], Step(i));
    assert moves[..k + 1] == moves[..k] + [Step(i)];
    j := ChangeFound(max, moves, k + 1);
  }
}
