/** The one-slot queue behind signals and schedule: passes never overlap, and every accepted
    request is served by the very next pass. */
module Coordinator {
  import opened Wrappers
  import opened Runs

  datatype Coord = Coord(running: bool, pending: Option<PassMode>)

  predicate IsForced(m: PassMode) { !m.suppress && !m.updateState }

  /** The mode that overrides others is that of the forced check, which neither suppresses nor
      writes state; the scheduled check does both. */
  lemma ForcedOverrides(m: PassMode)
    ensures IsForced(m) <==> m == FORCED
    ensures FORCED == PassMode(false, false) && SCHEDULED == PassMode(true, true)
  {
  }

  function QueuePending(pending: Option<PassMode>, mode: PassMode): Option<PassMode> {
    if pending.None? || IsForced(mode) then Some(mode) else pending
  }

  /** The mode a window of accepted requests calls for: forced when any of them is, else the
      first of them. */
  ghost predicate CallsFor(window: seq<PassMode>, mode: PassMode) {
    window != [] && if exists m :: m in window && IsForced(m) then IsForced(mode) else mode == window[0]
  }

  ghost predicate PendingFor(window: seq<PassMode>, pending: Option<PassMode>) {
    match pending case None => window == [] case Some(m) => CallsFor(window, m)
  }

  lemma QueuePendingServes(window: seq<PassMode>, pending: Option<PassMode>, mode: PassMode)
    requires PendingFor(window, pending)
    ensures PendingFor(window + [mode], QueuePending(pending, mode))
  {
    var grown := window + [mode];
    assert grown[|window|] == mode;
    if pending.Some? {
      if m :| m in window && IsForced(m) { assert m in grown; }
      if m :| m in grown && IsForced(m) { assert m in window || m == mode; }
    }
  }

  // ---- the locked sections ----

  function BeginStep(c: Coord): Coord { c.(running := true) }

  /** A request is taken only while a pass runs. */
  function TryQueueStep(c: Coord, mode: PassMode): Coord {
    if c.running then c.(pending := QueuePending(c.pending, mode)) else c
  }

  /** Taking the pending request; without one, running ends. */
  function EndStep(c: Coord): Coord { Coord(c.pending.Some? && c.running, None) }

  const STOPPED := Coord(false, None)

  class RunCoordinator {
    var running: bool
    var pending: Option<PassMode>

    constructor ()
      ensures State() == STOPPED
    {
      running, pending := false, None;
    }

    function State(): Coord
      reads this
    {
      Coord(running, pending)
    }

    method Begin()
      modifies this
      ensures State() == BeginStep(old(State()))
    {
      running := true;
    }

    method TryQueue(mode: PassMode) returns (accepted: bool)
      modifies this
      ensures accepted == old(running)
      ensures State() == TryQueueStep(old(State()), mode)
    {
      if !running { return false; }
      if pending.None? {
        pending := Some(mode);
      } else if !mode.suppress && !mode.updateState {
        pending := Some(mode);
      }
      accepted := true;
    }

    method End() returns (next: Option<PassMode>)
      modifies this
      ensures next == old(pending)
      ensures State() == EndStep(old(State()))
    {
      next := pending;
      pending := None;
      if next.None? { running := false; }
    }

    method Reset()
      modifies this
      ensures State() == STOPPED
    {
      running, pending := false, None;
    }

    /** runChecks after begin. While the k-th pass runs, others queue `arrivals[k]`; `fails(k)`
        makes it return an error. The first pass has the given mode, each later one the mode
        its predecessor's arrivals call for, and the loop ends with nothing pending. */
    method RunChecks(mode: PassMode, arrivals: seq<seq<PassMode>>, fails: nat -> bool)
      returns (executed: seq<PassMode>, ok: bool)
      requires State() == Coord(true, None)
      modifies this
      ensures State() == STOPPED
      ensures |executed| >= 1 && executed[0] == mode
      ensures |executed| <= |arrivals| + 1
      ensures forall k :: 0 <= k < |executed| - 1 ==> CallsFor(arrivals[k], executed[k + 1]) && !fails(k)
      ensures ok == !fails(|executed| - 1)
      ensures ok ==> |executed| > |arrivals| || arrivals[|executed| - 1] == []
    {
      var current := mode;
      executed := [];
      var k := 0;
      while true
        invariant State() == Coord(true, None) && |executed| == k
        invariant k <= |arrivals|
        invariant k == 0 ==> current == mode
        invariant k > 0 ==> executed[0] == mode && k <= |arrivals|
        invariant k > 0 ==> CallsFor(arrivals[k - 1], current) && !fails(k - 1)
        invariant forall j :: 0 <= j < k - 1 ==> CallsFor(arrivals[j], executed[j + 1]) && !fails(j)
        decreases |arrivals| - k
      {
        executed := executed + [current];
        var window := if k < |arrivals| then arrivals[k] else [];
        for i := 0 to |window|
          invariant running && PendingFor(window[..i], pending)
        {
          QueuePendingServes(window[..i], pending, window[i]);
          assert window[..i + 1] == window[..i] + [window[i]];
          var accepted := TryQueue(window[i]);
        }
        assert window[..|window|] == window;
        if fails(k) {
          Reset();
          return executed, false;
        }
        var next := End();
        if next.None? { return executed, true; }
        current := next.value;
        k := k + 1;
      }
    }
  }

  // ---- all interleavings of one trigger loop with other goroutines ----

  /** Where the trigger loop is. `Starting` lies between its tryQueue and its begin, `Done`
      between a pass and its end. */
  datatype Phase = Idle | Starting(mode: PassMode) | InPass | Done | Stopped

  datatype Mark = Start(mode: PassMode) | Finish | Fail | Accept(mode: PassMode)

  datatype Machine = Machine(coord: Coord, phase: Phase, history: seq<Mark>)

  datatype Move = Trigger(mode: PassMode) | BeginMove | Queue(mode: PassMode) | PassEnds(ok: bool) | EndMove

  function Request(s: Machine, mode: PassMode): Machine {
    if !s.coord.running then s
    else s.(coord := TryQueueStep(s.coord, mode), history := s.history + [Accept(mode)])
  }

  function Next(s: Machine, move: Move): Machine {
    match move
    case Trigger(mode) =>
      if !s.phase.Idle? then s
      else if s.coord.running then Request(s, mode)
      else s.(phase := Starting(mode))
    case BeginMove =>
      if !s.phase.Starting? then s
      else Machine(BeginStep(s.coord), InPass, s.history + [Start(s.phase.mode)])
    case Queue(mode) => Request(s, mode)
    case PassEnds(ok) =>
      if !s.phase.InPass? then s
      else if ok then s.(phase := Done, history := s.history + [Finish])
      else Machine(STOPPED, Stopped, s.history + [Fail])
    case EndMove =>
      if !s.phase.Done? then s
      else if s.coord.pending.None? then s.(coord := EndStep(s.coord), phase := Idle)
      else Machine(EndStep(s.coord), InPass, s.history + [Start(s.coord.pending.value)])
  }

  const INITIAL := Machine(STOPPED, Idle, [])

  function Execute(moves: seq<Move>): Machine {
    if moves == [] then INITIAL else Next(Execute(moves[..|moves| - 1]), moves[|moves| - 1])
  }

  /** The requests accepted since the last pass started or failed. */
  function Window(history: seq<Mark>): seq<PassMode> {
    if history == [] then []
    else
      var last := history[|history| - 1];
      if last.Start? || last.Fail? then []
      else Window(history[..|history| - 1]) + if last.Accept? then [last.mode] else []
  }

  /** Whether a pass is running at the end of the history. */
  predicate Busy(history: seq<Mark>) {
    history != [] &&
    var last := history[|history| - 1];
    last.Start? || (last.Accept? && Busy(history[..|history| - 1]))
  }

  /** A pass starts only when none runs, and serves exactly the requests waiting for it. */
  ghost predicate StartsWell(history: seq<Mark>, p: nat)
    requires p < |history|
  {
    history[p].Start? ==>
      && !Busy(history[..p])
      && (Window(history[..p]) != [] ==> CallsFor(Window(history[..p]), history[p].mode))
  }

  ghost predicate Invariant(s: Machine) {
    && (s.coord.pending.Some? ==> s.coord.running)
    && (s.coord.running <==> s.phase.InPass? || s.phase.Done?)
    && PendingFor(Window(s.history), s.coord.pending)
    && (Busy(s.history) <==> s.phase.InPass?)
    && forall p :: 0 <= p < |s.history| ==> StartsWell(s.history, p)
  }

  lemma StartsWellGrows(history: seq<Mark>, m: Mark)
    requires forall p :: 0 <= p < |history| ==> StartsWell(history, p)
    requires m.Start? ==> !Busy(history) && (Window(history) != [] ==> CallsFor(Window(history), m.mode))
    ensures var grown := history + [m];
            && (forall p :: 0 <= p < |grown| ==> StartsWell(grown, p))
            && Window(grown)
               == (if m.Start? || m.Fail? then [] else Window(history) + if m.Accept? then [m.mode] else [])
            && (Busy(grown) <==> m.Start? || (m.Accept? && Busy(history)))
  {
    var grown := history + [m];
    assert grown[..|history|] == history;
    forall p | 0 <= p < |grown| ensures StartsWell(grown, p) {
      assert p < |history| ==> grown[..p] == history[..p] && StartsWell(history, p);
    }
  }

  lemma NextKeepsInvariant(s: Machine, move: Move)
    requires Invariant(s)
    ensures Invariant(Next(s, move))
  {
    var s' := Next(s, move);
    if s'.history != s.history {
      var m := s'.history[|s.history|];
      assert s'.history == s.history + [m];
      StartsWellGrows(s.history, m);
      if m.Accept? { QueuePendingServes(Window(s.history), s.coord.pending, m.mode); }
    }
  }

  /** In every interleaving: pending implies running, passes never overlap, and each pass that
      starts with accepted requests waiting has the mode they call for. Nothing accepted is
      left behind when the loop is idle. */
  lemma {:induction false} CoordinatorIsSafe(moves: seq<Move>)
    ensures Invariant(Execute(moves))
    ensures Execute(moves).phase.Idle? || Execute(moves).phase.Starting? ==> Window(Execute(moves).history) == []
  {
    if moves != [] {
      CoordinatorIsSafe(moves[..|moves| - 1]);
      NextKeepsInvariant(Execute(moves[..|moves| - 1]), moves[|moves| - 1]);
    }
  }

  lemma ExecuteThen(moves: seq<Move>, move: Move)
    ensures Execute(moves + [move]) == Next(Execute(moves), move)
  {
    assert (moves + [move])[..|moves|] == moves;
  }

  /** Passes go on. From every reachable state: an idle loop starts the pass it is asked for, a
      running pass can end, after which the loop starts the pass that the requests waiting
      call for, or is idle when none wait; and while a pass runs or has just ended every
      request is accepted. */
  lemma PassesGoOn(moves: seq<Move>, mode: PassMode)
    ensures var s := Execute(moves);
            && (s.phase.Idle? ==>
                  var t := Execute(moves + [Trigger(mode)] + [BeginMove]);
                  t.phase.InPass? && t.history == s.history + [Start(mode)])
            && (s.phase.InPass? ==>
                  var t := Execute(moves + [PassEnds(true)]); t.phase.Done? && t.history == s.history + [Finish])
            && (s.phase.InPass? ==>
                  var t := Execute(moves + [PassEnds(false)]);
                  t.phase.Stopped? && t.coord == STOPPED && t.history == s.history + [Fail])
            && (s.phase.Done? && Window(s.history) == [] ==>
                  var t := Execute(moves + [EndMove]); t.phase.Idle? && t.history == s.history)
            && (s.phase.Done? && Window(s.history) != [] ==>
                  var t := Execute(moves + [EndMove]);
                  t.phase.InPass? && |t.history| == |s.history| + 1 && s.history <= t.history
                  && t.history[|s.history|].Start? && CallsFor(Window(s.history), t.history[|s.history|].mode))
            && (s.phase.InPass? || s.phase.Done? ==>
                  var t := Execute(moves + [Queue(mode)]);
                  t.phase == s.phase && t.history == s.history + [Accept(mode)])
  {
    CoordinatorIsSafe(moves);
    ExecuteThen(moves, Trigger(mode));
    ExecuteThen(moves + [Trigger(mode)], BeginMove);
    ExecuteThen(moves, PassEnds(true));
    ExecuteThen(moves, PassEnds(false));
    ExecuteThen(moves, EndMove);
    ExecuteThen(moves, Queue(mode));
  }

  /** The phase in which a move does something. */
  predicate Enabled(phase: Phase, move: Move) {
    match move
    case Trigger(_) => phase.Idle?
    case BeginMove => phase.Starting?
    case Queue(_) => phase.InPass? || phase.Done?
    case PassEnds(_) => phase.InPass?
    case EndMove => phase.Done?
  }

  /** And nothing else happens: any other move changes nothing, a stopped loop stays stopped. */
  lemma NothingElseMoves(moves: seq<Move>, move: Move)
    requires !Enabled(Execute(moves).phase, move)
    ensures Execute(moves + [move]) == Execute(moves)
  {
    CoordinatorIsSafe(moves);
    ExecuteThen(moves, move);
  }

  /** An accepted request is served by the very next pass: the next mark that is not another
      request or the end of the running pass is the start of a pass it had its say in. */
  lemma AcceptedIsServedNext(moves: seq<Move>, a: nat, p: nat)
    requires a < p < |Execute(moves).history|
    requires Execute(moves).history[a].Accept? && Execute(moves).history[p].Start?
    requires forall i :: a < i < p ==> Execute(moves).history[i].Accept? || Execute(moves).history[i].Finish?
    ensures var h := Execute(moves).history;
            CallsFor(Window(h[..p]), h[p].mode) && h[a].mode in Window(h[..p])
    ensures IsForced(Execute(moves).history[a].mode) ==> IsForced(Execute(moves).history[p].mode)
  {
    CoordinatorIsSafe(moves);
    var h := Execute(moves).history;
    InWindow(h[..p], a);
    assert StartsWell(h, p);
  }

  lemma {:induction false} InWindow(h: seq<Mark>, a: nat)
    requires a < |h| && h[a].Accept?
    requires forall i :: a < i < |h| ==> h[i].Accept? || h[i].Finish?
    ensures h[a].mode in Window(h)
  {
    if a < |h| - 1 { InWindow(h[..|h| - 1], a); }
  }
}
