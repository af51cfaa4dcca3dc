/** Passes, whole runs with crashes and restarts, and what holds over every history. */
module Runs {
  import opened Model
  import opened NotificationState

  datatype PassMode = PassMode(suppress: bool, updateState: bool)

  const SCHEDULED := PassMode(true, true)
  const FORCED := PassMode(false, false)

  /** What one detection pass reports. */
  datatype Listing = ListError | Listed(updates: seq<Update>, active: seq<string>, canPrune: bool)

  /** One notifier: its inbox and its answer to the n-th batch. */
  class Notifier {
    const accepts: nat -> bool
    var inbox: seq<seq<Update>>

    constructor (accepts: nat -> bool)
      ensures this.accepts == accepts && inbox == []
    {
      this.accepts, inbox := accepts, [];
    }

    method Notify(batch: seq<Update>) returns (ok: bool)
      modifies this
      ensures inbox == old(inbox) + [batch] && ok == accepts(|old(inbox)|)
    {
      ok := accepts(|inbox|);
      inbox := inbox + [batch];
    }
  }

  ghost function RepliesOf(ns: seq<Notifier>): (replies: seq<bool>)
    reads ns
    ensures |replies| == |ns|
    ensures forall i :: 0 <= i < |ns| ==> replies[i] == ns[i].accepts(|ns[i].inbox|)
  {
    seq(|ns|, i requires 0 <= i < |ns| reads ns => ns[i].accepts(|ns[i].inbox|))
  }

  predicate AllTrue(bs: seq<bool>) { bs == [] || (AllTrue(bs[..|bs| - 1]) && bs[|bs| - 1]) }

  lemma AllTrueGrows(bs: seq<bool>, i: nat)
    requires i < |bs|
    ensures AllTrue(bs[..i + 1]) == (AllTrue(bs[..i]) && bs[i])
  {
    assert bs[..i + 1][..i] == bs[..i];
  }

  ghost function Inboxes(ns: seq<Notifier>): (boxes: seq<seq<seq<Update>>>)
    reads ns
    ensures |boxes| == |ns| && forall i :: 0 <= i < |ns| ==> boxes[i] == ns[i].inbox
  {
    seq(|ns|, i requires 0 <= i < |ns| reads ns => ns[i].inbox)
  }

  /** The inboxes once the first `n` notifiers have been offered the batch. */
  function Served(before: seq<seq<seq<Update>>>, batch: seq<Update>, n: nat): seq<seq<seq<Update>>> {
    seq(|before|, i requires 0 <= i < |before| => if i < n then before[i] + [batch] else before[i])
  }

  ghost predicate ServedInOrder(before: seq<seq<seq<Update>>>, batch: seq<Update>, stops: seq<seq<seq<seq<Update>>>>) {
    forall n :: 0 <= n < |stops| ==> stops[n] == Served(before, batch, n)
  }

  lemma ServedOneMore(before: seq<seq<seq<Update>>>, batch: seq<Update>, stops: seq<seq<seq<seq<Update>>>>,
                      boxes: seq<seq<seq<Update>>>)
    requires ServedInOrder(before, batch, stops) && boxes == Served(before, batch, |stops|)
    ensures ServedInOrder(before, batch, stops + [boxes])
  {
  }

  /** Calls the next notifier of a served prefix. */
  method NotifyNext(ns: seq<Notifier>, i: nat, batch: seq<Update>, ghost before: seq<seq<seq<Update>>>)
    returns (ok: bool)
    requires i < |ns| && forall a, b :: 0 <= a < b < |ns| ==> ns[a] != ns[b]
    requires Inboxes(ns) == Served(before, batch, i)
    modifies ns
    ensures Inboxes(ns) == Served(before, batch, i + 1) && ok == ns[i].accepts(|before[i]|)
  {
    ghost var boxes := Inboxes(ns);
    ok := ns[i].Notify(batch);
    forall j | 0 <= j < |ns| ensures ns[j].inbox == if j == i then boxes[j] + [batch] else boxes[j] {}
  }

  /** Every notifier is offered the batch, whatever the others answer. `stops` lists the inboxes
      that a process stopped during delivery would leave: always those of a served prefix. */
  method NotifyAll(ns: seq<Notifier>, batch: seq<Update>)
    returns (allOk: bool, ghost stops: seq<seq<seq<seq<Update>>>>)
    requires forall i, j :: 0 <= i < j < |ns| ==> ns[i] != ns[j]
    modifies ns
    ensures allOk == AllTrue(old(RepliesOf(ns)))
    ensures Inboxes(ns) == Served(old(Inboxes(ns)), batch, |ns|)
    ensures |stops| == |ns| + 1 && ServedInOrder(old(Inboxes(ns)), batch, stops)
  {
    allOk := true;
    ghost var replies, before := RepliesOf(ns), Inboxes(ns);
    stops := [before];
    assert before == Served(before, batch, 0);
    assert forall j :: 0 <= j < |ns| ==> replies[j] == ns[j].accepts(|before[j]|);
    for i := 0 to |ns|
      invariant allOk == AllTrue(replies[..i])
      invariant Inboxes(ns) == Served(before, batch, i)
      invariant |stops| == i + 1 && ServedInOrder(before, batch, stops)
    {
      var ok := NotifyNext(ns, i, batch, before);
      assert ok == replies[i];
      AllTrueGrows(replies, i);
      ServedOneMore(before, batch, stops, Inboxes(ns));
      stops := stops + [Inboxes(ns)];
      if !ok {
        allOk := false;
        continue;
      }
    }
    assert replies[..|ns|] == replies;
  }

  // ---- a process and its file as values ----

  /** One pass that got past listing: what it had to offer, the answers of the notifiers it
      called, in order, out of how many, and whether its result reached the state file. */
  datatype PassLog = PassLog(
    mode: PassMode, now: int, updates: seq<Update>, active: seq<string>, canPrune: bool,
    offered: seq<Update>, notifiers: nat, answers: seq<bool>, committed: bool)
  {
    /** Every notifier was called. */
    predicate ReachedAll() { |answers| == notifiers }

    /** Every notifier was called and accepted. */
    predicate Delivered() { ReachedAll() && AllTrue(answers) }
  }

  datatype World = World(alive: bool, memory: Entries, file: DiskFile, log: seq<PassLog>)

  /** How a pass ends. `CrashEarly` stops it before the rename, after `reached` notifiers have
      been called; `CrashLate` after the rename. */
  datatype Ending = Finishes | SaveFails | CrashEarly(reached: nat) | CrashLate

  predicate IsCrash(ending: Ending) { ending.CrashEarly? || ending.CrashLate? }

  datatype Event =
    | PassRuns(mode: PassMode, listing: Listing, replies: seq<bool>, now: int, ending: Ending)
    | Restart

  function Offered(m: Entries, mode: PassMode, updates: seq<Update>): seq<Update> {
    if mode.suppress then Pick(m, updates, false) else updates
  }

  /** The answers of the notifiers that were called: none without an offer, those reached
      before an early crash, else all. */
  function Answers(offered: seq<Update>, replies: seq<bool>, ending: Ending): seq<bool> {
    if offered == [] then []
    else if ending.CrashEarly? && ending.reached < |replies| then replies[..ending.reached]
    else replies
  }

  function PassLogOf(m: Entries, e: Event): PassLog
    requires e.PassRuns? && e.listing.Listed?
  {
    var offered := Offered(m, e.mode, e.listing.updates);
    PassLog(e.mode, e.now, e.listing.updates, e.listing.active, e.listing.canPrune,
            offered, |e.replies|, Answers(offered, e.replies, e.ending),
            e.mode.updateState && (e.ending.Finishes? || e.ending.CrashLate?))
  }

  /** The entries after a pass whose result reached the file. */
  function Commit(m: Entries, p: PassLog): Entries {
    AfterPassEntries(m, p.active, if p.Delivered() then p.offered else [], p.canPrune, p.now)
  }

  function Step(w: World, e: Event): World {
    if e.Restart? then World(true, Loaded(w.file), w.file, w.log)
    else if !w.alive then w
    else if e.listing.ListError? then w.(alive := false)
    else
      var p := PassLogOf(w.memory, e);
      var m := if e.mode.updateState then Commit(w.memory, p) else w.memory;
      World(e.ending.Finishes? || (e.ending.SaveFails? && !e.mode.updateState), m,
            if p.committed then Saved(m) else w.file, w.log + [p])
  }

  function Start(f: DiskFile): World { World(true, Loaded(f), f, []) }

  function Run(f: DiskFile, events: seq<Event>): World {
    if events == [] then Start(f) else Step(Run(f, events[..|events| - 1]), events[|events| - 1])
  }

  // ---- the pass itself ----

  datatype PassResult = Ok | ListFailed | NoStore | SaveFailed

  /** The ending that a save fault amounts to. */
  function EndingOf(path: string, fault: SaveFault): Ending {
    if path != "" && fault.NoFault? then Finishes else SaveFails
  }

  /** The file `d` is what a process stopped somewhere in pass `e` leaves, as one of the crash
      events of a run. */
  ghost predicate StoppedAt(m: Entries, f: DiskFile, e: Event, d: DiskFile)
    requires e.PassRuns?
  {
    exists ending: Ending :: IsCrash(ending) && d == Step(World(true, m, f, []), e.(ending := ending)).file
  }

  /** The entries a state-writing pass computes once its notifiers have answered. */
  function AfterEntries(m: Entries, e: Event): Entries
    requires e.PassRuns? && e.listing.Listed?
  {
    AfterPassEntries(m, e.listing.active, if AllTrue(e.replies) then Offered(m, e.mode, e.listing.updates) else [],
                     e.listing.canPrune, e.now)
  }

  /** One pass of a live process that is not stopped, spelled out. */
  lemma PassStep(m: Entries, f: DiskFile, e: Event)
    requires e.PassRuns? && e.listing.Listed? && (e.ending.Finishes? || e.ending.SaveFails?)
    ensures var w, offered := Step(World(true, m, f, []), e), Offered(m, e.mode, e.listing.updates);
            && |w.log| == 1 && w.log[0].offered == offered
            && w.log[0].answers == (if offered == [] then [] else e.replies)
            && w.memory == (if e.mode.updateState then AfterEntries(m, e) else m)
            && w.file == (if e.mode.updateState && e.ending.Finishes? then Saved(AfterEntries(m, e)) else f)
            && (w.alive <==> e.ending.Finishes? || !e.mode.updateState)
  {
  }

  /** A state-writing pass stopped at a file operation leaves the old or the new file, and both
      are crash events of a run. */
  lemma StopsAreCrashes(m: Entries, f: DiskFile, e: Event, d: DiskFile)
    requires e.PassRuns? && e.listing.Listed? && e.mode.updateState
    requires d == f || d == Saved(AfterEntries(m, e))
    ensures StoppedAt(m, f, e, d)
  {
    var w := World(true, m, f, []);
    var early, late := CrashEarly(|e.replies|), CrashLate;
    assert IsCrash(early) && Step(w, e.(ending := early)).file == f;
    assert IsCrash(late) && Step(w, e.(ending := late)).file == Saved(AfterEntries(m, e));
  }

  /** Whatever file a process stopped in the pass would find, it is that of a crash event. */
  ghost predicate OnlyCrashes(m: Entries, f: DiskFile, e: Event, trail: seq<DiskFile>)
    requires e.PassRuns?
  {
    forall i :: 0 <= i < |trail| ==> StoppedAt(m, f, e, trail[i])
  }

  lemma TrailIsOnlyCrashes(m: Entries, f: DiskFile, e: Event, trail: seq<DiskFile>)
    requires e.PassRuns? && e.listing.Listed? && e.mode.updateState
    requires forall i :: 0 <= i < |trail| ==> trail[i] == f || trail[i] == Saved(AfterEntries(m, e))
    ensures OnlyCrashes(m, f, e, trail)
  {
    forall i | 0 <= i < |trail| ensures StoppedAt(m, f, e, trail[i]) { StopsAreCrashes(m, f, e, trail[i]); }
  }

  /** What a process stopped in a pass leaves: the notifiers' inboxes and the state file. */
  datatype Stop = Stop(boxes: seq<seq<seq<Update>>>, file: DiskFile)

  /** Stopped before, between or after the notifiers, the pass leaves a served prefix and the
      old file. */
  ghost predicate DeliveryStops(before: seq<seq<seq<Update>>>, offered: seq<Update>, f: DiskFile, stops: seq<Stop>) {
    && |stops| == (if offered == [] then 0 else |before|) + 1
    && forall n :: 0 <= n < |stops| ==> stops[n] == Stop(Served(before, offered, n), f)
  }

  /** The stop is what pass `e`, ended by `ending`, leaves as an event of a run. */
  ghost predicate IsStopOf(m: Entries, f: DiskFile, e: Event, ending: Ending, before: seq<seq<seq<Update>>>, stop: Stop)
    requires e.PassRuns? && e.listing.Listed?
  {
    var w := Step(World(true, m, f, []), e.(ending := ending));
    stop == Stop(Served(before, w.log[0].offered, |w.log[0].answers|), w.file)
  }

  lemma DeliveryStopsAreCrashes(m: Entries, f: DiskFile, e: Event, before: seq<seq<seq<Update>>>, stops: seq<Stop>)
    requires e.PassRuns? && e.listing.Listed? && |e.replies| == |before|
    requires DeliveryStops(before, Offered(m, e.mode, e.listing.updates), f, stops)
    ensures forall n :: 0 <= n < |stops| ==> IsStopOf(m, f, e, CrashEarly(n), before, stops[n])
  {
  }

  /** Delivery in a pass, with state file `f`: what counts as notified is all or nothing. */
  method Deliver(ns: seq<Notifier>, toNotify: seq<Update>, ghost f: DiskFile)
    returns (notified: seq<Update>, ghost stops: seq<Stop>)
    requires forall i, j :: 0 <= i < j < |ns| ==> ns[i] != ns[j]
    modifies ns
    ensures notified == if AllTrue(old(RepliesOf(ns))) then toNotify else []
    ensures Inboxes(ns) == Served(old(Inboxes(ns)), toNotify, if toNotify == [] then 0 else |ns|)
    ensures DeliveryStops(old(Inboxes(ns)), toNotify, f, stops)
  {
    notified := toNotify;
    stops := [Stop(Inboxes(ns), f)];
    if |toNotify| > 0 {
      var ok;
      ghost var served;
      ok, served := NotifyAll(ns, toNotify);
      stops := seq(|served|, n requires 0 <= n < |served| => Stop(served[n], f));
      if !ok { notified := []; }
    }
  }

  /** The pass of a process with a store, once it has a listing. */
  method PassWithStore(ns: seq<Notifier>, store: Store, mode: PassMode, listing: Listing, now: int, fault: SaveFault)
    returns (r: PassResult, ghost stops: seq<Stop>)
    requires listing.Listed? && forall i, j :: 0 <= i < j < |ns| ==> ns[i] != ns[j]
    modifies ns, store, store.disk
    ensures var e := PassRuns(mode, listing, old(RepliesOf(ns)), now, EndingOf(store.path, fault));
            var after := AfterEntries(old(store.entries), e);
            var offered := Offered(old(store.entries), mode, listing.updates);
            && store.entries == (if mode.updateState then after else old(store.entries))
            && store.disk.file
               == (if mode.updateState && e.ending.Finishes? then Saved(after) else old(store.disk.file))
            && (r == Ok <==> e.ending.Finishes? || !mode.updateState)
            && Inboxes(ns) == Served(old(Inboxes(ns)), offered, if offered == [] then 0 else |ns|)
            && store.disk.trail == old(store.disk.trail) +
                 (if mode.updateState then SaveStops(store.path, fault, old(store.disk.file), store.disk.file) else [])
            && DeliveryStops(old(Inboxes(ns)), offered, old(store.disk.file), stops)
  {
    var toNotify := listing.updates;
    if mode.suppress {
      var suppressedBatch;
      toNotify, suppressedBatch := store.Filter(listing.updates);
    }
    var notified;
    notified, stops := Deliver(ns, toNotify, store.disk.file);
    r := Ok;
    if mode.updateState {
      var ok := store.AfterPass(listing.active, notified, listing.canPrune, now, fault);
      if !ok { r := SaveFailed; }
    }
  }

  /** runPass. With a store it is exactly one step of the world: the notifiers called are those
      whose answers the step records, and a process stopped at any file operation is a crash
      event of that pass. `stops` lists what one stopped during delivery leaves: after `n`
      notifiers, what the pass ended by `CrashEarly(n)` does. A pass that neither reads nor writes
      state needs no store. */
  method RunPass(ns: seq<Notifier>, store: Store?, mode: PassMode, listing: Listing, now: int, fault: SaveFault)
    returns (r: PassResult, ghost stops: seq<Stop>)
    requires forall i, j :: 0 <= i < j < |ns| ==> ns[i] != ns[j]
    modifies ns, store, if store == null then {} else {store.disk}
    ensures listing.ListError? || (store == null && mode.suppress) ==>
              r == (if listing.ListError? then ListFailed else NoStore) && Inboxes(ns) == old(Inboxes(ns))
    ensures listing.Listed? && store == null && !mode.suppress ==>
              r == (if mode.updateState then NoStore else Ok) &&
              Inboxes(ns) == Served(old(Inboxes(ns)), listing.updates, if listing.updates == [] then 0 else |ns|)
    ensures store != null ==>
              var e := PassRuns(mode, listing, old(RepliesOf(ns)), now, EndingOf(store.path, fault));
              var w := Step(World(true, old(store.entries), old(store.disk.file), []), e);
              && store.entries == w.memory && store.disk.file == w.file && (r == Ok <==> w.alive)
              && (listing.Listed? ==>
                    Inboxes(ns) == Served(old(Inboxes(ns)), w.log[0].offered, |w.log[0].answers|))
              && var files := if listing.Listed? && mode.updateState
                              then SaveStops(store.path, fault, old(store.disk.file), store.disk.file) else [];
              && store.disk.trail == old(store.disk.trail) + files
              && OnlyCrashes(old(store.entries), old(store.disk.file), e, files)
    ensures store != null && listing.Listed? ==>
              var e := PassRuns(mode, listing, old(RepliesOf(ns)), now, EndingOf(store.path, fault));
              && |stops| == (if Offered(old(store.entries), mode, listing.updates) == [] then 0 else |ns|) + 1
              && forall n :: 0 <= n < |stops| ==>
                   IsStopOf(old(store.entries), old(store.disk.file), e, CrashEarly(n), old(Inboxes(ns)), stops[n])
  {
    stops := [];
    if listing.ListError? { return ListFailed, stops; }
    if store == null {
      if mode.suppress { return NoStore, stops; }
      if |listing.updates| > 0 {
        ghost var served;
        var ok;
        ok, served := NotifyAll(ns, listing.updates);
      }
      return if mode.updateState then NoStore else Ok, stops;
    }
    ghost var e := PassRuns(mode, listing, RepliesOf(ns), now, EndingOf(store.path, fault));
    PassStep(store.entries, store.disk.file, e);
    r, stops := PassWithStore(ns, store, mode, listing, now, fault);
    DeliveryStopsAreCrashes(old(store.entries), old(store.disk.file), e, old(Inboxes(ns)), stops);
    if mode.updateState {
      TrailIsOnlyCrashes(old(store.entries), old(store.disk.file), e,
                         SaveStops(store.path, fault, old(store.disk.file), store.disk.file));
    }
  }
}
