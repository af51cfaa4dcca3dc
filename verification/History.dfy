/** What every run of passes, crashes and restarts keeps: no invented record, nothing lost,
    nothing repeated without cause. */
module History {
  import opened Model
  import opened NotificationState
  import opened Runs

  /** The entries on file after the passes of a log, starting from `m`. */
  function EntriesAfter(m: Entries, log: seq<PassLog>): Entries {
    if log == [] then m
    else
      var before := EntriesAfter(m, log[..|log| - 1]);
      if log[|log| - 1].committed then Commit(before, log[|log| - 1]) else before
  }

  /** Only passes that write state and got through delivery commit. */
  predicate CommitsWell(p: PassLog) { p.committed ==> p.mode.updateState && (p.offered != [] ==> p.ReachedAll()) }

  /** Every pass had to offer what the file before it left to offer. */
  ghost predicate Consistent(m: Entries, log: seq<PassLog>) {
    forall j :: 0 <= j < |log| ==>
      log[j].offered == Offered(EntriesAfter(m, log[..j]), log[j].mode, log[j].updates) && CommitsWell(log[j])
  }

  lemma ConsistentGrows(m: Entries, log: seq<PassLog>, p: PassLog)
    requires Consistent(m, log)
    requires p.offered == Offered(EntriesAfter(m, log), p.mode, p.updates) && CommitsWell(p)
    ensures Consistent(m, log + [p])
    ensures EntriesAfter(m, log + [p]) == if p.committed then Commit(EntriesAfter(m, log), p) else EntriesAfter(m, log)
  {
    var grown := log + [p];
    assert grown[..|log|] == log;
    forall j | 0 <= j < |grown|
      ensures grown[j].offered == Offered(EntriesAfter(m, grown[..j]), grown[j].mode, grown[j].updates)
      ensures CommitsWell(grown[j])
    {
      if j < |log| { assert grown[..j] == log[..j] && grown[j] == log[j]; }
    }
  }

  ghost predicate FollowsLog(m: Entries, w: World) {
    && (w.alive ==> w.memory == Loaded(w.file))
    && Loaded(w.file) == EntriesAfter(m, w.log)
    && Consistent(m, w.log)
  }

  lemma LogGrows(m: Entries, w: World, p: PassLog, w': World)
    requires FollowsLog(m, w) && w.alive
    requires p.offered == Offered(w.memory, p.mode, p.updates) && CommitsWell(p)
    requires w'.log == w.log + [p] && Loaded(w'.file) == (if p.committed then Commit(w.memory, p) else Loaded(w.file))
    requires w'.alive ==> w'.memory == Loaded(w'.file)
    ensures FollowsLog(m, w')
  {
    ConsistentGrows(m, w.log, p);
  }

  lemma StepFollowsLog(m: Entries, w: World, e: Event)
    requires FollowsLog(m, w)
    ensures FollowsLog(m, Step(w, e))
  {
    if w.alive && e.PassRuns? && e.listing.Listed? {
      LogGrows(m, w, PassLogOf(w.memory, e), Step(w, e));
    }
  }

  /** Between passes the memory of a live process mirrors its file, and the file is what the
      log says. Hence a restart of a live process changes nothing. */
  lemma {:induction false} RunFollowsItsLog(f: DiskFile, events: seq<Event>)
    ensures FollowsLog(Loaded(f), Run(f, events))
  {
    if events != [] {
      RunFollowsItsLog(f, events[..|events| - 1]);
      StepFollowsLog(Loaded(f), Run(f, events[..|events| - 1]), events[|events| - 1]);
    }
  }

  /** A committed pass whose batch, accepted by every notifier, set key and target of `e`. */
  predicate Accepted(p: PassLog, k: string, e: Entry) {
    p.committed && p.Delivered() && e.notifiedAt == p.now &&
    exists u :: u in p.offered && EntryKey(u) == k && TargetFor(u) == (e.mode, e.value)
  }

  lemma CommitProvenance(m: Entries, p: PassLog, k: string)
    requires p.committed && k in Commit(m, p)
    ensures (k in m && m[k] == Commit(m, p)[k]) || Accepted(p, k, Commit(m, p)[k])
  {
    var notified := if p.Delivered() then p.offered else [];
    if u :| u in notified && EntryKey(u) == k {
      var i := LastExists(notified, u);
      RecordAllWrites(m, notified, p.now, i);
      assert notified[i] in p.offered && Commit(m, p)[k] == EntryOf(notified[i], p.now);
    } else {
      RecordAllKeeps(m, notified, p.now, k);
    }
  }

  lemma {:induction false} EntriesProvenance(m: Entries, log: seq<PassLog>, k: string)
    requires k in EntriesAfter(m, log)
    ensures var e := EntriesAfter(m, log)[k];
            (k in m && m[k] == e) || exists i :: 0 <= i < |log| && Accepted(log[i], k, e)
  {
    if log != [] {
      var n := |log| - 1;
      var before := EntriesAfter(m, log[..n]);
      if log[n].committed { CommitProvenance(before, log[n], k); }
      if k in before && before[k] == EntriesAfter(m, log)[k] {
        EntriesProvenance(m, log[..n], k);
        if i :| 0 <= i < n && Accepted(log[..n][i], k, before[k]) { assert Accepted(log[i], k, before[k]); }
      }
    }
  }

  /** No invented record: over every run, a stored entry was loaded from the first file or
      accepted by every notifier in an earlier state-writing pass. */
  lemma NoInventedRecord(f: DiskFile, events: seq<Event>, k: string)
    requires k in Run(f, events).memory && Run(f, events).alive
    ensures var w := Run(f, events);
            (k in Loaded(f) && Loaded(f)[k] == w.memory[k]) ||
            exists i :: 0 <= i < |w.log| && w.log[i].mode.updateState && Accepted(w.log[i], k, w.memory[k])
  {
    RunFollowsItsLog(f, events);
    var w := Run(f, events);
    EntriesProvenance(Loaded(f), w.log, k);
    if i :| 0 <= i < |w.log| && Accepted(w.log[i], k, w.memory[k]) { assert w.log[i].mode.updateState; }
  }

  /** The pass had something to offer and was stopped before every notifier was called. */
  predicate CutShort(p: PassLog) { p.offered != [] && !p.ReachedAll() && !p.committed }

  /** Nothing lost: every update that a pass of any run reports is offered to every notifier,
      or the pass was stopped during delivery and left it to be offered again, or its target
      was loaded from the first file, or every notifier accepted it in an earlier pass. */
  lemma NothingLost(f: DiskFile, events: seq<Event>, j: nat, u: Update)
    requires j < |Run(f, events).log| && u in Run(f, events).log[j].updates
    ensures var log := Run(f, events).log;
            || (u in log[j].offered && (log[j].ReachedAll() || CutShort(log[j])))
            || Recorded(Loaded(f), u)
            || exists i, v ::
                 0 <= i < j && log[i].committed && log[i].Delivered() && v in log[i].offered && SameTarget(u, v)
  {
    RunFollowsItsLog(f, events);
    var log := Run(f, events).log;
    var m := EntriesAfter(Loaded(f), log[..j]);
    PickMembers(m, log[j].updates, false);
    if u !in log[j].offered {
      var k := EntryKey(u);
      EntriesProvenance(Loaded(f), log[..j], k);
      if i :| 0 <= i < j && Accepted(log[..j][i], k, m[k]) {
        var v :| v in log[i].offered && EntryKey(v) == k && TargetFor(v) == TargetFor(u);
        assert SameTarget(u, v);
      }
    }
  }

  /** Nothing lost, read off the fields: an update that a suppressing pass of any run reports
      and does not offer was on the first file, for its key, with the tag it moves to or the
      digest it moves to, or every notifier accepted an update of that key to that tag or
      digest in an earlier committed pass. */
  lemma WithheldWasDelivered(f: DiskFile, events: seq<Event>, j: nat, u: Update)
    requires j < |Run(f, events).log| && Run(f, events).log[j].mode.suppress
    requires u in Run(f, events).log[j].updates && u !in Run(f, events).log[j].offered
    ensures var log := Run(f, events).log;
            || (f.Doc? && f.version >= 2 && f.entries.Some? && HoldsTarget(f.entries.value, u))
            || exists i, v ::
                 && 0 <= i < j && log[i].committed && log[i].Delivered() && v in log[i].offered
                 && EntryKey(v) == EntryKey(u) && v.latestTag == u.latestTag
                 && (u.latestTag == "" ==> SameHex(v.remoteDigest, u.remoteDigest))
  {
    NothingLost(f, events, j, u);
    RecordedExactly(Loaded(f), u);
    LoadedExactly(f);
    var log := Run(f, events).log;
    if i, v :| 0 <= i < j && log[i].committed && log[i].Delivered() && v in log[i].offered && SameTarget(u, v) {
      SameTargetExactly(v, u);
    }
  }

  // ---- when exactly an update is suppressed ----

  /** At most one target per key, and every reported key is active. RunOnce guarantees the
      second always and the first when monitored containers have distinct names. */
  ghost predicate WellReported(p: PassLog) { OneTargetPerKey(p.updates) && AllActive(p.updates, p.active) }

  ghost predicate OneTargetPerKey(updates: seq<Update>) {
    forall u, v :: u in updates && v in updates && EntryKey(u) == EntryKey(v) ==> TargetFor(u) == TargetFor(v)
  }

  ghost predicate AllActive(updates: seq<Update>, active: seq<string>) {
    forall u :: u in updates ==> EntryKey(u) in active
  }

  /** The pass delivered the target of `u` and put it on file. */
  predicate Delivers(p: PassLog, u: Update) {
    p.committed && p.Delivered() && exists v :: v in p.offered && SameTarget(v, u)
  }

  /** The pass delivered another target for the key of `u`, or pruned the key as inactive. */
  predicate Disturbs(p: PassLog, u: Update) {
    p.committed && (
      || (p.Delivered() && exists v :: v in p.offered && EntryKey(v) == EntryKey(u) && TargetFor(v) != TargetFor(u))
      || (p.canPrune && EntryKey(u) !in p.active))
  }

  ghost predicate UndisturbedSince(log: seq<PassLog>, i: int, u: Update) {
    forall m :: 0 <= m < |log| && i < m ==> !Disturbs(log[m], u)
  }

  /** The target of `u` was loaded or delivered, and nothing has disturbed it since. */
  ghost predicate Standing(m: Entries, log: seq<PassLog>, u: Update) {
    || (Recorded(m, u) && UndisturbedSince(log, -1, u))
    || exists i :: 0 <= i < |log| && Delivers(log[i], u) && UndisturbedSince(log, i, u)
  }

  lemma RecordAllRecords(m: Entries, notified: seq<Update>, now: int, u: Update)
    requires forall v, w :: v in notified && w in notified && EntryKey(v) == EntryKey(w) ==>
               TargetFor(v) == TargetFor(w)
    ensures Recorded(RecordAll(m, notified, now), u) <==>
            (exists v :: v in notified && SameTarget(v, u)) ||
            (Recorded(m, u) && forall v :: v in notified && EntryKey(v) == EntryKey(u) ==> TargetFor(v) == TargetFor(u))
  {
    if v :| v in notified && EntryKey(v) == EntryKey(u) {
      var i := LastExists(notified, v);
      RecordAllWrites(m, notified, now, i);
      assert notified[i] in notified && TargetFor(notified[i]) == TargetFor(v);
    } else {
      RecordAllKeeps(m, notified, now, EntryKey(u));
    }
  }

  lemma CommitRecords(m: Entries, p: PassLog, u: Update)
    requires p.committed && WellReported(p) && forall v :: v in p.offered ==> v in p.updates
    ensures Recorded(Commit(m, p), u) <==> Delivers(p, u) || (Recorded(m, u) && !Disturbs(p, u))
  {
    var notified := if p.Delivered() then p.offered else [];
    RecordAllRecords(m, notified, p.now, u);
    var recorded := RecordAll(m, notified, p.now);
    assert Recorded(Commit(m, p), u) <==> Recorded(recorded, u) && (p.canPrune ==> EntryKey(u) in p.active);
  }

  /** What is on file is exactly what was loaded or delivered and not disturbed since. */
  lemma {:induction false} RecordedIsStanding(m: Entries, log: seq<PassLog>, u: Update)
    requires Consistent(m, log) && forall j :: 0 <= j < |log| ==> WellReported(log[j])
    ensures Recorded(EntriesAfter(m, log), u) <==> Standing(m, log, u)
  {
    if log != [] {
      var n := |log| - 1;
      var init := log[..n];
      assert forall j :: 0 <= j <= n ==> init[..j] == log[..j];
      RecordedIsStanding(m, init, u);
      PickMembers(EntriesAfter(m, init), log[n].updates, false);
      if log[n].committed { CommitRecords(EntriesAfter(m, init), log[n], u); }
      StandingGrows(m, log, u);
    }
  }

  lemma StandingGrows(m: Entries, log: seq<PassLog>, u: Update)
    requires log != []
    ensures var n := |log| - 1;
            Standing(m, log, u) <==> Delivers(log[n], u) || (Standing(m, log[..n], u) && !Disturbs(log[n], u))
  {
  }

  lemma SuppressedInLog(m: Entries, log: seq<PassLog>, j: nat, u: Update)
    requires Consistent(m, log) && j < |log| && log[j].mode.suppress && u in log[j].updates
    requires forall i :: 0 <= i < j ==> WellReported(log[i])
    ensures u !in log[j].offered <==> Standing(m, log[..j], u)
  {
    assert forall i :: 0 <= i <= j ==> log[..j][..i] == log[..i];
    RecordedIsStanding(m, log[..j], u);
    PickMembers(EntriesAfter(m, log[..j]), log[j].updates, false);
  }

  /** Over every run, a suppressing pass holds an update back exactly when its target is
      standing: loaded or delivered earlier, and not disturbed since. */
  lemma SuppressedExactlyWhenStanding(f: DiskFile, events: seq<Event>, j: nat, u: Update)
    requires j < |Run(f, events).log| && Run(f, events).log[j].mode.suppress && u in Run(f, events).log[j].updates
    requires forall i :: 0 <= i < j ==> WellReported(Run(f, events).log[i])
    ensures var log := Run(f, events).log; u !in log[j].offered <==> Standing(Loaded(f), log[..j], u)
  {
    RunFollowsItsLog(f, events);
    SuppressedInLog(Loaded(f), Run(f, events).log, j, u);
  }

  lemma NotStandingHasCause(m: Entries, log: seq<PassLog>, i: nat, v: Update)
    requires i < |log| && Delivers(log[i], v) && !Standing(m, log, v)
    ensures exists k :: i < k < |log| && Disturbs(log[k], v)
  {
    assert !UndisturbedSince(log, i, v);
  }

  lemma RepeatHasCause(m: Entries, log: seq<PassLog>, i: nat, j: nat, u: Update, v: Update)
    requires Consistent(m, log) && i < j < |log| && forall k :: 0 <= k < j ==> WellReported(log[k])
    requires Delivers(log[i], u) && log[j].mode.suppress && v in log[j].offered && SameTarget(v, u)
    ensures exists k :: i < k < j && Disturbs(log[k], u)
  {
    PickMembers(EntriesAfter(m, log[..j]), log[j].updates, false);
    SuppressedInLog(m, log, j, v);
    SameTargetSameStory(log[i], u, v);
    assert log[..j][i] == log[i];
    NotStandingHasCause(m, log[..j], i, v);
    var k :| i < k < j && Disturbs(log[..j][k], v);
    SameTargetSameStory(log[k], u, v);
  }

  lemma SameTargetSameStory(p: PassLog, u: Update, v: Update)
    requires SameTarget(u, v)
    ensures Delivers(p, u) == Delivers(p, v) && Disturbs(p, u) == Disturbs(p, v)
  {
    if w :| w in p.offered && SameTarget(w, u) { assert SameTarget(w, v); }
    if w :| w in p.offered && SameTarget(w, v) { assert SameTarget(w, u); }
  }

  /** No repeat without cause: a target delivered by two passes of a run was disturbed in
      between, whatever crashes and restarts there were. */
  lemma NoRepeatWithoutCause(f: DiskFile, events: seq<Event>, i: nat, j: nat, u: Update, v: Update)
    requires i < j < |Run(f, events).log|
    requires forall k :: 0 <= k < j ==> WellReported(Run(f, events).log[k])
    requires Delivers(Run(f, events).log[i], u)
    requires Run(f, events).log[j].mode.suppress && v in Run(f, events).log[j].offered && SameTarget(v, u)
    ensures exists k :: i < k < j && Disturbs(Run(f, events).log[k], u)
  {
    RunFollowsItsLog(f, events);
    RepeatHasCause(Loaded(f), Run(f, events).log, i, j, u, v);
  }

  /** A delivered and committed pass puts everything it reported on file exactly when it
      reported one target per key. */
  lemma AllRecordedExactly(m: Entries, p: PassLog)
    requires p.committed && p.Delivered() && p.offered == Pick(m, p.updates, false) && AllActive(p.updates, p.active)
    ensures (forall u :: u in p.updates ==> Recorded(Commit(m, p), u)) <==> OneTargetPerKey(p.updates)
  {
    PickMembers(m, p.updates, false);
    if OneTargetPerKey(p.updates) {
      forall u | u in p.updates ensures Recorded(Commit(m, p), u) { DeliveredIsRecorded(m, p, u); }
    }
  }

  lemma DeliveredIsRecorded(m: Entries, p: PassLog, u: Update)
    requires p.committed && p.Delivered() && p.offered == Pick(m, p.updates, false)
    requires WellReported(p) && u in p.updates
    ensures Recorded(Commit(m, p), u)
  {
    PickMembers(m, p.updates, false);
    CommitRecords(m, p, u);
    if u in p.offered { assert SameTarget(u, u); }
  }

  /** After any run, a scheduled pass that every notifier accepts and that is run once more
      keeps silent the second time exactly when it reported one target per key. */
  lemma SecondPassIsSilentExactly(f: DiskFile, events: seq<Event>, e: Event)
    requires Run(f, events).alive && e.PassRuns? && e.listing.Listed? && e.mode == SCHEDULED && e.ending.Finishes?
    requires AllTrue(e.replies) && AllActive(e.listing.updates, e.listing.active)
    requires Offered(Run(f, events).memory, e.mode, e.listing.updates) != []
    ensures var log := Run(f, events + [e, e]).log;
            log != [] && (log[|log| - 1].offered == [] <==> OneTargetPerKey(e.listing.updates))
  {
    var w := Run(f, events);
    var p := PassLogOf(w.memory, e);
    RunThenTwo(f, events, e, e);
    AllRecordedExactly(w.memory, p);
    PickIsEmpty(Commit(w.memory, p), p.updates);
  }

  lemma PickIsEmpty(m: Entries, batch: seq<Update>)
    ensures Pick(m, batch, false) == [] <==> forall u :: u in batch ==> Recorded(m, u)
  {
    PickMembers(m, batch, false);
    var picked := Pick(m, batch, false);
    if picked != [] { assert picked[0] in picked; }
  }

  lemma OnePicks(m: Entries, u: Update)
    requires !Recorded(m, u)
    ensures Pick(m, [u], false) == [u]
  {
    assert [u][..0] == [];
  }

  /** Every pass of a run was reported by one of its listings. */
  lemma {:induction false} LogIsWellReported(f: DiskFile, events: seq<Event>)
    requires forall e :: e in events && e.PassRuns? && e.listing.Listed? ==>
               OneTargetPerKey(e.listing.updates) && AllActive(e.listing.updates, e.listing.active)
    ensures forall j :: 0 <= j < |Run(f, events).log| ==> WellReported(Run(f, events).log[j])
  {
    if events != [] {
      LogIsWellReported(f, events[..|events| - 1]);
      assert events[|events| - 1] in events;
    }
  }

  lemma PairPicks(m: Entries, a: Update, b: Update)
    requires !Recorded(m, a) && !Recorded(m, b)
    ensures Pick(m, [a, b], false) == [a, b]
  {
    OnePicks(m, a);
    assert [a, b][..1] == [a];
  }

  lemma PairForgetsFirst(m: Entries, p: PassLog, a: Update, b: Update)
    requires EntryKey(a) == EntryKey(b) && TargetFor(a) != TargetFor(b)
    requires p.Delivered() && p.offered == [a, b]
    ensures !Recorded(Commit(m, p), a)
  {
    RecordAllWrites(m, [a, b], p.now, 1);
  }

  /** A pass that reports two targets under one key repeats one without cause: the later
      overwrites the earlier, so the very next pass delivers the earlier again. */
  lemma TwoTargetsPerKeyRepeat(a: Update, b: Update, now: int)
    requires EntryKey(a) == EntryKey(b) && TargetFor(a) != TargetFor(b)
    ensures var e := PassRuns(SCHEDULED, Listed([a, b], [EntryKey(a)], true), [true], now, Finishes);
            var log := Run(Missing, [e, e]).log;
            |log| == 2 && Delivers(log[0], a) && a in log[1].offered
  {
    var e := PassRuns(SCHEDULED, Listed([a, b], [EntryKey(a)], true), [true], now, Finishes);
    var p := PassLogOf(map[], e);
    PairPicks(map[], a, b);
    PairForgetsFirst(map[], p, a, b);
    var m := Commit(map[], p);
    PickMembers(m, [a, b], false);
    assert a in p.offered && SameTarget(a, a);
    RunTwice(e, p, m);
  }

  lemma RunTwice(e: Event, p: PassLog, m: Entries)
    requires e.PassRuns? && e.listing.Listed? && e.ending.Finishes? && e.mode == SCHEDULED
    requires p == PassLogOf(map[], e) && m == Commit(map[], p)
    ensures Run(Missing, [e, e]).log == [p, PassLogOf(m, e)]
  {
    assert [e, e][..1] == [e] && [e][..0] == [];
    assert Run(Missing, [e]) == Step(Start(Missing), e) == World(true, m, Saved(m), [p]);
  }

  lemma {:induction false} RunAppends(f: DiskFile, events: seq<Event>, more: seq<Event>)
    ensures more == [] ==> Run(f, events + more) == Run(f, events)
    ensures more != [] ==>
              Run(f, events + more) == Step(Run(f, events + more[..|more| - 1]), more[|more| - 1])
  {
    if more == [] {
      assert events + more == events;
    } else {
      assert (events + more)[..|events + more| - 1] == events + more[..|more| - 1];
    }
  }

  lemma RunThenTwo(f: DiskFile, events: seq<Event>, e: Event, e': Event)
    ensures Run(f, events + [e]) == Step(Run(f, events), e)
    ensures Run(f, events + [e, e']) == Step(Step(Run(f, events), e), e')
  {
    RunAppends(f, events, []);
    RunAppends(f, events, [e]);
    RunAppends(f, events, [e, e']);
    assert [e][..0] == [] && [e, e'][..1] == [e];
  }

  lemma RunThen(f: DiskFile, events: seq<Event>, e: Event)
    ensures Run(f, events + [e]) == Step(Run(f, events), e)
    ensures Run(f, events + [e, Restart]) == Step(Step(Run(f, events), e), Restart)
  {
    RunThenTwo(f, events, e, Restart);
  }

  /** What a live process stopped in a pass leaves on file, whatever its history. */
  lemma CrashFile(w: World, crash: Event)
    requires w.alive && crash.PassRuns? && IsCrash(crash.ending)
    ensures Step(w, crash).file == Step(World(true, w.memory, w.file, []), crash).file
    ensures || Step(w, crash).file == w.file
            || (crash.listing.Listed? && crash.mode.updateState
                && Step(w, crash).file == Saved(AfterEntries(w.memory, crash)))
  {
  }

  /** Crash safety. Take a live process of any run and a pass of it, stopped at any of the file
      operations that RunPass may be stopped at. Stopping it is one of the crash events of
      runs, and the next start loads exactly the entries from before or after the pass. */
  lemma CrashLeavesOldOrNew(f: DiskFile, events: seq<Event>, e: Event, d: DiskFile) returns (crash: Event)
    requires Run(f, events).alive && e.PassRuns?
    requires StoppedAt(Run(f, events).memory, Run(f, events).file, e, d)
    ensures crash.PassRuns? && IsCrash(crash.ending) && crash == e.(ending := crash.ending)
    ensures Run(f, events + [crash]).file == d && Run(f, events + [crash, Restart]).memory == Loaded(d)
    ensures var w := Run(f, events);
            || Loaded(d) == w.memory
            || (e.listing.Listed? && e.mode.updateState && Loaded(d) == AfterEntries(w.memory, e))
  {
    RunFollowsItsLog(f, events);
    var w := Run(f, events);
    var ending: Ending :| IsCrash(ending) && d == Step(World(true, w.memory, w.file, []), e.(ending := ending)).file;
    crash := e.(ending := ending);
    CrashFile(w, crash);
    RunThen(f, events, crash);
  }

  /** A completed save loads back what was saved, and restarting a live process changes
      nothing. */
  lemma CleanRestartChangesNothing(f: DiskFile, events: seq<Event>)
    requires Run(f, events).alive
    ensures Run(f, events + [Restart]) == Run(f, events)
  {
    RunFollowsItsLog(f, events);
    RunThen(f, events, Restart);
  }

  /** Two worlds that differ at most in their history. */
  predicate SameStore(w: World, v: World) { w.alive == v.alive && w.memory == v.memory && w.file == v.file }

  lemma {:induction false} SameStoreRunsOn(f: DiskFile, pre: seq<Event>, pre': seq<Event>, post: seq<Event>)
    requires SameStore(Run(f, pre), Run(f, pre'))
    ensures SameStore(Run(f, pre + post), Run(f, pre' + post))
  {
    RunAppends(f, pre, post);
    RunAppends(f, pre', post);
    if post != [] { SameStoreRunsOn(f, pre, pre', post[..|post| - 1]); }
  }

  /** A forced pass leaves no trace: whatever it delivers, every later state of the run is what
      it would have been without it. */
  lemma ForcedPassLeavesNoTrace(f: DiskFile, pre: seq<Event>, e: Event, post: seq<Event>)
    requires e.PassRuns? && !e.mode.updateState && e.listing.Listed? && !IsCrash(e.ending)
    ensures SameStore(Run(f, pre + [e] + post), Run(f, pre + post))
  {
    RunThen(f, pre, e);
    SameStoreRunsOn(f, pre + [e], pre, post);
  }

  /** Nor does a pass without a listing, a failed save or a crash before the rename, once the
      process has been started again. */
  lemma UncommittedPassLeavesNoTrace(f: DiskFile, pre: seq<Event>, e: Event, post: seq<Event>)
    requires Run(f, pre).alive && e.PassRuns?
    requires e.listing.ListError? || !PassLogOf(Run(f, pre).memory, e).committed
    ensures SameStore(Run(f, pre + [e, Restart] + post), Run(f, pre + post))
  {
    RunFollowsItsLog(f, pre);
    RunThen(f, pre, e);
    SameStoreRunsOn(f, pre + [e, Restart], pre, post);
  }

  // ---- "state is saved only after all notifiers succeed" ----

  /** Without full acceptance a committed pass can only prune: the entries change exactly when
      pruning is allowed and some key is inactive. */
  lemma RefusedDeliveryOnlyPrunes(m: Entries, p: PassLog)
    requires p.committed && !p.Delivered()
    ensures Commit(m, p) != m <==> p.canPrune && exists k :: k in m && k !in p.active
  {
    if p.canPrune {
      assert Commit(m, p) == Pruned(m, p.active);
      if forall k :: k in m ==> k in p.active { assert Pruned(m, p.active) == m; }
    }
  }

  /** In every run, a state-writing pass that some notifier refuses writes the file all the
      same. What the next start reads is as before exactly when there was no inactive key to
      prune: that is when "updated only after all notifiers succeed" holds. */
  lemma RefusedPassStillSaves(f: DiskFile, events: seq<Event>, e: Event)
    requires Run(f, events).alive && e.PassRuns? && e.listing.Listed? && e.mode.updateState && e.ending.Finishes?
    requires Offered(Run(f, events).memory, e.mode, e.listing.updates) != [] && !AllTrue(e.replies)
    ensures var w, w' := Run(f, events), Run(f, events + [e]);
            && w'.file == Saved(w'.memory)
            && (Loaded(w'.file) != Loaded(w.file) <==>
                e.listing.canPrune && exists k :: k in w.memory && k !in e.listing.active)
  {
    RunFollowsItsLog(f, events);
    RunThen(f, events, e);
    var w := Run(f, events);
    RefusedDeliveryOnlyPrunes(w.memory, PassLogOf(w.memory, e));
  }

  lemma RunOfOne(f: DiskFile, e: Event)
    ensures Run(f, [e]) == Step(Start(f), e)
  {
    assert [e][..0] == [];
  }

  /** An input where the rule fails: the only notifier refuses, and the file still loses the
      entry of a container that is gone. */
  lemma RefusedDeliveryRewritesFile(gone: string, entry: Entry, u: Update, now: int)
    requires EntryKey(u) != gone
    ensures var e := PassRuns(SCHEDULED, Listed([u], [EntryKey(u)], true), [false], now, Finishes);
            var f := Saved(map[gone := entry]);
            Run(f, [e]).file == Saved(map[]) && |Run(f, [e]).log| == 1 && !Run(f, [e]).log[0].Delivered()
  {
    var e := PassRuns(SCHEDULED, Listed([u], [EntryKey(u)], true), [false], now, Finishes);
    var m := map[gone := entry];
    var p := PassLogOf(m, e);
    OnePicks(m, u);
    assert !AllTrue([false]) && p.answers == [false];
    assert Commit(m, p) == Pruned(m, [EntryKey(u)]) == map[];
    RunOfOne(Saved(m), e);
  }

  lemma {:induction false} UncommittedKeeps(m: Entries, log: seq<PassLog>, i: nat, j: nat)
    requires i <= j <= |log| && forall k :: i <= k < j ==> !log[k].committed
    ensures EntriesAfter(m, log[..i]) == EntriesAfter(m, log[..j])
  {
    if i < j {
      UncommittedKeeps(m, log, i, j - 1);
      assert log[..j][..j - 1] == log[..j - 1];
    }
  }

  /** A pass that crashed or failed before its rename can only cause redelivery: until another
      pass commits, whatever it offered is offered again whenever it is reported. */
  lemma UncommittedOffersAgain(f: DiskFile, events: seq<Event>, i: nat, j: nat, u: Update)
    requires i < j < |Run(f, events).log| && forall k :: i <= k < j ==> !Run(f, events).log[k].committed
    requires Run(f, events).log[i].mode.suppress && u in Run(f, events).log[i].offered
    requires u in Run(f, events).log[j].updates
    ensures u in Run(f, events).log[j].offered
  {
    RunFollowsItsLog(f, events);
    var log := Run(f, events).log;
    UncommittedKeeps(Loaded(f), log, i, j);
    PickMembers(EntriesAfter(Loaded(f), log[..i]), log[i].updates, false);
    PickMembers(EntriesAfter(Loaded(f), log[..j]), log[j].updates, false);
  }
}
