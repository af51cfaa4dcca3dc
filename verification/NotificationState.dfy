/** The store of last-notified targets and its file. */
module NotificationState {
  import opened Wrappers
  import opened Model

  const FILE_VERSION := 2

  datatype Entry = Entry(mode: string, value: string, notifiedAt: int)
  type Entries = map<string, Entry>

  /** The state file: absent, not readable as JSON, or a document. */
  datatype DiskFile = Missing | Corrupt | Doc(version: int, entries: Option<Entries>)

  /** What a start-up makes of the file. */
  function Loaded(f: DiskFile): Entries {
    if f.Doc? && f.version >= FILE_VERSION && f.entries.Some? then f.entries.value else map[]
  }

  function Saved(m: Entries): DiskFile { Doc(FILE_VERSION, Some(m)) }

  /** The update's target is the one last notified for its key. */
  predicate Recorded(m: Entries, u: Update) {
    EntryKey(u) in m && (m[EntryKey(u)].mode, m[EntryKey(u)].value) == TargetFor(u)
  }

  /** The same, read off the fields of the entry and of the update. */
  ghost predicate HoldsTarget(m: Entries, u: Update) {
    EntryKey(u) in m && MovesTo(u, m[EntryKey(u)].mode, m[EntryKey(u)].value)
  }

  lemma RecordedExactly(m: Entries, u: Update)
    ensures Recorded(m, u) <==> HoldsTarget(m, u)
  {
    if EntryKey(u) in m { TargetIsWhereItMoves(u, m[EntryKey(u)].mode, m[EntryKey(u)].value); }
  }

  /** A file holds what its document says, from version 2 on, and otherwise nothing. */
  lemma LoadedExactly(f: DiskFile)
    ensures Loaded(f) == match f case Doc(v, Some(m)) => (if v >= 2 then m else map[]) case _ => map[]
    ensures forall m :: Saved(m) == Doc(2, Some(m)) && Loaded(Saved(m)) == m
  {
  }

  /** The updates that are recorded, or those that are not, in order. */
  function Pick(m: Entries, batch: seq<Update>, recorded: bool): seq<Update> {
    if batch == [] then []
    else
      var u := batch[|batch| - 1];
      Pick(m, batch[..|batch| - 1], recorded) + if Recorded(m, u) == recorded then [u] else []
  }

  lemma {:induction false} PickMembers(m: Entries, batch: seq<Update>, recorded: bool)
    ensures forall u :: u in Pick(m, batch, recorded) <==> u in batch && Recorded(m, u) == recorded
  {
    if batch != [] {
      PickMembers(m, batch[..|batch| - 1], recorded);
      assert batch == batch[..|batch| - 1] + [batch[|batch| - 1]];
    }
  }

  lemma PickedByFields(m: Entries, batch: seq<Update>)
    ensures forall u :: u in Pick(m, batch, false) <==> u in batch && !HoldsTarget(m, u)
    ensures forall u :: u in Pick(m, batch, true) <==> u in batch && HoldsTarget(m, u)
  {
    PickMembers(m, batch, false);
    PickMembers(m, batch, true);
    forall u { RecordedExactly(m, u); }
  }

  /** Two parts still make up the whole after one of them and the whole gain its last element. */
  lemma LastElementJoins<T>(whole: seq<T>, a: seq<T>, b: seq<T>, a': seq<T>, b': seq<T>)
    requires whole != [] && multiset(a) + multiset(b) == multiset(whole[..|whole| - 1])
    requires var last := whole[|whole| - 1]; (a' == a + [last] && b' == b) || (a' == a && b' == b + [last])
    ensures multiset(a') + multiset(b') == multiset(whole)
  {
    assert whole == whole[..|whole| - 1] + [whole[|whole| - 1]];
  }

  lemma PickOneMore(m: Entries, batch: seq<Update>, recorded: bool)
    requires batch != []
    ensures var init, u := batch[..|batch| - 1], batch[|batch| - 1];
            Pick(m, batch, recorded)
            == if Recorded(m, u) == recorded then Pick(m, init, recorded) + [u] else Pick(m, init, recorded)
  {
  }

  ghost predicate Partitioned(m: Entries, batch: seq<Update>) {
    multiset(Pick(m, batch, true)) + multiset(Pick(m, batch, false)) == multiset(batch)
  }

  lemma PartitionedGrows(m: Entries, batch: seq<Update>)
    requires batch != [] && Partitioned(m, batch[..|batch| - 1])
    ensures Partitioned(m, batch)
  {
    var init := batch[..|batch| - 1];
    PickOneMore(m, batch, true);
    PickOneMore(m, batch, false);
    LastElementJoins(batch, Pick(m, init, true), Pick(m, init, false), Pick(m, batch, true), Pick(m, batch, false));
  }

  /** Picking the recorded and the unrecorded updates loses and repeats none. */
  lemma {:induction false} PickPartitions(m: Entries, batch: seq<Update>)
    ensures multiset(Pick(m, batch, true)) + multiset(Pick(m, batch, false)) == multiset(batch)
  {
    if batch != [] {
      PickPartitions(m, batch[..|batch| - 1]);
      PartitionedGrows(m, batch);
    }
  }

  function EntryOf(u: Update, now: int): Entry { Entry(TargetFor(u).0, TargetFor(u).1, now) }

  function RecordAll(m: Entries, notified: seq<Update>, now: int): Entries {
    if notified == [] then m
    else
      var u := notified[|notified| - 1];
      RecordAll(m, notified[..|notified| - 1], now)[EntryKey(u) := EntryOf(u, now)]
  }

  /** Update `i` is the last one of the batch with its key. */
  predicate LastOfKey(batch: seq<Update>, i: nat)
    requires i < |batch|
  {
    forall j :: i < j < |batch| ==> EntryKey(batch[j]) != EntryKey(batch[i])
  }

  /** Recording leaves the other keys alone. */
  lemma {:induction false} RecordAllKeeps(m: Entries, notified: seq<Update>, now: int, k: string)
    requires forall i :: 0 <= i < |notified| ==> EntryKey(notified[i]) != k
    ensures k in RecordAll(m, notified, now) <==> k in m
    ensures k in m ==> RecordAll(m, notified, now)[k] == m[k]
  {
    if notified != [] { RecordAllKeeps(m, notified[..|notified| - 1], now, k); }
  }

  /** Recording writes the notified keys, the last update of a key winning. */
  lemma {:induction false} RecordAllWrites(m: Entries, notified: seq<Update>, now: int, i: nat)
    requires i < |notified| && LastOfKey(notified, i)
    ensures var k := EntryKey(notified[i]);
            k in RecordAll(m, notified, now) && RecordAll(m, notified, now)[k] == EntryOf(notified[i], now)
  {
    var n := |notified| - 1;
    if i < n {
      assert EntryKey(notified[n]) != EntryKey(notified[i]);
      RecordAllWrites(m, notified[..n], now, i);
    }
  }

  /** What is recorded for a key is where the last update of the key moves to, and when. */
  lemma RecordAllHolds(m: Entries, notified: seq<Update>, now: int)
    ensures forall i :: 0 <= i < |notified| && LastOfKey(notified, i) ==>
              HoldsTarget(RecordAll(m, notified, now), notified[i]) &&
              RecordAll(m, notified, now)[EntryKey(notified[i])].notifiedAt == now
  {
    forall i | 0 <= i < |notified| && LastOfKey(notified, i)
      ensures HoldsTarget(RecordAll(m, notified, now), notified[i])
      ensures RecordAll(m, notified, now)[EntryKey(notified[i])].notifiedAt == now
    {
      RecordAllWrites(m, notified, now, i);
      RecordedExactly(RecordAll(m, notified, now), notified[i]);
    }
  }

  lemma {:induction false} LastExists(batch: seq<Update>, u: Update) returns (i: nat)
    requires u in batch
    ensures i < |batch| && EntryKey(batch[i]) == EntryKey(u) && LastOfKey(batch, i)
  {
    var n := |batch| - 1;
    if EntryKey(batch[n]) == EntryKey(u) { i := n; }
    else {
      assert batch == batch[..n] + [batch[n]];
      i := LastExists(batch[..n], u);
    }
  }

  function Pruned(m: Entries, active: seq<string>): Entries { map k | k in m && k in active :: m[k] }

  /** The entries a state-updating pass leaves behind. */
  function AfterPassEntries(m: Entries, active: seq<string>, notified: seq<Update>, canPrune: bool, now: int): Entries {
    var recorded := RecordAll(m, notified, now);
    if canPrune then Pruned(recorded, active) else recorded
  }

  datatype SaveFault = NoFault | NoDirectory | WriteFails(leftover: DiskFile) | RenameFails

  /** The state files that a process stopped in a save would find, in order: while the temp file
      is written, once it is, and after the rename, wherever the save gets that far. */
  function SaveStops(path: string, fault: SaveFault, before: DiskFile, after: DiskFile): seq<DiskFile> {
    if path == "" || fault.NoDirectory? then []
    else if fault.WriteFails? then [before, before]
    else [before, before, after]
  }

  /** The two files involved in a save. `trail` lists the state file after every write or
      rename, that is, what a process stopped there would find at its next start. */
  class Disk {
    var file: DiskFile
    var temp: DiskFile
    ghost var trail: seq<DiskFile>

    constructor (file: DiskFile)
      ensures this.file == file && this.temp == Missing && this.trail == [file]
    {
      this.file, this.temp, this.trail := file, Missing, [file];
    }

    method WriteTemp(content: DiskFile, fault: SaveFault) returns (ok: bool)
      modifies this
      ensures ok == !fault.WriteFails? && file == old(file)
      ensures temp == if ok then content else fault.leftover
      ensures trail == old(trail) + [file, file]
    {
      temp := Corrupt;  // a partly written temp file
      trail := trail + [file];
      if fault.WriteFails? {
        temp := fault.leftover;
        ok := false;
      } else {
        temp := content;
        ok := true;
      }
      trail := trail + [file];
    }

    method Rename(fault: SaveFault) returns (ok: bool)
      modifies this
      ensures ok == !fault.RenameFails?
      ensures file == (if ok then old(temp) else old(file)) && temp == Missing
      ensures trail == old(trail) + [file]
    {
      if fault.RenameFails? {
        temp := Missing;
        ok := false;
      } else {
        file, temp := temp, Missing;
        ok := true;
      }
      trail := trail + [file];
    }
  }

  class Store {
    const path: string
    const disk: Disk
    var version: int
    var entries: Entries

    constructor Load(path: string, disk: Disk)
      ensures this.path == path && this.disk == disk && entries == Loaded(disk.file)
      ensures version == if disk.file.Doc? && disk.file.version >= 2 then disk.file.version else 2
    {
      this.path, this.disk := path, disk;
      version, entries := FILE_VERSION, map[];
      new;
      match disk.file {
        case Missing => return;
        case Corrupt => return;
        case Doc(v, loaded) =>
          if v < FILE_VERSION { return; }
          version := v;
          entries := if loaded.None? then map[] else loaded.value;
      }
    }

    predicate IsNew(u: Update)
      reads this
    {
      if EntryKey(u) !in entries then true
      else
        var stored := entries[EntryKey(u)];
        var (mode, value) := TargetFor(u);
        if stored.mode != mode then true else stored.value != value
    }

    method Filter(batch: seq<Update>) returns (toNotify: seq<Update>, suppressed: seq<Update>)
      ensures toNotify == Pick(entries, batch, false) && suppressed == Pick(entries, batch, true)
      ensures forall u :: u in toNotify <==> u in batch && !HoldsTarget(entries, u)
      ensures forall u :: u in suppressed <==> u in batch && HoldsTarget(entries, u)
    {
      PickedByFields(entries, batch);
      toNotify, suppressed := [], [];
      if |batch| == 0 { return; }
      for i := 0 to |batch|
        invariant toNotify == Pick(entries, batch[..i], false) && suppressed == Pick(entries, batch[..i], true)
      {
        var u := batch[i];
        assert batch[..i + 1][..i] == batch[..i];
        if IsNew(u) { toNotify := toNotify + [u]; } else { suppressed := suppressed + [u]; }
      }
      assert batch[..|batch|] == batch;
    }

    method Record(notified: seq<Update>, now: int)
      modifies this`entries
      ensures entries == RecordAll(old(entries), notified, now)
      ensures forall i :: 0 <= i < |notified| && LastOfKey(notified, i) ==>
                HoldsTarget(entries, notified[i]) && entries[EntryKey(notified[i])].notifiedAt == now
    {
      RecordAllHolds(old(entries), notified, now);
      for i := 0 to |notified|
        invariant entries == RecordAll(old(entries), notified[..i], now)
      {
        var u := notified[i];
        assert notified[..i + 1][..i] == notified[..i];
        var (mode, value) := TargetFor(u);
        entries := entries[EntryKey(u) := Entry(mode, value, now)];
      }
      assert notified[..|notified|] == notified;
    }

    method Prune(activeKeys: seq<string>)
      modifies this`entries
      ensures entries == Pruned(old(entries), activeKeys)
    {
      var active: set<string> := {};
      for i := 0 to |activeKeys|
        invariant active == set k | k in activeKeys[..i]
      {
        assert activeKeys[..i + 1] == activeKeys[..i] + [activeKeys[i]];
        active := active + {activeKeys[i]};
      }
      assert activeKeys[..|activeKeys|] == activeKeys;
      var keys := entries.Keys;
      while keys != {}
        invariant keys <= old(entries).Keys && entries.Keys <= old(entries).Keys
        invariant forall k :: k in entries ==> entries[k] == old(entries)[k]
        invariant forall k :: k in old(entries) ==> (k in entries <==> k in keys || k in active)
        decreases keys
      {
        var key :| key in keys;
        keys := keys - {key};
        if key !in active { entries := entries - {key}; }
      }
    }

    /** A save ends with the old or the new file in place, and so does one stopped midway: `trail`
        grows by one file for every moment it can be stopped at. */
    method Save(fault: SaveFault) returns (ok: bool)
      modifies this`version, disk
      ensures ok <==> path != "" && fault.NoFault?
      ensures disk.file == if ok then Saved(entries) else old(disk.file)
      ensures ok ==> Loaded(disk.file) == entries
      ensures disk.trail == old(disk.trail) + SaveStops(path, fault, old(disk.file), disk.file)
    {
      if path == "" { return false; }
      if fault.NoDirectory? { return false; }
      version := FILE_VERSION;
      var raw := Doc(version, Some(entries));
      ok := disk.WriteTemp(raw, fault);
      if !ok { return false; }
      ok := disk.Rename(fault);
    }

    method AfterPass(activeKeys: seq<string>, notified: seq<Update>, canPrune: bool, now: int, fault: SaveFault)
      returns (ok: bool)
      modifies this, disk
      ensures entries == AfterPassEntries(old(entries), activeKeys, notified, canPrune, now)
      ensures ok <==> path != "" && fault.NoFault?
      ensures disk.file == if ok then Saved(entries) else old(disk.file)
      ensures disk.trail == old(disk.trail) + SaveStops(path, fault, old(disk.file), disk.file)
    {
      if |notified| > 0 { Record(notified, now); }
      if canPrune { Prune(activeKeys); }
      ok := Save(fault);
    }
  }
}
