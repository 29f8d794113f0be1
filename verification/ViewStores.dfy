/** The two stores of saved views: one in memory, one in a file that is replaced as a whole. */
module ViewStores {
  import opened Text
  import opened CodePoints
  import opened SavedViews

  datatype Metadata = Metadata(version: int, updatedAt: int, count: int, storage: string)
  datatype Snapshot = Snapshot(items: seq<Preset>, metadata: Metadata)
  const NoMetadata := Metadata(0, 0, 0, "")

  function NextMetadata(current: Metadata, count: nat, storage: string, now: int): Metadata {
    Metadata(if current.version >= now then current.version + 1 else now, now, count, storage)
  }

  predicate IsStorage(s: string) { s == "file" || s == "memory" }
  function AtLeastZero(n: int): int { if n < 0 then 0 else n }

  function SnapshotMetadata(m: Metadata, count: nat, storage: string): Metadata {
    Metadata(AtLeastZero(m.version), AtLeastZero(m.updatedAt), count, if IsStorage(m.storage) then m.storage else storage)
  }

  // ----- in memory -----

  class MemoryViewStore {
    var items: seq<Preset>
    var metadata: Metadata

    constructor ()
      ensures items == [] && metadata == NoMetadata
    {
      items, metadata := [], NoMetadata;
    }

    method List() returns (snapshot: Snapshot)
      ensures snapshot == Snapshot(items, SnapshotMetadata(metadata, |items|, "memory"))
    {
      snapshot := Snapshot(items, SnapshotMetadata(metadata, |items|, "memory"));
    }

    method Save(items': seq<Preset>, now: int) returns (snapshot: Snapshot)
      modifies this
      ensures items == items' && metadata == NextMetadata(old(metadata), |items'|, "memory", now)
      ensures snapshot == Snapshot(items, metadata)
      ensures old(metadata.version) < snapshot.metadata.version
    {
      items := items';
      metadata := NextMetadata(metadata, |items'|, "memory", now);
      snapshot := Snapshot(items, metadata);
    }
  }

  /** What is stored after saves at these times. */
  function StoredMetadata(times: seq<int>, count: nat): Metadata {
    if times == [] then NoMetadata
    else NextMetadata(StoredMetadata(times[..|times| - 1], count), count, "memory", times[|times| - 1])
  }

  /** Versions of the memory store strictly increase over any run, whatever the clock does. */
  lemma {:induction false} MemoryVersionsIncrease(times: seq<int>, count: nat, i: nat, j: nat)
    requires i < j <= |times|
    ensures StoredMetadata(times[..i], count).version < StoredMetadata(times[..j], count).version
    decreases j
  {
    assert times[..j][..j - 1] == times[..j - 1];
    if i < j - 1 {
      MemoryVersionsIncrease(times, count, i, j - 1);
    }
  }

  /** Listing after a save shows what the save returned, unless the clock was before 1970. */
  lemma MemoryListAfterSave(current: Metadata, items: seq<Preset>, now: int)
    requires current.version >= 0
    ensures var saved := NextMetadata(current, |items|, "memory", now);
            SnapshotMetadata(saved, |items|, "memory") == saved <==> now >= 0
  {
  }

  // ----- in a file -----

  /** What the path holds: no file, something that cannot be read or decoded, or a list. */
  datatype Content = Missing | Broken | Written(items: seq<Input>, version: Value, updatedAt: Value, storage: Value)
  datatype Outcome<T> = Ok(value: T) | Unavailable
  datatype Fault = NoFault | MkdirFails | EncodeFails | OpenFails | WriteFails | CloseFails | RenameFails

  /** The time of the newest preset, or 0. */
  function Newest(items: seq<Preset>): (r: int)
    ensures r >= 0
    ensures forall k :: 0 <= k < |items| ==> items[k].updatedAt <= r
    ensures r == 0 || exists k :: 0 <= k < |items| && items[k].updatedAt == r
  {
    if items == [] then 0
    else
      var rest := Newest(items[..|items| - 1]);
      if items[|items| - 1].updatedAt > rest then items[|items| - 1].updatedAt else rest
  }

  function StorageInput(v: Value, fallback: string): string {
    var storage := Trim(if v.Text? then v.text else fallback);
    if IsStorage(storage) then storage else fallback
  }

  function DecodedMetadata(content: Content, items: seq<Preset>, storage: string, m: Machine): Metadata
    requires content.Written?
  {
    SnapshotMetadata(
      Metadata(PositiveInput(content.version, Newest(items), m), PositiveInput(content.updatedAt, Newest(items), m), |items|, StorageInput(content.storage, storage)),
      |items|, storage)
  }

  function Decoded(content: Content, now: int, m: Machine): Outcome<Snapshot> {
    match content
    case Missing => Ok(Snapshot([], Metadata(0, 0, 0, "file")))
    case Broken => Unavailable
    case Written(inputs, _, _, _) =>
      var items := Sanitize(inputs, now, m);
      Ok(Snapshot(items, DecodedMetadata(content, items, "file", m)))
  }

  /** The payload of a save, as it will be decoded. */
  function Payload(s: Snapshot, m: Machine): Content {
    Written(AsInputs(s.items, m), Number(m.float(s.metadata.version)), Number(m.float(s.metadata.updatedAt)), Text(s.metadata.storage))
  }

  /** Every save of the file store starts from empty metadata. */
  function ToSave(items: seq<Preset>, now: int): Snapshot {
    Snapshot(items, NextMetadata(NoMetadata, |items|, "file", now))
  }

  method NewestUpdate(items: seq<Preset>) returns (updatedAt: int)
    ensures updatedAt == Newest(items)
  {
    updatedAt := 0;
    for k := 0 to |items|
      invariant updatedAt == Newest(items[..k])
    {
      assert items[..k + 1][..k] == items[..k];
      if items[k].updatedAt > updatedAt {
        updatedAt := items[k].updatedAt;
      }
    }
    assert items[..|items|] == items;
  }

  class FileViewStore {
    var file: Content
    var temporary: Option<Content>

    constructor (content: Content)
      ensures file == content && temporary == None
    {
      file, temporary := content, None;
    }

    method List(now: int, m: Machine) returns (r: Outcome<Snapshot>)
      ensures r == Decoded(file, now, m)
    {
      match file
      case Missing =>
        r := Ok(Snapshot([], Metadata(0, 0, 0, "file")));
      case Broken =>
        r := Unavailable;
      case Written(inputs, version, updatedAt, storage) =>
        var items := SanitizeInputs(inputs, now, m);
        var newest := NewestUpdate(items);
        var metadata := Metadata(PositiveInput(version, newest, m), PositiveInput(updatedAt, newest, m), |items|, StorageInput(storage, "file"));
        r := Ok(Snapshot(items, SnapshotMetadata(metadata, |items|, "file")));
    }

    /** Writes beside the file and renames. `stuck` tells that the file beside it cannot be removed. */
    method Save(items: seq<Preset>, now: int, m: Machine, fault: Fault, stuck: bool) returns (r: Outcome<Snapshot>)
      modifies this
      ensures Store(file, temporary) == SaveFile(old(Store(file, temporary)), SaveEvent(items, now, fault, stuck), m)
      ensures r == if fault == NoFault then Ok(ToSave(items, now)) else Unavailable
    {
      if fault == MkdirFails {
        return Unavailable;
      }
      var snapshot := ToSave(items, now);
      if fault == EncodeFails {
        return Unavailable;
      }
      var payload := Payload(snapshot, m);
      if fault == OpenFails {
        return Unavailable;
      }
      temporary := Some(Broken);
      if fault == WriteFails {
        RemoveTemporary(stuck);
        return Unavailable;
      }
      temporary := Some(payload);
      if fault == CloseFails || fault == RenameFails {
        RemoveTemporary(stuck);
        return Unavailable;
      }
      file, temporary := payload, None;
      return Ok(snapshot);
    }

    /** The deferred `os.Remove`, whose error nobody looks at. */
    method RemoveTemporary(stuck: bool)
      modifies this`temporary
      ensures temporary == if stuck then old(temporary) else None
    {
      if !stuck {
        temporary := None;
      }
    }
  }

  // ----- runs of saves -----

  /** What is on disk: the file, and the one beside it if there is one. */
  datatype Store = Store(file: Content, temporary: Option<Content>)
  datatype SaveEvent = SaveEvent(items: seq<Preset>, now: int, fault: Fault, stuck: bool)

  /** A save that fails before it has opened the file beside touches nothing. */
  predicate Touches(e: SaveEvent) { e.fault != MkdirFails && e.fault != EncodeFails && e.fault != OpenFails }

  /** A save that leaves a file beside: it fails after opening it and cannot remove it. */
  predicate Leaves(e: SaveEvent) { Touches(e) && e.fault != NoFault && e.stuck }

  function SaveFile(s: Store, e: SaveEvent, m: Machine): Store {
    var payload := Payload(ToSave(e.items, e.now), m);
    if !Touches(e) then s
    else if e.fault == NoFault then Store(payload, None)
    else if !e.stuck then s.(temporary := None)
    else s.(temporary := Some(if e.fault == WriteFails then Broken else payload))
  }

  function SaveAll(s: Store, events: seq<SaveEvent>, m: Machine): Store {
    if events == [] then s else SaveFile(SaveAll(s, events[..|events| - 1], m), events[|events| - 1], m)
  }

  predicate Succeeds(e: SaveEvent) { e.fault == NoFault }

  /** The last event that passes a test. */
  function Last(events: seq<SaveEvent>, test: SaveEvent -> bool): (r: Option<nat>)
    ensures r.Some? ==> r.value < |events| && test(events[r.value]) && forall j :: r.value < j < |events| ==> !test(events[j])
    ensures r.None? ==> forall j :: 0 <= j < |events| ==> !test(events[j])
  {
    if events == [] then None
    else if test(events[|events| - 1]) then Some(|events| - 1)
    else
      var r := Last(events[..|events| - 1], test);
      assert forall j :: 0 <= j < |events| - 1 ==> events[..|events| - 1][j] == events[j];
      r
  }

  /** Over any run of saves, whatever fails: the file is the one of the last save that succeeded, or as it was if
      none did, never a part of one; and a file is left beside it exactly if the last save that touched it could
      not remove it, or if none touched one that was there. */
  lemma {:induction false} SavesAreWhole(s: Store, events: seq<SaveEvent>, m: Machine)
    ensures var t, saved, touched := SaveAll(s, events, m), Last(events, Succeeds), Last(events, Touches);
            && t.file == (if saved.None? then s.file else Payload(ToSave(events[saved.value].items, events[saved.value].now), m))
            && (t.temporary.Some? <==> if touched.None? then s.temporary.Some? else Leaves(events[touched.value]))
  {
    hide Payload, ToSave;
    if events != [] {
      SavesAreWhole(s, events[..|events| - 1], m);
    }
  }

  /** What the metadata needs to survive: a save after 1970 whose time a float holds exactly. */
  predicate StampKept(items: seq<Preset>, saved: int, m: Machine) {
    if saved > 0 then m.convert(m.float(saved)) == saved else saved == Newest(items)
  }

  /** Listing after a save to the file shows what the save returned exactly if every preset keeps and so does the
      time of the save. */
  lemma FileListAfterSave(items: seq<Preset>, saved: int, now: int, m: Machine)
    requires NormalForm(items) && Sound(m)
    ensures Decoded(Payload(ToSave(items, saved), m), now, m) == Ok(ToSave(items, saved))
            <==> (forall k :: 0 <= k < |items| ==> Keeps(items[k], now, m)) && StampKept(items, saved, m)
  {
    hide Sanitize, AsInputs, NormalForm, Keeps;
    SanitizeAgain(items, now, m);
    TrimFacts("file");
    assert Trim("file") == "file";
    assert m.float(1) == 1 as real && m.convert(1.0) == (1.0).Floor == 1;
    assert m.float(saved) > 0.0 <==> saved > 0;
  }

  /** For an ordinary clock only truncation can spoil it. */
  lemma FileListAfterOrdinarySave(items: seq<Preset>, saved: int, now: int, m: Machine)
    requires NormalForm(items) && Sound(m) && 1 <= saved <= MaxExact
    requires forall k :: 0 <= k < |items| ==> 1 <= items[k].updatedAt <= MaxExact
    ensures Decoded(Payload(ToSave(items, saved), m), now, m) == Ok(ToSave(items, saved))
            <==> forall k :: 0 <= k < |items| ==> !EndsWhite(items[k].name) && !EndsWhite(items[k].group)
  {
    hide Sanitize, AsInputs, NormalForm, Decoded, Payload, EndsWhite, Sound, TimeKept;
    FileListAfterSave(items, saved, now, m);
    OrdinaryTimesAreKept(saved, now, m);
    assert StampKept(items, saved, m) by { OrdinaryStamp(items, saved, m); }
    forall k | 0 <= k < |items|
      ensures TimeKept(items[k].updatedAt, now, m)
    {
      OrdinaryTimesAreKept(items[k].updatedAt, now, m);
    }
  }

  lemma OrdinaryStamp(items: seq<Preset>, saved: int, m: Machine)
    requires Sound(m) && 1 <= saved <= MaxExact
    ensures StampKept(items, saved, m)
  {
    OrdinaryTimesAreKept(saved, saved, m);
  }

  /** Unlike the memory store, the file store's version is the time of the save, or 1: it increases only with the
      clock, and a save after the clock went back has an older version. */
  lemma FileVersionsFollowTheClock(items: seq<Preset>, items': seq<Preset>, saved: int, saved': int)
    ensures ToSave(items, saved).metadata.version < ToSave(items', saved').metadata.version <==> saved < saved' && 1 < saved'
  {
  }
}
