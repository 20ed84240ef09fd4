/** How an index crosses the link: times as seconds and nanoseconds, the map as a
    list in no particular order. */
module WireIndex {
  import opened Basics
  import opened Reconcile

  /** A time on disk, in nanoseconds from the epoch: 64-bit seconds and a part. */
  predicate SystemTime(time: int) {
    -0x8000_0000_0000_0000 * 1_000_000_000 <= time < 0x8000_0000_0000_0000 * 1_000_000_000
  }

  datatype WireTime = WireTime(secs: int, nanos: int)

  /** A 64-bit word, as the cast of a wider one truncates it. */
  function TruncateTo64(x: nat): nat {
    x % 0x1_0000_0000_0000_0000
  }

  /** The same for a signed 64-bit word. */
  function TruncateToI64(x: int): int {
    (x + 0x8000_0000_0000_0000) % 0x1_0000_0000_0000_0000 - 0x8000_0000_0000_0000
  }

  function ToWire(time: int): (wire: WireTime)
    ensures 0 <= wire.nanos < 1_000_000_000
    ensures SystemTime(time) ==> wire.secs * 1_000_000_000 + wire.nanos == time
  {
    WireTime(TruncateToI64(time / 1_000_000_000), time % 1_000_000_000)
  }

  function FromWire(wire: WireTime): int {
    var total := wire.secs * 1_000_000_000 + wire.nanos;
    if total >= 0 then TruncateTo64(total) else -(TruncateTo64(-total) as int)
  }

  /** Less than 2^64 nanoseconds from the epoch, on either side. */
  predicate Representable(time: int) {
    -0x1_0000_0000_0000_0000 < time < 0x1_0000_0000_0000_0000
  }

  /** A time survives the trip exactly when it is representable. */
  lemma TimeSurvivesIff(time: int)
    requires SystemTime(time)
    ensures FromWire(ToWire(time)) == time <==> Representable(time)
  {
    var total := ToWire(time).secs * 1_000_000_000 + ToWire(time).nanos;
    assert total == time;
  }

  datatype WireEntry =
    | WireFile(size: nat, mtime: WireTime, hash: Option<Digest>, meta: Metadata)
    | WireDir(meta: Metadata)
    | WireSymlink(target: Bytes)

  function EntryToWire(entry: Entry): WireEntry {
    match entry
    case File(size, mtime, hash, meta) => WireFile(size, ToWire(mtime), hash, meta)
    case Dir(meta) => WireDir(meta)
    case Symlink(target) => WireSymlink(target)
  }

  function EntryFromWire(wire: WireEntry): Entry {
    match wire
    case WireFile(size, mtime, hash, meta) => File(size, FromWire(mtime), hash, meta)
    case WireDir(meta) => Dir(meta)
    case WireSymlink(target) => Symlink(target)
  }

  ghost predicate OnDisk(index: Index) {
    forall path :: path in index && index[path].File? ==> SystemTime(index[path].mtime)
  }

  ghost predicate AllRepresentable(index: Index) {
    forall path :: path in index && index[path].File? ==> Representable(index[path].mtime)
  }

  /** One encoded entry for each path, in an order of its own. */
  method Flatten(index: Index) returns (entries: seq<(Path, WireEntry)>)
    ensures forall entry :: entry in entries <==> entry.0 in index && entry.1 == EntryToWire(index[entry.0])
  {
    entries := [];
    var left := index.Keys;
    while left != {}
      invariant left <= index.Keys
      invariant forall entry :: (entry in entries <==>
        entry.0 in index.Keys - left && entry.1 == EntryToWire(index[entry.0]))
      decreases |left|
    {
      var path :| path in left;
      left := left - {path};
      entries := entries + [(path, EntryToWire(index[path]))];
    }
  }

  /** Rebuilt by insertion, the last entry for a path being the one that stays. */
  method Unflatten(entries: seq<(Path, WireEntry)>) returns (index: Index)
    ensures forall entry :: entry in entries ==> entry.0 in index
    ensures forall path :: path in index ==>
      exists entry :: entry in entries && entry.0 == path && index[path] == EntryFromWire(entry.1)
  {
    index := map[];
    for k := 0 to |entries|
      invariant forall entry :: entry in entries[..k] ==> entry.0 in index
      invariant forall path :: path in index ==>
        exists entry :: entry in entries[..k] && entry.0 == path && index[path] == EntryFromWire(entry.1)
    {
      assert entries[..k + 1] == entries[..k] + [entries[k]];
      index := index[entries[k].0 := EntryFromWire(entries[k].1)];
    }
    assert entries[..|entries|] == entries;
  }

  /** What an index is on the other side of the link. */
  function Crossed(index: Index): Index {
    map path | path in index :: EntryFromWire(EntryToWire(index[path]))
  }

  method Cross(index: Index) returns (crossed: Index)
    ensures crossed == Crossed(index)
  {
    var entries := Flatten(index);
    crossed := Unflatten(entries);
    forall path | path in index
      ensures path in crossed
    {
      assert (path, EntryToWire(index[path])) in entries;
    }
  }

  /** An index crosses unchanged exactly when every file's time is representable. */
  lemma IndexSurvivesIff(index: Index)
    requires OnDisk(index)
    ensures Crossed(index) == index <==> AllRepresentable(index)
  {
    forall path | path in index
      ensures Crossed(index)[path] == index[path] <==> (index[path].File? ==> Representable(index[path].mtime))
    {
      if index[path].File? {
        TimeSurvivesIff(index[path].mtime);
      }
    }
    if Crossed(index) == index {
      assert forall path :: path in index ==> Crossed(index)[path] == index[path];
    }
  }

  /** What becomes of a file whose time does not survive: identical on both sides, it
      is planned for copying all the same, on every pass that compares by time. */
  lemma UnrepresentableIsAlwaysCopied(source: Index, target: Index, config: Config, path: Path)
    requires OnDisk(target) && path in source && path in target && source[path] == target[path]
    requires target[path].File? && target[path].hash.None? && !Representable(target[path].mtime)
    ensures Calls(source, Crossed(target), config, CopyFile(path))
  {
    TimeSurvivesIff(target[path].mtime);
  }
}
