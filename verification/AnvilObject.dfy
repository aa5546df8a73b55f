/** The loops of anvil.rs that read and write region files, and the loader that calls them. */
module AnvilObjects {
  import opened Wrappers
  import opened Bytes
  import opened Sorting
  import opened Anvil
  import opened AnvilLoaders

  // ---- reading ----

  lemma {:induction false} ShortFileEnds(data: seq<Byte>, slot: nat, n: nat)
    requires slot <= n && 4 * slot + 4 > |data|
    ensures OpenedTo(data, n) == OpenedTo(data, slot)
    decreases n
  {
    if slot < n {
      ShortFileEnds(data, slot, n - 1);
    }
  }

  lemma OpenedNothing(data: seq<Byte>)
    ensures OpenedTo(data, 0) == map[]
  {
  }

  /** What one entry of the table adds. */
  lemma OpenedNext(data: seq<Byte>, slot: nat)
    requires 4 * slot + 4 <= |data|
    ensures var off := 4 * slot;
            var sector, count: int := Sector24(data[off], data[off + 1], data[off + 2]), data[off + 3];
            var start := SECTOR * sector;
            var end := start + SECTOR * count;
            OpenedTo(data, slot + 1) ==
            if sector != 0 && count != 0 && end <= |data|
            then OpenedTo(data, slot)[KeyOf(slot) := data[start..end]] else OpenedTo(data, slot)
  {
  }

  /** Walks the location table; a file too short to hold the next entry ends the walk. */
  method ReadRegion(data: seq<Byte>) returns (chunks: Chunks)
    ensures chunks == Open(data)
  {
    hide OpenedTo, KeyOf;
    OpenedNothing(data);
    chunks := map[];
    var slot: nat := 0;
    while slot < SLOT_COUNT
      invariant slot <= SLOT_COUNT && chunks == OpenedTo(data, slot)
    {
      var off := 4 * slot;
      if off + 4 > |data| {
        ShortFileEnds(data, slot, SLOT_COUNT);
        return;
      }
      OpenedNext(data, slot);
      var sector := Sector24(data[off], data[off + 1], data[off + 2]);
      var count: int := data[off + 3];
      var start := SECTOR * sector;
      var end := start + SECTOR * count;
      if sector != 0 && count != 0 && end <= |data| {
        chunks := chunks[KeyOf(slot) := data[start..end]];
      }
      slot := slot + 1;
    }
  }

  // ---- writing ----

  lemma AppendSlot(chunks: Chunks, slot: nat)
    ensures Cursor(chunks, slot + 1) == Cursor(chunks, slot) + Sectors(BlobAt(chunks, slot))
    ensures Body(chunks, slot + 1) == Body(chunks, slot) + Padded(BlobAt(chunks, slot))
    ensures Locations(chunks, slot + 1) == Locations(chunks, slot) + LocationAt(chunks, slot)
  {
  }

  /** Slots without a chunk take no sector and leave zeros in the table. */
  lemma {:induction false} Gap(chunks: Chunks, a: nat, b: nat)
    requires a <= b && forall slot | a <= slot < b :: KeyOf(slot) !in chunks
    ensures Cursor(chunks, b) == Cursor(chunks, a) && Body(chunks, b) == Body(chunks, a)
    ensures Locations(chunks, b) == Locations(chunks, a) + Zeros(4 * (b - a))
    decreases b
  {
    hide KeyOf, Cursor, Body, Locations, Padded, Sectors;
    if a < b {
      Gap(chunks, a, b - 1);
      AppendSlot(chunks, b - 1);
      EmptyTakesNothing();
      assert LocationAt(chunks, b - 1) == Zeros(4);
      assert Zeros(4 * (b - 1 - a)) + Zeros(4) == Zeros(4 * (b - a));
    } else {
      assert Zeros(4 * (b - a)) == [];
    }
  }

  /** The slots of the stored chunks, each once. */
  method SlotsOf(chunks: Chunks) returns (slots: seq<nat>)
    requires AllLocal(chunks)
    ensures forall i, j | 0 <= i < j < |slots| :: slots[i] != slots[j]
    ensures forall slot: nat :: slot in slots <==> slot < SLOT_COUNT && KeyOf(slot) in chunks
  {
    slots := [];
    var keys := chunks.Keys;
    while keys != {}
      invariant keys <= chunks.Keys
      invariant forall i, j | 0 <= i < j < |slots| :: slots[i] != slots[j]
      invariant forall slot: nat :: slot in slots <==> slot < SLOT_COUNT && KeyOf(slot) in chunks.Keys - keys
      decreases |keys|
    {
      var k :| k in keys;
      AddSlot(chunks.Keys, keys, k, slots);
      slots := slots + [SlotOf(k)];
      keys := keys - {k};
    }
  }

  lemma AddSlot(all: set<Key>, keys: set<Key>, k: Key, slots: seq<nat>)
    requires k in keys && keys <= all && IsLocal(k)
    requires forall slot: nat :: slot in slots <==> slot < SLOT_COUNT && KeyOf(slot) in all - keys
    ensures SlotOf(k) !in slots
    ensures forall slot: nat :: slot in slots + [SlotOf(k)] <==> slot < SLOT_COUNT && KeyOf(slot) in all - (keys - {k})
  {
    hide KeyOf, SlotOf;
    SlotsAreKeys(k);
    forall slot: nat
      ensures slot in slots + [SlotOf(k)] <==> slot < SLOT_COUNT && KeyOf(slot) in all - (keys - {k})
    {
      if slot < SLOT_COUNT {
        KeysAreSlots(slot);
      }
    }
  }

  /** The first slot not yet laid out when n of the sorted slots are done. */
  function Done(slots: seq<nat>, n: nat): nat
    requires n <= |slots|
  {
    if n == 0 then 0 else slots[n - 1] + 1
  }

  /** Between one stored slot and the next nothing is stored. */
  lemma NothingBetween(chunks: Chunks, slots: seq<nat>, n: nat)
    requires Ascending(slots) && n <= |slots|
    requires forall slot: nat :: slot in slots <==> slot < SLOT_COUNT && KeyOf(slot) in chunks
    ensures var next := if n < |slots| then slots[n] else SLOT_COUNT;
            Done(slots, n) <= next <= SLOT_COUNT
            && forall slot | Done(slots, n) <= slot < next :: KeyOf(slot) !in chunks
  {
    hide KeyOf;
    var next := if n < |slots| then slots[n] else SLOT_COUNT;
    assert n < |slots| ==> slots[n] in slots;
    assert n > 0 ==> slots[n - 1] in slots;
    forall slot | Done(slots, n) <= slot < next
      ensures KeyOf(slot) !in chunks
    {
      if slot in slots {
        var i :| 0 <= i < |slots| && slots[i] == slot;
      }
    }
  }

  /** Overwrites one entry of the location table. */
  method PutLocation(location: seq<Byte>, slot: nat, cursor: nat, count: nat) returns (r: seq<Byte>)
    requires count != 0 && 4 * slot + 4 <= |location|
    ensures r == location[..4 * slot] + Location(cursor, count) + location[4 * slot + 4..]
  {
    var entry := [cursor / 0x1_0000 % 256, cursor / 0x100 % 256, cursor % 256, count % 256];
    r := location[..4 * slot] + entry + location[4 * slot + 4..];
  }

  lemma EmptyBlobLeavesTable(chunks: Chunks, before: seq<Byte>, done: nat, slot: nat)
    requires done <= slot < SLOT_COUNT && before == Locations(chunks, done) + Zeros(4 * (SLOT_COUNT - done))
    requires Sectors(BlobAt(chunks, slot)) == 0
    ensures before == before[..4 * slot] + LocationAt(chunks, slot) + before[4 * slot + 4..]
    ensures Padded(BlobAt(chunks, slot)) == []
  {
    hide Locations, Cursor, BlobAt, Sectors;
    assert before[4 * slot..4 * slot + 4] == Zeros(4) == LocationAt(chunks, slot);
    AtLeastItself(BlobAt(chunks, slot));
  }

  /** Lays out the stored chunks in slot order, filling the location table as it goes. */
  method WriteRegion(chunks: Chunks) returns (file: seq<Byte>)
    requires AllLocal(chunks)
    ensures file == Flush(chunks)
  {
    hide KeyOf, Padded, Sectors, Cursor, Body, Locations, Location;
    var location := Zeros(4 * SLOT_COUNT);
    var body: seq<Byte> := [];
    var cursor: nat := HEADER_SECTORS;
    var stored := SlotsOf(chunks);
    var slots := SortAscending(stored);
    StartOfLayout(chunks);
    var n := 0;
    while n < |slots|
      invariant n <= |slots| && Done(slots, n) <= SLOT_COUNT
      invariant cursor == Cursor(chunks, Done(slots, n)) && body == Body(chunks, Done(slots, n))
      invariant location == Locations(chunks, Done(slots, n)) + Zeros(4 * (SLOT_COUNT - Done(slots, n)))
    {
      var slot := slots[n];
      NothingBetween(chunks, slots, n);
      Gap(chunks, Done(slots, n), slot);
      AppendSlot(chunks, slot);
      assert slot in slots;
      var payload := chunks[KeyOf(slot)];
      var count := Sectors(payload);
      ghost var before := location;
      if count != 0 {
        location := PutLocation(location, slot, cursor, count);
        body := body + Padded(payload);
        cursor := cursor + count;
      } else {
        EmptyBlobLeavesTable(chunks, before, Done(slots, n), slot);
      }
      TableAdvances(chunks, before, Done(slots, n), slot, location);
      n := n + 1;
    }
    NothingBetween(chunks, slots, n);
    Gap(chunks, Done(slots, n), SLOT_COUNT);
    file := location + Zeros(SECTOR) + body;
  }

  lemma StartOfLayout(chunks: Chunks)
    ensures Cursor(chunks, 0) == HEADER_SECTORS && Body(chunks, 0) == [] && Locations(chunks, 0) == []
  {
  }

  /** The table after one more entry, with the zeros of the gap before it. */
  lemma TableAdvances(chunks: Chunks, before: seq<Byte>, done: nat, slot: nat, after: seq<Byte>)
    requires done <= slot < SLOT_COUNT && before == Locations(chunks, done) + Zeros(4 * (SLOT_COUNT - done))
    requires Locations(chunks, slot) == Locations(chunks, done) + Zeros(4 * (slot - done))
    requires Locations(chunks, slot + 1) == Locations(chunks, slot) + LocationAt(chunks, slot)
    requires after == before[..4 * slot] + LocationAt(chunks, slot) + before[4 * slot + 4..]
    ensures after == Locations(chunks, slot + 1) + Zeros(4 * (SLOT_COUNT - (slot + 1)))
  {
    hide Locations, LocationAt;
    assert before[..4 * slot] == Locations(chunks, slot);
    assert before[4 * slot + 4..] == Zeros(4 * (SLOT_COUNT - (slot + 1)));
  }

  // ---- the loader ----

  /** `AnvilChunkLoader`: region views held in memory, the files behind them, the index of positions. */
  class AnvilChunkLoader {
    const codec: Codec
    var disk: map<Key, seq<Byte>>
    var regions: map<Key, Chunks>
    var index: set<Key>

    function View(): Loader
      reads this
    {
      Loader(disk, regions, index)
    }

    ghost predicate Valid()
      reads this
    {
      LoaderOk(View())
    }

    /** Reads every region file of the directory, in whatever order it lists them. */
    constructor (codec: Codec, disk: map<Key, seq<Byte>>)
      ensures this.codec == codec && Valid() && View() == Restart(disk)
    {
      hide OpenAll, ScannedIndex, Scanned, Open, LoaderOk;
      RestartIsOk(disk);
      this.codec := codec;
      this.disk := disk;
      this.regions := map[];
      this.index := {};
      new;
      ScanNothing(disk);
      var files := disk.Keys;
      while files != {}
        invariant files <= disk.Keys
        invariant View() == Loader(disk, OpenAll(Scanned(disk, files)), ScannedIndex(Scanned(disk, files)))
        decreases |files|
      {
        var r :| r in files;
        var chunks := ReadRegion(disk[r]);
        var positions := PositionsOf(r, chunks);
        ScanOneMore(disk, files, r);
        index := index + positions;
        regions := regions[r := chunks];
        files := files - {r};
      }
    }

    method RegionFor(region: Key) returns (chunks: Chunks)
      ensures chunks == RegionView(View(), region)
    {
      hide Open;
      if region in regions {
        chunks := regions[region];
      } else if region in disk {
        chunks := ReadRegion(disk[region]);
      } else {
        chunks := map[];
      }
    }

    method Save(p: Key, payload: seq<Byte>)
      requires Valid()
      modifies this`disk, this`regions, this`index
      ensures Valid() && View() == AnvilLoaders.Save(codec, old(View()), p, payload)
    {
      hide LoaderOk, Open, Flush, LocalOf, RegionOf, RegionView, IsLocal, MakeBlob;
      ghost var before := View();
      SaveIsLocal(codec, View(), p, payload);
      var region := RegionOf(p);
      var chunks := RegionFor(region);
      regions := regions[region := chunks];
      var blob := MakeBlob(codec, payload);
      if blob.Some? {
        chunks := chunks[LocalOf(p) := blob.value];
        regions := regions[region := chunks];
        var file := WriteRegion(chunks);
        disk := disk[region := file];
        index := index + {p};
      }
      assert View() == AnvilLoaders.Save(codec, before, p, payload);
    }

    method Load(p: Key) returns (payload: Option<seq<Byte>>)
      ensures payload == AnvilLoaders.Load(codec, View(), p)
    {
      var region := RegionOf(p);
      if region !in regions || LocalOf(p) !in regions[region] {
        return None;
      }
      payload := ParseBlob(codec, regions[region][LocalOf(p)]);
    }

    method Contains(p: Key) returns (found: bool)
      requires Valid()
      ensures found <==> Holds(View(), p)
    {
      hide Holds;
      found := p in index;
    }
  }

  lemma SaveIsLocal(codec: Codec, l: Loader, p: Key, payload: seq<Byte>)
    requires LoaderOk(l)
    ensures LoaderOk(AnvilLoaders.Save(codec, l, p, payload))
    ensures AllLocal(RegionView(l, RegionOf(p))) && IsLocal(LocalOf(p))
  {
    hide AnvilLoaders.Save, RegionView, RegionOf, LocalOf;
    SaveIsOk(codec, l, p, payload);
    ViewOfOk(l, RegionOf(p));
    LocalIsLocal(p);
  }

  /** The world positions of a region's chunks. */
  method PositionsOf(region: Key, chunks: Chunks) returns (positions: set<Key>)
    ensures positions == set local | local in chunks :: Position(region, local)
  {
    hide Position;
    positions := {};
    var keys := chunks.Keys;
    while keys != {}
      invariant keys <= chunks.Keys
      invariant positions == set local | local in chunks.Keys - keys :: Position(region, local)
      decreases |keys|
    {
      var k :| k in keys;
      positions := positions + {Position(region, k)};
      keys := keys - {k};
    }
  }

  /** The part of the directory already read. */
  function Scanned(disk: map<Key, seq<Byte>>, files: set<Key>): map<Key, seq<Byte>> {
    map r | r in disk.Keys - files :: disk[r]
  }

  lemma ScanNothing(disk: map<Key, seq<Byte>>)
    ensures Scanned(disk, {}) == disk && Scanned(disk, disk.Keys) == map[]
    ensures OpenAll(map[]) == map[] && ScannedIndex(map[]) == {}
  {
  }

  lemma ScanOneMore(disk: map<Key, seq<Byte>>, files: set<Key>, r: Key)
    requires files <= disk.Keys && r in files
    ensures var before, after := Scanned(disk, files), Scanned(disk, files - {r});
            && OpenAll(after) == OpenAll(before)[r := Open(disk[r])]
            && ScannedIndex(after) == ScannedIndex(before) + set local | local in Open(disk[r]) :: Position(r, local)
  {
    hide Open, Position;
    var before, after := Scanned(disk, files), Scanned(disk, files - {r});
    var added := set local | local in Open(disk[r]) :: Position(r, local);
    forall p: Key
      ensures p in ScannedIndex(after) <==> p in ScannedIndex(before) || p in added
    {
      if p in ScannedIndex(after) {
        var region, local :| region in after && local in Open(after[region]) && p == Position(region, local);
        assert region != r ==> region in before;
      }
      if p in ScannedIndex(before) {
        var region, local :| region in before && local in Open(before[region]) && p == Position(region, local);
        assert region in after && after[region] == before[region];
      }
    }
  }
}
