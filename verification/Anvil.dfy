/** Region files of anvil.rs: 32 by 32 chunk blobs in 4096-byte sectors behind a location table. */
module Anvil {
  import opened Wrappers
  import opened Bytes
  import opened Sorting

  const DIM: nat := 32
  const SECTOR: nat := 4096
  const HEADER_SECTORS: nat := 2
  const SLOT_COUNT: nat := 1024

  /** Chunk coordinates inside a region: x and z. */
  type Key = (int, int)

  type Chunks = map<Key, seq<Byte>>

  // ---- coordinates ----

  /** Euclidean division, so that negative coordinates belong to the region below. */
  function RegionCoords(x: int, z: int): (int, int) {
    (x / DIM, z / DIM)
  }

  function LocalCoords(x: int, z: int): Key {
    (x % DIM, z % DIM)
  }

  predicate IsLocal(k: Key) {
    0 <= k.0 < DIM && 0 <= k.1 < DIM
  }

  function KeyOf(slot: nat): Key {
    (slot % DIM, slot / DIM)
  }

  function SlotOf(k: Key): nat
    requires IsLocal(k)
  {
    k.1 * DIM + k.0
  }

  lemma CoordsRecombine(x: int, z: int)
    ensures IsLocal(LocalCoords(x, z))
    ensures RegionCoords(x, z).0 * DIM + LocalCoords(x, z).0 == x
    ensures RegionCoords(x, z).1 * DIM + LocalCoords(x, z).1 == z
  {
  }

  /** A chunk position is its region and its place in it; no two positions share both. */
  lemma CoordsAreUnique(x: int, z: int, r: (int, int), k: Key)
    requires IsLocal(k)
    ensures x == r.0 * DIM + k.0 && z == r.1 * DIM + k.1 <==> RegionCoords(x, z) == r && LocalCoords(x, z) == k
  {
  }

  lemma SlotsAreKeys(k: Key)
    requires IsLocal(k)
    ensures SlotOf(k) < SLOT_COUNT && KeyOf(SlotOf(k)) == k
  {
  }

  lemma KeysAreSlots(slot: nat)
    requires slot < SLOT_COUNT
    ensures IsLocal(KeyOf(slot)) && SlotOf(KeyOf(slot)) == slot
  {
  }

  // ---- writing a region ----

  function Zeros(n: nat): (r: seq<Byte>)
    ensures |r| == n
  {
    seq(n, _ => 0)
  }

  function Sectors(blob: seq<Byte>): nat {
    (|blob| + SECTOR - 1) / SECTOR
  }

  function Padded(blob: seq<Byte>): (r: seq<Byte>)
    ensures |r| == SECTOR * Sectors(blob)
  {
    blob + Zeros(SECTOR * Sectors(blob) - |blob|)
  }

  /** The blob of a slot; an absent one takes no room. */
  function BlobAt(chunks: Chunks, slot: nat): seq<Byte> {
    if KeyOf(slot) in chunks then chunks[KeyOf(slot)] else []
  }

  /** The first sector after the blobs of slots below this one. */
  function Cursor(chunks: Chunks, slot: nat): nat {
    if slot == 0 then HEADER_SECTORS else Cursor(chunks, slot - 1) + Sectors(BlobAt(chunks, slot - 1))
  }

  function Body(chunks: Chunks, slot: nat): (r: seq<Byte>)
    ensures |r| == SECTOR * (Cursor(chunks, slot) - HEADER_SECTORS)
  {
    CursorAtLeast(chunks, slot);
    if slot == 0 then [] else Body(chunks, slot - 1) + Padded(BlobAt(chunks, slot - 1))
  }

  lemma CursorAtLeast(chunks: Chunks, slot: nat)
    ensures Cursor(chunks, slot) >= HEADER_SECTORS
  {
  }

  /** Three bytes of sector number and one of sector count; what does not fit is cut off. */
  function Location(sector: nat, count: nat): (r: seq<Byte>)
    ensures |r| == 4
  {
    if count == 0 then [0, 0, 0, 0]
    else [sector / 0x1_0000 % 256, sector / 0x100 % 256, sector % 256, count % 256]
  }

  function LocationAt(chunks: Chunks, slot: nat): (r: seq<Byte>)
    ensures |r| == 4
  {
    Location(Cursor(chunks, slot), Sectors(BlobAt(chunks, slot)))
  }

  function Locations(chunks: Chunks, slot: nat): (r: seq<Byte>)
    ensures |r| == 4 * slot
  {
    if slot == 0 then [] else Locations(chunks, slot - 1) + LocationAt(chunks, slot - 1)
  }

  /** The file: location table, timestamps, blobs padded to whole sectors in slot order. */
  function Flush(chunks: Chunks): seq<Byte> {
    Locations(chunks, SLOT_COUNT) + Zeros(SECTOR) + Body(chunks, SLOT_COUNT)
  }

  // ---- reading a region ----

  function Sector24(high: int, middle: int, low: int): int {
    0x1_0000 * high + 0x100 * middle + low
  }

  function SlotBlob(data: seq<Byte>, slot: nat): Option<seq<Byte>> {
    var off := 4 * slot;
    if off + 4 > |data| then None
    else
      var sector := Sector24(data[off], data[off + 1], data[off + 2]);
      var count: int := data[off + 3];
      var start, end := SECTOR * sector, SECTOR * sector + SECTOR * count;
      if sector == 0 || count == 0 || end > |data| then None else Some(data[start..end])
  }

  function OpenedTo(data: seq<Byte>, slot: nat): Chunks {
    if slot == 0 then map[]
    else
      match SlotBlob(data, slot - 1)
      case Some(blob) => OpenedTo(data, slot - 1)[KeyOf(slot - 1) := blob]
      case None => OpenedTo(data, slot - 1)
  }

  function Open(data: seq<Byte>): Chunks {
    OpenedTo(data, SLOT_COUNT)
  }

  lemma {:induction false} OpenedHas(data: seq<Byte>, n: nat, slot: nat)
    requires n <= SLOT_COUNT && slot < SLOT_COUNT
    ensures KeyOf(slot) in OpenedTo(data, n) <==> slot < n && SlotBlob(data, slot).Some?
    ensures KeyOf(slot) in OpenedTo(data, n) ==> Some(OpenedTo(data, n)[KeyOf(slot)]) == SlotBlob(data, slot)
  {
    hide SlotBlob;
    if n > 0 {
      OpenedHas(data, n - 1, slot);
      KeysAreSlots(slot);
      KeysAreSlots(n - 1);
      hide KeyOf;
    }
  }

  lemma {:induction false} OpenedIsLocal(data: seq<Byte>, n: nat, k: Key)
    requires n <= SLOT_COUNT && k in OpenedTo(data, n)
    ensures IsLocal(k)
  {
    hide SlotBlob;
    if n > 0 {
      KeysAreSlots(n - 1);
      hide KeyOf;
      if k != KeyOf(n - 1) {
        OpenedIsLocal(data, n - 1, k);
      }
    }
  }

  // ---- where things are in the file ----

  lemma {:induction false} CursorGrows(chunks: Chunks, a: nat, b: nat)
    requires a <= b
    ensures Cursor(chunks, a) <= Cursor(chunks, b)
    ensures a < b ==> Cursor(chunks, a) + Sectors(BlobAt(chunks, a)) <= Cursor(chunks, b)
    decreases b
  {
    hide Sectors, BlobAt;
    if a < b {
      CursorGrows(chunks, a, b - 1);
    }
  }

  /** The sectors of two chunks never overlap, and none lies in the header. */
  lemma SectorsAreDisjoint(chunks: Chunks, a: nat, b: nat, i: nat)
    requires a < b < SLOT_COUNT
    requires Cursor(chunks, a) <= i < Cursor(chunks, a) + Sectors(BlobAt(chunks, a))
    ensures i >= HEADER_SECTORS && !(Cursor(chunks, b) <= i < Cursor(chunks, b) + Sectors(BlobAt(chunks, b)))
  {
    hide Sectors, BlobAt;
    CursorGrows(chunks, a, b);
    CursorAtLeast(chunks, a);
  }

  lemma {:induction false} CursorBound(chunks: Chunks, slot: nat, most: nat)
    requires forall k | k in chunks :: Sectors(chunks[k]) <= most
    ensures Cursor(chunks, slot) <= HEADER_SECTORS + most * slot
  {
    hide Sectors;
    if slot > 0 {
      CursorBound(chunks, slot - 1, most);
      assert Sectors(BlobAt(chunks, slot - 1)) <= most by {
        if KeyOf(slot - 1) !in chunks {
          EmptyTakesNothing();
        }
      }
      assert most * slot == most * (slot - 1) + most;
    }
  }

  lemma EmptyTakesNothing()
    ensures Sectors([]) == 0 && Padded([]) == []
  {
  }

  lemma {:induction false} BodyPrefix(chunks: Chunks, a: nat, b: nat)
    requires a <= b
    ensures |Body(chunks, a)| <= |Body(chunks, b)| && Body(chunks, b)[..|Body(chunks, a)|] == Body(chunks, a)
    decreases b
  {
    hide Padded, BlobAt, Cursor;
    if a < b {
      BodyPrefix(chunks, a, b - 1);
    }
  }

  /** The padded blob stands in the body where its sectors say. */
  lemma BodySlice(chunks: Chunks, slot: nat)
    requires slot < SLOT_COUNT
    ensures var start, n := |Body(chunks, slot)|, |Padded(BlobAt(chunks, slot))|;
            start + n <= |Body(chunks, SLOT_COUNT)|
            && Body(chunks, SLOT_COUNT)[start..start + n] == Padded(BlobAt(chunks, slot))
  {
    hide Padded, BlobAt, Cursor;
    BodyPrefix(chunks, slot + 1, SLOT_COUNT);
    BodyStep(chunks, slot);
    var all, next, here := Body(chunks, SLOT_COUNT), Body(chunks, slot + 1), Body(chunks, slot);
    assert all[|here|..|next|] == all[..|next|][|here|..];
  }

  lemma BodyStep(chunks: Chunks, slot: nat)
    ensures Body(chunks, slot + 1) == Body(chunks, slot) + Padded(BlobAt(chunks, slot))
  {
  }

  lemma {:induction false} LocationSlice(chunks: Chunks, slot: nat, n: nat)
    requires slot < n
    ensures Locations(chunks, n)[4 * slot..4 * slot + 4] == LocationAt(chunks, slot)
  {
    hide LocationAt;
    if slot < n - 1 {
      LocationSlice(chunks, slot, n - 1);
      assert Locations(chunks, n)[4 * slot..4 * slot + 4] == Locations(chunks, n - 1)[4 * slot..4 * slot + 4];
    }
  }

  lemma FileParts(chunks: Chunks, slot: nat)
    requires slot < SLOT_COUNT
    ensures var file := Flush(chunks);
            && |file| == SECTOR * Cursor(chunks, SLOT_COUNT)
            && 4 * slot + 4 <= |file| && file[4 * slot..4 * slot + 4] == LocationAt(chunks, slot)
            && (var start, n := SECTOR * Cursor(chunks, slot), SECTOR * Sectors(BlobAt(chunks, slot));
                start + n <= |file| && file[start..start + n] == Padded(BlobAt(chunks, slot)))
  {
    hide Padded, BlobAt, LocationAt, Sectors, Cursor, Body;
    CursorAtLeast(chunks, slot);
    CursorAtLeast(chunks, SLOT_COUNT);
    LocationSlice(chunks, slot, SLOT_COUNT);
    BodySlice(chunks, slot);
    var table, body := Locations(chunks, SLOT_COUNT), Body(chunks, SLOT_COUNT);
    var head := table + Zeros(SECTOR);
    var file := Flush(chunks);
    assert file == head + body && |head| == SECTOR * HEADER_SECTORS;
    assert file[4 * slot..4 * slot + 4] == table[4 * slot..4 * slot + 4];
    var start, n := |Body(chunks, slot)|, |Padded(BlobAt(chunks, slot))|;
    assert file[|head| + start..|head| + start + n] == body[start..start + n];
  }

  // ---- reopening ----

  lemma LocationRead(sector: nat, count: nat)
    requires 0 < count && sector < 0x100_0000
    ensures var r := Location(sector, count); Sector24(r[0], r[1], r[2]) == sector
  {
    var rest := sector / 0x100;
    assert sector == 0x100 * rest + sector % 0x100;
    assert rest == 0x100 * (rest / 0x100) + rest % 0x100;
    assert sector / 0x1_0000 == rest / 0x100 < 256;
  }

  /** The entry of a stored blob, read back. */
  lemma EntryReads(chunks: Chunks, slot: nat)
    requires slot < SLOT_COUNT && Cursor(chunks, slot) < 0x100_0000 && Sectors(BlobAt(chunks, slot)) > 0
    ensures var file, off := Flush(chunks), 4 * slot;
            && off + 4 <= |file|
            && Sector24(file[off], file[off + 1], file[off + 2]) == Cursor(chunks, slot)
            && file[off + 3] == Sectors(BlobAt(chunks, slot)) % 256
  {
    hide Padded, BlobAt, Sectors, Cursor, Flush, Sector24;
    FileParts(chunks, slot);
    var file, r, off := Flush(chunks), LocationAt(chunks, slot), 4 * slot;
    LocationRead(Cursor(chunks, slot), Sectors(BlobAt(chunks, slot)));
    assert r[0] == file[off..off + 4][0] == file[off];
    assert r[1] == file[off..off + 4][1] == file[off + 1];
    assert r[2] == file[off..off + 4][2] == file[off + 2];
    assert r[3] == file[off..off + 4][3] == file[off + 3];
  }

  /** What is read back is the padded blob, cut to its sector count modulo 256; nothing when that is 0. */
  lemma SlotReopens(chunks: Chunks, slot: nat)
    requires slot < SLOT_COUNT && Cursor(chunks, slot) < 0x100_0000 && Sectors(BlobAt(chunks, slot)) > 0
    ensures var kept := Sectors(BlobAt(chunks, slot)) % 256;
            SlotBlob(Flush(chunks), slot) ==
            if kept == 0 then None else Some(Padded(BlobAt(chunks, slot))[..SECTOR * kept])
  {
    hide Padded, BlobAt, Sectors, Cursor, Flush, LocationAt, Sector24;
    FileParts(chunks, slot);
    EntryReads(chunks, slot);
    CursorAtLeast(chunks, slot);
    var n := Sectors(BlobAt(chunks, slot));
    CutSlice(Flush(chunks), SECTOR * Cursor(chunks, slot), n, n % 256);
  }

  lemma CutSlice(file: seq<Byte>, start: nat, n: nat, kept: nat)
    requires kept <= n && start + SECTOR * n <= |file|
    ensures file[start..start + SECTOR * n][..SECTOR * kept] == file[start..start + SECTOR * kept]
  {
  }

  /** A blob whose sector count does not fit its byte comes back shorter or not at all. */
  lemma SlotDoesNotReopen(chunks: Chunks, slot: nat)
    requires slot < SLOT_COUNT && !(1 <= Sectors(BlobAt(chunks, slot)) <= 255)
    ensures SlotBlob(Flush(chunks), slot) != Some(Padded(BlobAt(chunks, slot)))
  {
    hide Padded, BlobAt, Sectors, Cursor, Flush;
    FileParts(chunks, slot);
    var file, r := Flush(chunks), LocationAt(chunks, slot);
    assert file[4 * slot + 3] == r[3] by {
      assert file[4 * slot..4 * slot + 4][3] == file[4 * slot + 3];
    }
    var n := Sectors(BlobAt(chunks, slot));
    if SlotBlob(file, slot).Some? {
      assert |SlotBlob(file, slot).value| == SECTOR * r[3];
      assert |Padded(BlobAt(chunks, slot))| == SECTOR * n;
    }
  }

  lemma AbsentStaysAbsent(chunks: Chunks, slot: nat)
    requires slot < SLOT_COUNT && KeyOf(slot) !in chunks
    ensures SlotBlob(Flush(chunks), slot) == None
  {
    hide Padded, Cursor, Flush;
    FileParts(chunks, slot);
    EmptyTakesNothing();
    var file, r := Flush(chunks), LocationAt(chunks, slot);
    assert r == [0, 0, 0, 0];
    assert file[4 * slot + 3] == r[3] by {
      assert file[4 * slot..4 * slot + 4][3] == file[4 * slot + 3];
    }
  }

  predicate AllLocal(chunks: Chunks) {
    forall k | k in chunks :: IsLocal(k)
  }

  /** Blobs of 1 to 255 sectors. */
  predicate AllFit(chunks: Chunks) {
    forall k | k in chunks :: 1 <= Sectors(chunks[k]) <= 255
  }

  function AllPadded(chunks: Chunks): Chunks {
    map k | k in chunks :: Padded(chunks[k])
  }

  lemma ReopenSlot(chunks: Chunks, slot: nat)
    requires AllFit(chunks) && slot < SLOT_COUNT
    ensures KeyOf(slot) in Open(Flush(chunks)) <==> KeyOf(slot) in chunks
    ensures KeyOf(slot) in chunks ==> Open(Flush(chunks))[KeyOf(slot)] == Padded(chunks[KeyOf(slot)])
  {
    hide Padded, Sectors, Cursor, Flush, SlotBlob, KeyOf;
    OpenedHas(Flush(chunks), SLOT_COUNT, slot);
    if KeyOf(slot) in chunks {
      CursorBound(chunks, slot, 255);
      SlotReopens(chunks, slot);
    } else {
      AbsentStaysAbsent(chunks, slot);
    }
  }

  /** Reopening a flushed region gives exactly the stored blobs, each padded to whole sectors, if and
    * only if every blob takes 1 to 255 sectors. */
  lemma ReopenIff(chunks: Chunks)
    requires AllLocal(chunks)
    ensures Open(Flush(chunks)) == AllPadded(chunks) <==> AllFit(chunks)
  {
    hide Padded, Sectors, Cursor, Flush, SlotBlob, KeyOf;
    if AllFit(chunks) {
      forall k: Key
        ensures k in Open(Flush(chunks)) <==> k in chunks
        ensures k in chunks ==> Open(Flush(chunks))[k] == Padded(chunks[k])
      {
        if IsLocal(k) {
          SlotsAreKeys(k);
          ReopenSlot(chunks, SlotOf(k));
        } else if k in Open(Flush(chunks)) {
          OpenedIsLocal(Flush(chunks), SLOT_COUNT, k);
        }
      }
      assert Open(Flush(chunks)) == AllPadded(chunks);
    } else {
      var k :| k in chunks && !(1 <= Sectors(chunks[k]) <= 255);
      SlotsAreKeys(k);
      SlotDoesNotReopen(chunks, SlotOf(k));
      OpenedHas(Flush(chunks), SLOT_COUNT, SlotOf(k));
      assert k in AllPadded(chunks) && AllPadded(chunks)[k] == Padded(chunks[k]);
    }
  }

  lemma PaddedTwice(blob: seq<Byte>)
    ensures Sectors(Padded(blob)) == Sectors(blob) && Padded(Padded(blob)) == Padded(blob)
  {
    var n := Sectors(blob);
    assert Sectors(Padded(blob)) == (SECTOR * n + SECTOR - 1) / SECTOR == n;
  }

  lemma {:induction false} SameLayout(chunks: Chunks, slot: nat)
    ensures Cursor(AllPadded(chunks), slot) == Cursor(chunks, slot)
    ensures Body(AllPadded(chunks), slot) == Body(chunks, slot)
    ensures Locations(AllPadded(chunks), slot) == Locations(chunks, slot)
  {
    hide Padded, Sectors, KeyOf;
    if slot > 0 {
      SameLayout(chunks, slot - 1);
      if KeyOf(slot - 1) in chunks {
        PaddedTwice(chunks[KeyOf(slot - 1)]);
      }
    }
  }

  /** Flushing a reopened region writes the same file again, byte for byte. */
  lemma ReflushIsIdentical(chunks: Chunks)
    requires AllLocal(chunks) && AllFit(chunks)
    ensures Flush(Open(Flush(chunks))) == Flush(chunks)
  {
    hide Open, Locations, Body, AllFit, AllLocal, AllPadded;
    ReopenIff(chunks);
    SameLayout(chunks, SLOT_COUNT);
  }
}
