/** The region-file chunk loader of anvil.rs: payloads kept in memory, on disk, and across restarts.
  *
  * The zlib codec is a parameter, and the directory is a map from region to file content. */
module AnvilLoaders {
  import opened Wrappers
  import opened Bytes
  import opened Anvil

  const ZLIB: Byte := 1

  datatype Codec = Codec(compress: seq<Byte> -> Option<seq<Byte>>, decompress: seq<Byte> -> Option<seq<Byte>>)

  ghost predicate Invertible(codec: Codec) {
    forall x: seq<Byte> | codec.compress(x).Some? :: codec.decompress(codec.compress(x).value) == Some(x)
  }

  // ---- blobs ----

  /** Four bytes of length, one of compression type, the compressed payload. */
  function MakeBlob(codec: Codec, payload: seq<Byte>): Option<seq<Byte>> {
    match codec.compress(payload)
    case None => None
    case Some(data) =>
      if |data| >= 0x1_0000_0000 then None else Some(BigEndian(|data|, 4) + [ZLIB] + data)
  }

  /** Where the compressed payload ends, as the first four bytes say. */
  function BlobEnd(blob: seq<Byte>): nat
    requires |blob| >= 5
  {
    5 + FromBigEndian(blob[..4])
  }

  function ParseBlob(codec: Codec, blob: seq<Byte>): Option<seq<Byte>> {
    if |blob| < 5 || blob[4] != ZLIB || BlobEnd(blob) > |blob| then None
    else codec.decompress(blob[5..BlobEnd(blob)])
  }

  /** A blob whose payload reaches into its last sector; nothing but padding may follow it there. */
  predicate Tight(blob: seq<Byte>) {
    |blob| >= 5 && SECTOR * Sectors(blob) < BlobEnd(blob) + SECTOR && BlobEnd(blob) <= |blob|
  }

  lemma MadeBlob(codec: Codec, payload: seq<Byte>)
    requires Invertible(codec) && MakeBlob(codec, payload).Some?
    ensures var blob := MakeBlob(codec, payload).value; ParseBlob(codec, blob) == Some(payload) && Tight(blob)
  {
    hide FromBigEndian, BigEndian, Sectors;
    var blob := MakeBlob(codec, payload).value;
    var data := codec.compress(payload).value;
    Powers();
    BigEndianRoundTrip(|data|, 4);
    assert blob[..4] == BigEndian(|data|, 4);
    assert BlobEnd(blob) == |blob| && blob[5..BlobEnd(blob)] == data;
    AtLeastItself(blob);
  }

  /** Cutting a blob anywhere behind its payload leaves the payload; cutting it earlier loses it. */
  lemma ParseCut(codec: Codec, blob: seq<Byte>, tail: seq<Byte>, n: nat)
    requires Tight(blob) && 5 <= n <= |blob + tail|
    ensures n < BlobEnd(blob) ==> ParseBlob(codec, (blob + tail)[..n]) == None
    ensures n >= BlobEnd(blob) ==> ParseBlob(codec, (blob + tail)[..n]) == ParseBlob(codec, blob)
  {
    hide FromBigEndian;
    var cut := (blob + tail)[..n];
    assert cut[..4] == blob[..4] && cut[4] == blob[4];
    if n >= BlobEnd(blob) {
      assert cut[5..BlobEnd(blob)] == blob[5..BlobEnd(blob)];
    }
  }

  lemma PaddedParses(codec: Codec, blob: seq<Byte>)
    requires Tight(blob)
    ensures Tight(Padded(blob)) && ParseBlob(codec, Padded(blob)) == ParseBlob(codec, blob)
  {
    hide FromBigEndian, Sectors;
    PaddedTwice(blob);
    AtLeastItself(blob);
    var tail := Zeros(SECTOR * Sectors(blob) - |blob|);
    ParseCut(codec, blob, tail, |blob + tail|);
    assert (blob + tail)[..|blob + tail|] == blob + tail == Padded(blob);
    assert Padded(blob)[..4] == blob[..4];
  }

  lemma AtLeastItself(blob: seq<Byte>)
    ensures |blob| <= SECTOR * Sectors(blob) < |blob| + SECTOR
  {
  }

  // ---- the loader ----

  datatype Loader = Loader(disk: map<Key, seq<Byte>>, regions: map<Key, Chunks>, index: set<Key>)

  function RegionOf(p: Key): Key {
    RegionCoords(p.0, p.1)
  }

  function LocalOf(p: Key): Key {
    LocalCoords(p.0, p.1)
  }

  function Position(region: Key, local: Key): Key {
    (region.0 * DIM + local.0, region.1 * DIM + local.1)
  }

  lemma PositionIsUnique(p: Key, region: Key, local: Key)
    requires IsLocal(local)
    ensures p == Position(region, local) <==> RegionOf(p) == region && LocalOf(p) == local
  {
    CoordsAreUnique(p.0, p.1, region, local);
  }

  lemma LocalIsLocal(p: Key)
    ensures IsLocal(LocalOf(p)) && Position(RegionOf(p), LocalOf(p)) == p
  {
    CoordsRecombine(p.0, p.1);
  }

  /** The region as loaded already, or as its file says, or empty. */
  function RegionView(l: Loader, region: Key): Chunks {
    if region in l.regions then l.regions[region]
    else if region in l.disk then Open(l.disk[region])
    else map[]
  }

  /** Puts the blob into its region and writes the region out; when no blob can be made, the region is
    * loaded all the same. */
  function Save(codec: Codec, l: Loader, p: Key, payload: seq<Byte>): Loader {
    var region := RegionOf(p);
    var chunks := RegionView(l, region);
    match MakeBlob(codec, payload)
    case None => l.(regions := l.regions[region := chunks])
    case Some(blob) =>
      var next := chunks[LocalOf(p) := blob];
      Loader(l.disk[region := Flush(next)], l.regions[region := next], l.index + {p})
  }

  predicate Holds(l: Loader, p: Key) {
    RegionOf(p) in l.regions && LocalOf(p) in l.regions[RegionOf(p)]
  }

  function Blob(l: Loader, p: Key): seq<Byte>
    requires Holds(l, p)
  {
    l.regions[RegionOf(p)][LocalOf(p)]
  }

  function Load(codec: Codec, l: Loader, p: Key): Option<seq<Byte>> {
    if Holds(l, p) then ParseBlob(codec, Blob(l, p)) else None
  }

  /** The positions whose region files list them. */
  function ScannedIndex(disk: map<Key, seq<Byte>>): set<Key> {
    set region, local | region in disk && local in Open(disk[region]) :: Position(region, local)
  }

  function OpenAll(disk: map<Key, seq<Byte>>): map<Key, Chunks> {
    map region | region in disk :: Open(disk[region])
  }

  /** A new loader over the same directory. */
  function Restart(disk: map<Key, seq<Byte>>): Loader {
    Loader(disk, OpenAll(disk), ScannedIndex(disk))
  }

  // ---- what a loader keeps ----

  /** Whole sectors that the location table can count: what a region file yields, whoever wrote it. */
  predicate Whole(blob: seq<Byte>) {
    |blob| % SECTOR == 0 && 1 <= Sectors(blob) <= 255
  }

  ghost predicate IndexMatches(l: Loader) {
    forall p: Key :: p in l.index <==> Holds(l, p)
  }

  /** Every region file is loaded, and the index lists what the regions hold. */
  ghost predicate LoaderOk(l: Loader) {
    && l.disk.Keys <= l.regions.Keys
    && (forall r | r in l.regions :: AllLocal(l.regions[r]))
    && IndexMatches(l)
  }

  /** A region is what its file says, or its file is what it says. */
  predicate DiskAgrees(l: Loader) {
    && (forall r | r in l.disk && r in l.regions :: l.regions[r] == Open(l.disk[r]) || l.disk[r] == Flush(l.regions[r]))
    && (forall r | r in l.regions && r !in l.disk :: l.regions[r] == map[])
  }

  ghost predicate AllKept(l: Loader) {
    forall p: Key | Holds(l, p) :: Tight(Blob(l, p)) || Whole(Blob(l, p))
  }

  ghost predicate LoaderValid(l: Loader) {
    LoaderOk(l) && DiskAgrees(l) && AllKept(l)
  }

  lemma OpenIsLocal(data: seq<Byte>)
    ensures AllLocal(Open(data))
  {
    hide SlotBlob;
    forall k | k in Open(data)
      ensures IsLocal(k)
    {
      OpenedIsLocal(data, SLOT_COUNT, k);
    }
  }

  lemma OpenIsWhole(data: seq<Byte>, k: Key)
    requires k in Open(data)
    ensures Whole(Open(data)[k])
  {
    hide KeyOf;
    OpenedIsLocal(data, SLOT_COUNT, k);
    SlotsAreKeys(k);
    OpenedHas(data, SLOT_COUNT, SlotOf(k));
  }

  /** Any directory makes a loader. */
  lemma RestartIsOk(disk: map<Key, seq<Byte>>)
    ensures LoaderOk(Restart(disk))
  {
    hide Open, RegionOf, LocalOf, Position;
    var l := Restart(disk);
    forall p: Key
      ensures p in l.index <==> Holds(l, p)
    {
      LocalIsLocal(p);
      if p in l.index {
        var region, local :| region in disk && local in Open(disk[region]) && p == Position(region, local);
        OpenIsLocal(disk[region]);
        PositionIsUnique(p, region, local);
      }
      if Holds(l, p) {
        assert RegionOf(p) in disk && LocalOf(p) in Open(disk[RegionOf(p)]);
      }
    }
    forall r | r in l.regions
      ensures AllLocal(l.regions[r])
    {
      OpenIsLocal(disk[r]);
    }
  }

  lemma RestartIsValid(disk: map<Key, seq<Byte>>)
    ensures LoaderValid(Restart(disk))
  {
    hide Open, RegionOf, LocalOf, Whole, Tight, ScannedIndex;
    RestartIsOk(disk);
    var l := Restart(disk);
    forall p: Key | Holds(l, p)
      ensures Whole(Blob(l, p))
    {
      OpenIsWhole(disk[RegionOf(p)], LocalOf(p));
    }
  }

  lemma ViewOfOk(l: Loader, r: Key)
    requires LoaderOk(l)
    ensures AllLocal(RegionView(l, r))
    ensures RegionView(l, r) == if r in l.regions then l.regions[r] else map[]
  {
    hide Open;
  }

  /** What a save does to every position. */
  lemma SaveHolds(codec: Codec, l: Loader, p: Key, payload: seq<Byte>, q: Key)
    requires LoaderOk(l)
    ensures var saved := MakeBlob(codec, payload);
            && (Holds(Save(codec, l, p, payload), q) <==> Holds(l, q) || (q == p && saved.Some?))
            && (Holds(Save(codec, l, p, payload), q) ==>
                  Blob(Save(codec, l, p, payload), q) == if q == p && saved.Some? then saved.value else Blob(l, q))
  {
    hide Flush, Open, MakeBlob, RegionOf, LocalOf;
    ViewOfOk(l, RegionOf(p));
    LocalIsLocal(p);
    LocalIsLocal(q);
  }

  lemma SaveIsOk(codec: Codec, l: Loader, p: Key, payload: seq<Byte>)
    requires LoaderOk(l)
    ensures LoaderOk(Save(codec, l, p, payload))
  {
    var next := Save(codec, l, p, payload);
    forall q: Key
      ensures q in next.index <==> Holds(next, q)
    {
      hide Holds, Blob, Flush, Open, MakeBlob, RegionOf, LocalOf;
      SaveHolds(codec, l, p, payload, q);
    }
    hide Flush, Open, MakeBlob, RegionOf, Holds;
    ViewOfOk(l, RegionOf(p));
    LocalIsLocal(p);
  }

  lemma SaveIsValid(codec: Codec, l: Loader, p: Key, payload: seq<Byte>)
    requires Invertible(codec) && LoaderValid(l)
    ensures LoaderValid(Save(codec, l, p, payload))
  {
    hide Flush, Open, MakeBlob, RegionOf, LocalOf, Tight, Whole, Holds, Blob, IndexMatches;
    SaveIsOk(codec, l, p, payload);
    ViewOfOk(l, RegionOf(p));
    if MakeBlob(codec, payload).Some? {
      MadeBlob(codec, payload);
    }
    var next := Save(codec, l, p, payload);
    forall q: Key | Holds(next, q)
      ensures Tight(Blob(next, q)) || Whole(Blob(next, q))
    {
      SaveHolds(codec, l, p, payload, q);
    }
  }

  /** Whatever program wrote the region files, a save changes what its own position loads, to the
    * payload saved, and nothing else. */
  lemma SaveThenLoad(codec: Codec, l: Loader, p: Key, payload: seq<Byte>, q: Key)
    requires Invertible(codec) && LoaderOk(l)
    ensures LoaderOk(Save(codec, l, p, payload))
    ensures Load(codec, Save(codec, l, p, payload), q) ==
            if q == p && MakeBlob(codec, payload).Some? then Some(payload) else Load(codec, l, q)
    ensures q in Save(codec, l, p, payload).index <==> q in l.index || (q == p && MakeBlob(codec, payload).Some?)
  {
    hide MakeBlob, ParseBlob, Holds, Blob, RegionOf, LocalOf, Save;
    SaveIsOk(codec, l, p, payload);
    if MakeBlob(codec, payload).Some? {
      MadeBlob(codec, payload);
    }
    SaveHolds(codec, l, p, payload, q);
  }

  // ---- restarting ----

  /** Sector numbers fit the 24 bits of the location table. */
  predicate Addressable(l: Loader) {
    forall r | r in l.regions :: Cursor(l.regions[r], SLOT_COUNT) < 0x100_0000
  }

  predicate AddressableAt(l: Loader, q: Key) {
    RegionOf(q) in l.regions ==> Cursor(l.regions[RegionOf(q)], SLOT_COUNT) < 0x100_0000
  }

  /** Every stored chunk takes at most 255 sectors. */
  ghost predicate AllSmall(l: Loader) {
    forall p: Key | Holds(l, p) :: Sectors(Blob(l, p)) <= 255
  }

  lemma SmallIsAddressable(l: Loader)
    requires LoaderOk(l) && AllSmall(l)
    ensures Addressable(l)
  {
    hide Sectors, RegionOf, LocalOf, IndexMatches;
    forall r | r in l.regions
      ensures Cursor(l.regions[r], SLOT_COUNT) < 0x100_0000
    {
      forall k | k in l.regions[r]
        ensures Sectors(l.regions[r][k]) <= 255
      {
        var p := Position(r, k);
        PositionIsUnique(p, r, k);
        assert Holds(l, p) && Blob(l, p) == l.regions[r][k];
      }
      CursorBound(l.regions[r], SLOT_COUNT, 255);
    }
  }

  lemma WholeIsPadded(blob: seq<Byte>)
    requires Whole(blob)
    ensures Padded(blob) == blob
  {
  }

  lemma KeptHasSectors(blob: seq<Byte>)
    requires Tight(blob) || Whole(blob)
    ensures Sectors(blob) >= 1
  {
  }

  lemma KeptParses(codec: Codec, blob: seq<Byte>)
    requires Tight(blob) || Whole(blob)
    ensures ParseBlob(codec, Padded(blob)) == ParseBlob(codec, blob)
  {
    hide ParseBlob, Padded;
    if Tight(blob) {
      PaddedParses(codec, blob);
    } else {
      WholeIsPadded(blob);
    }
  }

  lemma FlushedSlot(chunks: Chunks, k: Key)
    requires IsLocal(k) && Cursor(chunks, SLOT_COUNT) < 0x100_0000 && (k in chunks ==> Sectors(chunks[k]) > 0)
    ensures k in Open(Flush(chunks)) <==> k in chunks && Sectors(chunks[k]) % 256 != 0
    ensures k in Open(Flush(chunks)) ==>
              Open(Flush(chunks))[k] == Padded(chunks[k])[..SECTOR * (Sectors(chunks[k]) % 256)]
  {
    hide Padded, Sectors, Cursor, Flush, SlotBlob, KeyOf, SlotOf;
    var slot := SlotOf(k);
    SlotsAreKeys(k);
    CursorGrows(chunks, slot, SLOT_COUNT);
    OpenedHas(Flush(chunks), SLOT_COUNT, slot);
    if k in chunks {
      SlotReopens(chunks, slot);
    } else {
      AbsentStaysAbsent(chunks, slot);
    }
  }

  /** What a restart leaves of a stored blob: whole sectors, as many as the count modulo 256 says. */
  lemma RestartBlob(l: Loader, q: Key)
    requires LoaderValid(l) && AddressableAt(l, q)
    ensures Holds(Restart(l.disk), q) <==> Holds(l, q) && Sectors(Blob(l, q)) % 256 != 0
    ensures Holds(Restart(l.disk), q) ==>
              Blob(Restart(l.disk), q) == Padded(Blob(l, q))[..SECTOR * (Sectors(Blob(l, q)) % 256)]
  {
    hide Flush, Open, Padded, RegionOf, LocalOf, Sectors, Tight, Whole, Cursor, IndexMatches, ScannedIndex;
    var r, k := RegionOf(q), LocalOf(q);
    LocalIsLocal(q);
    if Holds(l, q) {
      KeptHasSectors(Blob(l, q));
    }
    if r in l.disk {
      if l.regions[r] == Open(l.disk[r]) {
        if k in l.regions[r] {
          OpenIsWhole(l.disk[r], k);
          WholeStays(l.regions[r][k]);
        }
      } else {
        FlushedSlot(l.regions[r], k);
      }
    }
  }

  lemma WholeStays(blob: seq<Byte>)
    requires Whole(blob)
    ensures Sectors(blob) % 256 == Sectors(blob) != 0 && Padded(blob)[..SECTOR * (Sectors(blob) % 256)] == blob
  {
    WholeIsPadded(blob);
  }

  /** A restart keeps every answer, except for chunks of 256 sectors or more, which no longer load; the
    * index goes on listing them unless their sector count is a multiple of 256. */
  lemma RestartLoads(codec: Codec, l: Loader, q: Key)
    requires LoaderValid(l) && AddressableAt(l, q)
    ensures Load(codec, Restart(l.disk), q) ==
            if Holds(l, q) && Sectors(Blob(l, q)) > 255 then None else Load(codec, l, q)
    ensures q in Restart(l.disk).index <==> q in l.index && Sectors(Blob(l, q)) % 256 != 0
    ensures Holds(Restart(l.disk), q) ==> 1 <= Sectors(Blob(Restart(l.disk), q)) <= 255
  {
    hide Padded, RegionOf, LocalOf, ParseBlob, Sectors, Restart, AddressableAt, DiskAgrees, Holds, Blob;
    RestartBlob(l, q);
    RestartIsValid(l.disk);
    if Holds(l, q) {
      var blob := Blob(l, q);
      var kept := Sectors(blob) % 256;
      KeptHasSectors(blob);
      if kept > 0 {
        PaddedIs(blob);
        if Sectors(blob) > 255 {
          ParseCut(codec, blob, Zeros(SECTOR * Sectors(blob) - |blob|), SECTOR * kept);
        } else {
          KeptParses(codec, blob);
          assert Padded(blob)[..SECTOR * kept] == Padded(blob);
        }
        SectorsOfCut(Padded(blob), kept);
      }
    }
  }

  lemma SectorsOfCut(blob: seq<Byte>, n: nat)
    requires SECTOR * n <= |blob|
    ensures Sectors(blob[..SECTOR * n]) == n
  {
  }

  lemma PaddedIs(blob: seq<Byte>)
    ensures SECTOR * Sectors(blob) >= |blob| && Padded(blob) == blob + Zeros(SECTOR * Sectors(blob) - |blob|)
  {
    AtLeastItself(blob);
  }

  /** With every chunk within 255 sectors, a restarted loader gives all the answers it gave. */
  lemma RestartKeeps(codec: Codec, l: Loader)
    requires LoaderValid(l) && AllSmall(l)
    ensures LoaderValid(Restart(l.disk)) && AllSmall(Restart(l.disk)) && Restart(l.disk).index == l.index
    ensures forall q: Key :: Load(codec, Restart(l.disk), q) == Load(codec, l, q)
  {
    hide ParseBlob, Sectors, Restart, DiskAgrees, AllKept, Addressable, RegionOf, LocalOf, Blob, Load;
    SmallIsAddressable(l);
    RestartIsValid(l.disk);
    forall q: Key
      ensures q in Restart(l.disk).index <==> q in l.index
      ensures Holds(Restart(l.disk), q) ==> Sectors(Blob(Restart(l.disk), q)) <= 255
      ensures Load(codec, Restart(l.disk), q) == Load(codec, l, q)
    {
      AddressableEverywhere(l, q);
      RestartLoads(codec, l, q);
      if Holds(l, q) {
        KeptAt(l, q);
        KeptHasSectors(Blob(l, q));
      }
    }
  }

  lemma KeptAt(l: Loader, q: Key)
    requires AllKept(l) && Holds(l, q)
    ensures Tight(Blob(l, q)) || Whole(Blob(l, q))
  {
  }

  lemma AddressableEverywhere(l: Loader, q: Key)
    requires Addressable(l)
    ensures AddressableAt(l, q)
  {
  }

  /** A chunk of 256 sectors or more loads from memory, and not at all after a restart; it is still
    * listed unless its sector count is a multiple of 256. */
  lemma RestartLoses(codec: Codec, l: Loader, q: Key)
    requires LoaderValid(l) && AddressableAt(l, q) && Holds(l, q) && Sectors(Blob(l, q)) > 255
    ensures Load(codec, Restart(l.disk), q) == None
    ensures q in Restart(l.disk).index <==> Sectors(Blob(l, q)) % 256 != 0
  {
    hide ParseBlob, Sectors, Restart, DiskAgrees, AllKept, AddressableAt, RegionOf, LocalOf, Blob;
    RestartLoads(codec, l, q);
  }

  /** In regions that 24 bits can address, a restart changes no answer if and only if every chunk that
    * loads takes at most 255 sectors. */
  lemma RestartKeepsIff(codec: Codec, l: Loader)
    requires LoaderValid(l) && Addressable(l)
    ensures (forall q: Key :: Load(codec, Restart(l.disk), q) == Load(codec, l, q)) <==>
            forall q: Key | Load(codec, l, q).Some? :: Holds(l, q) && Sectors(Blob(l, q)) <= 255
  {
    hide ParseBlob, Sectors, Restart, LoaderValid, Addressable, RegionOf, LocalOf, Blob;
    forall q: Key
      ensures Load(codec, Restart(l.disk), q) ==
              if Holds(l, q) && Sectors(Blob(l, q)) > 255 then None else Load(codec, l, q)
    {
      AddressableEverywhere(l, q);
      RestartLoads(codec, l, q);
    }
  }

  // ---- runs ----

  datatype Op = SaveChunk(position: Key, payload: seq<Byte>) | Reopen

  /** Saves and restarts over a directory that anyone may have written. */
  function Run(codec: Codec, disk: map<Key, seq<Byte>>, ops: seq<Op>): Loader {
    if ops == [] then Restart(disk)
    else
      var l := Run(codec, disk, ops[..|ops| - 1]);
      match ops[|ops| - 1]
      case SaveChunk(p, payload) => Save(codec, l, p, payload)
      case Reopen => Restart(l.disk)
  }

  /** What callers see: the payloads that load and the positions listed; and what they will no longer
    * see after a restart: the positions that will not load, and those not even listed. */
  datatype Directory = Directory(loads: map<Key, seq<Byte>>, listed: set<Key>, lost: set<Key>, gone: set<Key>)

  function Found(codec: Codec, disk: map<Key, seq<Byte>>): Directory {
    var l := Restart(disk);
    Directory(map p | p in l.index && Load(codec, l, p).Some? :: Load(codec, l, p).value, l.index, {}, {})
  }

  function Saved(codec: Codec, d: Directory, p: Key, payload: seq<Byte>): Directory {
    match MakeBlob(codec, payload)
    case None => d
    case Some(blob) =>
      Directory(d.loads[p := payload], d.listed + {p},
                if Sectors(blob) > 255 then d.lost + {p} else d.lost - {p},
                if Sectors(blob) % 256 == 0 then d.gone + {p} else d.gone - {p})
  }

  function Reopened(d: Directory): Directory {
    Directory(d.loads - d.lost, d.listed - d.gone, {}, {})
  }

  function Expected(codec: Codec, disk: map<Key, seq<Byte>>, ops: seq<Op>): Directory {
    if ops == [] then Found(codec, disk)
    else
      var d := Expected(codec, disk, ops[..|ops| - 1]);
      match ops[|ops| - 1]
      case SaveChunk(p, payload) => Saved(codec, d, p, payload)
      case Reopen => Reopened(d)
  }

  predicate Agrees(codec: Codec, l: Loader, d: Directory, p: Key) {
    && Load(codec, l, p) == (if p in d.loads then Some(d.loads[p]) else None)
    && (p in l.index <==> p in d.listed)
    && (p in d.lost <==> Holds(l, p) && Sectors(Blob(l, p)) > 255)
    && (p in d.gone <==> Holds(l, p) && Sectors(Blob(l, p)) % 256 == 0)
  }

  /** Whenever the run restarts, the sector numbers written fit 24 bits. */
  predicate RunAddressable(codec: Codec, disk: map<Key, seq<Byte>>, ops: seq<Op>) {
    ops == []
    || (RunAddressable(codec, disk, ops[..|ops| - 1])
        && (ops[|ops| - 1].Reopen? ==> Addressable(Run(codec, disk, ops[..|ops| - 1]))))
  }

  lemma FoundAgrees(codec: Codec, disk: map<Key, seq<Byte>>, p: Key)
    ensures Agrees(codec, Restart(disk), Found(codec, disk), p)
  {
    hide ParseBlob, Restart, RegionOf, LocalOf, Sectors, DiskAgrees;
    var l := Restart(disk);
    RestartIsValid(disk);
    if Holds(l, p) {
      FoundIsSmall(disk, p);
    }
  }

  lemma FoundIsSmall(disk: map<Key, seq<Byte>>, p: Key)
    requires Holds(Restart(disk), p)
    ensures 1 <= Sectors(Blob(Restart(disk), p)) <= 255
  {
    hide Open, Sectors, RegionOf, LocalOf;
    OpenIsWhole(disk[RegionOf(p)], LocalOf(p));
  }

  lemma SaveAgrees(codec: Codec, l: Loader, d: Directory, p: Key, payload: seq<Byte>, q: Key)
    requires Invertible(codec) && LoaderOk(l) && Agrees(codec, l, d, q)
    ensures Agrees(codec, Save(codec, l, p, payload), Saved(codec, d, p, payload), q)
  {
    hide LoaderOk, MakeBlob, Load, Save, Holds, Blob, Sectors;
    SaveThenLoad(codec, l, p, payload, q);
    SaveHolds(codec, l, p, payload, q);
  }

  lemma RestartAgrees(codec: Codec, l: Loader, d: Directory, q: Key)
    requires LoaderValid(l) && Addressable(l) && Agrees(codec, l, d, q)
    ensures Agrees(codec, Restart(l.disk), Reopened(d), q)
  {
    hide DiskAgrees, Addressable, Restart, Holds, Blob, Sectors, ParseBlob;
    AddressableEverywhere(l, q);
    RestartLoads(codec, l, q);
    RestartIsValid(l.disk);
  }

  /** After any saves and restarts over any directory, each position loads exactly what it should and is
    * listed exactly when it should be. */
  lemma {:induction false} RunsAgree(codec: Codec, disk: map<Key, seq<Byte>>, ops: seq<Op>)
    requires Invertible(codec) && RunAddressable(codec, disk, ops)
    ensures LoaderValid(Run(codec, disk, ops))
    ensures forall p: Key :: Agrees(codec, Run(codec, disk, ops), Expected(codec, disk, ops), p)
  {
    hide LoaderOk, DiskAgrees, AllKept, Addressable, Agrees, Save, Saved, Restart, Found, Reopened;
    if ops == [] {
      RestartIsValid(disk);
      forall p: Key
        ensures Agrees(codec, Run(codec, disk, ops), Expected(codec, disk, ops), p)
      {
        FoundAgrees(codec, disk, p);
      }
    } else {
      var before := ops[..|ops| - 1];
      var l, d := Run(codec, disk, before), Expected(codec, disk, before);
      RunsAgree(codec, disk, before);
      match ops[|ops| - 1] {
        case SaveChunk(q, payload) =>
          SaveIsValid(codec, l, q, payload);
          forall p: Key
            ensures Agrees(codec, Run(codec, disk, ops), Expected(codec, disk, ops), p)
          {
            SaveAgrees(codec, l, d, q, payload, p);
          }
        case Reopen =>
          RestartIsValid(l.disk);
          forall p: Key
            ensures Agrees(codec, Run(codec, disk, ops), Expected(codec, disk, ops), p)
          {
            RestartAgrees(codec, l, d, p);
          }
      }
    }
  }

  predicate SavesSmall(codec: Codec, ops: seq<Op>) {
    forall op | op in ops && op.SaveChunk? :: MakeBlob(codec, op.payload).Some? ==>
      1 <= Sectors(MakeBlob(codec, op.payload).value) <= 255
  }

  /** With no chunk over 255 sectors nothing is lost: every restart keeps all answers. */
  lemma {:induction false} SmallRunsLoseNothing(codec: Codec, disk: map<Key, seq<Byte>>, ops: seq<Op>)
    requires Invertible(codec) && SavesSmall(codec, ops)
    ensures RunAddressable(codec, disk, ops)
    ensures Expected(codec, disk, ops).lost == {} && Expected(codec, disk, ops).gone == {}
  {
    hide LoaderValid, Addressable, Agrees, Save, Restart, MakeBlob, Sectors, Run;
    if ops != [] {
      var before := ops[..|ops| - 1];
      assert ops[|ops| - 1] in ops && forall x | x in before :: x in ops;
      SmallRunsLoseNothing(codec, disk, before);
      RunsAgree(codec, disk, before);
      NothingLostIsAddressable(codec, Run(codec, disk, before), Expected(codec, disk, before));
    }
  }

  lemma NothingLostIsAddressable(codec: Codec, l: Loader, d: Directory)
    requires LoaderValid(l) && d.lost == {} && forall p: Key :: Agrees(codec, l, d, p)
    ensures Addressable(l)
  {
    hide Sectors, DiskAgrees, Load, AllKept, Holds, Blob, Addressable;
    forall p: Key | Holds(l, p)
      ensures Sectors(Blob(l, p)) <= 255
    {
      assert Agrees(codec, l, d, p);
    }
    SmallIsAddressable(l);
  }

  // ---- a chunk that is lost ----

  const IDENTITY := Codec(x => Some(x), x => Some(x))

  /** With a codec that compresses nothing, a payload of 255 or 256 whole sectors makes a blob one sector
    * longer: both load until a restart; afterwards neither loads, and only the longer one is listed. */
  lemma BigChunkIsLost(sectors: nat, payload: seq<Byte>)
    requires sectors == 255 || sectors == 256
    requires |payload| == SECTOR * sectors
    ensures var l := Run(IDENTITY, map[], [SaveChunk((0, 0), payload)]);
            && Load(IDENTITY, l, (0, 0)) == Some(payload) && (0, 0) in l.index
            && Load(IDENTITY, Restart(l.disk), (0, 0)) == None
            && ((0, 0) in Restart(l.disk).index <==> sectors == 256)
  {
    hide ParseBlob, Restart, DiskAgrees, AllKept, Cursor, RegionOf, LocalOf, Save, Flush;
    var p: Key := (0, 0);
    var ops := [SaveChunk(p, payload)];
    var empty := Restart(map[]);
    assert ops[..0] == [] && Run(IDENTITY, map[], []) == empty;
    var l := Save(IDENTITY, empty, p, payload);
    RestartIsValid(map[]);
    SaveIsValid(IDENTITY, empty, p, payload);
    SaveThenLoad(IDENTITY, empty, p, payload, p);
    SaveHolds(IDENTITY, empty, p, payload, p);
    BigBlob(sectors, payload);
    OneChunkIsAddressable(IDENTITY, p, payload);
    AddressableEverywhere(l, p);
    RestartLoads(IDENTITY, l, p);
  }

  lemma BigBlob(sectors: nat, payload: seq<Byte>)
    requires sectors <= 256 && |payload| == SECTOR * sectors
    ensures MakeBlob(IDENTITY, payload).Some? && Sectors(MakeBlob(IDENTITY, payload).value) == sectors + 1
  {
  }

  lemma OneChunkIsAddressable(codec: Codec, p: Key, payload: seq<Byte>)
    requires MakeBlob(codec, payload).Some? && Sectors(MakeBlob(codec, payload).value) <= 257
    ensures Addressable(Save(codec, Restart(map[]), p, payload))
  {
    hide Sectors, MakeBlob, RegionOf, LocalOf, Flush;
    var blob := MakeBlob(codec, payload).value;
    var l := Save(codec, Restart(map[]), p, payload);
    assert l.regions == map[RegionOf(p) := map[LocalOf(p) := blob]];
    CursorBound(map[LocalOf(p) := blob], SLOT_COUNT, 257);
  }
}
