/** filesys/filehdr.cc and filesys/openfile.cc: a file's bytes, scattered over whole sectors. */
module FileData {
  import opened Bytes
  import opened BitmapModel
  import opened DiskFormat

  type Sectors = seq<seq<byte>>

  predicate IsDisk(d: Sectors) {
    |d| == NUM_SECTORS && forall s | 0 <= s < NUM_SECTORS :: |d[s]| == SECTOR_SIZE
  }

  function SectorsFor(size: nat): nat {
    (size + SECTOR_SIZE - 1) / SECTOR_SIZE
  }

  /** As few sectors as hold that many bytes; none for an empty file. */
  lemma FewestSectors(size: nat, n: nat)
    ensures SectorsFor(size) * SECTOR_SIZE >= size
    ensures n * SECTOR_SIZE >= size ==> n >= SectorsFor(size)
  {
  }

  /** A header whose data sectors exist and are all different. */
  predicate GoodHeader(h: Header) {
    && WellShaped(h)
    && 0 <= h.numBytes <= MAX_FILE_SIZE
    && h.numSectors == SectorsFor(h.numBytes)
    && (forall k | 0 <= k < h.numSectors :: 0 <= h.dataSectors[k] < NUM_SECTORS)
    && (forall j, k | 0 <= j < k < h.numSectors :: h.dataSectors[j] != h.dataSectors[k])
  }

  /** The data sectors a file really uses. */
  function DataOf(h: Header): seq<int32>
    requires GoodHeader(h)
  {
    h.dataSectors[..h.numSectors]
  }

  /** Byte p of the file's sectors, slack past the end of the file included. */
  function RawByte(d: Sectors, h: Header, p: nat): byte
    requires IsDisk(d) && GoodHeader(h) && p < h.numSectors * SECTOR_SIZE
  {
    d[h.dataSectors[p / SECTOR_SIZE]][p % SECTOR_SIZE]
  }

  /** The file as a plain byte array. */
  function Contents(d: Sectors, h: Header): (b: seq<byte>)
    requires IsDisk(d) && GoodHeader(h)
    ensures |b| == h.numBytes
  {
    seq(h.numBytes, p requires 0 <= p < h.numBytes => RawByte(d, h, p))
  }

  /** Contents looks at the file's own data sectors only. */
  lemma ContentsFrame(d: Sectors, d': Sectors, h: Header)
    requires IsDisk(d) && IsDisk(d') && GoodHeader(h)
    requires forall s | s in DataOf(h) :: d[s] == d'[s]
    ensures Contents(d, h) == Contents(d', h)
  {
    forall p | 0 <= p < h.numBytes
      ensures RawByte(d, h, p) == RawByte(d', h, p)
    {
      assert DataOf(h)[p / SECTOR_SIZE] in DataOf(h);
    }
  }

  /** How many bytes a transfer of n bytes at pos really moves: as many as were asked for and are there. */
  function Clamp(length: nat, n: int, pos: nat): (r: nat)
    ensures n <= 0 || pos >= length <==> r == 0
    ensures r > 0 ==> r <= n && pos + r <= length && (r == n || pos + r == length)
  {
    if n <= 0 || pos >= length then 0
    else if pos + n > length then length - pos
    else n
  }

  /** Where a file's position is after reads or writes of the given sizes. */
  function PositionAfter(length: nat, start: nat, sizes: seq<nat>): nat {
    if sizes == [] then start
    else
      var pos := PositionAfter(length, start, sizes[..|sizes| - 1]);
      pos + Clamp(length, sizes[|sizes| - 1], pos)
  }

  function Sum(sizes: seq<nat>): nat {
    if sizes == [] then 0 else Sum(sizes[..|sizes| - 1]) + sizes[|sizes| - 1]
  }

  /** Reading or writing on and on goes through the whole file, whatever the pieces, and stops at its end. */
  lemma {:induction false} PiecesCoverFile(length: nat, start: nat, sizes: seq<nat>)
    requires start <= length
    ensures PositionAfter(length, start, sizes) == if start + Sum(sizes) <= length then start + Sum(sizes) else length
    decreases |sizes|
  {
    if sizes != [] { PiecesCoverFile(length, start, sizes[..|sizes| - 1]); }
  }

  lemma SectorsSpanned(h: Header, pos: nat, n: nat)
    requires GoodHeader(h) && 0 < n && pos + n <= h.numBytes
    ensures var first, last := pos / SECTOR_SIZE, (pos + n - 1) / SECTOR_SIZE;
            && first * SECTOR_SIZE <= pos < (first + 1) * SECTOR_SIZE
            && last * SECTOR_SIZE < pos + n <= (last + 1) * SECTOR_SIZE
            && first <= last < h.numSectors
  {
  }

  function Splice(b: seq<byte>, pos: nat, data: seq<byte>): (r: seq<byte>)
    requires pos + |data| <= |b|
    ensures |r| == |b|
  {
    b[..pos] + data + b[pos + |data|..]
  }

  /** d' is d after `data` was written at `pos` of the file: the file's bytes are spliced and no
      sector outside the file changed.  Slack past the end of the file may hold anything. */
  predicate Wrote(d: Sectors, d': Sectors, h: Header, pos: nat, data: seq<byte>)
    requires IsDisk(d) && GoodHeader(h)
  {
    && IsDisk(d')
    && (forall s | 0 <= s < NUM_SECTORS && s !in DataOf(h) :: d'[s] == d[s])
    && (if data == [] then d' == d
        else pos + |data| <= h.numBytes && Contents(d', h) == Splice(Contents(d, h), pos, data))
  }

  /** Reading back the range just written gives the data; any other range of the file, and all of
      any file that shares no sector with it, reads as before. */
  lemma WriteThenRead(d: Sectors, d': Sectors, h: Header, pos: nat, data: seq<byte>, g: Header, q: nat)
    requires IsDisk(d) && GoodHeader(h) && Wrote(d, d', h, pos, data)
    requires GoodHeader(g)
    ensures data != [] ==> Contents(d', h)[pos..pos + |data|] == data
    ensures q < h.numBytes && !(pos <= q < pos + |data|) ==> Contents(d', h)[q] == Contents(d, h)[q]
    ensures (forall s | s in DataOf(g) :: s !in DataOf(h)) ==> Contents(d', g) == Contents(d, g)
  {
    if forall s | s in DataOf(g) :: s !in DataOf(h) { ContentsFrame(d, d', g); }
  }

  /** The disk as filesys/synchdisk.cc presents it: whole sectors, one request at a time. */
  class SynchDisk {
    var sectors: Sectors

    method ReadSector(n: int) returns (data: seq<byte>)
      requires IsDisk(sectors) && 0 <= n < NUM_SECTORS
      ensures data == sectors[n] && |data| == SECTOR_SIZE
    {
      data := sectors[n];
    }

    method WriteSector(n: int, data: seq<byte>)
      requires IsDisk(sectors) && 0 <= n < NUM_SECTORS && |data| == SECTOR_SIZE
      modifies this
      ensures sectors == old(sectors)[n := data] && IsDisk(sectors)
    {
      sectors := sectors[n := data];
    }
  }

  /** bcopy into a buffer. */
  method CopyInto(buf: array<byte>, at: nat, data: seq<byte>)
    requires at + |data| <= buf.Length
    modifies buf
    ensures forall q | at <= q < at + |data| :: buf[q] == data[q - at]
    ensures forall q | 0 <= q < buf.Length && !(at <= q < at + |data|) :: buf[q] == old(buf[q])
  {
    forall i | 0 <= i < |data| {
      buf[at + i] := data[i];
    }
  }

  /** One more turn of the loop in Allocate. */
  lemma NextTaken(map0: Words, i: nat, data: seq<int32>)
    requires 32 * |map0| == NUM_SECTORS && i < NumClear(map0, NUM_SECTORS) && i < |data|
    requires data[..i] == FindAndSetMany(map0, NUM_SECTORS, i).taken
    ensures var before, next := FindAndSetMany(map0, NUM_SECTORS, i), FindAndSetMany(map0, NUM_SECTORS, i + 1);
            var s := FirstClear(before.words, NUM_SECTORS, 0);
            0 <= s < NUM_SECTORS && next.words == Mark(before.words, s) && data[i := s][..i + 1] == next.taken
  {
    NumClearPositive(FindAndSetMany(map0, NUM_SECTORS, i).words, NUM_SECTORS);
  }

  class FileHeader {
    var numBytes: int32
    var numSectors: int32
    var dataSectors: seq<int32>

    function Value(): Header
      reads this
    {
      Header(numBytes, numSectors, dataSectors)
    }

    /** There is no initialisation in the code: `junk` is what the memory held. */
    constructor (junk: Header)
      ensures Value() == junk
    {
      numBytes, numSectors, dataSectors := junk.numBytes, junk.numSectors, junk.dataSectors;
    }

    method FetchFrom(disk: SynchDisk, sector: int)
      requires IsDisk(disk.sectors) && 0 <= sector < NUM_SECTORS
      modifies this
      ensures Value() == DecodeHeader(disk.sectors[sector])
    {
      var data := disk.ReadSector(sector);
      var h := DecodeHeader(data);
      numBytes, numSectors, dataSectors := h.numBytes, h.numSectors, h.dataSectors;
    }

    method WriteBack(disk: SynchDisk, sector: int)
      requires IsDisk(disk.sectors) && 0 <= sector < NUM_SECTORS && WellShaped(Value())
      modifies disk
      ensures disk.sectors == old(disk.sectors)[sector := EncodeHeader(Value())] && IsDisk(disk.sectors)
    {
      disk.WriteSector(sector, EncodeHeader(Value()));
    }

    /** Take the sectors from the free map, all of them or none. */
    method Allocate(freeMap: Bitmap, fileSize: int) returns (ok: bool)
      requires freeMap.Valid() && freeMap.numBits == NUM_SECTORS
      requires 0 <= fileSize <= MAX_FILE_SIZE && WellShaped(Value())
      modifies this, freeMap
      ensures freeMap.Valid()
      ensures ok == (SectorsFor(fileSize) <= NumClear(old(freeMap.words), NUM_SECTORS))
      ensures !ok ==> freeMap.words == old(freeMap.words)
      ensures ok ==> var g := FindAndSetMany(old(freeMap.words), NUM_SECTORS, SectorsFor(fileSize));
                     && freeMap.words == g.words
                     && WellShaped(Value()) && numBytes == fileSize && numSectors == |g.taken|
                     && dataSectors[..numSectors] == g.taken
    {
      numBytes := fileSize;
      numSectors := SectorsFor(fileSize);
      var free := freeMap.NumClearBits();
      if free < numSectors {
        return false;
      }
      TakeSectors(freeMap);
      return true;
    }

    /** The loop of Allocate. */
    method TakeSectors(freeMap: Bitmap)
      requires freeMap.Valid() && freeMap.numBits == NUM_SECTORS && WellShaped(Value())
      requires 0 <= numSectors <= NUM_DIRECT && numSectors <= NumClear(freeMap.words, NUM_SECTORS)
      modifies this`dataSectors, freeMap
      ensures freeMap.Valid() && WellShaped(Value())
      ensures var g := FindAndSetMany(old(freeMap.words), NUM_SECTORS, numSectors);
              && freeMap.words == g.words && numSectors == |g.taken| && dataSectors[..numSectors] == g.taken
    {
      ghost var map0 := freeMap.words;
      var i := 0;
      while i < numSectors
        invariant 0 <= i <= numSectors && freeMap.Valid() && WellShaped(Value())
        invariant freeMap.words == FindAndSetMany(map0, NUM_SECTORS, i).words
        invariant dataSectors[..i] == FindAndSetMany(map0, NUM_SECTORS, i).taken
      {
        NextTaken(map0, i, dataSectors);
        var s := freeMap.FindAndSet();
        dataSectors := dataSectors[i := s];
        i := i + 1;
      }
    }

    /** Give the sectors back; each of them had better be marked. */
    method Deallocate(freeMap: Bitmap)
      requires freeMap.Valid() && freeMap.numBits == NUM_SECTORS && GoodHeader(Value())
      requires forall s | s in DataOf(Value()) :: Bit(freeMap.words, s)
      modifies freeMap
      ensures freeMap.Valid() && |freeMap.words| == |old(freeMap.words)|
      ensures forall j: nat | j < 32 * |freeMap.words| ::
                Bit(freeMap.words, j) == (Bit(old(freeMap.words), j) && j !in DataOf(Value()))
    {
      var i := 0;
      ghost var data := DataOf(Value());
      while i < numSectors
        invariant 0 <= i <= numSectors && freeMap.Valid() && |freeMap.words| == |old(freeMap.words)|
        invariant forall j: nat | j < 32 * |freeMap.words| ::
                    Bit(freeMap.words, j) == (Bit(old(freeMap.words), j) && j !in data[..i])
      {
        assert data[i] in data && data[i] !in data[..i];
        assert freeMap.Test(dataSectors[i]);
        MarkOnlyOne(freeMap.words, dataSectors[i]);
        freeMap.ClearBit(dataSectors[i]);
        assert data[..i + 1] == data[..i] + [data[i]];
        i := i + 1;
      }
      assert data[..i] == data;
    }

    function ByteToSector(offset: nat): (s: int)
      requires GoodHeader(Value()) && offset < numSectors * SECTOR_SIZE
      reads this
      ensures 0 <= s < NUM_SECTORS && s == DataOf(Value())[offset / SECTOR_SIZE]
    {
      dataSectors[offset / SECTOR_SIZE]
    }
  }

  class OpenFile {
    const disk: SynchDisk
    var hdr: FileHeader
    var seekPosition: int

    ghost predicate Valid()
      reads this, hdr, disk
    {
      IsDisk(disk.sectors) && GoodHeader(hdr.Value())
    }

    constructor (disk: SynchDisk, sector: int)
      requires IsDisk(disk.sectors) && 0 <= sector < NUM_SECTORS
      ensures this.disk == disk && seekPosition == 0 && fresh(hdr)
      ensures hdr.Value() == DecodeHeader(disk.sectors[sector])
    {
      this.disk := disk;
      var h := new FileHeader(Header(0, 0, []));
      h.FetchFrom(disk, sector);
      hdr := h;
      seekPosition := 0;
    }

    /** Whole sectors first..last of the file, read one by one into a fresh buffer. */
    method ReadSectors(firstSector: nat, lastSector: nat) returns (buf: array<byte>)
      requires Valid() && firstSector <= lastSector < hdr.numSectors
      ensures fresh(buf) && buf.Length == (1 + lastSector - firstSector) * SECTOR_SIZE
      ensures forall q | 0 <= q < buf.Length ::
                buf[q] == RawByte(disk.sectors, hdr.Value(), firstSector * SECTOR_SIZE + q)
    {
      buf := new byte[(1 + lastSector - firstSector) * SECTOR_SIZE];
      ghost var h, d := hdr.Value(), disk.sectors;
      var i := firstSector;
      while i <= lastSector
        invariant firstSector <= i <= lastSector + 1
        invariant forall q | 0 <= q < (i - firstSector) * SECTOR_SIZE ::
                    buf[q] == RawByte(d, h, firstSector * SECTOR_SIZE + q)
      {
        var data := disk.ReadSector(hdr.ByteToSector(i * SECTOR_SIZE));
        ghost var was := buf[..];
        CopyInto(buf, (i - firstSector) * SECTOR_SIZE, data);
        SectorRead(d, h, firstSector, i, was, buf[..], data);
        i := i + 1;
      }
    }

    /** Copies exactly the clamped slice of the file into `into` at `at`. */
    method ReadAt(into: array<byte>, at: nat, numBytes: int, position: nat) returns (n: nat)
      requires Valid() && at + Clamp(hdr.numBytes, numBytes, position) <= into.Length
      modifies into
      ensures n == Clamp(hdr.numBytes, numBytes, position)
      ensures numBytes <= 0 || position >= hdr.numBytes ==> n == 0
      ensures numBytes > 0 && position < hdr.numBytes ==> 0 < n && (n == numBytes || position + n == hdr.numBytes)
      ensures at + n <= into.Length && (n > 0 ==> position + n <= hdr.numBytes)
      ensures forall q | at <= q < at + n :: into[q] == Contents(disk.sectors, hdr.Value())[position + (q - at)]
      ensures forall q | 0 <= q < into.Length && !(at <= q < at + n) :: into[q] == old(into[q])
    {
      var fileLength: int := hdr.numBytes;
      if numBytes <= 0 || position >= fileLength {
        return 0;
      }
      n := numBytes;
      if position + n > fileLength {
        n := fileLength - position;
      }
      var firstSector := position / SECTOR_SIZE;
      var lastSector := (position + n - 1) / SECTOR_SIZE;
      SectorsSpanned(hdr.Value(), position, n);
      var buf := ReadSectors(firstSector, lastSector);
      var from := position - firstSector * SECTOR_SIZE;
      CopyInto(into, at, buf[from..from + n]);
    }

    /** As much of sector k of the file as lies within the file. */
    method ReadOneSector(buf: array<byte>, base: nat, k: nat)
      requires Valid() && k < hdr.numSectors && base <= k * SECTOR_SIZE && (k + 1) * SECTOR_SIZE - base <= buf.Length
      modifies buf
      ensures Loaded(disk.sectors, hdr.Value(), base, k, old(buf[..]), buf[..])
    {
      var got := ReadAt(buf, k * SECTOR_SIZE - base, SECTOR_SIZE, k * SECTOR_SIZE);
    }

    /** A buffer for sectors first..last with the old bytes of those two wherever the range
        [position, position + n) covers them only in part. */
    method ReadEdges(n: nat, position: nat, first: nat, last: nat) returns (buf: array<byte>)
      requires Valid() && 0 < n && position + n <= hdr.numBytes
      requires first * SECTOR_SIZE <= position < (first + 1) * SECTOR_SIZE
      requires last * SECTOR_SIZE < position + n <= (last + 1) * SECTOR_SIZE
      ensures fresh(buf) && buf.Length == (1 + last - first) * SECTOR_SIZE
      ensures EdgesOld(disk.sectors, hdr.Value(), first * SECTOR_SIZE, position, n, buf[..])
    {
      buf := new byte[(1 + last - first) * SECTOR_SIZE];
      var firstAligned := position == first * SECTOR_SIZE;
      var lastAligned := position + n == (last + 1) * SECTOR_SIZE;
      ghost var b0 := buf[..];
      if !firstAligned {
        ReadOneSector(buf, first * SECTOR_SIZE, first);
      }
      ghost var b1 := buf[..];
      if !lastAligned && (first != last || firstAligned) {
        ReadOneSector(buf, first * SECTOR_SIZE, last);
      }
      EdgesLoaded(disk.sectors, hdr.Value(), position, n, first, last, b0, b1, buf[..]);
    }

    /** The sectors to write back: the new bytes laid over the edges.  Bytes past the end of the
        file are whatever the buffer held. */
    method PrepareBuffer(data: seq<byte>, position: nat, first: nat, last: nat) returns (buf: array<byte>)
      requires Valid() && data != [] && position + |data| <= hdr.numBytes
      requires first * SECTOR_SIZE <= position < (first + 1) * SECTOR_SIZE
      requires last * SECTOR_SIZE < position + |data| <= (last + 1) * SECTOR_SIZE
      ensures fresh(buf) && buf.Length == (1 + last - first) * SECTOR_SIZE
      ensures Overlaid(disk.sectors, hdr.Value(), first * SECTOR_SIZE, position, data, buf[..])
    {
      buf := ReadEdges(|data|, position, first, last);
      CopyInto(buf, position - first * SECTOR_SIZE, data);
    }

    /** Write the buffer back, sector by sector, from `firstSector` of the file on. */
    method WriteSectors(buf: seq<byte>, firstSector: nat, lastSector: nat)
      requires Valid() && firstSector <= lastSector < hdr.numSectors
      requires |buf| == (1 + lastSector - firstSector) * SECTOR_SIZE
      modifies disk
      ensures Valid() && Stored(old(disk.sectors), disk.sectors, hdr.Value(), firstSector, lastSector + 1, buf)
    {
      var i := firstSector;
      while i <= lastSector
        invariant firstSector <= i <= lastSector + 1 && Valid()
        invariant Stored(old(disk.sectors), disk.sectors, hdr.Value(), firstSector, i, buf)
      {
        StoreOneMore(old(disk.sectors), disk.sectors, hdr.Value(), firstSector, i, buf);
        disk.WriteSector(hdr.ByteToSector(i * SECTOR_SIZE), Piece(buf, i - firstSector));
        i := i + 1;
      }
    }

    /** Write back a buffer that holds the new bytes over the old ones. */
    method WriteBuffer(buf: seq<byte>, firstSector: nat, lastSector: nat, ghost data: seq<byte>, ghost position: nat)
      requires Valid() && firstSector <= lastSector < hdr.numSectors && data != [] && position + |data| <= hdr.numBytes
      requires firstSector * SECTOR_SIZE <= position < (firstSector + 1) * SECTOR_SIZE
      requires lastSector * SECTOR_SIZE < position + |data| <= (lastSector + 1) * SECTOR_SIZE
      requires |buf| == (1 + lastSector - firstSector) * SECTOR_SIZE
      requires Overlaid(disk.sectors, hdr.Value(), firstSector * SECTOR_SIZE, position, data, buf)
      modifies disk
      ensures Valid() && Wrote(old(disk.sectors), disk.sectors, hdr.Value(), position, data)
    {
      ghost var d := disk.sectors;
      WriteSectors(buf, firstSector, lastSector);
      StoredIsWrote(d, disk.sectors, hdr.Value(), position, data, buf, firstSector, lastSector + 1);
    }

    /** Changes exactly the clamped range of the file, and nothing outside the file. */
    method WriteAt(from: seq<byte>, numBytes: int, position: nat) returns (n: nat)
      requires Valid() && Clamp(hdr.numBytes, numBytes, position) <= |from|
      modifies disk
      ensures Valid() && n == Clamp(hdr.numBytes, numBytes, position)
      ensures numBytes <= 0 || position >= hdr.numBytes ==> n == 0
      ensures numBytes > 0 && position < hdr.numBytes ==> 0 < n && (n == numBytes || position + n == hdr.numBytes)
      ensures Wrote(old(disk.sectors), disk.sectors, hdr.Value(), position, from[..n])
    {
      var fileLength: int := hdr.numBytes;
      if numBytes <= 0 || position >= fileLength {
        return 0;
      }
      n := numBytes;
      if position + n > fileLength {
        n := fileLength - position;
      }
      WriteRange(from[..n], position);
    }

    /** The sectors around the range are read where needed, overlaid and written back whole. */
    method WriteRange(data: seq<byte>, position: nat)
      requires Valid() && data != [] && position + |data| <= hdr.numBytes
      modifies disk
      ensures Valid() && Wrote(old(disk.sectors), disk.sectors, hdr.Value(), position, data)
    {
      var firstSector := position / SECTOR_SIZE;
      var lastSector := (position + |data| - 1) / SECTOR_SIZE;
      SectorsSpanned(hdr.Value(), position, |data|);
      var buf := PrepareBuffer(data, position, firstSector, lastSector);
      WriteBuffer(buf[..], firstSector, lastSector, data, position);
    }

    method Read(into: array<byte>, numBytes: int) returns (n: nat)
      requires Valid() && 0 <= seekPosition && Clamp(hdr.numBytes, numBytes, seekPosition) <= into.Length
      modifies this`seekPosition, into
      ensures Valid() && n == Clamp(hdr.numBytes, numBytes, old(seekPosition)) && seekPosition == old(seekPosition) + n
      ensures n > 0 ==> into[..n] == Contents(disk.sectors, hdr.Value())[old(seekPosition)..seekPosition]
    {
      n := ReadAt(into, 0, numBytes, seekPosition);
      seekPosition := seekPosition + n;
    }

    method Write(from: seq<byte>, numBytes: int) returns (n: nat)
      requires Valid() && 0 <= seekPosition && Clamp(hdr.numBytes, numBytes, seekPosition) <= |from|
      modifies this`seekPosition, disk
      ensures Valid() && n == Clamp(hdr.numBytes, numBytes, old(seekPosition)) && seekPosition == old(seekPosition) + n
      ensures Wrote(old(disk.sectors), disk.sectors, hdr.Value(), old(seekPosition), from[..n])
    {
      n := WriteAt(from, numBytes, seekPosition);
      seekPosition := seekPosition + n;
    }
  }

  /** As much of sector k as lies within the file has been copied into its place in the buffer. */
  predicate Loaded(d: Sectors, h: Header, base: nat, k: nat, was: seq<byte>, now: seq<byte>)
    requires IsDisk(d) && GoodHeader(h)
  {
    && |now| == |was|
    && forall q | 0 <= q < |now| ::
         now[q] == if k * SECTOR_SIZE <= base + q < (k + 1) * SECTOR_SIZE && base + q < h.numBytes
                   then RawByte(d, h, base + q) else was[q]
  }

  predicate EdgesOld(d: Sectors, h: Header, base: nat, pos: nat, n: nat, buf: seq<byte>)
    requires IsDisk(d) && GoodHeader(h)
  {
    forall q | 0 <= q < |buf| && base + q < h.numBytes && !(pos <= base + q < pos + n) ::
      buf[q] == RawByte(d, h, base + q)
  }

  lemma EdgesLoaded(d: Sectors, h: Header, pos: nat, n: nat, first: nat, last: nat,
                    b0: seq<byte>, b1: seq<byte>, b2: seq<byte>)
    requires IsDisk(d) && GoodHeader(h) && |b0| == (1 + last - first) * SECTOR_SIZE
    requires first * SECTOR_SIZE <= pos < (first + 1) * SECTOR_SIZE
    requires last * SECTOR_SIZE < pos + n <= (last + 1) * SECTOR_SIZE
    requires if pos == first * SECTOR_SIZE then b1 == b0 else Loaded(d, h, first * SECTOR_SIZE, first, b0, b1)
    requires if pos + n != (last + 1) * SECTOR_SIZE && (first != last || pos == first * SECTOR_SIZE)
             then Loaded(d, h, first * SECTOR_SIZE, last, b1, b2) else b2 == b1
    ensures EdgesOld(d, h, first * SECTOR_SIZE, pos, n, b2)
  {
  }

  /** The buffer covers the sectors around [pos, pos + |data|) and holds, for every byte that lies
      within the file, the new byte or else the old one. */
  predicate Overlaid(d: Sectors, h: Header, base: nat, pos: nat, data: seq<byte>, buf: seq<byte>)
    requires IsDisk(d) && GoodHeader(h)
  {
    forall q | 0 <= q < |buf| && base + q < h.numBytes ::
      buf[q] == if pos <= base + q < pos + |data| then data[base + q - pos] else RawByte(d, h, base + q)
  }

  /** The k-th sector of a buffer. */
  function Piece(buf: seq<byte>, k: nat): (piece: seq<byte>)
    requires (k + 1) * SECTOR_SIZE <= |buf|
    ensures |piece| == SECTOR_SIZE
  {
    buf[k * SECTOR_SIZE..(k + 1) * SECTOR_SIZE]
  }

  /** Sectors first..upTo-1 of the file hold the buffer's pieces; every other sector is as it was. */
  predicate Stored(d: Sectors, d': Sectors, h: Header, first: nat, upTo: nat, buf: seq<byte>)
    requires IsDisk(d) && GoodHeader(h)
    requires first <= upTo <= h.numSectors && (upTo - first) * SECTOR_SIZE <= |buf|
  {
    && IsDisk(d')
    && (forall k | first <= k < upTo ::
          d'[h.dataSectors[k]] == Piece(buf, k - first))
    && (forall s | 0 <= s < NUM_SECTORS && s !in h.dataSectors[first..upTo] :: d'[s] == d[s])
  }

  lemma StoreOneMore(d: Sectors, d': Sectors, h: Header, first: nat, i: nat, buf: seq<byte>)
    requires IsDisk(d) && GoodHeader(h) && first <= i < h.numSectors && (i + 1 - first) * SECTOR_SIZE <= |buf|
    requires Stored(d, d', h, first, i, buf)
    ensures Stored(d, d'[h.dataSectors[i] := Piece(buf, i - first)], h, first, i + 1, buf)
  {
    assert h.dataSectors[first..i + 1] == h.dataSectors[first..i] + [h.dataSectors[i]];
  }

  lemma RawAt(d: Sectors, h: Header, k: nat, o: nat)
    requires IsDisk(d) && GoodHeader(h) && k < h.numSectors && o < SECTOR_SIZE
    ensures RawByte(d, h, k * SECTOR_SIZE + o) == d[h.dataSectors[k]][o]
  {
    assert (k * SECTOR_SIZE + o) / SECTOR_SIZE == k && (k * SECTOR_SIZE + o) % SECTOR_SIZE == o;
  }

  lemma StoredInside(d: Sectors, d': Sectors, h: Header, first: nat, upTo: nat, buf: seq<byte>, k: nat, o: nat)
    requires IsDisk(d) && GoodHeader(h) && first <= k < upTo <= h.numSectors && o < SECTOR_SIZE
    requires |buf| == (upTo - first) * SECTOR_SIZE && Stored(d, d', h, first, upTo, buf)
    ensures RawByte(d', h, k * SECTOR_SIZE + o) == buf[k * SECTOR_SIZE + o - first * SECTOR_SIZE]
  {
    RawAt(d', h, k, o);
    assert Piece(buf, k - first)[o] == buf[(k - first) * SECTOR_SIZE + o];
  }

  lemma StoredOutside(d: Sectors, d': Sectors, h: Header, first: nat, upTo: nat, buf: seq<byte>, k: nat, o: nat)
    requires IsDisk(d) && GoodHeader(h) && first <= upTo <= h.numSectors && k < h.numSectors && o < SECTOR_SIZE
    requires !(first <= k < upTo)
    requires |buf| == (upTo - first) * SECTOR_SIZE && Stored(d, d', h, first, upTo, buf)
    ensures RawByte(d', h, k * SECTOR_SIZE + o) == RawByte(d, h, k * SECTOR_SIZE + o)
  {
    RawAt(d, h, k, o);
    RawAt(d', h, k, o);
    assert h.dataSectors[k] !in h.dataSectors[first..upTo];
  }

  lemma StoredByte(d: Sectors, d': Sectors, h: Header, pos: nat, data: seq<byte>, buf: seq<byte>, first: nat,
                   upTo: nat, k: nat, o: nat)
    requires IsDisk(d) && GoodHeader(h) && k < h.numSectors && o < SECTOR_SIZE && k * SECTOR_SIZE + o < h.numBytes
    requires first * SECTOR_SIZE <= pos < (first + 1) * SECTOR_SIZE && first < upTo <= h.numSectors
    requires (upTo - 1) * SECTOR_SIZE < pos + |data| <= upTo * SECTOR_SIZE
    requires |buf| == (upTo - first) * SECTOR_SIZE
    requires Overlaid(d, h, first * SECTOR_SIZE, pos, data, buf) && Stored(d, d', h, first, upTo, buf)
    ensures var p := k * SECTOR_SIZE + o;
            RawByte(d', h, p) == if pos <= p < pos + |data| then data[p - pos] else RawByte(d, h, p)
  {
    if first <= k < upTo {
      StoredInside(d, d', h, first, upTo, buf, k, o);
      assert first * SECTOR_SIZE + ((k - first) * SECTOR_SIZE + o) == k * SECTOR_SIZE + o;
    } else {
      StoredOutside(d, d', h, first, upTo, buf, k, o);
    }
  }

  lemma StoredByteAt(d: Sectors, d': Sectors, h: Header, pos: nat, data: seq<byte>, buf: seq<byte>, first: nat,
                     upTo: nat, p: nat)
    requires IsDisk(d) && GoodHeader(h) && pos + |data| <= h.numBytes && p < h.numBytes
    requires first * SECTOR_SIZE <= pos < (first + 1) * SECTOR_SIZE && first < upTo <= h.numSectors
    requires (upTo - 1) * SECTOR_SIZE < pos + |data| <= upTo * SECTOR_SIZE
    requires |buf| == (upTo - first) * SECTOR_SIZE
    requires Overlaid(d, h, first * SECTOR_SIZE, pos, data, buf) && Stored(d, d', h, first, upTo, buf)
    ensures RawByte(d', h, p) == Splice(Contents(d, h), pos, data)[p]
  {
    assert p == p / SECTOR_SIZE * SECTOR_SIZE + p % SECTOR_SIZE;
    StoredByte(d, d', h, pos, data, buf, first, upTo, p / SECTOR_SIZE, p % SECTOR_SIZE);
  }

  lemma StoredIsWrote(d: Sectors, d': Sectors, h: Header, pos: nat, data: seq<byte>, buf: seq<byte>, first: nat,
                      upTo: nat)
    requires IsDisk(d) && GoodHeader(h) && 0 < |data| && pos + |data| <= h.numBytes
    requires first * SECTOR_SIZE <= pos < (first + 1) * SECTOR_SIZE && first < upTo <= h.numSectors
    requires (upTo - 1) * SECTOR_SIZE < pos + |data| <= upTo * SECTOR_SIZE
    requires |buf| == (upTo - first) * SECTOR_SIZE
    requires Overlaid(d, h, first * SECTOR_SIZE, pos, data, buf) && Stored(d, d', h, first, upTo, buf)
    ensures Wrote(d, d', h, pos, data)
  {
    forall p | 0 <= p < h.numBytes
      ensures RawByte(d', h, p) == Splice(Contents(d, h), pos, data)[p]
    {
      StoredByteAt(d, d', h, pos, data, buf, first, upTo, p);
    }
    assert Contents(d', h) == Splice(Contents(d, h), pos, data);
    StoredElsewhere(d, d', h, first, upTo, buf);
  }

  lemma StoredElsewhere(d: Sectors, d': Sectors, h: Header, first: nat, upTo: nat, buf: seq<byte>)
    requires IsDisk(d) && GoodHeader(h) && first < upTo <= h.numSectors && |buf| == (upTo - first) * SECTOR_SIZE
    requires Stored(d, d', h, first, upTo, buf)
    ensures forall s | 0 <= s < NUM_SECTORS && s !in DataOf(h) :: d'[s] == d[s]
  {
    forall s | s in h.dataSectors[first..upTo]
      ensures s in DataOf(h)
    {
      var k :| 0 <= k < upTo - first && h.dataSectors[first..upTo][k] == s;
      assert DataOf(h)[first + k] == s;
    }
  }

  /** One more sector read into the buffer extends the range it mirrors. */
  lemma SectorRead(d: Sectors, h: Header, first: nat, i: nat, was: seq<byte>, now: seq<byte>, data: seq<byte>)
    requires IsDisk(d) && GoodHeader(h) && first <= i < h.numSectors
    requires data == d[h.dataSectors[i]]
    requires (i + 1 - first) * SECTOR_SIZE <= |was| == |now|
    requires forall q | 0 <= q < (i - first) * SECTOR_SIZE :: now[q] == was[q]
    requires forall q | (i - first) * SECTOR_SIZE <= q < (i + 1 - first) * SECTOR_SIZE ::
               now[q] == data[q - (i - first) * SECTOR_SIZE]
    requires forall q | 0 <= q < (i - first) * SECTOR_SIZE :: was[q] == RawByte(d, h, first * SECTOR_SIZE + q)
    ensures forall q | 0 <= q < (i + 1 - first) * SECTOR_SIZE :: now[q] == RawByte(d, h, first * SECTOR_SIZE + q)
  {
    forall q | (i - first) * SECTOR_SIZE <= q < (i + 1 - first) * SECTOR_SIZE
      ensures now[q] == RawByte(d, h, first * SECTOR_SIZE + q)
    {
      var o := q - (i - first) * SECTOR_SIZE;
      assert first * SECTOR_SIZE + q == i * SECTOR_SIZE + o;
      assert (i * SECTOR_SIZE + o) / SECTOR_SIZE == i && (i * SECTOR_SIZE + o) % SECTOR_SIZE == o;
    }
  }
}
