/** How headers, bitmap words and directory entries are laid out in sectors.
    The code casts the objects themselves to `char *`, so the layout is the host's. */
module DiskFormat {
  import opened Bytes
  import opened Bits
  import opened BitmapModel

  const SECTOR_SIZE := 128
  const NUM_SECTORS := 1024
  const NUM_DIRECT := 30
  const MAX_FILE_SIZE := NUM_DIRECT * SECTOR_SIZE
  const FILE_NAME_MAX := 9
  const ENTRY_SIZE := 20

  // ---- words of the bitmap --------------------------------------------------

  /** x >> k for an unsigned x. */
  function Shifted(x: nat, k: nat): nat {
    if k == 0 then x else Shifted(x / 2, k - 1)
  }

  lemma {:induction false} ShiftFindsBit(b: seq<bool>, k: nat)
    requires k < |b|
    ensures Shifted(Value(b), k) % 2 == (if b[k] then 1 else 0)
  {
    assert Value(b) / 2 == Value(b[1..]);
    if k > 0 { ShiftFindsBit(b[1..], k - 1); }
  }

  function ByteOfBits(b: seq<bool>): byte
    requires |b| == 8
  {
    ByteBound(b);
    Value(b)
  }

  lemma ByteBound(b: seq<bool>)
    requires |b| == 8
    ensures Value(b) < 256
  {
    assert Value(b[7..]) < 2 && Value(b[6..]) < 4 && Value(b[5..]) < 8 && Value(b[4..]) < 16 by {
      assert b[7..][1..] == [] && b[6..][1..] == b[7..] && b[5..][1..] == b[6..] && b[4..][1..] == b[5..];
    }
    assert b[1..][1..] == b[2..] && b[2..][1..] == b[3..] && b[3..][1..] == b[4..];
  }

  function BitOfByte(x: byte, k: nat): bool
    requires k < 8
  {
    Shifted(x, k) % 2 == 1
  }

  function EncodeWord(w: Word): (b: seq<byte>)
    ensures |b| == 4
  {
    [ByteOfBits(w[0..8]), ByteOfBits(w[8..16]), ByteOfBits(w[16..24]), ByteOfBits(w[24..32])]
  }

  function DecodeWord(b: seq<byte>): Word
    requires |b| == 4
  {
    seq(32, i requires 0 <= i < 32 => BitOfByte(b[i / 8], i % 8))
  }

  lemma WordRoundTrip(w: Word)
    ensures DecodeWord(EncodeWord(w)) == w
  {
    var b := EncodeWord(w);
    forall i | 0 <= i < 32
      ensures BitOfByte(b[i / 8], i % 8) == w[i]
    {
      if i < 8 { ShiftFindsBit(w[0..8], i); }
      else if i < 16 { ShiftFindsBit(w[8..16], i - 8); }
      else if i < 24 { ShiftFindsBit(w[16..24], i - 16); }
      else { ShiftFindsBit(w[24..32], i - 24); }
    }
  }

  function EncodeWords(ws: Words): (b: seq<byte>)
    ensures |b| == 4 * |ws|
  {
    seq(4 * |ws|, i requires 0 <= i < 4 * |ws| => EncodeWord(ws[i / 4])[i % 4])
  }

  function DecodeWords(b: seq<byte>): (ws: Words)
    requires |b| % 4 == 0
    ensures |ws| == |b| / 4
  {
    seq(|b| / 4, k requires 0 <= k < |b| / 4 => DecodeWord(b[4 * k..4 * k + 4]))
  }

  lemma EncodedWordAt(ws: Words, k: nat)
    requires k < |ws|
    ensures EncodeWords(ws)[4 * k..4 * k + 4] == EncodeWord(ws[k])
  {
    var b, e := EncodeWords(ws), EncodeWord(ws[k]);
    forall j | 0 <= j < 4
      ensures b[4 * k + j] == e[j]
    {
      assert (4 * k + j) / 4 == k && (4 * k + j) % 4 == j;
    }
    assert b[4 * k..4 * k + 4] == e;
  }

  lemma WordsRoundTrip(ws: Words)
    ensures DecodeWords(EncodeWords(ws)) == ws
  {
    forall k | 0 <= k < |ws|
      ensures DecodeWords(EncodeWords(ws))[k] == ws[k]
    {
      EncodedWordAt(ws, k);
      WordRoundTrip(ws[k]);
    }
  }

  // ---- file headers ---------------------------------------------------------

  /** filesys/filehdr.h: the i-node, exactly one sector long. */
  datatype Header = Header(numBytes: int32, numSectors: int32, dataSectors: seq<int32>)

  predicate WellShaped(h: Header) {
    |h.dataSectors| == NUM_DIRECT
  }

  function EncodeHeader(h: Header): (b: seq<byte>)
    requires WellShaped(h)
    ensures |b| == SECTOR_SIZE
  {
    EncodeInts([h.numBytes, h.numSectors] + h.dataSectors)
  }

  function DecodeHeader(b: seq<byte>): (h: Header)
    requires |b| == SECTOR_SIZE
    ensures WellShaped(h)
  {
    var xs := DecodeInts(b);
    Header(xs[0], xs[1], xs[2..])
  }

  lemma HeaderRoundTrip(h: Header)
    requires WellShaped(h)
    ensures DecodeHeader(EncodeHeader(h)) == h
  {
    IntsRoundTrip([h.numBytes, h.numSectors] + h.dataSectors);
  }

  // ---- directory entries ----------------------------------------------------

  /** filesys/directory.h: 1 + 3 (padding) + 4 + 10 + 2 (padding) bytes. */
  datatype Entry = Entry(inUse: bool, pad: seq<byte>, sector: int32, name: seq<byte>, tail: seq<byte>)

  predicate EntryShaped(e: Entry) {
    |e.pad| == 3 && |e.name| == FILE_NAME_MAX + 1 && |e.tail| == 2
  }

  predicate TableShaped(t: seq<Entry>) {
    forall i | 0 <= i < |t| :: EntryShaped(t[i])
  }

  function EncodeEntry(e: Entry): (b: seq<byte>)
    requires EntryShaped(e)
    ensures |b| == ENTRY_SIZE
  {
    [if e.inUse then 1 else 0] + e.pad + EncodeInt(e.sector) + e.name + e.tail
  }

  function DecodeEntry(b: seq<byte>): (e: Entry)
    requires |b| == ENTRY_SIZE
    ensures EntryShaped(e)
  {
    Entry(b[0] != 0, b[1..4], DecodeInt(b[4..8]), b[8..18], b[18..20])
  }

  lemma EntryRoundTrip(e: Entry)
    requires EntryShaped(e)
    ensures DecodeEntry(EncodeEntry(e)) == e
  {
    var b, s := EncodeEntry(e), EncodeInt(e.sector);
    assert b[0] == if e.inUse then 1 else 0;
    assert b[1..4] == e.pad;
    assert b[4..8] == s;
    assert b[8..18] == e.name;
    assert b[18..20] == e.tail;
    IntRoundTrip(e.sector);
  }

  function EncodeTable(t: seq<Entry>): (b: seq<byte>)
    requires TableShaped(t)
    ensures |b| == ENTRY_SIZE * |t|
  {
    seq(ENTRY_SIZE * |t|, i requires 0 <= i < ENTRY_SIZE * |t| => EncodeEntry(t[i / ENTRY_SIZE])[i % ENTRY_SIZE])
  }

  function DecodeTable(b: seq<byte>): (t: seq<Entry>)
    requires |b| % ENTRY_SIZE == 0
    ensures |t| == |b| / ENTRY_SIZE && TableShaped(t)
  {
    seq(|b| / ENTRY_SIZE, k requires 0 <= k < |b| / ENTRY_SIZE =>
        DecodeEntry(b[ENTRY_SIZE * k..ENTRY_SIZE * k + ENTRY_SIZE]))
  }

  lemma EncodedEntryAt(t: seq<Entry>, k: nat)
    requires TableShaped(t) && k < |t|
    ensures EncodeTable(t)[ENTRY_SIZE * k..ENTRY_SIZE * k + ENTRY_SIZE] == EncodeEntry(t[k])
  {
    var b, e := EncodeTable(t), EncodeEntry(t[k]);
    forall j | 0 <= j < ENTRY_SIZE
      ensures b[ENTRY_SIZE * k + j] == e[j]
    {
      assert (ENTRY_SIZE * k + j) / ENTRY_SIZE == k && (ENTRY_SIZE * k + j) % ENTRY_SIZE == j;
    }
    assert b[ENTRY_SIZE * k..ENTRY_SIZE * k + ENTRY_SIZE] == e;
  }

  lemma TableRoundTrip(t: seq<Entry>)
    requires TableShaped(t)
    ensures DecodeTable(EncodeTable(t)) == t
  {
    forall k | 0 <= k < |t|
      ensures DecodeTable(EncodeTable(t))[k] == t[k]
    {
      EncodedEntryAt(t, k);
      EntryRoundTrip(t[k]);
    }
  }
}
