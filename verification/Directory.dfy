/** filesys/directory.cc: a fixed table of names, and filesys/pbitmap.cc: a bitmap kept in a file. */
module DirectoryModel {
  import opened Bytes
  import opened BitmapModel
  import opened DiskFormat
  import opened FileData

  /** A C string without its terminating NUL. */
  type Name = n: seq<byte> | forall i | 0 <= i < |n| :: n[i] != 0

  function CharAt(n: Name, i: nat): byte {
    if i < |n| then n[i] else 0
  }

  /** strncmp(field, n, FileNameMaxLen) == 0, from position i on. */
  predicate SameFrom(field: seq<byte>, n: Name, i: nat)
    requires |field| == FILE_NAME_MAX + 1 && i <= FILE_NAME_MAX
    decreases FILE_NAME_MAX - i
  {
    || i == FILE_NAME_MAX
    || (field[i] == CharAt(n, i) && (field[i] == 0 || SameFrom(field, n, i + 1)))
  }

  /** strncpy(field, n, FileNameMaxLen): the tenth byte keeps what it held. */
  function CopyName(field: seq<byte>, n: Name): (r: seq<byte>)
    requires |field| == FILE_NAME_MAX + 1
    ensures |r| == FILE_NAME_MAX + 1
  {
    seq(FILE_NAME_MAX, i requires 0 <= i < FILE_NAME_MAX => CharAt(n, i)) + [field[FILE_NAME_MAX]]
  }

  /** What the file system can tell apart: the first nine characters. */
  function Key(n: Name): seq<byte> {
    if |n| <= FILE_NAME_MAX then n else n[..FILE_NAME_MAX]
  }

  /** The name stored in a field: up to the first NUL, nine characters at most. */
  function StoredFrom(field: seq<byte>, i: nat): seq<byte>
    requires |field| == FILE_NAME_MAX + 1 && i <= FILE_NAME_MAX
    decreases FILE_NAME_MAX - i
  {
    if i == FILE_NAME_MAX || field[i] == 0 then [] else [field[i]] + StoredFrom(field, i + 1)
  }

  function StoredName(field: seq<byte>): seq<byte>
    requires |field| == FILE_NAME_MAX + 1
  {
    StoredFrom(field, 0)
  }

  lemma {:induction false} SameIsKey(field: seq<byte>, n: Name, i: nat)
    requires |field| == FILE_NAME_MAX + 1 && i <= |n| && i <= FILE_NAME_MAX
    ensures SameFrom(field, n, i) <==> StoredFrom(field, i) == Key(n)[i..]
    decreases FILE_NAME_MAX - i
  {
    if i < FILE_NAME_MAX && i < |n| {
      SameIsKey(field, n, i + 1);
      assert Key(n)[i..] == [n[i]] + Key(n)[i + 1..];
    }
  }

  lemma {:induction false} CopyStores(field: seq<byte>, n: Name, i: nat)
    requires |field| == FILE_NAME_MAX + 1 && i <= |n| && i <= FILE_NAME_MAX
    ensures StoredFrom(CopyName(field, n), i) == Key(n)[i..]
    decreases FILE_NAME_MAX - i
  {
    if i < FILE_NAME_MAX && i < |n| {
      CopyStores(field, n, i + 1);
      assert Key(n)[i..] == [n[i]] + Key(n)[i + 1..];
    }
  }

  predicate Matches(e: Entry, n: Name)
    requires EntryShaped(e)
  {
    e.inUse && SameFrom(e.name, n, 0)
  }

  /** The comparison of the code decides equality of the first nine characters, and a name just
      copied into an entry is found there. */
  lemma MatchIsKeyEquality(e: Entry, n: Name, m: Name)
    requires EntryShaped(e)
    ensures Matches(e, n) <==> e.inUse && StoredName(e.name) == Key(n)
    ensures StoredName(CopyName(e.name, m)) == Key(m)
    ensures SameFrom(CopyName(e.name, m), n, 0) <==> Key(n) == Key(m)
  {
    SameIsKey(e.name, n, 0);
    SameIsKey(CopyName(e.name, m), n, 0);
    CopyStores(e.name, m, 0);
    assert Key(n)[0..] == Key(n) && Key(m)[0..] == Key(m);
  }

  /** First entry at or after i that is in use under that name, or -1. */
  function IndexOf(t: seq<Entry>, n: Name, i: nat): (r: int)
    requires TableShaped(t) && i <= |t|
    ensures r == -1 ==> forall k | i <= k < |t| :: !Matches(t[k], n)
    ensures r != -1 ==> i <= r < |t| && Matches(t[r], n) && forall k | i <= k < r :: !Matches(t[k], n)
    decreases t, |t| - i
  {
    if i == |t| then -1 else if Matches(t[i], n) then i else IndexOf(t, n, i + 1)
  }

  function FreeSlot(t: seq<Entry>, i: nat): (r: int)
    requires i <= |t|
    ensures r == -1 ==> forall k | i <= k < |t| :: t[k].inUse
    ensures r != -1 ==> i <= r < |t| && !t[r].inUse && forall k | i <= k < r :: t[k].inUse
    decreases t, |t| - i
  {
    if i == |t| then -1 else if !t[i].inUse then i else FreeSlot(t, i + 1)
  }

  function Added(t: seq<Entry>, slot: nat, n: Name, sector: int32): (r: seq<Entry>)
    requires TableShaped(t) && slot < |t|
    ensures |r| == |t| && TableShaped(r)
  {
    t[slot := t[slot].(inUse := true, name := CopyName(t[slot].name, n), sector := sector)]
  }

  function Removed(t: seq<Entry>, slot: nat): (r: seq<Entry>)
    requires TableShaped(t) && slot < |t|
    ensures |r| == |t| && TableShaped(r)
  {
    t[slot := t[slot].(inUse := false)]
  }

  /** No two files in use agree on their first nine characters. */
  predicate DistinctNames(t: seq<Entry>)
    requires TableShaped(t)
  {
    forall i, j | 0 <= i < j < |t| && t[i].inUse && t[j].inUse :: StoredName(t[i].name) != StoredName(t[j].name)
  }

  lemma AddKeepsDistinct(t: seq<Entry>, slot: nat, n: Name, sector: int32)
    requires TableShaped(t) && slot < |t| && !t[slot].inUse && DistinctNames(t) && IndexOf(t, n, 0) == -1
    ensures DistinctNames(Added(t, slot, n, sector)) && IndexOf(Added(t, slot, n, sector), n, 0) == slot
  {
    MatchIsKeyEquality(t[slot], n, n);
    forall k | 0 <= k < |t| && k != slot
      ensures t[k].inUse ==> StoredName(t[k].name) != Key(n)
    {
      MatchIsKeyEquality(t[k], n, n);
    }
    var i := IndexOf(Added(t, slot, n, sector), n, 0);
    assert Matches(Added(t, slot, n, sector)[slot], n);
  }

  class Directory {
    var table: seq<Entry>

    ghost predicate Valid()
      reads this
    {
      TableShaped(table)
    }

    /** Only the in-use flags are initialised: the rest of the entries is whatever memory held. */
    constructor (junk: seq<Entry>)
      requires TableShaped(junk)
      ensures Valid() && |table| == |junk|
      ensures forall i | 0 <= i < |junk| :: table[i] == junk[i].(inUse := false)
    {
      table := seq(|junk|, i requires 0 <= i < |junk| => junk[i].(inUse := false));
    }

    method FetchFrom(file: OpenFile)
      requires Valid() && file.Valid()
      modifies this
      ensures Valid() && |table| == |old(table)|
      ensures file.hdr.numBytes == ENTRY_SIZE * |table| ==>
                table == DecodeTable(Contents(file.disk.sectors, file.hdr.Value()))
    {
      var bytes := EncodeTable(table);
      var buf := new byte[|bytes|](i requires 0 <= i < |bytes| => bytes[i]);
      var n := file.ReadAt(buf, 0, |bytes|, 0);
      assert file.hdr.numBytes == |bytes| ==> buf[..] == Contents(file.disk.sectors, file.hdr.Value());
      table := DecodeTable(buf[..]);
    }

    method WriteBack(file: OpenFile)
      requires Valid() && file.Valid()
      modifies file.disk
      ensures file.Valid()
      ensures Wrote(old(file.disk.sectors), file.disk.sectors, file.hdr.Value(), 0,
                    EncodeTable(table)[..Clamp(file.hdr.numBytes, ENTRY_SIZE * |table|, 0)])
      ensures file.hdr.numBytes == ENTRY_SIZE * |table| ==>
                Wrote(old(file.disk.sectors), file.disk.sectors, file.hdr.Value(), 0, EncodeTable(table))
    {
      var bytes := EncodeTable(table);
      var n := file.WriteAt(bytes, |bytes|, 0);
      assert n == |bytes| ==> bytes[..n] == bytes;
    }

    method FindIndex(name: Name) returns (r: int)
      requires Valid()
      ensures r == IndexOf(table, name, 0)
    {
      var i := 0;
      while i < |table|
        invariant 0 <= i <= |table| && IndexOf(table, name, 0) == IndexOf(table, name, i)
      {
        if table[i].inUse && SameFrom(table[i].name, name, 0) {
          return i;
        }
        i := i + 1;
      }
      return -1;
    }

    method Find(name: Name) returns (sector: int)
      requires Valid()
      ensures sector == if IndexOf(table, name, 0) == -1 then -1 else table[IndexOf(table, name, 0)].sector
    {
      var i := FindIndex(name);
      if i != -1 {
        return table[i].sector;
      }
      return -1;
    }

    method Add(name: Name, newSector: int32) returns (ok: bool)
      requires Valid()
      modifies this
      ensures Valid() && ok == (IndexOf(old(table), name, 0) == -1 && FreeSlot(old(table), 0) != -1)
      ensures table == if ok then Added(old(table), FreeSlot(old(table), 0), name, newSector) else old(table)
    {
      var found := FindIndex(name);
      if found != -1 {
        return false;
      }
      var i := 0;
      while i < |table|
        invariant 0 <= i <= |table| && table == old(table) && FreeSlot(table, 0) == FreeSlot(table, i)
      {
        if !table[i].inUse {
          table := table[i := table[i].(inUse := true, name := CopyName(table[i].name, name), sector := newSector)];
          return true;
        }
        i := i + 1;
      }
      return false;
    }

    method Remove(name: Name) returns (ok: bool)
      requires Valid()
      modifies this
      ensures Valid() && ok == (IndexOf(old(table), name, 0) != -1)
      ensures table == if ok then Removed(old(table), IndexOf(old(table), name, 0)) else old(table)
    {
      var i := FindIndex(name);
      if i == -1 {
        return false;
      }
      table := table[i := table[i].(inUse := false)];
      return true;
    }
  }

  /** filesys/pbitmap.cc: fill the words from a file. */
  method FetchBitmap(map_: Bitmap, file: OpenFile)
    requires map_.Valid() && file.Valid()
    modifies map_
    ensures map_.Valid() && |map_.words| == |old(map_.words)|
    ensures file.hdr.numBytes == 4 * |map_.words| ==>
              map_.words == DecodeWords(Contents(file.disk.sectors, file.hdr.Value()))
  {
    var bytes := EncodeWords(map_.words);
    var buf := new byte[|bytes|](i requires 0 <= i < |bytes| => bytes[i]);
    var n := file.ReadAt(buf, 0, |bytes|, 0);
    assert file.hdr.numBytes == |bytes| ==> buf[..] == Contents(file.disk.sectors, file.hdr.Value());
    map_.words := DecodeWords(buf[..]);
  }

  method WriteBitmap(map_: Bitmap, file: OpenFile)
    requires map_.Valid() && file.Valid()
    modifies file.disk
    ensures file.Valid()
    ensures Wrote(old(file.disk.sectors), file.disk.sectors, file.hdr.Value(), 0,
                  EncodeWords(map_.words)[..Clamp(file.hdr.numBytes, 4 * |map_.words|, 0)])
    ensures file.hdr.numBytes == 4 * |map_.words| ==>
              Wrote(old(file.disk.sectors), file.disk.sectors, file.hdr.Value(), 0, EncodeWords(map_.words))
  {
    var bytes := EncodeWords(map_.words);
    var n := file.WriteAt(bytes, |bytes|, 0);
    assert n == |bytes| ==> bytes[..n] == bytes;
  }
}
