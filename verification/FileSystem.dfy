/** filesys/filesys.cc: format, Create and Remove on the raw disk. */
module FileSystemModel {
  import opened Sequences
  import opened Bytes
  import opened BitmapModel
  import opened DiskFormat
  import opened FileData
  import opened DirectoryModel
  import opened FileSystemSpec

  /** The metadata files overlap neither each other nor the two well-known headers. */
  predicate MetaApart(d: Sectors) {
    && Bootable(d)
    && (forall s | s in DataOf(MapHeader(d)) ::
          s != FREE_MAP_SECTOR && s != DIRECTORY_SECTOR && s !in DataOf(DirHeader(d)))
    && (forall s | s in DataOf(DirHeader(d)) :: s != FREE_MAP_SECTOR && s != DIRECTORY_SECTOR)
  }

  lemma ConsistentIsApart(d: Sectors)
    requires Consistent(d)
    ensures MetaApart(d) && SlotGood(View(d), -2) && SlotGood(View(d), -1)
  {
    var m := View(d);
    assert Live(m, -2) && Live(m, -1);
    assert Owns(m, -2, FREE_MAP_SECTOR) && Owns(m, -1, DIRECTORY_SECTOR);
    forall s | s in DataOf(MapHeader(d))
      ensures s != DIRECTORY_SECTOR && s !in DataOf(DirHeader(d))
    {
      assert Owns(m, -2, s);
    }
    forall s | s in DataOf(DirHeader(d))
      ensures s != FREE_MAP_SECTOR
    {
      assert Owns(m, -1, s);
    }
  }

  predicate SameMetaHeaders(d: Sectors, d': Sectors)
    requires IsDisk(d) && IsDisk(d')
  {
    MapHeader(d') == MapHeader(d) && DirHeader(d') == DirHeader(d)
  }

  /** Writing the whole directory file replaces the table that later operations will read, and only that. */
  lemma TableWritten(d: Sectors, d': Sectors, t: seq<Entry>)
    requires MetaApart(d) && |t| == NUM_DIR_ENTRIES && TableShaped(t)
    requires Wrote(d, d', DirHeader(d), 0, EncodeTable(t))
    ensures MetaApart(d') && SameMetaHeaders(d, d')
    ensures View(d').table == t && View(d').words == View(d).words
  {
    ContentsFrame(d, d', MapHeader(d));
    assert Contents(d', DirHeader(d)) == EncodeTable(t);
    TableRoundTrip(t);
  }

  lemma WordsWritten(d: Sectors, d': Sectors, w: Words)
    requires MetaApart(d) && 32 * |w| == NUM_SECTORS
    requires Wrote(d, d', MapHeader(d), 0, EncodeWords(w))
    ensures MetaApart(d') && SameMetaHeaders(d, d')
    ensures View(d').words == w && View(d').table == View(d).table
  {
    ContentsFrame(d, d', DirHeader(d));
    assert Contents(d', MapHeader(d)) == EncodeWords(w);
    WordsRoundTrip(w);
  }

  lemma HeaderWritten(d: Sectors, s: int, h: Header)
    requires MetaApart(d) && WellShaped(h)
    requires 0 <= s < NUM_SECTORS && s != FREE_MAP_SECTOR && s != DIRECTORY_SECTOR
    requires s !in DataOf(MapHeader(d)) && s !in DataOf(DirHeader(d))
    ensures var d' := d[s := EncodeHeader(h)];
            && MetaApart(d') && SameMetaHeaders(d, d') && HeaderAt(d', s) == h
            && View(d').words == View(d).words && View(d').table == View(d).table
  {
    var d' := d[s := EncodeHeader(h)];
    HeaderRoundTrip(h);
    assert SameMetaHeaders(d, d');
    ContentsFrame(d, d', MapHeader(d));
    ContentsFrame(d, d', DirHeader(d));
  }

  // ---- the operations as relations on raw disks -----------------------------

  /** No sector outside the metadata files and outside `but` has changed. */
  predicate Untouched(d: Sectors, d': Sectors, but: int)
    requires Bootable(d) && IsDisk(d')
  {
    forall s | 0 <= s < NUM_SECTORS && s != but && s !in DataOf(MapHeader(d)) && s !in DataOf(DirHeader(d)) ::
        d'[s] == d[s]
  }

  ghost predicate CreatedOn(d: Sectors, d': Sectors, name: Name, size: nat)
    requires Consistent(d)
  {
    && Bootable(d') && SameMetaHeaders(d, d')
    && SlotGood(View(d), -2) && SlotGood(View(d), -1)
    && CanCreate(View(d), name, size) && Created(View(d), View(d'), name, size)
    && Untouched(d, d', NewHome(View(d)))
  }

  ghost predicate DeletedOn(d: Sectors, d': Sectors, name: Name)
    requires Consistent(d)
  {
    var m := View(d);
    && Bootable(d') && SameMetaHeaders(d, d')
    && SlotGood(m, -2) && SlotGood(m, -1)
    && IndexOf(m.table, name, 0) != -1 && SlotGood(m, IndexOf(m.table, name, 0))
    && Deleted(m, View(d'), name)
    && Untouched(d, d', -1)
  }

  /** A freshly formatted disk: five sectors taken, no files. */
  predicate Formatted(d: Sectors) {
    && Bootable(d)
    && DataOf(MapHeader(d)) == [2] && DataOf(DirHeader(d)) == [3, 4]
    && (forall s: nat | s < NUM_SECTORS :: Bit(View(d).words, s) <==> s < 5)
    && (forall i | 0 <= i < NUM_DIR_ENTRIES :: !View(d).table[i].inUse)
  }

  lemma EmptySound(m: Meta)
    requires MetaShaped(m) && GoodHeader(m.hdrs[0]) && GoodHeader(m.hdrs[1])
    requires DataOf(m.hdrs[0]) == [2] && DataOf(m.hdrs[1]) == [3, 4]
    requires forall s: nat | s < NUM_SECTORS :: Bit(m.words, s) <==> s < 5
    requires forall i | 0 <= i < NUM_DIR_ENTRIES :: !m.table[i].inUse
    ensures Sound(m)
  {
    assert SlotGood(m, -2) && SlotGood(m, -1);
    assert Live(m, -2) && Live(m, -1);
    assert forall s :: Owns(m, -2, s) <==> s == 0 || s == 2;
    assert forall s :: Owns(m, -1, s) <==> s == 1 || s == 3 || s == 4;
    assert forall j | Live(m, j) :: j == -2 || j == -1;
    forall s: nat | s < NUM_SECTORS
      ensures Bit(m.words, s) <==> Owned(m, s)
    {
      assert Owned(m, s) <==> Owns(m, -2, s) || Owns(m, -1, s);
    }
  }

  lemma FormattedIsConsistent(d: Sectors)
    requires Formatted(d)
    ensures Consistent(d)
  {
    EmptySound(View(d));
  }

  lemma CreateKeepsConsistent(d: Sectors, d': Sectors, name: Name, size: nat)
    requires Consistent(d) && size <= MAX_FILE_SIZE && CreatedOn(d, d', name, size)
    ensures Consistent(d')
    ensures NumClear(View(d').words, NUM_SECTORS) == NumClear(View(d).words, NUM_SECTORS) - 1 - SectorsFor(size)
  {
    CreateKeepsSound(View(d), View(d'), name, size);
  }

  lemma DeleteKeepsConsistent(d: Sectors, d': Sectors, name: Name)
    requires Consistent(d) && DeletedOn(d, d', name)
    ensures Consistent(d') && IndexOf(View(d').table, name, 0) == -1
  {
    DeleteKeepsSound(View(d), View(d'), name);
  }

  /** Writing into one listed file changes no metadata. */
  lemma WriteKeepsConsistent(d: Sectors, d': Sectors, j: int, pos: nat, data: seq<byte>)
    requires Consistent(d) && 0 <= j < NUM_DIR_ENTRIES && Live(View(d), j)
    requires SlotGood(View(d), j) && Wrote(d, d', HeaderAt(d, Home(View(d), j)), pos, data)
    ensures Consistent(d') && SameMetaHeaders(d, d')
    ensures View(d').words == View(d).words && View(d').table == View(d).table
    ensures forall k | -2 <= k < NUM_DIR_ENTRIES && Live(View(d), k) ::
              HeaderAt(d', Home(View(d), k)) == HeaderAt(d, Home(View(d), k))
  {
    var m := View(d);
    var h := HeaderAt(d, Home(m, j));
    ConsistentIsApart(d);
    forall k, s | -2 <= k < NUM_DIR_ENTRIES && Live(m, k) && Owns(m, k, s) && (k != j || s == Home(m, j))
      ensures 0 <= s < NUM_SECTORS && d'[s] == d[s]
    {
      assert Owns(m, j, s) <==> s == Home(m, j) || s in DataOf(h);
    }
    assert Live(m, -2) && Live(m, -1);
    assert Owns(m, -2, 0) && Owns(m, -1, 1);
    assert SameMetaHeaders(d, d');
    ContentsFrame(d, d', MapHeader(d)) by {
      assert forall s | s in DataOf(MapHeader(d)) :: Owns(m, -2, s);
    }
    ContentsFrame(d, d', DirHeader(d)) by {
      assert forall s | s in DataOf(DirHeader(d)) :: Owns(m, -1, s);
    }
    forall k | -2 <= k < NUM_DIR_ENTRIES && Live(m, k)
      ensures HeaderAt(d', Home(m, k)) == HeaderAt(d, Home(m, k))
    {
      assert Owns(m, k, Home(m, k));
    }
    SameHomesSound(m, View(d'));
  }

  /** Soundness looks at the bitmap, the table and the headers of live files only. */
  lemma SameHomesSound(m: Meta, m': Meta)
    requires MetaShaped(m) && MetaShaped(m') && Sound(m)
    requires m'.words == m.words && m'.table == m.table
    requires forall k | -2 <= k < NUM_DIR_ENTRIES && Live(m, k) ::
               SlotGood(m, k) && m'.hdrs[Home(m, k)] == m.hdrs[Home(m, k)]
    ensures Sound(m')
  {
    forall k | Live(m', k)
      ensures Live(m, k) && SlotGood(m', k)
      ensures forall s :: Owns(m', k, s) == Owns(m, k, s)
    {
    }
    forall s: nat | s < NUM_SECTORS
      ensures Bit(m'.words, s) <==> Owned(m', s)
    {
      if Owned(m, s) {
        var j :| -2 <= j < NUM_DIR_ENTRIES && Live(m, j) && Owns(m, j, s);
        assert Live(m', j) && Owns(m', j, s);
      }
    }
  }

  // ---- what a user of the names sees ----------------------------------------

  lemma UniqueIndex(t: seq<Entry>, n: Name, i: nat)
    requires TableShaped(t) && DistinctNames(t) && i < |t| && Matches(t[i], n)
    ensures IndexOf(t, n, 0) == i
  {
    var k := IndexOf(t, n, 0);
    MatchIsKeyEquality(t[i], n, n);
    MatchIsKeyEquality(t[k], n, n);
  }

  /** The contents of the file listed under a name, if there is one. */
  ghost function Lookup(d: Sectors, n: Name): Option<seq<byte>>
    requires Consistent(d)
  {
    var i := IndexOf(View(d).table, n, 0);
    if i == -1 then None
    else
      assert Live(View(d), i) && SlotGood(View(d), i);
      Some(Contents(d, HeaderAt(d, Home(View(d), i))))
  }

  /** A file none of whose sectors was touched keeps header and contents. */
  lemma FileStays(d: Sectors, d': Sectors, but: int, j: int)
    requires Consistent(d) && IsDisk(d') && Untouched(d, d', but)
    requires 0 <= j < NUM_DIR_ENTRIES && Live(View(d), j) && SlotGood(View(d), j) && !Owns(View(d), j, but)
    ensures var h := HeaderAt(d, Home(View(d), j));
            HeaderAt(d', Home(View(d), j)) == h && Contents(d', h) == Contents(d, h)
  {
    var m := View(d);
    ConsistentIsApart(d);
    assert Live(m, -2) && Live(m, -1);
    forall s | Owns(m, j, s)
      ensures 0 <= s < NUM_SECTORS && d'[s] == d[s]
    {
      assert Owns(m, -2, s) <==> s == Home(m, -2) || s in DataOf(MapHeader(d));
      assert Owns(m, -1, s) <==> s == Home(m, -1) || s in DataOf(DirHeader(d));
    }
    assert Owns(m, j, Home(m, j));
    ContentsFrame(d, d', HeaderAt(d, Home(m, j))) by {
      assert forall s | s in DataOf(HeaderAt(d, Home(m, j))) :: Owns(m, j, s);
    }
  }

  /** Create adds one name with a file of the requested size; every other name reads as before. */
  lemma CreateSemantics(d: Sectors, d': Sectors, name: Name, size: nat, n: Name)
    requires Consistent(d) && size <= MAX_FILE_SIZE && CreatedOn(d, d', name, size)
    ensures Consistent(d')
    ensures Key(n) == Key(name) ==> Lookup(d, n) == None && Lookup(d', n).Some? && |Lookup(d', n).value| == size
    ensures Key(n) != Key(name) ==> Lookup(d', n) == Lookup(d, n)
  {
    CreateKeepsConsistent(d, d', name, size);
    var m, m' := View(d), View(d');
    CreateKeepsSound(m, m', name, size);
    var slot := FreeSlot(m.table, 0);
    AddIndex(m.table, slot, name, NewHome(m), n);
    var i := IndexOf(m.table, n, 0);
    if Key(n) == Key(name) {
      NewFileHasSize(d, d', name, size, n);
    } else if i != -1 {
      CreateLeavesFile(d, d', name, size, i);
    }
  }

  lemma NewFileHasSize(d: Sectors, d': Sectors, name: Name, size: nat, n: Name)
    requires Consistent(d) && Consistent(d') && size <= MAX_FILE_SIZE && CreatedOn(d, d', name, size)
    requires IndexOf(View(d').table, n, 0) == FreeSlot(View(d).table, 0)
    ensures Lookup(d', n).Some? && |Lookup(d', n).value| == size
  {
  }

  /** The new entry is where its name is found; every other name is found where it was. */
  lemma AddIndex(t: seq<Entry>, slot: nat, name: Name, home: nat, n: Name)
    requires |t| == NUM_DIR_ENTRIES && TableShaped(t) && DistinctNames(t) && IndexOf(t, name, 0) == -1
    requires slot == FreeSlot(t, 0) && home < NUM_SECTORS
    ensures IndexOf(Added(t, slot, name, home), n, 0) == if Key(n) == Key(name) then slot else IndexOf(t, n, 0)
    ensures Key(n) == Key(name) ==> IndexOf(t, n, 0) == -1
  {
    var t' := Added(t, slot, name, home);
    forall k | 0 <= k < NUM_DIR_ENTRIES
      ensures Matches(t[k], n) <==> t[k].inUse && StoredName(t[k].name) == Key(n)
      ensures Matches(t[k], name) <==> t[k].inUse && StoredName(t[k].name) == Key(name)
    {
      MatchIsKeyEquality(t[k], n, name);
      MatchIsKeyEquality(t[k], name, name);
    }
    MatchIsKeyEquality(t[slot], n, name);
    AddKeepsDistinct(t, slot, name, home);
    if Key(n) == Key(name) {
      assert Matches(t'[slot], n);
      UniqueIndex(t', n, slot);
    } else {
      var i := IndexOf(t, n, 0);
      if i == -1 {
        assert forall k | 0 <= k < NUM_DIR_ENTRIES :: !Matches(t'[k], n);
      } else {
        UniqueIndex(t', n, i);
      }
    }
  }

  lemma CreateLeavesFile(d: Sectors, d': Sectors, name: Name, size: nat, i: int)
    requires Consistent(d) && Consistent(d') && size <= MAX_FILE_SIZE && CreatedOn(d, d', name, size)
    requires 0 <= i < NUM_DIR_ENTRIES && Live(View(d), i) && View(d').table[i] == View(d).table[i]
    ensures SlotGood(View(d), i) && Home(View(d'), i) == Home(View(d), i)
    ensures var h := HeaderAt(d, Home(View(d), i));
            HeaderAt(d', Home(View(d), i)) == h && Contents(d', h) == Contents(d, h)
  {
    var m := View(d);
    assert SlotGood(m, i);
    FreeIsUnowned(m, i, NewHome(m));
    FileStays(d, d', NewHome(m), i);
  }

  /** Remove takes exactly that name away. */
  lemma RemoveSemantics(d: Sectors, d': Sectors, name: Name, n: Name)
    requires Consistent(d) && DeletedOn(d, d', name)
    ensures Consistent(d')
    ensures Lookup(d', n) == if Key(n) == Key(name) then None else Lookup(d, n)
  {
    DeleteKeepsConsistent(d, d', name);
    var m, m' := View(d), View(d');
    var slot := IndexOf(m.table, name, 0);
    forall k | 0 <= k < NUM_DIR_ENTRIES
      ensures Matches(m.table[k], n) <==> m.table[k].inUse && StoredName(m.table[k].name) == Key(n)
    {
      MatchIsKeyEquality(m.table[k], n, name);
    }
    MatchIsKeyEquality(m.table[slot], name, name);
    var i := IndexOf(m.table, n, 0);
    if i == -1 || i == slot {
      assert forall k | 0 <= k < NUM_DIR_ENTRIES :: !Matches(m'.table[k], n);
    } else {
      UniqueIndex(m'.table, n, i);
      assert Live(m, i) && SlotGood(m, i);
      FileStays(d, d', -1, i);
    }
    if Key(n) == Key(name) { UniqueIndex(m.table, n, slot); }
  }

  /** Writing one file splices its bytes and leaves every other file alone. */
  lemma WriteSemantics(d: Sectors, d': Sectors, name: Name, pos: nat, data: seq<byte>, n: Name)
    requires Consistent(d) && IndexOf(View(d).table, name, 0) != -1
    requires SlotGood(View(d), IndexOf(View(d).table, name, 0))
    requires data != [] && Wrote(d, d', HeaderAt(d, Home(View(d), IndexOf(View(d).table, name, 0))), pos, data)
    ensures Consistent(d')
    ensures Lookup(d, name).Some? && pos + |data| <= |Lookup(d, name).value|
    ensures Lookup(d', n) == if Key(n) == Key(name) then Some(Splice(Lookup(d, name).value, pos, data))
            else Lookup(d, n)
  {
    var m := View(d);
    var j := IndexOf(m.table, name, 0);
    assert Live(m, j);
    WriteKeepsConsistent(d, d', j, pos, data);
    MatchIsKeyEquality(m.table[j], name, name);
    MatchIsKeyEquality(m.table[j], n, name);
    var i := IndexOf(m.table, n, 0);
    if Key(n) == Key(name) {
      UniqueIndex(m.table, n, j);
    } else if i != -1 {
      assert Live(m, i) && SlotGood(m, i) && i != j;
      var h, g := HeaderAt(d, Home(m, j)), HeaderAt(d, Home(m, i));
      forall s | s in DataOf(g)
        ensures s !in DataOf(h)
      {
        assert Owns(m, i, s);
        assert Owns(m, j, s) <==> s == Home(m, j) || s in DataOf(h);
      }
      WriteThenRead(d, d', h, pos, data, g, 0);
    }
  }

  lemma CreateThenRemoveWords(m: Meta, m1: Meta, m2: Meta, name: Name, size: nat)
    requires MetaShaped(m) && MetaShaped(m1) && MetaShaped(m2) && Sound(m) && size <= MAX_FILE_SIZE
    requires SlotGood(m, -2) && SlotGood(m, -1) && CanCreate(m, name, size) && Created(m, m1, name, size)
    requires SlotGood(m1, -2) && SlotGood(m1, -1) && IndexOf(m1.table, name, 0) != -1
    requires SlotGood(m1, IndexOf(m1.table, name, 0)) && Deleted(m1, m2, name)
    ensures m2.words == m.words
  {
    CreateKeepsSound(m, m1, name, size);
    NewSlot(m, m1, name, size);
    GrabBits(m, size);
    BitsDetermine(m2.words, m.words);
  }

  /** Removing a file just created gives back exactly the sectors it took, and the listing of before. */
  lemma CreateThenRemove(d: Sectors, d1: Sectors, d2: Sectors, name: Name, size: nat, n: Name)
    requires Consistent(d) && size <= MAX_FILE_SIZE && CreatedOn(d, d1, name, size)
    requires Consistent(d1) && DeletedOn(d1, d2, name)
    ensures Consistent(d2) && View(d2).words == View(d).words && Lookup(d2, n) == Lookup(d, n)
  {
    CreateThenRemoveWords(View(d), View(d1), View(d2), name, size);
    CreateSemantics(d, d1, name, size, n);
    RemoveSemantics(d1, d2, name, n);
  }

  // ---- every run ------------------------------------------------------------

  datatype Op =
    | CreateOp(name: Name, size: nat)
    | RemoveOp(name: Name)
    | WriteOp(name: Name, pos: nat, data: seq<byte>)

  predicate Legal(op: Op) {
    op.CreateOp? ==> op.size <= MAX_FILE_SIZE
  }

  /** One operation on a consistent disk; a failing Create or Remove leaves every byte alone. */
  ghost predicate Step(d: Sectors, op: Op, d': Sectors)
    requires Consistent(d)
  {
    var m := View(d);
    match op
    case CreateOp(name, size) => if CanCreate(m, name, size) then CreatedOn(d, d', name, size) else d' == d
    case RemoveOp(name) => if IndexOf(m.table, name, 0) != -1 then DeletedOn(d, d', name) else d' == d
    case WriteOp(name, pos, data) =>
      var j := IndexOf(m.table, name, 0);
      if j != -1 then SlotGood(m, j) && Wrote(d, d', HeaderAt(d, Home(m, j)), pos, data) else d' == d
  }

  lemma StepKeepsConsistent(d: Sectors, op: Op, d': Sectors)
    requires Consistent(d) && Legal(op) && Step(d, op, d')
    ensures Consistent(d')
  {
    match op
    case CreateOp(name, size) => if CanCreate(View(d), name, size) { CreateKeepsConsistent(d, d', name, size); }
    case RemoveOp(name) => if IndexOf(View(d).table, name, 0) != -1 { DeleteKeepsConsistent(d, d', name); }
    case WriteOp(name, pos, data) =>
      var j := IndexOf(View(d).table, name, 0);
      if j != -1 {
        assert Live(View(d), j);
        WriteKeepsConsistent(d, d', j, pos, data);
      }
  }

  ghost predicate IsRun(ds: seq<Sectors>, ops: seq<Op>) {
    && |ds| == |ops| + 1 && Formatted(ds[0])
    && forall i | 0 <= i < |ops| :: Legal(ops[i]) && (Consistent(ds[i]) ==> Step(ds[i], ops[i], ds[i + 1]))
  }

  /** From a formatted disk, whatever operations follow, every disk on the way is consistent. */
  lemma {:induction false} EveryRunConsistent(ds: seq<Sectors>, ops: seq<Op>, i: nat)
    requires IsRun(ds, ops) && i < |ds|
    ensures Consistent(ds[i])
  {
    if i == 0 {
      FormattedIsConsistent(ds[0]);
    } else {
      EveryRunConsistent(ds, ops, i - 1);
      assert Legal(ops[i - 1]);
      StepKeepsConsistent(ds[i - 1], ops[i - 1], ds[i]);
    }
  }
}
