/** lib/list.cc: singly linked lists of cells on the heap, as sequences. */
module LinkedList {
  import opened Sequences

  class ListElement<T> {
    const item: T
    var next: ListElement?<T>

    constructor (itm: T)
      ensures item == itm && next == null
    {
      item, next := itm, null;
    }
  }

  class List<T(==)> {
    var first: ListElement?<T>
    var last: ListElement?<T>
    var numInList: nat
    ghost var cells: seq<ListElement<T>>

    /** The items, front first. */
    ghost function Items(): (r: seq<T>)
      reads this
      ensures |r| == |cells|
    {
      ItemsOf(cells)
    }

    /** The cells form one chain from first to last. */
    ghost predicate Chained()
      reads this, cells
    {
      NoDup(cells) && Links(cells, Nexts(cells))
    }

    ghost predicate Valid()
      reads this, cells
    {
      && Chained() && numInList == |cells|
      && (if cells == [] then first == null && last == null else first == cells[0] && last == cells[|cells| - 1])
    }

    constructor ()
      ensures Valid() && Items() == [] && cells == []
    {
      first, last, numInList, cells := null, null, 0, [];
    }

    method IsInList(item: T) returns (found: bool)
      requires Valid()
      ensures found <==> item in Items()
    {
      var ptr := first;
      ghost var i := 0;
      while ptr != null
        invariant i <= |cells| && ptr == (if i < |cells| then cells[i] else null)
        invariant forall j | 0 <= j < i :: cells[j].item != item
        decreases |cells| - i
      {
        if item == ptr.item {
          assert Items()[i] == item;
          return true;
        }
        NextCell(cells, i);
        ptr := ptr.next;
        i := i + 1;
      }
      found := false;
    }

    method Append(item: T)
      requires Valid() && item !in Items()
      modifies this, cells
      ensures Valid() && Items() == old(Items()) + [item]
      ensures cells[..|cells| - 1] == old(cells) && fresh(cells[|cells| - 1])
    {
      var element := new ListElement(item);
      ghost var was := cells;
      if numInList == 0 {
        first := element;
      } else {
        last.next := element;
        ChainPut(was, |was| - 1, element);
      }
      last := element;
      numInList := numInList + 1;
      cells := was + [element];
      assert cells == Put(was, |was|, element);
    }

    method Prepend(item: T)
      requires Valid() && item !in Items()
      modifies this
      ensures Valid() && Items() == Put(old(Items()), 0, item)
      ensures |cells| > 0 && cells == Put(old(cells), 0, cells[0]) && fresh(cells[0])
    {
      var element := new ListElement(item);
      if numInList == 0 {
        last := element;
      } else {
        element.next := first;
      }
      first := element;
      numInList := numInList + 1;
      NoDupPut(cells, 0, element);
      ItemsPut(cells, 0, element);
      NextsPush(cells, element);
      LinksPut(cells, Nexts(cells), 0, element, element.next);
      cells := Put(cells, 0, element);
    }

    method RemoveFront() returns (thing: T)
      requires Valid() && Items() != []
      modifies this
      ensures Valid() && thing == old(Items())[0] && Items() == old(Items())[1..] && cells == old(cells)[1..]
    {
      thing := first.item;
      NextCell(cells, 0);
      if first == last {
        first, last := null, null;
      } else {
        first := first.next;
      }
      numInList := numInList - 1;
      NoDupCut(cells, 0);
      ItemsCut(cells, 0);
      NextsPop(cells);
      LinksCut(cells, Nexts(cells), 0);
      cells := Cut(cells, 0);
    }

    /** A specific item, which must be in the list. */
    method Remove(item: T)
      requires Valid() && item in Items()
      modifies this, cells
      ensures Valid() && Items() == Without(old(Items()), item)
      ensures forall c | c in cells :: c in old(cells)
    {
      if item == first.item {
        var removed := RemoveFront();
      } else {
        var prev, ptr, i := Locate(item);
        WithoutAt(Items(), item, i);
        Unlink(prev, ptr, i);
      }
    }

    /** The cell that holds the item, and the one before it. */
    method Locate(item: T) returns (prev: ListElement<T>, ptr: ListElement<T>, ghost i: nat)
      requires Valid() && item in Items() && item != Items()[0]
      ensures 0 < i < |cells| && prev == cells[i - 1] && ptr == cells[i] && ptr.item == item
      ensures forall j | 0 <= j < i :: cells[j].item != item
    {
      prev, i := first, 1;
      var next := first.next;
      NextCell(cells, 0);
      while next != null && item != next.item
        invariant 1 <= i <= |cells| && prev == cells[i - 1] && next == (if i < |cells| then cells[i] else null)
        invariant forall j | 0 <= j < i :: cells[j].item != item
        decreases |cells| - i
      {
        NextCell(cells, i);
        prev := next;
        next := next.next;
        i := i + 1;
      }
      ptr := next;
    }

    /** Take cell i out of the chain. */
    method Unlink(prev: ListElement<T>, ptr: ListElement<T>, ghost i: nat)
      requires Valid() && 0 < i < |cells| && prev == cells[i - 1] && ptr == cells[i]
      modifies this, cells
      ensures Valid() && Items() == Cut(old(Items()), i) && cells == Cut(old(cells), i)
    {
      ghost var was, nexts := cells, Nexts(cells);
      prev.next := ptr.next;
      if prev.next == null {
        last := prev;
      }
      numInList := numInList - 1;
      NoDupCut(was, i);
      ItemsCut(was, i);
      NextsCut(was, i);
      LinksCut(was, nexts[i - 1 := nexts[i]], i);
      cells := Cut(was, i);
    }

    /** SortedList::Insert. */
    method InsertSorted(item: T, compare: (T, T) -> int)
      requires Valid() && item !in Items()
      modifies this, cells
      ensures Valid() && Items() == Insert(old(Items()), item, compare)
    {
      if numInList == 0 || compare(item, first.item) < 0 {
        Prepend(item);
        return;
      }
      var ptr, i := PlaceFor(item, compare);
      InsertAt(Items(), item, compare, i + 1);
      if ptr.next == null {
        Append(item);
      } else {
        Link(ptr, item, i);
      }
    }

    /** The last cell of those in front that do not come after the item. */
    method PlaceFor(item: T, compare: (T, T) -> int) returns (ptr: ListElement<T>, ghost i: nat)
      requires Valid() && cells != [] && compare(item, first.item) >= 0
      ensures i < |cells| && ptr == cells[i] && ptr.next == (if i + 1 < |cells| then cells[i + 1] else null)
      ensures forall j | 0 <= j <= i :: compare(item, cells[j].item) >= 0
      ensures i + 1 < |cells| ==> compare(item, cells[i + 1].item) < 0
    {
      ptr, i := first, 0;
      NextCell(cells, 0);
      while ptr.next != null && compare(item, ptr.next.item) >= 0
        invariant i < |cells| && ptr == cells[i] && ptr.next == (if i + 1 < |cells| then cells[i + 1] else null)
        invariant forall j | 0 <= j <= i :: compare(item, cells[j].item) >= 0
        decreases |cells| - i
      {
        NextCell(cells, i + 1);
        ptr := ptr.next;
        i := i + 1;
      }
    }

    /** Put a new cell behind cell i. */
    method Link(ptr: ListElement<T>, item: T, ghost i: nat)
      requires Valid() && i + 1 < |cells| && ptr == cells[i]
      modifies this, cells
      ensures Valid() && Items() == Put(old(Items()), i + 1, item)
      ensures cells == Put(old(cells), i + 1, cells[i + 1]) && fresh(cells[i + 1])
    {
      ghost var was := cells;
      var element := new ListElement(item);
      element.next := ptr.next;
      ptr.next := element;
      numInList := numInList + 1;
      ChainPut(was, i, element);
      cells := Put(was, i + 1, element);
    }
  }

  /** What the cells of a chain point to. */
  ghost function Nexts<T>(cells: seq<ListElement<T>>): (r: seq<ListElement?<T>>)
    ensures |r| == |cells|
  {
    seq(|cells|, i requires 0 <= i < |cells| => if i + 1 < |cells| then cells[i + 1] else null)
  }

  ghost predicate Links<T>(cells: seq<ListElement<T>>, nexts: seq<ListElement?<T>>)
    reads cells
  {
    |nexts| == |cells| && forall i {:trigger nexts[i]} | 0 <= i < |cells| :: cells[i].next == nexts[i]
  }

  lemma NextCell<T>(cells: seq<ListElement<T>>, i: nat)
    requires Links(cells, Nexts(cells)) && i < |cells|
    ensures cells[i].next == if i + 1 < |cells| then cells[i + 1] else null
  {
    assert cells[i].next == Nexts(cells)[i];
  }

  lemma LinksCut<T>(cells: seq<ListElement<T>>, nexts: seq<ListElement?<T>>, i: nat)
    requires |nexts| == |cells| && i < |cells| && forall j | 0 <= j < |cells| && j != i :: cells[j].next == nexts[j]
    ensures Links(Cut(cells, i), Cut(nexts, i))
  {
  }

  lemma NextsCut<T>(cells: seq<ListElement<T>>, i: nat)
    requires 0 < i < |cells|
    ensures Nexts(Cut(cells, i)) == Cut(Nexts(cells)[i - 1 := Nexts(cells)[i]], i)
  {
  }

  lemma NextsPop<T>(cells: seq<ListElement<T>>)
    requires cells != []
    ensures Nexts(Cut(cells, 0)) == Cut(Nexts(cells), 0)
  {
  }

  lemma NextsPush<T>(cells: seq<ListElement<T>>, c: ListElement<T>)
    ensures Nexts(Put(cells, 0, c)) == Put(Nexts(cells), 0, if cells == [] then null else cells[0])
  {
  }

  lemma LinksPut<T>(cells: seq<ListElement<T>>, nexts: seq<ListElement?<T>>, i: nat, c: ListElement<T>,
                    n: ListElement?<T>)
    requires Links(cells, nexts) && i <= |cells| && c.next == n
    ensures Links(Put(cells, i, c), Put(nexts, i, n))
  {
  }

  lemma NextsPut<T>(cells: seq<ListElement<T>>, i: nat, c: ListElement<T>)
    requires i < |cells|
    ensures Nexts(Put(cells, i + 1, c)) == Put(Nexts(cells)[i := c], i + 1, Nexts(cells)[i])
  {
  }

  /** Once cell i points to c, and c to where cell i did, c belongs to the chain. */
  lemma ChainPut<T>(cells: seq<ListElement<T>>, i: nat, c: ListElement<T>)
    requires NoDup(cells) && i < |cells| && c !in cells
    requires Links(cells, Nexts(cells)[i := c]) && c.next == Nexts(cells)[i]
    ensures var longer := Put(cells, i + 1, c);
            && NoDup(longer) && Links(longer, Nexts(longer)) && ItemsOf(longer) == Put(ItemsOf(cells), i + 1, c.item)
            && |longer| == |cells| + 1 && longer[0] == cells[0] && longer[i + 1] == c
            && (i + 1 < |cells| ==> longer[|cells|] == cells[|cells| - 1])
  {
    NoDupPut(cells, i + 1, c);
    ItemsPut(cells, i + 1, c);
    NextsPut(cells, i, c);
    LinksPut(cells, Nexts(cells)[i := c], i + 1, c, Nexts(cells)[i]);
  }

  /** Items are fixed when a cell is made. */
  ghost function ItemsOf<T>(cells: seq<ListElement<T>>): (r: seq<T>)
    ensures |r| == |cells|
  {
    seq(|cells|, i requires 0 <= i < |cells| => cells[i].item)
  }

  function Cut<T>(q: seq<T>, i: nat): seq<T>
    requires i < |q|
  {
    q[..i] + q[i + 1..]
  }

  lemma ItemsCut<T>(cells: seq<ListElement<T>>, i: nat)
    requires i < |cells|
    ensures ItemsOf(Cut(cells, i)) == Cut(ItemsOf(cells), i)
  {
  }

  lemma ItemsPut<T>(cells: seq<ListElement<T>>, i: nat, c: ListElement<T>)
    requires i <= |cells|
    ensures ItemsOf(Put(cells, i, c)) == Put(ItemsOf(cells), i, c.item)
  {
  }

  function Put<T>(q: seq<T>, i: nat, x: T): seq<T>
    requires i <= |q|
  {
    q[..i] + [x] + q[i..]
  }

  lemma NoDupCut<T>(q: seq<T>, i: nat)
    requires NoDup(q) && i < |q|
    ensures NoDup(Cut(q, i))
  {
  }

  lemma NoDupPut<T>(q: seq<T>, i: nat, x: T)
    requires NoDup(q) && i <= |q| && x !in q
    ensures NoDup(Put(q, i, x))
  {
  }

  lemma {:induction false} WithoutAt<T>(q: seq<T>, x: T, i: nat)
    requires i < |q| && q[i] == x && forall j | 0 <= j < i :: q[j] != x
    ensures Without(q, x) == Cut(q, i)
  {
    if i > 0 { WithoutAt(q[1..], x, i - 1); }
  }

  lemma {:induction false} InsertAt<T>(q: seq<T>, x: T, compare: (T, T) -> int, i: nat)
    requires i <= |q| && (i < |q| ==> compare(x, q[i]) < 0) && forall j | 0 <= j < i :: compare(x, q[j]) >= 0
    ensures Insert(q, x, compare) == Put(q, i, x)
  {
    if i > 0 { InsertAt(q[1..], x, compare, i - 1); }
  }
}
