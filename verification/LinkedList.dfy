/** The doubly linked list with a built-in cursor (list.c). */
module LinkedList {
  import opened Common

  /** What a node carries: a pointer to the item, and the size given to list_add. */
  datatype Cell<T> = Cell(item: T, size: nat)

  // ---------------------------------------------------------------------------------------------
  // The list as a sequence with a cursor

  /** The cells in order, and the index of the cell that list_get_next returns; an index past the end is no cell. */
  datatype View<T> = View(cells: seq<T>, cur: nat)

  /** list_add: the cursor of an empty list moves onto the new cell; one past the end stays past the end. */
  function AddTo<T>(v: View<T>, x: T): View<T> {
    View(v.cells + [x], if v.cells == [] then 0 else if v.cur == |v.cells| then v.cur + 1 else v.cur)
  }

  /** list_delete of cell i: a cursor on it moves to the next cell. */
  function DeleteAt<T>(v: View<T>, i: nat): View<T>
    requires i < |v.cells|
  {
    View(v.cells[..i] + v.cells[i + 1..], if i < v.cur then v.cur - 1 else v.cur)
  }

  /** list_get_next. */
  function Advanced<T>(v: View<T>): View<T> {
    if v.cur < |v.cells| then v.(cur := v.cur + 1) else v
  }

  /** The index of the first cell that holds an item, or the number of cells. */
  function IndexOf<T(==)>(cells: seq<Cell<T>>, item: T): (i: nat)
    ensures i <= |cells| && (i < |cells| ==> cells[i].item == item)
    ensures forall k | 0 <= k < i :: cells[k].item != item
  {
    FirstIndex(cells, (c: Cell<T>) => c.item == item)
  }

  // ---------------------------------------------------------------------------------------------
  // Walking the list with the cursor while it changes

  /** A cell, and the moment it entered the list: its index at the reset, then later numbers for later additions. */
  datatype Entry<T> = Entry(id: nat, cell: Cell<T>)

  datatype Call<T> = GetNext | AddItem(cell: Cell<T>) | DeleteItem(item: T)

  /** The entries with the cursor, the id of the next addition, and what list_get_next has returned since the reset. */
  datatype Walk<T> = Walk(view: View<Entry<T>>, added: nat, returned: seq<Entry<T>>)

  function Cells<T>(entries: seq<Entry<T>>): (cells: seq<Cell<T>>)
    ensures |cells| == |entries| && forall i | 0 <= i < |cells| :: cells[i] == entries[i].cell
  {
    seq(|entries|, i requires 0 <= i < |entries| => entries[i].cell)
  }

  function Plain<T>(v: View<Entry<T>>): View<Cell<T>> {
    View(Cells(v.cells), v.cur)
  }

  /** Right after list_reset. */
  function Reset<T>(cells: seq<Cell<T>>): (w: Walk<T>)
    ensures Plain(w.view) == View(cells, 0)
  {
    Walk(View(seq(|cells|, i requires 0 <= i < |cells| => Entry(i, cells[i])), 0), |cells|, [])
  }

  function Perform<T(==)>(w: Walk<T>, call: Call<T>): Walk<T> {
    match call
    case GetNext =>
      if w.view.cur < |w.view.cells| then
        w.(view := Advanced(w.view), returned := w.returned + [w.view.cells[w.view.cur]])
      else
        w
    case AddItem(cell) =>
      w.(view := AddTo(w.view, Entry(w.added, cell)), added := w.added + 1)
    case DeleteItem(item) =>
      var i := IndexOf(Cells(w.view.cells), item);
      if i < |w.view.cells| then w.(view := DeleteAt(w.view, i)) else w
  }

  function PerformAll<T(==)>(w: Walk<T>, calls: seq<Call<T>>): Walk<T>
    decreases |calls|
  {
    if calls == [] then w else PerformAll(Perform(w, calls[0]), calls[1..])
  }

  /** Without the ids, a call does to the list what the contracts of the class List below say. */
  lemma PerformIsTheCall<T>(w: Walk<T>, call: Call<T>)
    ensures var before, after := Plain(w.view), Plain(Perform(w, call).view);
            match call
            case GetNext =>
              after == Advanced(before) &&
              Perform(w, call).returned == w.returned + (if w.view.cur < |w.view.cells| then [w.view.cells[w.view.cur]] else [])
            case AddItem(cell) => after == AddTo(before, cell)
            case DeleteItem(item) =>
              var i := IndexOf(before.cells, item);
              after == if i < |before.cells| then DeleteAt(before, i) else before
  {
    var before, after := Plain(w.view), Plain(Perform(w, call).view);
    match call
    case GetNext =>
    case AddItem(cell) =>
      assert after.cells == before.cells + [cell];
    case DeleteItem(item) =>
      var i := IndexOf(before.cells, item);
      if i < |before.cells| {
        assert after.cells == before.cells[..i] + before.cells[i + 1..];
      }
  }

  ghost predicate Increasing<T>(entries: seq<Entry<T>>) {
    forall i, j | 0 <= i < j < |entries| :: entries[i].id < entries[j].id
  }

  /** What every call keeps, for a walk that started at a reset of the given cells. */
  ghost predicate WalkInv<T>(start: seq<Cell<T>>, w: Walk<T>) {
    var cells, cur := w.view.cells, w.view.cur;
    Increasing(cells) && Increasing(w.returned) && cur <= |cells| && |start| <= w.added &&
    (forall i | 0 <= i < |cells| :: cells[i].id < w.added && (cells[i].id < |start| ==> cells[i].cell == start[cells[i].id])) &&
    (forall e | e in w.returned :: e.id < w.added && (e.id < |start| ==> e.cell == start[e.id])) &&
    (forall e, i | e in w.returned && cur <= i < |cells| :: e.id < cells[i].id) &&
    (forall i | 0 <= i < cur && cells[i].id < |start| :: cells[i] in w.returned)
  }

  lemma IncreasingWithout<T>(all: seq<Entry<T>>, i: nat)
    requires i < |all| && Increasing(all)
    ensures Increasing(all[..i] + all[i + 1..])
  {
  }

  lemma DeleteKeeps<T>(start: seq<Cell<T>>, w: Walk<T>, i: nat)
    requires WalkInv(start, w) && i < |w.view.cells|
    ensures WalkInv(start, w.(view := DeleteAt(w.view, i)))
  {
    var all, cells, cur := w.view.cells, DeleteAt(w.view, i).cells, DeleteAt(w.view, i).cur;
    IncreasingWithout(all, i);
    forall k | 0 <= k < |cells|
      ensures cells[k].id < w.added && (cells[k].id < |start| ==> cells[k].cell == start[cells[k].id])
      ensures k < cur && cells[k].id < |start| ==> cells[k] in w.returned
      ensures cur <= k ==> forall e | e in w.returned :: e.id < cells[k].id
    {
      assert cells[k] == all[if k < i then k else k + 1];
    }
  }

  lemma AddKeeps<T>(start: seq<Cell<T>>, w: Walk<T>, cell: Cell<T>)
    requires WalkInv(start, w)
    ensures WalkInv(start, Perform(w, AddItem(cell)))
  {
  }

  lemma GetNextKeeps<T>(start: seq<Cell<T>>, w: Walk<T>)
    requires WalkInv(start, w)
    ensures WalkInv(start, Perform(w, GetNext))
  {
  }

  lemma {:induction false} WalkKeeps<T>(start: seq<Cell<T>>, w: Walk<T>, calls: seq<Call<T>>)
    requires WalkInv(start, w)
    ensures WalkInv(start, PerformAll(w, calls))
    decreases |calls|
  {
    if calls != [] {
      match calls[0] {
        case GetNext => GetNextKeeps(start, w);
        case AddItem(cell) => AddKeeps(start, w, cell);
        case DeleteItem(item) =>
          var i := IndexOf(Cells(w.view.cells), item);
          if i < |w.view.cells| {
            DeleteKeeps(start, w, i);
          }
      }
      WalkKeeps(start, Perform(w, calls[0]), calls[1..]);
    }
  }

  /** How often an entry was returned. */
  function Times<T(==)>(returned: seq<Entry<T>>, e: Entry<T>): nat {
    if returned == [] then 0 else (if returned[0] == e then 1 else 0) + Times(returned[1..], e)
  }

  lemma {:induction false} IncreasingMeansOnce<T>(returned: seq<Entry<T>>, e: Entry<T>)
    requires Increasing(returned)
    ensures Times(returned, e) == if e in returned then 1 else 0
  {
    if returned != [] {
      IncreasingMeansOnce(returned[1..], e);
      assert Increasing(returned[1..]);
      if returned[0] == e {
        assert e !in returned[1..];
      }
    }
  }

  /**
    * Whatever is added and deleted on the way, once list_get_next reports the end every entry of the reset that is
    * still in the list has been returned exactly once, and the entries were returned in list order.
    */
  lemma EverySurvivorIsReturnedOnce<T>(start: seq<Cell<T>>, calls: seq<Call<T>>)
    ensures var w := PerformAll(Reset(start), calls);
            Increasing(w.returned) &&
            (forall e | e in w.returned && e.id < |start| :: e.cell == start[e.id]) &&
            (|w.view.cells| <= w.view.cur ==>
               forall e | e in w.view.cells && e.id < |start| :: e.cell == start[e.id] && Times(w.returned, e) == 1)
  {
    WalkKeeps(start, Reset(start), calls);
    var w := PerformAll(Reset(start), calls);
    if |w.view.cells| <= w.view.cur {
      forall e | e in w.view.cells && e.id < |start| ensures e.cell == start[e.id] && Times(w.returned, e) == 1 {
        IncreasingMeansOnce(w.returned, e);
      }
    }
  }

  /** Nothing is added while the cursor is past the end of a list that is not empty. */
  predicate AddedInTime<T(==)>(w: Walk<T>, calls: seq<Call<T>>)
    decreases |calls|
  {
    calls == [] ||
    ((calls[0].AddItem? ==> w.view.cells == [] || w.view.cur < |w.view.cells|) && AddedInTime(Perform(w, calls[0]), calls[1..]))
  }

  ghost predicate PassedIsReturned<T>(w: Walk<T>) {
    w.view.cur <= |w.view.cells| && forall i | 0 <= i < w.view.cur :: w.view.cells[i] in w.returned
  }

  lemma PerformKeepsPassed<T>(w: Walk<T>, call: Call<T>)
    requires PassedIsReturned(w) && (call.AddItem? ==> w.view.cells == [] || w.view.cur < |w.view.cells|)
    ensures PassedIsReturned(Perform(w, call))
  {
  }

  lemma {:induction false} WalkKeepsPassed<T>(w: Walk<T>, calls: seq<Call<T>>)
    requires PassedIsReturned(w) && AddedInTime(w, calls)
    ensures PassedIsReturned(PerformAll(w, calls))
    decreases |calls|
  {
    if calls != [] {
      PerformKeepsPassed(w, calls[0]);
      WalkKeepsPassed(Perform(w, calls[0]), calls[1..]);
    }
  }

  /** What is added in time is returned as well, exactly once, whether it came to an empty list or behind others. */
  lemma AddedInTimeIsReturned<T>(start: seq<Cell<T>>, calls: seq<Call<T>>, e: Entry<T>)
    requires AddedInTime(Reset(start), calls)
    ensures var w := PerformAll(Reset(start), calls);
            |w.view.cells| <= w.view.cur && e in w.view.cells ==> Times(w.returned, e) == 1
  {
    WalkKeeps(start, Reset(start), calls);
    WalkKeepsPassed(Reset(start), calls);
    IncreasingMeansOnce(PerformAll(Reset(start), calls).returned, e);
  }

  // ---------------------------------------------------------------------------------------------
  // Sorting

  predicate Opposite<T>(compare: (Cell<T>, Cell<T>) -> int, a: Cell<T>, b: Cell<T>) {
    -1 <= compare(a, b) <= 1 && compare(a, b) == -compare(b, a)
  }

  predicate Transitive<T>(compare: (Cell<T>, Cell<T>) -> int, a: Cell<T>, b: Cell<T>, c: Cell<T>) {
    compare(a, b) <= 0 && compare(b, c) <= 0 ==> compare(a, c) <= 0
  }

  /** A comparison that list_sort can use: an order in which different cells may tie, as -1, 0 or 1. */
  ghost predicate TotalPreorder<T(!new)>(compare: (Cell<T>, Cell<T>) -> int) {
    (forall a, b :: Opposite(compare, a, b)) && forall a, b, c :: Transitive(compare, a, b, c)
  }

  /** No cell before i stands wrong against a cell after it. */
  ghost predicate SortedUpTo<T>(cells: seq<Cell<T>>, i: nat, compare: (Cell<T>, Cell<T>) -> int, comp: int) {
    forall a, b {:trigger cells[a], cells[b]} | 0 <= a < b < |cells| && a < i :: compare(cells[a], cells[b]) != comp
  }

  /** How many cells should stand before a given one. */
  function Better<T>(cells: seq<Cell<T>>, than: Cell<T>, compare: (Cell<T>, Cell<T>) -> int, comp: int): nat {
    if cells == [] then 0
    else (if compare(than, cells[0]) == comp then 1 else 0) + Better(cells[1..], than, compare, comp)
  }

  lemma {:induction false} BetterIsTransitive<T(!new)>(cells: seq<Cell<T>>, x: Cell<T>, y: Cell<T>,
                                                compare: (Cell<T>, Cell<T>) -> int, comp: int)
    requires TotalPreorder(compare) && (comp == 1 || comp == -1) && compare(x, y) == comp
    ensures Better(cells, y, compare, comp) <= Better(cells, x, compare, comp)
  {
    if cells != [] {
      var c := cells[0];
      assert Opposite(compare, x, y) && Opposite(compare, y, c) && Opposite(compare, x, c);
      assert Transitive(compare, x, c, y) && Transitive(compare, y, c, x);
      BetterIsTransitive(cells[1..], x, y, compare, comp);
    }
  }

  /** A swap puts fewer better cells behind the place it fills. */
  lemma {:induction false} SwapLeavesFewerBetter<T(!new)>(rest: seq<Cell<T>>, x: Cell<T>, k: nat,
                                                   compare: (Cell<T>, Cell<T>) -> int, comp: int)
    requires TotalPreorder(compare) && (comp == 1 || comp == -1) && k < |rest| && compare(x, rest[k]) == comp
    ensures Better(rest[k := x], rest[k], compare, comp) < Better(rest, x, compare, comp)
    decreases k
  {
    var y := rest[k];
    var swapped := rest[k := x];
    assert Opposite(compare, x, y);
    if k == 0 {
      assert swapped[1..] == rest[1..];
      BetterIsTransitive(rest[1..], x, y, compare, comp);
    } else {
      assert swapped[1..] == rest[1..][k - 1 := x];
      SwapLeavesFewerBetter(rest[1..], x, k - 1, compare, comp);
      BetterIsTransitive([rest[0]], x, y, compare, comp);
    }
  }

  /** How many later cells should stand before the cell at i. */
  function BetterAfter<T>(cells: seq<Cell<T>>, i: nat, compare: (Cell<T>, Cell<T>) -> int, comp: int): nat {
    if i < |cells| then Better(cells[i + 1..], cells[i], compare, comp) else 0
  }

  function Swapped<T>(cells: seq<T>, i: nat, j: nat): (r: seq<T>)
    requires i < j < |cells|
    ensures |r| == |cells| && multiset(r) == multiset(cells)
  {
    cells[i := cells[j]][j := cells[i]]
  }

  lemma SwapKeepsOrder<T>(cells: seq<Cell<T>>, i: nat, j: nat, compare: (Cell<T>, Cell<T>) -> int, comp: int)
    requires i < j < |cells| && SortedUpTo(cells, i, compare, comp)
    ensures SortedUpTo(Swapped(cells, i, j), i, compare, comp)
  {
    var swapped := Swapped(cells, i, j);
    forall a, b | 0 <= a < b < |cells| && a < i ensures compare(swapped[a], swapped[b]) != comp {
      assert swapped[a] == cells[a] && swapped[b] == cells[if b == i then j else if b == j then i else b];
    }
  }

  lemma SortedOneMore<T>(cells: seq<Cell<T>>, i: nat, compare: (Cell<T>, Cell<T>) -> int, comp: int)
    requires i < |cells| && SortedUpTo(cells, i, compare, comp)
    requires forall k | i < k < |cells| :: compare(cells[i], cells[k]) != comp
    ensures SortedUpTo(cells, i + 1, compare, comp)
  {
  }

  /** What one swap of list_sort achieves. */
  lemma SwapProgresses<T(!new)>(cells: seq<Cell<T>>, i: nat, j: nat, compare: (Cell<T>, Cell<T>) -> int, comp: int)
    requires TotalPreorder(compare) && (comp == 1 || comp == -1)
    requires i < j < |cells| && SortedUpTo(cells, i, compare, comp) && compare(cells[i], cells[j]) == comp
    ensures SortedUpTo(Swapped(cells, i, j), i, compare, comp)
    ensures BetterAfter(Swapped(cells, i, j), i, compare, comp) < BetterAfter(cells, i, compare, comp)
  {
    SwapKeepsOrder(cells, i, j, compare, comp);
    SwapLeavesFewerBetter(cells[i + 1..], cells[i], j - i - 1, compare, comp);
    assert Swapped(cells, i, j)[i + 1..] == cells[i + 1..][j - i - 1 := cells[i]];
  }

  // ---------------------------------------------------------------------------------------------
  // The list as linked nodes

  class Node<T> {
    var item: T
    var size: nat
    var prev: Node?<T>
    var next: Node?<T>

    /** _newitem. */
    constructor (item: T, size: nat)
      ensures this.item == item && this.size == size && prev == null && next == null
    {
      this.item, this.size, prev, next := item, size, null, null;
    }
  }

  /** Neighbours point at each other, the ends at nothing, and no node occurs twice. */
  ghost predicate Chained<T>(nodes: seq<Node<T>>)
    reads nodes
  {
    var n := |nodes|;
    (forall i, j | 0 <= i < j < n :: nodes[i] != nodes[j]) &&
    (forall i {:trigger nodes[i].prev} | 1 <= i < n :: nodes[i].prev == nodes[i - 1]) &&
    (forall i {:trigger nodes[i].next} | 0 <= i < n - 1 :: nodes[i].next == nodes[i + 1]) &&
    (n > 0 ==> nodes[0].prev == null && nodes[n - 1].next == null)
  }

  ghost predicate Carry<T>(nodes: seq<Node<T>>, cells: seq<Cell<T>>)
    reads nodes
  {
    |nodes| == |cells| &&
    (forall i {:trigger nodes[i].item} | 0 <= i < |nodes| :: nodes[i].item == cells[i].item) &&
    (forall i {:trigger nodes[i].size} | 0 <= i < |nodes| :: nodes[i].size == cells[i].size)
  }

  /** The heap after the neighbours of node i have been joined: the chain without node i. */
  lemma ChainedWithout<T>(all: seq<Node<T>>, i: nat)
    requires i < |all| && forall j, k | 0 <= j < k < |all| :: all[j] != all[k]
    requires forall k | 1 <= k < |all| && k != i && k != i + 1 :: all[k].prev == all[k - 1]
    requires forall k | 0 <= k < |all| - 1 && k != i && k + 1 != i :: all[k].next == all[k + 1]
    requires i + 1 < |all| ==> all[i + 1].prev == if i > 0 then all[i - 1] else null
    requires i > 0 ==> all[i - 1].next == if i + 1 < |all| then all[i + 1] else null
    requires i > 0 ==> all[0].prev == null
    requires i < |all| - 1 ==> all[|all| - 1].next == null
    ensures Chained(all[..i] + all[i + 1..])
  {
    var nodes := all[..i] + all[i + 1..];
    var n := |nodes|;
    assert forall k | 0 <= k < n :: nodes[k] == all[if k < i then k else k + 1];
    forall k | 1 <= k < n ensures nodes[k].prev == nodes[k - 1] {
    }
    forall k | 0 <= k < n - 1 ensures nodes[k].next == nodes[k + 1] {
    }
  }

  lemma CarryWithout<T>(all: seq<Node<T>>, cells: seq<Cell<T>>, i: nat)
    requires i < |all| && Carry(all, cells)
    ensures Carry(all[..i] + all[i + 1..], cells[..i] + cells[i + 1..])
  {
    var nodes, rest := all[..i] + all[i + 1..], cells[..i] + cells[i + 1..];
    forall k | 0 <= k < |nodes| ensures nodes[k].item == rest[k].item && nodes[k].size == rest[k].size {
      var j := if k < i then k else k + 1;
      assert nodes[k] == all[j] && rest[k] == cells[j];
    }
  }

  /** The surgery of list_delete on the neighbours. */
  method JoinNeighbours<T>(ghost all: seq<Node<T>>, ghost cells: seq<Cell<T>>, ghost i: nat, ip: Node<T>)
    requires i < |all| && ip == all[i] && Chained(all) && Carry(all, cells)
    modifies all
    ensures Chained(all[..i] + all[i + 1..]) && Carry(all[..i] + all[i + 1..], cells[..i] + cells[i + 1..])
    ensures ip.prev == old(ip.prev) && ip.next == old(ip.next)
  {
    var before, after := ip.prev, ip.next;
    assert before == if i > 0 then all[i - 1] else null;
    assert after == if i + 1 < |all| then all[i + 1] else null;
    if before != null {
      before.next := after;
    }
    if after != null {
      after.prev := before;
    }
    ChainedWithout(all, i);
    CarryWithout(all, cells, i);
  }

  /** What stands where in a sequence without its element i. */
  lemma Without<T>(all: seq<T>, i: nat)
    requires i < |all|
    ensures var rest := all[..i] + all[i + 1..];
            |rest| == |all| - 1 && (forall k | 0 <= k < |rest| :: rest[k] == all[if k < i then k else k + 1]) &&
            (rest != [] ==> rest[0] == all[if i == 0 then 1 else 0]) &&
            (rest != [] ==> rest[|rest| - 1] == all[if i == |all| - 1 then i - 1 else |all| - 1])
  {
  }

  class List<T(==, !new)> {
    var first: Node?<T>
    var last: Node?<T>
    var next: Node?<T>
    ghost var nodes: seq<Node<T>>
    ghost var view: View<Cell<T>>

    /** The links of the list run through the nodes in order, and the nodes carry the cells. */
    ghost predicate Valid()
      reads this, nodes
    {
      Chained(nodes) && Carry(nodes, view.cells) && view.cur <= |nodes| &&
      (if nodes == [] then first == null && last == null else first == nodes[0] && last == nodes[|nodes| - 1]) &&
      next == NodeAt(view.cur)
    }

    /** The node at an index, or null past the end. */
    ghost function NodeAt(i: nat): Node?<T>
      reads this
    {
      if i < |nodes| then nodes[i] else null
    }

    /** list_create. */
    constructor ()
      ensures Valid() && view == View([], 0) && nodes == []
    {
      first, last, next, nodes, view := null, null, null, [], View([], 0);
    }

    method Add(item: T, size: nat) returns (stored: T)
      requires Valid()
      modifies this, nodes
      ensures Valid() && view == AddTo(old(view), Cell(item, size)) && stored == item
      ensures |nodes| == |old(nodes)| + 1 && fresh(nodes[|old(nodes)|])
      ensures forall k | 0 <= k < |old(nodes)| :: nodes[k] == old(nodes)[k]
    {
      var node := new Node(item, size);
      if first == null {
        first, last, next := node, node, node;
      } else {
        last.next := node;
        node.prev := last;
        last := node;
      }
      view := AddTo(view, Cell(item, size));
      nodes := nodes + [node];
      assert Carry(nodes, view.cells);
      assert Chained(nodes);
      return node.item;
    }

    /** list_delete: true when the item was found. */
    method Delete(item: T) returns (found: bool)
      requires Valid()
      modifies this, nodes
      ensures Valid() && (found <==> IndexOf(old(view.cells), item) < |old(view.cells)|)
      ensures view == if found then DeleteAt(old(view), IndexOf(old(view.cells), item)) else old(view)
      ensures forall n | n in nodes :: n in old(nodes)
    {
      ghost var i := 0;
      var ip := first;
      while ip != null
        invariant Valid() && i <= |nodes| && ip == NodeAt(i) && i <= IndexOf(view.cells, item)
        invariant nodes == old(nodes) && view == old(view)
        decreases |nodes| - i
      {
        if item == ip.item {
          Unlink(ip, i);
          return true;
        }
        i := i + 1;
        ip := ip.next;
      }
      return false;
    }

    /** The surgery of list_delete on the first, the last and the cursor. */
    method MoveEnds(ip: Node<T>, ghost i: nat)
      requires i < |nodes| == |view.cells| && ip == nodes[i] && forall j, k | 0 <= j < k < |nodes| :: nodes[j] != nodes[k]
      requires ip.prev == if i > 0 then nodes[i - 1] else null
      requires ip.next == if i + 1 < |nodes| then nodes[i + 1] else null
      requires first == nodes[0] && last == nodes[|nodes| - 1] && next == NodeAt(view.cur)
      modifies this
      ensures nodes == old(nodes[..i] + nodes[i + 1..]) && view == DeleteAt(old(view), i) && next == NodeAt(view.cur)
      ensures if nodes == [] then first == null && last == null else first == nodes[0] && last == nodes[|nodes| - 1]
    {
      Without(nodes, i);
      if ip == first {
        first := ip.next;
      }
      if ip == last {
        last := ip.prev;
      }
      if ip == next {
        next := ip.next;
      }
      nodes, view := nodes[..i] + nodes[i + 1..], DeleteAt(view, i);
    }

    /** Takes node i out of the list. */
    method Unlink(ip: Node<T>, ghost i: nat)
      requires Valid() && i < |nodes| && ip == nodes[i]
      modifies this, nodes
      ensures Valid() && view == DeleteAt(old(view), i)
      ensures nodes == old(nodes[..i]) + old(nodes[i + 1..])
    {
      ghost var rest, cells := nodes[..i] + nodes[i + 1..], view.cells[..i] + view.cells[i + 1..];
      assert ip.prev == (if i > 0 then nodes[i - 1] else null) && ip.next == if i + 1 < |nodes| then nodes[i + 1] else null;
      JoinNeighbours(nodes, view.cells, i, ip);
      label Joined:
      MoveEnds(ip, i);
      assert nodes == rest && view.cells == cells;
      assert unchanged@Joined(rest);
    }

    /** list_get_next. */
    method GetNext() returns (item: Option<T>)
      requires Valid()
      modifies this
      ensures Valid() && view == Advanced(old(view)) && nodes == old(nodes)
      ensures item == if old(view.cur) < |view.cells| then Some(view.cells[old(view.cur)].item) else None
    {
      item := None;
      if next != null {
        var ip := next;
        next := ip.next;
        item := Some(ip.item);
        view := Advanced(view);
      }
    }

    /** list_reset. */
    method Reset()
      requires Valid()
      modifies this
      ensures Valid() && view == View(old(view.cells), 0) && nodes == old(nodes)
    {
      next := first;
      view := View(view.cells, 0);
    }

    /** list_is_next. */
    method IsNext() returns (r: bool)
      requires Valid()
      ensures r <==> view.cur < |view.cells|
    {
      return next != null;
    }

    /** list_count. */
    method Count() returns (count: nat)
      requires Valid()
      ensures count == |view.cells|
    {
      count := 0;
      var ip := first;
      while ip != null
        invariant count <= |nodes| && ip == NodeAt(count)
        decreases |nodes| - count
      {
        count := count + 1;
        ip := ip.next;
      }
    }

    /** list_dup: a list of its own nodes, with the cursor on the first. */
    method Dup() returns (copy: List<T>)
      requires Valid()
      ensures fresh(copy) && copy.Valid() && copy.view == View(view.cells, 0)
      ensures forall k | 0 <= k < |copy.nodes| :: fresh(copy.nodes[k])
    {
      copy := new List();
      ghost var i := 0;
      var ip := first;
      while ip != null
        invariant i <= |nodes| && ip == NodeAt(i) && unchanged(this) && unchanged(nodes)
        invariant fresh(copy) && copy.Valid() && copy.view == View(view.cells[..i], 0)
        invariant forall k | 0 <= k < |copy.nodes| :: fresh(copy.nodes[k])
        decreases |nodes| - i
      {
        assert Cell(ip.item, ip.size) == view.cells[i];
        var stored := copy.Add(ip.item, ip.size);
        assert view.cells[..i + 1] == view.cells[..i] + [view.cells[i]];
        i := i + 1;
        ip := ip.next;
      }
      assert view.cells[..i] == view.cells;
    }

    /** The inner loop of list_sort: the first later node whose cell should stand before that of ip1. */
    method FindBetter(ip1: Node<T>, ghost i: nat, compare: (Cell<T>, Cell<T>) -> int, comp: int)
      returns (ip2: Node?<T>, ghost j: nat)
      requires Valid() && i < |nodes| && ip1 == nodes[i]
      ensures i < j <= |nodes| && ip2 == NodeAt(j)
      ensures j < |nodes| ==> compare(view.cells[i], view.cells[j]) == comp
      ensures forall k | i < k < j :: compare(view.cells[i], view.cells[k]) != comp
    {
      j := i + 1;
      ip2 := ip1.next;
      while ip2 != null
        invariant i < j <= |nodes| && ip2 == NodeAt(j)
        invariant forall k | i < k < j :: compare(view.cells[i], view.cells[k]) != comp
        decreases |nodes| - j
      {
        assert Cell(ip1.item, ip1.size) == view.cells[i] && Cell(ip2.item, ip2.size) == view.cells[j];
        if compare(Cell(ip1.item, ip1.size), Cell(ip2.item, ip2.size)) == comp {
          return;
        }
        j := j + 1;
        ip2 := ip2.next;
      }
    }

    /** The nodes stay where they are: their items and sizes change places. */
    method SwapItems(ip1: Node<T>, ip2: Node<T>, ghost i: nat, ghost j: nat)
      requires Valid() && i < j < |nodes| && ip1 == nodes[i] && ip2 == nodes[j]
      modifies `view, nodes
      ensures Valid() && view == View(Swapped(old(view.cells), i, j), old(view.cur))
    {
      var item, size := ip1.item, ip1.size;
      ip1.item := ip2.item;
      ip1.size := ip2.size;
      ip2.item := item;
      ip2.size := size;
      view := view.(cells := Swapped(view.cells, i, j));
      assert Chained(nodes);
      assert Carry(nodes, view.cells);
    }

    /** The body of list_sort: either a swap, after which node i is looked at again, or on to the next node. */
    method SwapOrMoveOn(ip1: Node<T>, ghost i: nat, compare: (Cell<T>, Cell<T>) -> int, comp: int)
      returns (again: Node?<T>, ghost j: nat)
      requires Valid() && i < |nodes| && ip1 == nodes[i]
      modifies `view, nodes
      ensures Valid() && i < j <= |nodes|
      ensures if j < |nodes| then
                compare(old(view.cells[i]), old(view.cells[j])) == comp && again == nodes[i] &&
                view == View(Swapped(old(view.cells), i, j), old(view.cur))
              else
                (forall k | i < k < |nodes| :: compare(view.cells[i], view.cells[k]) != comp) && again == NodeAt(i + 1) &&
                view == old(view)
    {
      var ip2;
      ip2, j := FindBetter(ip1, i, compare, comp);
      if ip2 != null {
        SwapItems(ip1, ip2, i, j);
        again := ip1;
      } else {
        again := ip1.next;
      }
    }

    /** The same, with what it achieves. */
    method SortNode(ip1: Node<T>, ghost i: nat, compare: (Cell<T>, Cell<T>) -> int, comp: int)
      returns (again: Node?<T>, ghost k: nat)
      requires Valid() && TotalPreorder(compare) && (comp == 1 || comp == -1)
      requires i < |nodes| && ip1 == nodes[i] && SortedUpTo(view.cells, i, compare, comp)
      modifies `view, nodes
      ensures Valid() && view.cur == old(view.cur) && multiset(view.cells) == multiset(old(view.cells))
      ensures i <= k <= |nodes| && again == NodeAt(k) && SortedUpTo(view.cells, k, compare, comp)
      ensures k == i ==> BetterAfter(view.cells, i, compare, comp) < BetterAfter(old(view.cells), i, compare, comp)
    {
      ghost var cells, j := view.cells, 0;
      again, j := SwapOrMoveOn(ip1, i, compare, comp);
      if j < |cells| {
        SwapProgresses(cells, i, j, compare, comp);
      } else {
        SortedOneMore(cells, i, compare, comp);
      }
      k := if j < |cells| then i else i + 1;
    }

    /** list_sort: ascending when order is 0. */
    method Sort(compare: (Cell<T>, Cell<T>) -> int, order: int)
      requires Valid() && TotalPreorder(compare)
      modifies `view, nodes
      ensures Valid() && view.cur == old(view.cur) && multiset(view.cells) == multiset(old(view.cells))
      ensures SortedUpTo(view.cells, |view.cells|, compare, if order == 0 then 1 else -1)
    {
      var comp := if order == 0 then 1 else -1;
      ghost var i := 0;
      var ip1 := first;
      while ip1 != null
        invariant Valid() && i <= |nodes| && ip1 == NodeAt(i) && view.cur == old(view.cur)
        invariant multiset(view.cells) == multiset(old(view.cells)) && SortedUpTo(view.cells, i, compare, comp)
        decreases |nodes| - i, BetterAfter(view.cells, i, compare, comp)
      {
        ip1, i := SortNode(ip1, i, compare, comp);
      }
    }
  }
}
