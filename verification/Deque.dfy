/** The double ended queue of deque.c: a heap-allocated doubly linked chain, a cursor and a sort index. */
module Deque {
  import opened Bytes
  import opened Sorting

  class Node<T> {
    var data: T
    var prev: Node?<T>
    var next: Node?<T>

    constructor (data: T)
      ensures this.data == data && prev == null && next == null
    {
      this.data, prev, next := data, null, null;
    }
  }

  /** The two static arrays of deque.c, which all queues share. */
  class SortIndex<T> {
    var index: array?<T>
    var posnIndex: array?<Node?<T>>

    constructor ()
      ensures index == null && posnIndex == null
    {
      index, posnIndex := null, null;
    }
  }

  /** What a search from the head finds: the first position whose item equals `key` for `comp`. */
  function FirstMatch<T>(items: seq<T>, key: T, comp: Comparator<T>): Option<nat> {
    if items == [] then None
    else if comp(items[0], key) == 0 then Some(0)
    else match FirstMatch(items[1..], key, comp)
         case None => None
         case Some(i) => Some(i + 1)
  }

  lemma {:induction false} FirstMatchIs<T>(items: seq<T>, key: T, comp: Comparator<T>)
    ensures match FirstMatch(items, key, comp)
      case None => forall k :: 0 <= k < |items| ==> comp(items[k], key) != 0
      case Some(i) =>
        && i < |items| && comp(items[i], key) == 0
        && forall k :: 0 <= k < i ==> comp(items[k], key) != 0
  {
    if items != [] {
      FirstMatchIs(items[1..], key, comp);
      assert forall k :: 1 <= k < |items| ==> items[k] == items[1..][k - 1];
    }
  }

  /** The forward links run along `nodes`, the backward links mirror them, and the data are `items`. */
  ghost predicate Chain<T>(nodes: seq<Node<T>>, items: seq<T>)
    reads nodes
  {
    && |nodes| == |items|
    && (forall i, j :: 0 <= i < j < |nodes| ==> nodes[i] != nodes[j])
    && (forall i :: 0 <= i < |nodes| ==> nodes[i].data == items[i])
    && (forall i {:trigger nodes[i].prev} :: 0 <= i < |nodes| ==>
          nodes[i].prev == if i == 0 then null else nodes[i - 1])
    && (forall i {:trigger nodes[i].next} :: 0 <= i < |nodes| ==>
          nodes[i].next == if i == |nodes| - 1 then null else nodes[i + 1])
  }

  /** Links a node with the head of a chain. */
  method LinkBefore<T(!new)>(n: Node<T>, head: Node?<T>, ghost nodes: seq<Node<T>>, ghost items: seq<T>)
    requires Chain(nodes, items) && n !in nodes && n.prev == null && n.next == null
    requires head == if nodes == [] then null else nodes[0]
    modifies n`next, nodes
    ensures Chain([n] + nodes, [n.data] + items)
  {
    if head != null {
      head.prev := n;
      n.next := head;
    }
  }

  /** Links a node with the tail of a chain. */
  method LinkAfter<T(!new)>(n: Node<T>, tail: Node?<T>, ghost nodes: seq<Node<T>>, ghost items: seq<T>)
    requires Chain(nodes, items) && n !in nodes && n.prev == null && n.next == null
    requires tail == if nodes == [] then null else nodes[|nodes| - 1]
    modifies n`prev, nodes
    ensures Chain(nodes + [n], items + [n.data])
  {
    if tail != null {
      tail.next := n;
      n.prev := tail;
    }
  }

  method SetData<T(!new)>(ghost nodes: seq<Node<T>>, ghost items: seq<T>, node: Node<T>, ghost i: nat, d: T)
    requires Chain(nodes, items) && i < |nodes| && node == nodes[i]
    modifies node`data
    ensures Chain(nodes, items[i := d])
  {
    node.data := d;
  }

  class Queue<T(!new)> {
    var head: Node?<T>
    var tail: Node?<T>
    var cursor: Node?<T>
    var size: int
    var sorted: bool
    ghost var nodes: seq<Node<T>>
    ghost var items: seq<T>
    ghost var at: nat

    /** `head` and `tail` are the ends of the chain and the cursor is on it. */
    ghost predicate Valid()
      reads this, nodes
    {
      && size == |nodes| == |items| && Chain(nodes, items)
      && if nodes == [] then head == null && tail == null && cursor == null
         else head == nodes[0] && tail == nodes[|nodes| - 1] && at < |nodes| && cursor == nodes[at]
    }

    constructor Init()
      ensures Valid() && items == [] && nodes == [] && !sorted
    {
      head, tail, cursor := null, null, null;
      size, sorted := 0, false;
      nodes, items := [], [];
    }

    method First() returns (d: Option<T>)
      requires Valid()
      modifies this`cursor, this`at
      ensures Valid()
      ensures items == [] ==> d == None && cursor == old(cursor)
      ensures items != [] ==> at == 0 && d == Some(items[0])
    {
      if size == 0 {
        return None;
      }
      cursor, at := head, 0;
      d := Some(cursor.data);
    }

    method Last() returns (d: Option<T>)
      requires Valid()
      modifies this`cursor, this`at
      ensures Valid()
      ensures items == [] ==> d == None && cursor == old(cursor)
      ensures items != [] ==> at == |items| - 1 && d == Some(items[at])
    {
      if size == 0 {
        return None;
      }
      cursor, at := tail, |items| - 1;
      d := Some(cursor.data);
    }

    method Next() returns (d: Option<T>)
      requires Valid() && cursor != null
      modifies this`cursor, this`at
      ensures Valid()
      ensures if old(at) + 1 < |items| then at == old(at) + 1 && d == Some(items[at])
              else at == old(at) && d == None
    {
      if cursor.next == null {
        return None;
      }
      cursor, at := cursor.next, at + 1;
      d := Some(cursor.data);
    }

    method Previous() returns (d: Option<T>)
      requires Valid() && cursor != null
      modifies this`cursor, this`at
      ensures Valid()
      ensures if old(at) > 0 then at == old(at) - 1 && d == Some(items[at])
              else at == old(at) && d == None
    {
      if cursor.prev == null {
        return None;
      }
      cursor, at := cursor.prev, at - 1;
      d := Some(cursor.data);
    }

    method Get() returns (d: Option<T>)
      requires Valid()
      ensures d == if items == [] then None else Some(items[at])
    {
      d := if cursor == null then None else Some(cursor.data);
    }

    method PushHead(d: T)
      requires Valid()
      modifies this, nodes
      ensures Valid() && !sorted
      ensures items == [d] + old(items) && at == 0
      ensures nodes != [] && fresh(nodes[0]) && nodes == [nodes[0]] + old(nodes)
    {
      hide Chain;
      var n := new Node(d);
      LinkBefore(n, head, nodes, items);
      head := n;
      if size == 0 {
        tail := head;
      }
      size := size + 1;
      cursor, at := head, 0;
      sorted := false;
      nodes, items := [n] + nodes, [d] + items;
    }

    method PushTail(d: T)
      requires Valid()
      modifies this, nodes
      ensures Valid() && !sorted
      ensures items == old(items) + [d] && at == |old(items)|
      ensures nodes != [] && fresh(nodes[size - 1]) && nodes == old(nodes) + [nodes[size - 1]]
    {
      hide Chain;
      var n := new Node(d);
      LinkAfter(n, tail, nodes, items);
      tail := n;
      if size == 0 {
        head := tail;
      }
      at := size;
      size := size + 1;
      cursor := tail;
      sorted := false;
      nodes, items := nodes + [n], items + [d];
    }

    method PopHead() returns (d: Option<T>)
      requires Valid()
      modifies this, nodes
      ensures Valid()
      ensures old(items) == [] ==> d == None && items == [] && nodes == [] && sorted == old(sorted)
      ensures old(items) != [] ==>
        d == Some(old(items)[0]) && items == old(items)[1..] && nodes == old(nodes)[1..] && at == 0 && !sorted
    {
      if size == 0 {
        return None;
      }
      d := Some(head.data);
      var n := head.next;
      size := size - 1;
      nodes, items := nodes[1..], items[1..];
      if size == 0 {
        head, tail, cursor := null, null, null;
      } else {
        head := n;
        head.prev := null;
        cursor := head;
      }
      at := 0;
      sorted := false;
    }

    method PopTail() returns (d: Option<T>)
      requires Valid()
      modifies this, nodes
      ensures Valid()
      ensures old(items) == [] ==> d == None && items == [] && nodes == [] && sorted == old(sorted)
      ensures old(items) != [] ==>
        var last := |old(items)| - 1;
        && d == Some(old(items)[last]) && items == old(items)[..last] && nodes == old(nodes)[..last]
        && at == (if last == 0 then 0 else last - 1) && !sorted
    {
      if size == 0 {
        return None;
      }
      d := Some(tail.data);
      var p := tail.prev;
      size := size - 1;
      nodes, items := nodes[..size], items[..size];
      if size == 0 {
        head, tail, cursor, at := null, null, null, 0;
      } else {
        tail := p;
        tail.next := null;
        cursor, at := tail, size - 1;
      }
      sorted := false;
    }

    /** Linear search. For a queue of one element that does not match, the last comparison is made on the null
        pointer that Q_Next returned; `onNull` is what the comparison function makes of it. */
    method Find(key: T, comp: Comparator<T>, onNull: int) returns (found: bool)
      requires Valid() && items != []
      modifies this`cursor, this`at
      ensures Valid()
      ensures match FirstMatch(items, key, comp)
        case Some(i) => found && at == i
        case None => at == |items| - 1 && (found <==> |items| == 1 && onNull == 0)
    {
      FirstMatchIs(items, key, comp);
      var d := First();
      var going := true;
      while going
        invariant Valid() && items == old(items) && nodes == old(nodes)
        invariant going ==> d == Some(items[at]) && (at < |items| - 1 || |items| == 1)
        invariant !going ==> at == |items| - 1 && d == if |items| == 1 then None else Some(items[at])
        invariant forall k :: 0 <= k < at || (!going && |items| == 1 && k == 0) ==> comp(items[k], key) != 0
        decreases going, |items| - at
      {
        if comp(d.value, key) == 0 {
          return true;
        }
        d := Next();
        going := cursor != tail;
      }
      found := (if d == None then onNull else comp(d.value, key)) == 0;
    }

    /** The index agrees with the chain, and the chain is in order. */
    ghost predicate Indexed(ix: SortIndex<T>, comp: Comparator<T>)
      reads this, nodes, ix, ix.index, ix.posnIndex
      requires Valid()
    {
      && ix.index != null && ix.posnIndex != null
      && size <= ix.index.Length && size <= ix.posnIndex.Length
      && (forall i :: 0 <= i < size ==> ix.index[i] == items[i] && ix.posnIndex[i] == nodes[i])
      && SortedBetween(comp, items, 0, size)
    }

    /** The parts of a valid queue. */
    lemma Facts()
      requires Valid()
      ensures size == |items| == |nodes|
      ensures items != [] ==> at < |items| && cursor != null && cursor == nodes[at]
    {
    }

    /** The first loop of Q_Sort: items and node positions, from the head, into fresh arrays. */
    method CopyToIndex(beyond: T) returns (index: array<T>, posnIndex: array<Node?<T>>)
      requires Valid()
      modifies this`cursor, this`at
      ensures Valid() && fresh(index) && fresh(posnIndex)
      ensures index.Length == size + 1 && posnIndex.Length == size
      ensures index[..] == items + [beyond]
      ensures forall k :: 0 <= k < size ==> posnIndex[k] == nodes[k]
    {
      hide Chain;
      index := new T[size + 1](_ => beyond);
      posnIndex := new Node?<T>[size];
      WalkIntoIndex(index, posnIndex);
      assert index[..] == index[..size] + [index[size]];
    }

    method WalkIntoIndex(index: array<T>, posnIndex: array<Node?<T>>)
      requires Valid() && index.Length == size + 1 && posnIndex.Length == size
      modifies this`cursor, this`at, index, posnIndex
      ensures Valid() && index[size] == old(index[size]) && index[..size] == items
      ensures forall k :: 0 <= k < size ==> posnIndex[k] == nodes[k]
    {
      hide Chain, Valid;
      Facts();
      var d := First();
      var i := 0;
      while i < size
        invariant 0 <= i <= size && Valid() && index[size] == old(index[size])
        invariant if i < size then at == i && d == Some(items[i]) else d == None
        invariant forall k :: 0 <= k < i ==> index[k] == items[k] && posnIndex[k] == nodes[k]
      {
        Facts();
        index[i], posnIndex[i] := d.value, cursor;
        d := Next();
        i := i + 1;
      }
      assert d == None && |items| == size;
    }

    /** The second loop of Q_Sort: the sorted items, from the head, back into the chain. */
    method CopyFromIndex(index: array<T>)
      requires Valid() && size <= index.Length
      modifies nodes, this`items
      ensures Valid() && items == index[..size]
    {
      ghost var target, current := index[..size], items;
      var dn := head;
      var i := 0;
      while dn != null
        modifies nodes
        invariant 0 <= i <= size && dn == if i == size then null else nodes[i]
        invariant Chain(nodes, current)
        invariant forall k :: 0 <= k < i ==> current[k] == target[k]
        decreases size - i
      {
        SetData(nodes, current, dn, i, index[i]);
        current := current[i := index[i]];
        i := i + 1;
        dn := dn.next;
      }
      assert current == target;
      items := target;
    }

    /** The assignments to the static arrays and to the flag that end Q_Sort. */
    method Publish(ix: SortIndex<T>, index: array<T>, posnIndex: array<Node?<T>>, ghost comp: Comparator<T>)
      requires Valid() && size < index.Length && size <= posnIndex.Length
      requires items == index[..size] && SortedBetween(comp, items, 0, size)
      requires forall k :: 0 <= k < size ==> posnIndex[k] == nodes[k]
      modifies this`sorted, ix
      ensures Valid() && sorted && Indexed(ix, comp)
    {
      hide SortedBetween, Chain;
      ix.index, ix.posnIndex := index, posnIndex;
      sorted := true;
    }

    /** The new index, sorted: the items of the queue in order, and its nodes as they are. */
    method SortedIndex(comp: Comparator<T>, beyond: T)
      returns (index: array<T>, posnIndex: array<Node?<T>>, ghost past: bool)
      requires Valid() && TotalPreorder(comp) && SortIsSafe(comp, beyond, items)
      modifies this`cursor, this`at
      ensures Valid() && fresh(index) && fresh(posnIndex)
      ensures index.Length == size + 1 && posnIndex.Length == size
      ensures multiset(index[..size]) == multiset(items) && SortedBetween(comp, index[..size], 0, size)
      ensures forall k :: 0 <= k < size ==> posnIndex[k] == nodes[k]
      ensures NoStrictMaximum(comp, multiset(items)) ==> !past
      ensures |items| > 1 && StrictlyLargest(comp, items, 0, |items|) ==> past
    {
      hide TotalPreorder, Rearranged, Chain, NoStrictMaximum, SortedBetween;
      index, posnIndex := CopyToIndex(beyond);
      ghost var before := index[..];
      IndexIsGuarded(comp, items, beyond);
      past := QuickSort(index, 0, size - 1, comp);
      SameItems(before, index[..], items, beyond);
      SortedPrefix(comp, index[..], size);
      assert index[..][..size] == index[..size];
    }

    /** Sorts the items in a new index and writes them back along the chain. `beyond` is what lies in
        memory after the index: quicksort may read that cell as its sentinel, and `past` says whether it does:
        never when the largest item is there at least twice, always when the first item is larger than every
        other one. The node the walk ended on is always null, so the cursor goes to the head. */
    method Sort(ix: SortIndex<T>, comp: Comparator<T>, beyond: T) returns (ghost past: bool)
      requires Valid() && TotalPreorder(comp) && SortIsSafe(comp, beyond, items)
      modifies this, nodes, ix
      ensures Valid() && nodes == old(nodes) && (items != [] ==> at == 0)
      ensures multiset(items) == multiset(old(items))
      ensures sorted && Indexed(ix, comp)
      ensures NoStrictMaximum(comp, multiset(old(items))) ==> !past
      ensures |items| > 1 && StrictlyLargest(comp, old(items), 0, |old(items)|) ==> past
    {
      hide TotalPreorder, SortedBetween, Chain, SortIsSafe, NoStrictMaximum, StrictlyLargest;
      var index, posnIndex;
      index, posnIndex, past := SortedIndex(comp, beyond);
      CopyFromIndex(index);
      var _ := First();
      Publish(ix, index, posnIndex, comp);
    }

    /** The arrays of the index are there for this queue's size, whichever queue they were made for. */
    ghost predicate Covered(ix: SortIndex<T>, comp: Comparator<T>)
      reads this`size, ix, ix.index, ix.posnIndex
    {
      && 0 <= size && ix.index != null && ix.posnIndex != null
      && size <= ix.index.Length && size <= ix.posnIndex.Length
      && SortedBetween(comp, ix.index[..size], 0, size)
    }

    /** Binary search of the index. */
    method BSearch(ix: SortIndex<T>, key: T, comp: Comparator<T>) returns (found: int)
      requires Valid() && TotalPreorder(comp) && Covered(ix, comp)
      ensures -1 <= found < size
      ensures found >= 0 ==> comp(ix.index[found], key) == 0
      ensures found < 0 <==> FirstMatch(ix.index[..size], key, comp) == None
    {
      hide TotalPreorder, Chain, FirstMatch, SortedBetween;
      ghost var s := ix.index[..size];
      FirstMatchIs(s, key, comp);
      var low, hi := 0, size - 1;
      while low <= hi
        invariant 0 <= low && hi < size
        invariant forall k :: 0 <= k < size && !(low <= k <= hi) ==> comp(s[k], key) != 0
        decreases hi - low
      {
        var mid := (low + hi) / 2;
        var val := comp(key, ix.index[mid]);
        assert s[mid] == ix.index[mid];
        if val < 0 {
          OutsideHalf(comp, key, s, mid);
          hi := mid - 1;
        } else if val > 0 {
          OutsideHalf(comp, key, s, mid);
          low := mid + 1;
        } else {
          Equal(comp, key, s[mid]);
          return mid;
        }
      }
      found := -1;
    }

    /** Q_Seek in a queue that is flagged as sorted: it searches whatever the shared index holds, and moves the
        cursor to the node the index names, which may be a node of another queue. */
    method SeekIndex(ix: SortIndex<T>, key: T, comp: Comparator<T>) returns (d: Option<T>, ghost idx: int)
      requires Valid() && TotalPreorder(comp) && Covered(ix, comp)
      modifies this`cursor
      ensures d == None <==> FirstMatch(ix.index[..size], key, comp) == None
      ensures d == None ==> cursor == old(cursor)
      ensures d != None ==>
        && 0 <= idx < size && cursor == ix.posnIndex[idx]
        && d == Some(ix.index[idx]) && comp(ix.index[idx], key) == 0
    {
      hide TotalPreorder, SortedBetween, Chain, FirstMatch;
      var found := BSearch(ix, key, comp);
      idx := found;
      if found < 0 {
        return None, idx;
      }
      cursor := ix.posnIndex[found];
      d := Some(ix.index[found]);
    }

    /** Finds an item equal to the key exactly when the linear search would, sorting first if need be. */
    method Seek(ix: SortIndex<T>, key: T, comp: Comparator<T>, beyond: T) returns (d: Option<T>)
      requires Valid() && TotalPreorder(comp)
      requires sorted ==> Indexed(ix, comp)
      requires !sorted ==> SortIsSafe(comp, beyond, items)
      modifies this, nodes, ix
      ensures Valid() && nodes == old(nodes) && multiset(items) == multiset(old(items))
      ensures sorted && Indexed(ix, comp)
      ensures old(sorted) ==> items == old(items)
      ensures d == None <==> FirstMatch(items, key, comp) == None
      ensures d != None ==> d == Some(items[at]) && comp(items[at], key) == 0
    {
      hide TotalPreorder, SortedBetween, Chain, FirstMatch, SortIsSafe;
      if !sorted {
        ghost var _ := Sort(ix, comp, beyond);
      }
      IndexIsOwn(ix, comp);
      ghost var idx;
      d, idx := SeekIndex(ix, key, comp);
      if d != None {
        at := idx;
      }
    }

    lemma IndexIsOwn(ix: SortIndex<T>, comp: Comparator<T>)
      requires Valid() && Indexed(ix, comp)
      ensures Covered(ix, comp) && ix.index[..size] == items
    {
      assert ix.index[..size] == items;
    }

    method Insert(ix: SortIndex<T>, d: T, comp: Comparator<T>, beyond: T) returns (ghost past: bool)
      requires Valid() && TotalPreorder(comp) && SortIsSafe(comp, beyond, [d] + items)
      modifies this, nodes, ix
      ensures Valid() && sorted && Indexed(ix, comp)
      ensures multiset(items) == multiset(old(items)) + multiset{d}
      ensures NoStrictMaximum(comp, multiset(old(items)) + multiset{d}) ==> !past
      ensures old(items) != [] && StrictlyLargest(comp, [d] + old(items), 0, |old(items)| + 1) ==> past
    {
      hide Chain, TotalPreorder, SortedBetween, SortIsSafe, NoStrictMaximum, StrictlyLargest;
      PushHead(d);
      assert multiset(items) == multiset(old(items)) + multiset{d};
      past := Sort(ix, comp, beyond);
    }
  }

  /** What sorting needs: no item is larger than the cell after the index, or the largest one is there twice. */
  ghost predicate SortIsSafe<T>(comp: Comparator<T>, beyond: T, items: seq<T>) {
    |items| > 1 ==> Bounds(comp, beyond, items, 0, |items|) || NoStrictMaximum(comp, multiset(items))
  }

  lemma IndexIsGuarded<T(!new)>(comp: Comparator<T>, items: seq<T>, beyond: T)
    requires SortIsSafe(comp, beyond, items)
    ensures var index := items + [beyond];
      && Guarded(comp, index, 0, |items| - 1)
      && (items != [] && NoStrictMaximum(comp, multiset(items)) ==> NoStrictMaximumIn(comp, index, 0, |items| - 1))
      && (|items| > 1 ==> (StrictlyLargest(comp, index, 0, |items|) <==> StrictlyLargest(comp, items, 0, |items|)))
  {
    hide NoStrictMaximum;
    var index := items + [beyond];
    assert index[0..|items|] == items;
  }

  function Difference(x: int, y: int): int { x - y }

  /** A new queue of one item, sorted in the shared index. */
  method SortedSingleton(ix: SortIndex<int>, x: int) returns (q: Queue<int>)
    modifies ix
    ensures fresh(q) && fresh(q.nodes) && q.Valid() && q.items == [x] && q.sorted
    ensures q.Indexed(ix, Difference)
  {
    hide Chain;
    q := new Queue<int>.Init();
    q.PushTail(x);
    ghost var _ := q.Sort(ix, Difference, 0);
    OneItem(q.items, x);
  }

  lemma OneItem(items: seq<int>, x: int)
    requires multiset(items) == multiset([x])
    ensures items == [x]
  {
    assert |items| == |multiset(items)| == 1;
    assert items[0] in multiset(items);
  }

  /** All queues share the index, so a queue that is still flagged as sorted is searched in the items of the
      queue that was sorted last: it does not find its own item, and finds one of the other queue, on whose
      node its cursor then stands. */
  method OtherQueueIsSearched() returns (own: Option<int>, foreign: Option<int>)
    ensures own == None && foreign == Some(2)
  {
    hide Chain, FirstMatch;
    var ix := new SortIndex<int>();
    var a := SortedSingleton(ix, 1);
    var b := SortedSingleton(ix, 2);
    assert a.Valid() && a.sorted && a.items == [1];
    assert ix.index[..1] == [2];
    OnlyMatch(2);
    ghost var idx;
    own, idx := a.SeekIndex(ix, 1, Difference);
    foreign, idx := a.SeekIndex(ix, 2, Difference);
    assert idx == 0 && a.cursor == b.cursor == b.nodes[0];
  }

  lemma OnlyMatch(x: int)
    ensures forall key :: FirstMatch([x], key, Difference) == if key == x then Some(0) else None
  {
    forall key
      ensures FirstMatch([x], key, Difference) == if key == x then Some(0) else None
    {
      assert [x][1..] == [];
    }
  }

  lemma SortedPrefix<T(!new)>(comp: Comparator<T>, s: seq<T>, n: nat)
    requires n <= |s| && SortedBetween(comp, s, 0, n)
    ensures SortedBetween(comp, s[..n], 0, n)
  {
  }

  lemma SameItems<T(!new)>(before: seq<T>, after: seq<T>, items: seq<T>, beyond: T)
    requires before == items + [beyond] && Rearranged(before, after, 0, |items|)
    ensures multiset(after[..|items|]) == multiset(items)
  {
  }

  lemma Equal<T(!new)>(comp: Comparator<T>, x: T, y: T)
    requires TotalPreorder(comp)
    ensures comp(x, y) == 0 <==> comp(y, x) == 0
  {
  }

  /** An element on the far side of `middle` differs from a key on the near side. */
  lemma Outside<T(!new)>(comp: Comparator<T>, key: T, middle: T, x: T)
    requires TotalPreorder(comp)
    requires (comp(key, middle) < 0 && comp(middle, x) <= 0) || (comp(key, middle) > 0 && comp(x, middle) <= 0)
    ensures comp(x, key) != 0
  {
  }

  /** In sorted items a key that is not equal to the middle one equals nothing on the other side of it. */
  lemma OutsideHalf<T(!new)>(comp: Comparator<T>, key: T, items: seq<T>, mid: nat)
    requires TotalPreorder(comp) && SortedBetween(comp, items, 0, |items|) && mid < |items|
    ensures comp(key, items[mid]) < 0 ==> forall k :: mid <= k < |items| ==> comp(items[k], key) != 0
    ensures comp(key, items[mid]) > 0 ==> forall k :: 0 <= k <= mid ==> comp(items[k], key) != 0
  {
    hide TotalPreorder;
    Reflexive(comp, items[mid]);
    forall k | 0 <= k < |items|
      ensures comp(key, items[mid]) < 0 && mid <= k ==> comp(items[k], key) != 0
      ensures comp(key, items[mid]) > 0 && k <= mid ==> comp(items[k], key) != 0
    {
      if (comp(key, items[mid]) < 0 && mid <= k) || (comp(key, items[mid]) > 0 && k <= mid) {
        Outside(comp, key, items[mid], items[k]);
      }
    }
  }
}
