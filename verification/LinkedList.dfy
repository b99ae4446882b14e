/**
 The doubly linked list of lib/dplist.c. Every index is an arbitrary integer and is clamped to the
 list; a null list is answered the way each function answers it.
 */
module LinkedList {
  import opened Records

  // ---- What the operations mean on a sequence ----

  function Clamp(i: int, lo: int, hi: int): int {
    if i < lo then lo else if i > hi then hi else i
  }

  function InsertAt<T>(s: seq<T>, x: T, i: int): seq<T> {
    var k := Clamp(i, 0, |s|);
    s[..k] + [x] + s[k..]
  }

  function RemoveAt<T>(s: seq<T>, i: int): seq<T> {
    if s == [] then []
    else
      var k := Clamp(i, 0, |s| - 1);
      s[..k] + s[k + 1..]
  }

  function GetAt<T>(s: seq<T>, i: int): Option<T> {
    if s == [] then None else Some(s[Clamp(i, 0, |s| - 1)])
  }

  /** What an index means: at or below 0 the front, at or beyond the end the end (of the list for an insert,
      its last element otherwise), and in between itself. */
  lemma IndexMeaning<T>(s: seq<T>, x: T, i: int)
    ensures InsertAt(s, x, i) == if i <= 0 then [x] + s else if i >= |s| then s + [x] else s[..i] + [x] + s[i..]
    ensures GetAt(s, i) ==
      if s == [] then None else Some(if i <= 0 then s[0] else if i >= |s| then s[|s| - 1] else s[i])
    ensures RemoveAt(s, i) ==
      if s == [] then [] else if i <= 0 then s[1..] else if i >= |s| then s[..|s| - 1] else s[..i] + s[i + 1..]
  {
  }

  /** For every integer index, removing where one has just inserted restores the list, and getting
      there yields the inserted element. */
  lemma InsertThenRemove<T>(s: seq<T>, x: T, i: int)
    ensures RemoveAt(InsertAt(s, x, i), i) == s
    ensures GetAt(InsertAt(s, x, i), i) == Some(x)
  {
    var k := Clamp(i, 0, |s|);
    var t := InsertAt(s, x, i);
    assert Clamp(i, 0, |t| - 1) == k;
    assert t[..k] == s[..k] && t[k + 1..] == s[k..];
  }

  /** For every integer index, reinserting what was removed there restores the list. */
  lemma RemoveThenInsert<T>(s: seq<T>, i: int)
    requires s != []
    ensures InsertAt(RemoveAt(s, i), GetAt(s, i).value, i) == s
  {
    var k := Clamp(i, 0, |s| - 1);
    var t := RemoveAt(s, i);
    assert Clamp(i, 0, |t|) == k;
    assert t[..k] == s[..k] && t[k..] == s[k + 1..];
    assert s == s[..k] + [s[k]] + s[k + 1..];
  }

  // ---- The heap ----

  class Node<T> {
    var prev: Node?<T>
    var next: Node?<T>
    var element: T

    constructor (element: T)
      ensures this.element == element
    {
      this.element := element;
      prev, next := null, null;
    }
  }

  ghost function Before<T>(ns: seq<Node<T>>, i: nat): Node?<T>
    requires i <= |ns|
  {
    if i == 0 then null else ns[i - 1]
  }

  ghost function At<T>(ns: seq<Node<T>>, i: nat): Node?<T>
    requires i <= |ns|
  {
    if i == |ns| then null else ns[i]
  }

  // ns is a doubly linked chain of distinct nodes.
  ghost predicate Chain<T>(ns: seq<Node<T>>)
    reads ns
  {
    && Distinct(ns)
    && (forall i {:trigger ns[i].prev} :: 0 <= i < |ns| ==> ns[i].prev == Before(ns, i))
    && (forall i {:trigger ns[i].next} :: 0 <= i < |ns| ==> ns[i].next == At(ns, i + 1))
  }

  ghost function Spliced<T>(ns: seq<T>, x: T, k: nat): (ms: seq<T>)
    requires k <= |ns|
    ensures |ms| == |ns| + 1
    ensures forall i :: 0 <= i < |ms| ==> ms[i] == if i < k then ns[i] else if i == k then x else ns[i - 1]
  {
    ns[..k] + [x] + ns[k..]
  }

  // ms is ns with one node more, at position k.
  ghost predicate IsSpliced<T>(ms: seq<T>, ns: seq<T>, k: nat) {
    k < |ms| && k <= |ns| && ms == Spliced(ns, ms[k], k)
  }

  ghost function Without<T>(ns: seq<T>, k: nat): (ms: seq<T>)
    requires k < |ns|
    ensures |ms| == |ns| - 1
    ensures forall i :: 0 <= i < |ms| ==> ms[i] == if i < k then ns[i] else ns[i + 1]
  {
    ns[..k] + ns[k + 1..]
  }

  ghost function NodeSet<T>(ns: seq<Node<T>>): set<Node<T>> {
    set n | n in ns
  }

  ghost predicate Distinct<T>(ns: seq<Node<T>>) {
    forall i, j :: 0 <= i < j < |ns| ==> ns[i] != ns[j]
  }

  // A chain into which node has been linked before position k is the chain with node spliced in.
  lemma SpliceIn<T>(ns: seq<Node<T>>, node: Node<T>, k: nat)
    requires Distinct(ns) && node !in ns && k <= |ns|
    requires node.prev == Before(ns, k) && node.next == At(ns, k)
    requires forall i {:trigger ns[i].prev} :: 0 <= i < |ns| ==>
      ns[i].prev == if i == k then node else Before(ns, i)
    requires forall i {:trigger ns[i].next} :: 0 <= i < |ns| ==>
      ns[i].next == if i + 1 == k then node else At(ns, i + 1)
    ensures Chain(Spliced(ns, node, k))
  {
    var ms := Spliced(ns, node, k);
    forall i | 0 <= i < |ms| ensures ms[i].prev == Before(ms, i) && ms[i].next == At(ms, i + 1) {
      assert i < k ==> ms[i] == ns[i];
      assert i > k ==> ms[i] == ns[i - 1];
    }
  }

  lemma DistinctWithout<T>(ns: seq<Node<T>>, k: nat)
    requires Distinct(ns) && k < |ns|
    ensures Distinct(Without(ns, k))
  {
  }

  // Links of a chain whose node k has been bypassed.
  ghost predicate Bypassed<T>(ns: seq<Node<T>>, k: nat)
    requires k < |ns|
    reads ns
  {
    && (forall i {:trigger ns[i].prev} :: 0 <= i < |ns| && i != k ==>
          ns[i].prev == Before(ns, if i == k + 1 then k else i))
    && (forall i {:trigger ns[i].next} :: 0 <= i < |ns| && i != k ==>
          ns[i].next == At(ns, if i + 1 == k then k + 1 else i + 1))
  }

  lemma BypassedPrev<T>(ns: seq<Node<T>>, k: nat, i: nat)
    requires k < |ns| && i < |ns| - 1 && Bypassed(ns, k)
    ensures Without(ns, k)[i].prev == Before(Without(ns, k), i)
  {
    var j := if i < k then i else i + 1;
    assert Without(ns, k)[i] == ns[j] && ns[j].prev == Before(ns, if j == k + 1 then k else j);
  }

  lemma BypassedNext<T>(ns: seq<Node<T>>, k: nat, i: nat)
    requires k < |ns| && i < |ns| - 1 && Bypassed(ns, k)
    ensures Without(ns, k)[i].next == At(Without(ns, k), i + 1)
  {
    var j := if i < k then i else i + 1;
    assert Without(ns, k)[i] == ns[j] && ns[j].next == At(ns, if j + 1 == k then k + 1 else j + 1);
  }

  // A chain whose node k has been bypassed is the chain without that node.
  lemma CutOut<T>(ns: seq<Node<T>>, k: nat)
    requires Distinct(ns) && k < |ns| && Bypassed(ns, k)
    ensures Chain(Without(ns, k))
  {
    DistinctWithout(ns, k);
    forall i | 0 <= i < |ns| - 1
      ensures Without(ns, k)[i].prev == Before(Without(ns, k), i)
      ensures Without(ns, k)[i].next == At(Without(ns, k), i + 1)
    {
      BypassedPrev(ns, k, i);
      BypassedNext(ns, k, i);
    }
  }

  lemma SplicedSet<T>(ns: seq<Node<T>>, node: Node<T>, k: nat)
    requires k <= |ns|
    ensures NodeSet(Spliced(ns, node, k)) == NodeSet(ns) + {node}
  {
  }

  lemma CutSet<T>(ns: seq<Node<T>>, k: nat)
    requires Distinct(ns) && k < |ns|
    ensures NodeSet(Without(ns, k)) == NodeSet(ns) - {ns[k]}
    ensures Without(ns, k) != [] ==> Without(ns, k)[0] == if k == 0 then ns[1] else ns[0]
  {
    var ms := Without(ns, k);
    forall n | n in ns && n != ns[k] ensures n in ms {
      var i :| 0 <= i < |ns| && ns[i] == n;
      assert n == ms[if i < k then i else i - 1];
    }
  }

  // Node i of the chain carries element i.
  ghost predicate Carries<T>(ns: seq<Node<T>>, es: seq<T>)
    reads ns
  {
    |es| == |ns| && forall i {:trigger ns[i].element} :: 0 <= i < |ns| ==> ns[i].element == es[i]
  }

  lemma CarriesSpliced<T>(ns: seq<Node<T>>, es: seq<T>, node: Node<T>, k: nat)
    requires Carries(ns, es) && k <= |ns|
    ensures Carries(Spliced(ns, node, k), Spliced(es, node.element, k))
  {
  }

  lemma CarriesCut<T>(ns: seq<Node<T>>, es: seq<T>, k: nat)
    requires Carries(ns, es) && k < |ns|
    ensures Carries(Without(ns, k), Without(es, k))
  {
  }

  class List<T> {
    var head: Node?<T>
    const elementCopy: Option<T -> T>
    const elementFree: bool            // element_free is not NULL
    const elementCompare: (T, T) -> int
    const isNull: T -> bool            // which elements are NULL
    ghost var nodes: seq<Node<T>>
    ghost var elements: seq<T>
    ghost var live: set<Node<T>>       // nodes obtained from malloc and not freed
    ghost var freed: seq<T>            // elements handed to element_free, in order
    ghost var released: bool           // the list itself has been freed

    ghost predicate Valid()
      reads this, nodes
    {
      && !released
      && Chain(nodes)
      && head == (if nodes == [] then null else nodes[0])
      && live == NodeSet(nodes)
      && Carries(nodes, elements)
    }

    constructor (elementCopy: Option<T -> T>, elementFree: bool, elementCompare: (T, T) -> int, isNull: T -> bool)
      ensures Valid() && elements == [] && live == {} && freed == []
      ensures this.elementCopy == elementCopy && this.elementFree == elementFree
      ensures this.elementCompare == elementCompare && this.isNull == isNull
    {
      head := null;
      this.elementCopy, this.elementFree := elementCopy, elementFree;
      this.elementCompare, this.isNull := elementCompare, isNull;
      nodes, elements, live, freed, released := [], [], {}, [], false;
    }

    // free(n): a node is released at most once.
    ghost method Free(n: Node<T>)
      requires n in live
      modifies this`live
      ensures live == old(live) - {n}
    {
      live := live - {n};
    }

    // element_free, where the caller asks for it and the list has the callback.
    ghost method FreeElement(x: T, wanted: bool)
      modifies this`freed
      ensures freed == old(freed) + if wanted && elementFree then [x] else []
    {
      if wanted && elementFree {
        freed := freed + [x];
      }
    }
  }

  ghost function Footprint<T>(list: List?<T>): set<object>
    reads list
  {
    if list == null then {} else {list} + list.live
  }

  method Size<T>(list: List?<T>) returns (size: int)
    requires list != null ==> list.Valid()
    ensures size == if list == null then -1 else |list.elements|
  {
    if list == null {
      return -1;
    }
    var current := list.head;
    size := 0;
    while current != null
      invariant 0 <= size <= |list.nodes|
      invariant current == if size < |list.nodes| then list.nodes[size] else null
      decreases |list.nodes| - size
    {
      assert current.next == At(list.nodes, size + 1);
      size := size + 1;
      current := current.next;
    }
  }

  method GetReferenceAtIndex<T>(list: List?<T>, index: int) returns (r: Node?<T>)
    requires list != null ==> list.Valid()
    ensures r == null <==> list == null || list.elements == []
    ensures r != null ==> r == list.nodes[Clamp(index, 0, |list.nodes| - 1)]
  {
    if list == null || list.head == null {
      return null;
    }
    if index <= 0 {
      return list.head;
    }
    r := Walk(list, index);
  }

  // The loop that follows next pointers up to index, or to the last node if it comes first.
  method Walk<T>(list: List<T>, index: int) returns (curr: Node<T>)
    requires list.Valid() && list.head != null && index > 0
    ensures curr == list.nodes[Clamp(index, 0, |list.nodes| - 1)]
  {
    curr := list.head;
    var count := 0;
    while curr.next != null && count < index
      invariant 0 <= count <= index && count < |list.nodes|
      invariant curr == list.nodes[count]
      decreases |list.nodes| - count
    {
      curr := curr.next;
      count := count + 1;
    }
  }

  method GetElementAtIndex<T>(list: List?<T>, index: int) returns (r: Option<T>)
    requires list != null ==> list.Valid()
    ensures r == if list == null then None else GetAt(list.elements, index)
  {
    var node := GetReferenceAtIndex(list, index);
    r := if node != null then Some(node.element) else None;
  }

  method GetIndexOfElement<T>(list: List?<T>, element: T) returns (index: int)
    requires list != null ==> list.Valid()
    ensures list == null ==> index == -1
    ensures list != null ==> -1 <= index < |list.elements|
    ensures list != null ==> forall k :: 0 <= k < (if index < 0 then |list.elements| else index) ==>
      list.elementCompare(list.elements[k], element) != 0
    ensures index >= 0 ==> list.elementCompare(list.elements[index], element) == 0
  {
    if list == null || list.head == null {
      return -1;
    }
    var curr := list.head;
    index := 0;
    while curr != null
      invariant 0 <= index <= |list.nodes|
      invariant curr == if index < |list.nodes| then list.nodes[index] else null
      invariant forall k :: 0 <= k < index ==> list.elementCompare(list.elements[k], element) != 0
      decreases |list.nodes| - index
    {
      if list.elementCompare(curr.element, element) == 0 {
        return;
      }
      assert curr.next == At(list.nodes, index + 1);
      curr := curr.next;
      index := index + 1;
    }
    return -1;
  }

  // A reference that is not a node of the list, or null, has no element.
  method GetElementAtReference<T>(list: List?<T>, reference: Node?<T>) returns (r: Option<T>)
    requires list != null ==> list.Valid()
    ensures r.Some? <==> list != null && reference != null && reference in list.nodes
    ensures r.Some? ==> exists k :: 0 <= k < |list.nodes| && list.nodes[k] == reference && r.value == list.elements[k]
  {
    if list == null || reference == null {
      return None;
    }
    var curr := list.head;
    ghost var k := 0;
    while curr != null
      invariant k <= |list.nodes|
      invariant curr == if k < |list.nodes| then list.nodes[k] else null
      invariant reference !in list.nodes[..k]
      decreases |list.nodes| - k
    {
      if curr == reference {
        return Some(curr.element);
      }
      assert curr.next == At(list.nodes, k + 1);
      curr := curr.next;
      k := k + 1;
    }
    assert list.nodes[..k] == list.nodes;
    return None;
  }

  // Insertion at a positive index into a nonempty list (cases 3 and 4): links node into the chain.
  method LinkAtReference<T>(list: List<T>, node: Node<T>, index: int)
    requires list.Valid() && list.head != null && index > 0 && node !in list.nodes
    modifies list.nodes, node
    ensures unchanged(list`head, list`nodes, list`elements, list`live, list`freed)
    ensures Chain(Spliced(list.nodes, node, Clamp(index, 0, |list.nodes|)))
    ensures Carries(list.nodes, list.elements) && node.element == old(node.element)
  {
    ghost var ns, k := list.nodes, Clamp(index, 0, |list.nodes|);
    var ref := GetReferenceAtIndex(list, index);
    assert ref != null;
    var size := Size(list);
    if index < size {
      assert ref == ns[k] && ref.prev == Before(ns, k) == ns[k - 1];
      node.prev := ref.prev;
      node.next := ref;
      ref.prev.next := node;
      ref.prev := node;
      SpliceIn(ns, node, k);
    } else {
      assert ref == ns[k - 1] && ref.next == At(ns, k);
      assert ref.next == null;
      node.next := null;
      node.prev := ref;
      ref.next := node;
      SpliceIn(ns, node, k);
    }
  }

  // Insertion into an empty list or at an index <= 0 (cases 1 and 2): node becomes the head.
  method LinkAtHead<T>(list: List<T>, node: Node<T>)
    requires list.Valid() && node !in list.nodes
    modifies list`head, list.nodes, node
    ensures unchanged(list`nodes, list`elements, list`live, list`freed) && list.head == node
    ensures Chain(Spliced(list.nodes, node, 0))
    ensures Carries(list.nodes, list.elements) && node.element == old(node.element)
  {
    node.prev := null;
    if list.head == null {
      node.next := null;
    } else {
      node.next := list.head;
      list.head.prev := node;
    }
    list.head := node;
    SpliceIn(list.nodes, node, 0);
  }

  method LinkIn<T>(list: List<T>, node: Node<T>, index: int)
    requires list.Valid() && node !in list.nodes
    modifies list, list.live, node
    ensures list.Valid() && list.live == old(list.live) + {node} && list.freed == old(list.freed)
    ensures list.nodes == Spliced(old(list.nodes), node, Clamp(index, 0, |old(list.nodes)|))
    ensures list.elements == InsertAt(old(list.elements), old(node.element), index)
  {
    ghost var ns, k := list.nodes, Clamp(index, 0, |list.nodes|);
    if list.head == null || index <= 0 {
      LinkAtHead(list, node);
    } else {
      LinkAtReference(list, node, index);
    }
    CarriesSpliced(ns, list.elements, node, k);
    list.nodes := Spliced(ns, node, k);
    list.elements := Spliced(list.elements, node.element, k);
    list.live := list.live + {node};
    SplicedSet(ns, node, k);
  }

  // One new node at the clamped index; the others stay, in their order.
  method InsertAtIndex<T>(list: List?<T>, element: T, index: int, insertCopy: bool) returns (r: List?<T>)
    requires list != null ==> list.Valid()
    modifies Footprint(list)
    ensures r == list
    ensures list != null ==>
      && list.Valid() && list.freed == old(list.freed)
      && list.elements == InsertAt(old(list.elements),
           if insertCopy && list.elementCopy.Some? then list.elementCopy.value(element) else element, index)
    ensures list != null ==>
      var k := Clamp(index, 0, |old(list.nodes)|);
      && IsSpliced(list.nodes, old(list.nodes), k) && fresh(list.nodes[k])
      && list.live == old(list.live) + {list.nodes[k]}
  {
    if list == null {
      return null;
    }
    var x := if insertCopy && list.elementCopy.Some? then list.elementCopy.value(element) else element;
    ghost var ns := list.nodes;
    var node := new Node(x);
    LinkIn(list, node, index);
    assert IsSpliced(list.nodes, ns, Clamp(index, 0, |ns|));
    return list;
  }

  // Removal at an index <= 0: the second node, if any, becomes the head.
  method BypassHead<T>(list: List<T>)
    requires list.Valid() && list.head != null
    modifies list`head, list.nodes
    ensures Chain(Without(list.nodes, 0)) && Carries(list.nodes, list.elements)
    ensures unchanged(list`nodes, list`elements, list`live, list`freed)
    ensures list.head == At(list.nodes, 1)
  {
    ghost var ns := list.nodes;
    assert list.head.next == At(ns, 1);
    list.head := list.head.next;
    if list.head != null {
      list.head.prev := null;
    }
    CutOut(ns, 0);
  }

  // Unlinks curr from its neighbours and from the head.
  method Bypass<T>(list: List<T>, curr: Node<T>, ghost k: nat)
    requires list.Valid() && k < |list.nodes| && curr == list.nodes[k]
    modifies list`head, list.nodes
    ensures Chain(Without(list.nodes, k)) && Carries(list.nodes, list.elements)
    ensures unchanged(list`nodes, list`elements, list`live, list`freed)
    ensures list.head == if k == 0 then At(list.nodes, 1) else list.nodes[0]
  {
    ghost var ns := list.nodes;
    assert curr.next == At(ns, k + 1) && curr.prev == Before(ns, k);
    if curr.prev != null {
      curr.prev.next := curr.next;
    }
    if curr.next != null {
      curr.next.prev := curr.prev;
    }
    if curr == list.head {
      list.head := curr.next;
    }
    CutOut(ns, k);
  }

  method RemoveNode<T>(list: List<T>, index: int, freeElement: bool)
    requires list.Valid() && list.head != null
    modifies list, list.live
    ensures list.Valid()
    ensures var k := Clamp(index, 0, |old(list.nodes)| - 1);
      list.nodes == Without(old(list.nodes), k) && list.live == old(list.live) - {old(list.nodes)[k]}
    ensures list.elements == RemoveAt(old(list.elements), index)
    ensures list.freed == old(list.freed) +
      if freeElement && list.elementFree then [GetAt(old(list.elements), index).value] else []
  {
    ghost var ns, k := list.nodes, Clamp(index, 0, |list.nodes| - 1);
    var curr := list.head;
    if index <= 0 {
      list.FreeElement(curr.element, freeElement);
      BypassHead(list);
    } else {
      curr := Walk(list, index);
      list.FreeElement(curr.element, freeElement);
      Bypass(list, curr, k);
    }
    Drop(list, curr, k);
  }

  // free(curr), once node k has been bypassed: the list is the one without it.
  ghost method Drop<T>(list: List<T>, curr: Node<T>, k: nat)
    requires k < |list.nodes| && curr == list.nodes[k] && Distinct(list.nodes)
    requires Chain(Without(list.nodes, k)) && Carries(list.nodes, list.elements)
    requires list.live == NodeSet(list.nodes) && !list.released
    requires list.head == if k == 0 then At(list.nodes, 1) else list.nodes[0]
    modifies list`nodes, list`elements, list`live
    ensures list.Valid() && list.live == old(list.live) - {curr}
    ensures list.nodes == Without(old(list.nodes), k)
    ensures list.elements == Without(old(list.elements), k)
  {
    list.Free(curr);
    CutSet(list.nodes, k);
    CarriesCut(list.nodes, list.elements, k);
    list.nodes := Without(list.nodes, k);
    list.elements := Without(list.elements, k);
  }

  // The node at the clamped index is freed; the others stay, in their order.
  method RemoveAtIndex<T>(list: List?<T>, index: int, freeElement: bool) returns (r: List?<T>)
    requires list != null ==> list.Valid()
    modifies Footprint(list)
    ensures r == list
    ensures list != null ==> list.Valid() && list.elements == RemoveAt(old(list.elements), index)
    ensures list != null && old(list.nodes) == [] ==>
      list.nodes == [] && list.live == old(list.live) && list.freed == old(list.freed)
    ensures list != null && old(list.nodes) != [] ==>
      var k := Clamp(index, 0, |old(list.nodes)| - 1);
      && list.nodes == Without(old(list.nodes), k)
      && list.live == old(list.live) - {old(list.nodes)[k]}
      && list.freed == old(list.freed) +
           if freeElement && list.elementFree then [GetAt(old(list.elements), index).value] else []
  {
    if list == null || list.head == null {
      return list;
    }
    RemoveNode(list, index, freeElement);
    return list;
  }

  // The elements that are not NULL, in order.
  ghost function Present<T>(es: seq<T>, isNull: T -> bool): seq<T> {
    if es == [] then []
    else Present(es[..|es| - 1], isNull) + if isNull(es[|es| - 1]) then [] else [es[|es| - 1]]
  }

  lemma PresentSnoc<T>(es: seq<T>, k: nat, isNull: T -> bool)
    requires k < |es|
    ensures Present(es[..k + 1], isNull) == Present(es[..k], isNull) + if isNull(es[k]) then [] else [es[k]]
  {
    assert es[..k + 1][..k] == es[..k];
  }

  // dpl_free: every node is freed, none twice, every element that is not NULL is handed to element_free
  // in order, and the list is freed.
  method FreeList<T>(list: List?<T>, freeElement: bool) returns (r: List?<T>)
    requires list != null ==> list.Valid()
    modifies Footprint(list)
    ensures r == null
    ensures list != null ==>
      && list.live == {} && list.released
      && list.freed == old(list.freed) +
           if freeElement && list.elementFree then Present(old(list.elements), list.isNull) else []
  {
    if list == null {
      return null;
    }
    var curr := list.head;
    ghost var k := 0;
    while curr != null
      invariant k <= |list.nodes| && list.nodes == old(list.nodes) && list.elements == old(list.elements)
      invariant curr == if k < |list.nodes| then list.nodes[k] else null
      invariant Chain(list.nodes) && Carries(list.nodes, list.elements)
      invariant list.live == set i | k <= i < |list.nodes| :: list.nodes[i]
      invariant list.freed == old(list.freed) +
        if freeElement && list.elementFree then Present(list.elements[..k], list.isNull) else []
      decreases |list.nodes| - k
    {
      var next := curr.next;
      if !list.isNull(curr.element) {
        list.FreeElement(curr.element, freeElement);
      }
      list.Free(curr);
      PresentSnoc(list.elements, k, list.isNull);
      curr := next;
      k := k + 1;
    }
    assert list.elements[..k] == list.elements;
    list.released := true;
    return null;
  }
}
