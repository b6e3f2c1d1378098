/**
 `SortedTroves`: a doubly linked list of Trove owners in descending order of
 nominal collateral ratio (NICR), with caller-supplied hints for the insert
 position.

 The NICRs live in another contract and are read through
 `getNominalICR`; here they are a function `nicr` that is arbitrary unless
 a lemma says otherwise.
 */
module SortedTroves {

  /** An owner's address; 0 is the null address. */
  type Address = nat

  type Ratios = Address -> nat

  datatype Node = Node(isPresent: bool, nextId: Address, prevId: Address)

  const NoNode: Node := Node(false, 0, 0)

  /** A Solidity mapping holds the zero value where nothing was stored. */
  function Lookup(nodes: map<Address, Node>, id: Address): Node {
    if id in nodes then nodes[id] else NoNode
  }

  /** The i-th id, or null off either end. */
  function At(order: seq<Address>, i: int): Address {
    if 0 <= i < |order| then order[i] else 0
  }

  predicate Distinct(order: seq<Address>) {
    && (forall i :: 0 <= i < |order| ==> order[i] != 0)
    && (forall i, j :: 0 <= i < j < |order| ==> order[i] != order[j])
  }

  /** The i-th node points to its neighbours. */
  predicate LinkedAt(nodes: map<Address, Node>, order: seq<Address>, i: nat)
    requires i < |order|
  {
    Lookup(nodes, order[i]) == Node(true, At(order, i + 1), At(order, i - 1))
  }

  predicate AbsentUnlessListed(nodes: map<Address, Node>, order: seq<Address>, id: Address) {
    id in order || Lookup(nodes, id) == NoNode
  }

  /** The links of `nodes` spell out `order` in both directions, and nothing else is stored. */
  ghost predicate Linked(nodes: map<Address, Node>, order: seq<Address>) {
    && (forall i: nat :: i < |order| ==> LinkedAt(nodes, order, i))
    && (forall id: Address :: AbsentUnlessListed(nodes, order, id))
  }

  // ----- Order

  predicate Sorted(order: seq<Address>, nicr: Ratios) {
    forall i, j :: 0 <= i < j < |order| ==> nicr(order[i]) >= nicr(order[j])
  }

  /** An id of ratio x may go before position k. */
  predicate Fits(order: seq<Address>, nicr: Ratios, x: nat, k: nat) {
    && k <= |order|
    && (k > 0 ==> nicr(order[k - 1]) >= x)
    && (k < |order| ==> x >= nicr(order[k]))
  }

  function Inserted(order: seq<Address>, k: nat, id: Address): seq<Address>
    requires k <= |order|
  {
    order[..k] + [id] + order[k..]
  }

  function Removed(order: seq<Address>, k: nat): seq<Address>
    requires k < |order|
  {
    order[..k] + order[k + 1..]
  }

  lemma InsertKeepsSorted(order: seq<Address>, nicr: Ratios, k: nat, id: Address)
    requires Sorted(order, nicr)
    requires Fits(order, nicr, nicr(id), k)
    ensures Sorted(Inserted(order, k, id), nicr)
  {
  }

  lemma RemoveKeepsSorted(order: seq<Address>, nicr: Ratios, k: nat)
    requires Sorted(order, nicr)
    requires k < |order|
    ensures Sorted(Removed(order, k), nicr)
  {
  }

  /** Positions that both fit are separated by ids of the inserted ratio only. */
  lemma FittingPositions(order: seq<Address>, nicr: Ratios, x: nat, k: nat, m: nat)
    requires Sorted(order, nicr)
    requires k <= m && Fits(order, nicr, x, k) && Fits(order, nicr, x, m)
    ensures forall i :: k <= i < m ==> nicr(order[i]) == x
  {
  }

  /** Hints decide between ids of equal ratio only: the sequence of ratios does not depend on them. */
  lemma HintsDoNotMatter(order: seq<Address>, nicr: Ratios, id: Address, k: nat, m: nat, i: nat)
    requires Sorted(order, nicr)
    requires k <= m && Fits(order, nicr, nicr(id), k) && Fits(order, nicr, nicr(id), m)
    requires i <= |order|
    ensures nicr(Inserted(order, k, id)[i]) == nicr(Inserted(order, m, id)[i])
  {
    FittingPositions(order, nicr, nicr(id), k, m);
  }

  /** The tail has the least ratio: a bound holds of all Troves exactly when it holds of the last. */
  lemma LastIsLeast(order: seq<Address>, nicr: Ratios, bound: nat)
    requires Sorted(order, nicr) && order != []
    ensures nicr(order[|order| - 1]) >= bound <==> forall i :: 0 <= i < |order| ==> nicr(order[i]) >= bound
  {
  }

  // ----- Links

  /** The nodes after linking `id` in before position k. */
  function LinkedIn(nodes: map<Address, Node>, id: Address, prevId: Address, nextId: Address): map<Address, Node> {
    var n1 := nodes[id := Node(true, nextId, prevId)];
    var n2 := if prevId == 0 then n1 else n1[prevId := Lookup(n1, prevId).(nextId := id)];
    if nextId == 0 then n2 else n2[nextId := Lookup(n2, nextId).(prevId := id)]
  }

  lemma LookupAfterLinkingIn(nodes: map<Address, Node>, id: Address, prevId: Address, nextId: Address, a: Address)
    requires id != 0 && id != prevId && id != nextId && (prevId == nextId ==> prevId == 0)
    ensures Lookup(LinkedIn(nodes, id, prevId, nextId), a)
         == if a == id then Node(true, nextId, prevId)
            else if a != 0 && a == prevId then Lookup(nodes, a).(nextId := id)
            else if a != 0 && a == nextId then Lookup(nodes, a).(prevId := id)
            else Lookup(nodes, a)
  {
  }

  lemma NeighboursDiffer(order: seq<Address>, i: int, j: int)
    requires Distinct(order)
    ensures i != j && At(order, i) == At(order, j) ==> At(order, i) == 0
    ensures 0 <= i < |order| ==> At(order, i) != 0
  {
  }

  lemma InsertedAt(order: seq<Address>, k: nat, id: Address, i: int)
    requires k <= |order|
    ensures At(Inserted(order, k, id), i) == if i < k then At(order, i) else if i == k then id else At(order, i - 1)
    ensures At(order, i) == if i < k then At(Inserted(order, k, id), i) else At(Inserted(order, k, id), i + 1)
  {
  }

  lemma LinkedInKeepsNode(nodes: map<Address, Node>, order: seq<Address>, k: nat, id: Address, i: nat)
    requires Linked(nodes, order) && Distinct(order)
    requires k <= |order| && id != 0 && id !in order
    requires i <= |order|
    ensures LinkedAt(LinkedIn(nodes, id, At(order, k - 1), At(order, k)), Inserted(order, k, id), i)
  {
    var r := Inserted(order, k, id);
    var prevId, nextId := At(order, k - 1), At(order, k);
    NeighboursDiffer(order, k - 1, k);
    InsertedAt(order, k, id, i - 1);
    InsertedAt(order, k, id, i);
    InsertedAt(order, k, id, i + 1);
    LookupAfterLinkingIn(nodes, id, prevId, nextId, At(r, i));
    if i != k {
      var j := if i < k then i else i - 1;
      assert LinkedAt(nodes, order, j);
      NeighboursDiffer(order, j, k - 1);
      NeighboursDiffer(order, j, k);
      assert At(r, i) == order[j];
    }
  }

  lemma LinkedInIsLinked(nodes: map<Address, Node>, order: seq<Address>, k: nat, id: Address)
    requires Linked(nodes, order) && Distinct(order)
    requires k <= |order| && id != 0 && id !in order
    ensures Linked(LinkedIn(nodes, id, At(order, k - 1), At(order, k)), Inserted(order, k, id))
    ensures Distinct(Inserted(order, k, id))
  {
    var r := Inserted(order, k, id);
    var nodes' := LinkedIn(nodes, id, At(order, k - 1), At(order, k));
    forall i: nat | i < |r|
      ensures LinkedAt(nodes', r, i)
    {
      LinkedInKeepsNode(nodes, order, k, id, i);
    }
    forall a: Address
      ensures AbsentUnlessListed(nodes', r, a)
    {
      assert AbsentUnlessListed(nodes, order, a);
      NeighboursDiffer(order, k - 1, k);
      LookupAfterLinkingIn(nodes, id, At(order, k - 1), At(order, k), a);
      InsertedMembers(order, k, id, a);
    }
    InsertedDistinct(order, k, id);
  }

  lemma InsertedMembers(order: seq<Address>, k: nat, id: Address, a: Address)
    requires k <= |order|
    ensures a in Inserted(order, k, id) <==> a == id || a in order
  {
  }

  lemma InsertedDistinct(order: seq<Address>, k: nat, id: Address)
    requires Distinct(order) && k <= |order| && id != 0 && id !in order
    ensures Distinct(Inserted(order, k, id))
  {
  }

  /** The nodes after unlinking the id between `prevId` and `nextId`. */
  function LinkedOut(nodes: map<Address, Node>, id: Address, prevId: Address, nextId: Address): map<Address, Node> {
    var n1 := if prevId == 0 then nodes else nodes[prevId := Lookup(nodes, prevId).(nextId := nextId)];
    var n2 := if nextId == 0 then n1 else n1[nextId := Lookup(n1, nextId).(prevId := prevId)];
    n2[id := NoNode]
  }

  lemma LookupAfterLinkingOut(nodes: map<Address, Node>, id: Address, prevId: Address, nextId: Address, a: Address)
    requires id != 0 && id != prevId && id != nextId && (prevId == nextId ==> prevId == 0)
    ensures Lookup(LinkedOut(nodes, id, prevId, nextId), a)
         == if a == id then NoNode
            else if a != 0 && a == prevId then Lookup(nodes, a).(nextId := nextId)
            else if a != 0 && a == nextId then Lookup(nodes, a).(prevId := prevId)
            else Lookup(nodes, a)
  {
  }

  lemma RemovedAt(order: seq<Address>, k: nat, i: int)
    requires k < |order|
    ensures At(Removed(order, k), i) == if i < k then At(order, i) else At(order, i + 1)
  {
  }

  lemma LinkedOutKeepsNode(nodes: map<Address, Node>, order: seq<Address>, k: nat, i: nat)
    requires Linked(nodes, order) && Distinct(order)
    requires k < |order| && i < |order| - 1
    ensures LinkedAt(LinkedOut(nodes, order[k], At(order, k - 1), At(order, k + 1)), Removed(order, k), i)
  {
    var r := Removed(order, k);
    var j := if i < k then i else i + 1;
    NeighboursDiffer(order, k - 1, k + 1);
    NeighboursDiffer(order, k, k - 1);
    NeighboursDiffer(order, k, k + 1);
    NeighboursDiffer(order, j, k);
    NeighboursDiffer(order, j, k - 1);
    NeighboursDiffer(order, j, k + 1);
    RemovedAt(order, k, i - 1);
    RemovedAt(order, k, i);
    RemovedAt(order, k, i + 1);
    LookupAfterLinkingOut(nodes, order[k], At(order, k - 1), At(order, k + 1), order[j]);
    assert LinkedAt(nodes, order, j);
  }

  lemma RemovedMembers(order: seq<Address>, k: nat, a: Address)
    requires Distinct(order) && k < |order|
    ensures a in Removed(order, k) <==> a != order[k] && a in order
  {
  }

  lemma RemovedDistinct(order: seq<Address>, k: nat)
    requires Distinct(order) && k < |order|
    ensures Distinct(Removed(order, k))
  {
  }

  lemma LinkedOutIsLinked(nodes: map<Address, Node>, order: seq<Address>, k: nat)
    requires Linked(nodes, order) && Distinct(order)
    requires k < |order|
    ensures Linked(LinkedOut(nodes, order[k], At(order, k - 1), At(order, k + 1)), Removed(order, k))
    ensures Distinct(Removed(order, k))
  {
    var r := Removed(order, k);
    var nodes' := LinkedOut(nodes, order[k], At(order, k - 1), At(order, k + 1));
    forall i: nat | i < |r|
      ensures LinkedAt(nodes', r, i)
    {
      LinkedOutKeepsNode(nodes, order, k, i);
    }
    forall a: Address
      ensures AbsentUnlessListed(nodes', r, a)
    {
      assert AbsentUnlessListed(nodes, order, a);
      NeighboursDiffer(order, k - 1, k + 1);
      NeighboursDiffer(order, k, k - 1);
      NeighboursDiffer(order, k, k + 1);
      LookupAfterLinkingOut(nodes, order[k], At(order, k - 1), At(order, k + 1), a);
      RemovedMembers(order, k, a);
    }
    RemovedDistinct(order, k);
  }

  // ----- The contract

  class List {
    var head: Address
    var tail: Address
    var size: nat
    var maxSize: nat
    var nodes: map<Address, Node>

    /** The ids from head to tail. */
    ghost var Order: seq<Address>

    ghost predicate Valid()
      reads this
    {
      && Distinct(Order)
      && Linked(nodes, Order)
      && size == |Order| <= maxSize
      && head == At(Order, 0)
      && tail == At(Order, |Order| - 1)
    }

    constructor (capacity: nat)
      ensures Valid() && Order == [] && maxSize == capacity
    {
      head, tail, size, maxSize, nodes, Order := 0, 0, 0, capacity, map[], [];
    }

    predicate Contains(id: Address)
      reads this
    {
      Lookup(nodes, id).isPresent
    }

    lemma ContainsIffInOrder(id: Address)
      requires Valid()
      ensures Contains(id) <==> id in Order
      ensures id !in Order ==> Lookup(nodes, id) == NoNode
    {
      assert AbsentUnlessListed(nodes, Order, id);
      if id in Order {
        var i: nat :| i < |Order| && Order[i] == id;
        assert LinkedAt(nodes, Order, i);
      }
    }

    predicate ValidInsertPosition(nicr: Ratios, x: nat, prevId: Address, nextId: Address)
      reads this
    {
      if prevId == 0 && nextId == 0 then size == 0
      else if prevId == 0 then head == nextId && x >= nicr(nextId)
      else if nextId == 0 then tail == prevId && x <= nicr(prevId)
      else Lookup(nodes, prevId).nextId == nextId && nicr(prevId) >= x && x >= nicr(nextId)
    }

    /** A pair that passes the check is a gap of the list in which x fits. */
    lemma ValidPositionIsGap(nicr: Ratios, x: nat, prevId: Address, nextId: Address) returns (k: nat)
      requires Valid()
      requires ValidInsertPosition(nicr, x, prevId, nextId)
      ensures Fits(Order, nicr, x, k) && prevId == At(Order, k - 1) && nextId == At(Order, k)
    {
      if prevId == 0 {
        k := 0;
      } else if nextId == 0 {
        k := |Order|;
      } else {
        ContainsIffInOrder(prevId);
        var i: nat :| i < |Order| && Order[i] == prevId;
        assert LinkedAt(nodes, Order, i);
        k := i + 1;
      }
    }

    /** Walks towards the tail, from the head or from an id whose ratio is not below x. */
    method DescendList(nicr: Ratios, x: nat, startId: Address, ghost start: nat)
      returns (prevId: Address, nextId: Address, ghost k: nat)
      requires Valid()
      requires startId == At(Order, start)
      requires start == 0 || (start < |Order| && x <= nicr(startId))
      ensures Fits(Order, nicr, x, k) && prevId == At(Order, k - 1) && nextId == At(Order, k)
    {
      NeighboursDiffer(Order, start, 0);
      if head == startId && x >= nicr(startId) {
        return 0, startId, 0;
      }
      ContainsIffInOrder(0);
      prevId := startId;
      nextId := Lookup(nodes, prevId).nextId;
      if prevId == 0 {
        return prevId, nextId, 0;
      }
      assert LinkedAt(nodes, Order, start);
      ghost var i: nat := start;
      while prevId != 0 && !ValidInsertPosition(nicr, x, prevId, nextId)
        invariant i < |Order|
        invariant prevId == Order[i] && nextId == At(Order, i + 1)
        invariant x <= nicr(prevId)
        decreases |Order| - i
      {
        assert LinkedAt(nodes, Order, i);
        assert nextId != 0;
        assert LinkedAt(nodes, Order, i + 1);
        prevId := Lookup(nodes, prevId).nextId;
        nextId := Lookup(nodes, prevId).nextId;
        i := i + 1;
      }
      k := ValidPositionIsGap(nicr, x, prevId, nextId);
    }

    /** Walks towards the head, from an id whose ratio is not above x. */
    method AscendList(nicr: Ratios, x: nat, startId: Address, ghost start: nat)
      returns (prevId: Address, nextId: Address, ghost k: nat)
      requires Valid()
      requires start < |Order| && startId == Order[start] && x >= nicr(startId)
      ensures Fits(Order, nicr, x, k) && prevId == At(Order, k - 1) && nextId == At(Order, k)
    {
      NeighboursDiffer(Order, start, |Order| - 1);
      if tail == startId && x <= nicr(startId) {
        return startId, 0, |Order|;
      }
      nextId := startId;
      assert LinkedAt(nodes, Order, start);
      prevId := Lookup(nodes, nextId).prevId;
      ghost var i: nat := start;
      while nextId != 0 && !ValidInsertPosition(nicr, x, prevId, nextId)
        invariant i < |Order|
        invariant nextId == Order[i] && prevId == At(Order, i - 1)
        invariant x >= nicr(nextId)
        decreases i
      {
        assert LinkedAt(nodes, Order, i);
        assert prevId != 0;
        assert LinkedAt(nodes, Order, i - 1);
        nextId := Lookup(nodes, nextId).prevId;
        prevId := Lookup(nodes, nextId).prevId;
        i := i - 1;
      }
      k := ValidPositionIsGap(nicr, x, prevId, nextId);
    }

    /** Whatever the hints, a gap is found in which x fits; the list need not even be sorted. */
    method FindInsertPosition(nicr: Ratios, x: nat, prevHint: Address, nextHint: Address)
      returns (prevId: Address, nextId: Address, ghost k: nat)
      requires Valid()
      ensures Fits(Order, nicr, x, k) && prevId == At(Order, k - 1) && nextId == At(Order, k)
    {
      prevId, nextId := prevHint, nextHint;
      if prevId != 0 {
        ContainsIffInOrder(prevId);
        if !Contains(prevId) || x > nicr(prevId) {
          prevId := 0;
        }
      }
      if nextId != 0 {
        ContainsIffInOrder(nextId);
        if !Contains(nextId) || x < nicr(nextId) {
          nextId := 0;
        }
      }
      if prevId == 0 && nextId == 0 {
        prevId, nextId, k := DescendList(nicr, x, head, 0);
      } else if prevId == 0 {
        ghost var i: nat :| i < |Order| && Order[i] == nextId;
        prevId, nextId, k := AscendList(nicr, x, nextId, i);
      } else {
        ghost var i: nat :| i < |Order| && Order[i] == prevId;
        prevId, nextId, k := DescendList(nicr, x, prevId, i);
      }
    }

    /** Links `id` in between two neighbours, as the contract's assignments do. */
    method LinkIn(id: Address, prevId: Address, nextId: Address, ghost k: nat)
      requires Valid() && k <= |Order| && prevId == At(Order, k - 1) && nextId == At(Order, k)
      requires id != 0 && id !in Order
      modifies `head, `tail, `nodes
      ensures nodes == LinkedIn(old(nodes), id, prevId, nextId)
      ensures head == (if k == 0 then id else old(head))
      ensures tail == (if k == |Order| then id else old(tail))
    {
      ContainsIffInOrder(id);
      NeighboursDiffer(Order, k - 1, k);
      nodes := nodes[id := Lookup(nodes, id).(isPresent := true)];
      if prevId == 0 && nextId == 0 {
        head, tail := id, id;
      } else if prevId == 0 {
        nodes := nodes[id := Lookup(nodes, id).(nextId := head)];
        assert nodes == old(nodes)[id := Node(true, nextId, prevId)];
        nodes := nodes[head := Lookup(nodes, head).(prevId := id)];
        head := id;
      } else if nextId == 0 {
        nodes := nodes[id := Lookup(nodes, id).(prevId := tail)];
        assert nodes == old(nodes)[id := Node(true, nextId, prevId)];
        nodes := nodes[tail := Lookup(nodes, tail).(nextId := id)];
        tail := id;
      } else {
        nodes := nodes[id := Lookup(nodes, id).(nextId := nextId)];
        nodes := nodes[id := Lookup(nodes, id).(prevId := prevId)];
        assert nodes == old(nodes)[id := Node(true, nextId, prevId)];
        nodes := nodes[prevId := Lookup(nodes, prevId).(nextId := id)];
        nodes := nodes[nextId := Lookup(nodes, nextId).(prevId := id)];
      }
    }

    method Include(id: Address, prevId: Address, nextId: Address, ghost k: nat)
      requires Valid() && size < maxSize
      requires k <= |Order| && prevId == At(Order, k - 1) && nextId == At(Order, k)
      requires id != 0 && id !in Order
      modifies this
      ensures Valid() && maxSize == old(maxSize)
      ensures Order == Inserted(old(Order), k, id)
    {
      LinkedInIsLinked(nodes, Order, k, id);
      InsertedAt(Order, k, id, 0);
      InsertedAt(Order, k, id, |Order|);
      LinkIn(id, prevId, nextId, k);
      size := size + 1;
      Order := Inserted(Order, k, id);
    }

    /**
     Adds a node.  For any hints and any ratios the list stays well linked
     and the id lands in a gap it fits; if the list was sorted and x is the
     id's ratio, it stays sorted.
     */
    method Insert(nicr: Ratios, id: Address, x: nat, prevHint: Address, nextHint: Address)
      returns (ok: bool, ghost k: nat)
      requires Valid()
      modifies this
      ensures Valid() && maxSize == old(maxSize)
      ensures ok <==> old(size) != maxSize && id !in old(Order) && id != 0 && x > 0
      ensures !ok ==> Order == old(Order)
      ensures ok ==> Fits(old(Order), nicr, x, k) && Order == Inserted(old(Order), k, id)
      ensures ok && Sorted(old(Order), nicr) && nicr(id) == x ==> Sorted(Order, nicr)
    {
      ContainsIffInOrder(id);
      k := 0;
      if size == maxSize || Contains(id) || id == 0 || x == 0 {
        return false, k;
      }
      var prevId, nextId := prevHint, nextHint;
      if !ValidInsertPosition(nicr, x, prevId, nextId) {
        prevId, nextId, k := FindInsertPosition(nicr, x, prevId, nextId);
      } else {
        k := ValidPositionIsGap(nicr, x, prevId, nextId);
      }
      if Sorted(Order, nicr) && nicr(id) == x {
        InsertKeepsSorted(Order, nicr, k, id);
      }
      Include(id, prevId, nextId, k);
      ok := true;
    }

    /** Links the k-th id out, as the contract's assignments do. */
    method LinkOut(id: Address, ghost k: nat)
      requires Valid() && k < |Order| && Order[k] == id
      modifies `head, `tail, `nodes
      ensures nodes == LinkedOut(old(nodes), id, At(Order, k - 1), At(Order, k + 1))
      ensures head == (if k == 0 then At(Order, 1) else old(head))
      ensures tail == (if k == |Order| - 1 then At(Order, k - 1) else old(tail))
    {
      assert LinkedAt(nodes, Order, k);
      NeighboursDiffer(Order, k, 0);
      NeighboursDiffer(Order, k, |Order| - 1);
      NeighboursDiffer(Order, k - 1, k + 1);
      var node := Lookup(nodes, id);
      if size > 1 {
        if id == head {
          head := node.nextId;
          nodes := nodes[head := Lookup(nodes, head).(prevId := 0)];
        } else if id == tail {
          tail := node.prevId;
          nodes := nodes[tail := Lookup(nodes, tail).(nextId := 0)];
        } else {
          nodes := nodes[node.prevId := Lookup(nodes, node.prevId).(nextId := node.nextId)];
          nodes := nodes[node.nextId := Lookup(nodes, node.nextId).(prevId := node.prevId)];
        }
      } else {
        head, tail := 0, 0;
      }
      nodes := nodes[id := NoNode];
    }

    /** Removes a node; the others keep their order. */
    method Remove(id: Address) returns (ok: bool, ghost k: nat)
      requires Valid()
      modifies this
      ensures Valid() && maxSize == old(maxSize)
      ensures ok <==> id in old(Order)
      ensures !ok ==> Order == old(Order)
      ensures ok ==> k < |old(Order)| && old(Order)[k] == id && Order == Removed(old(Order), k)
    {
      ContainsIffInOrder(id);
      k := 0;
      if !Contains(id) {
        return false, k;
      }
      k :| k < |Order| && Order[k] == id;
      LinkedOutIsLinked(nodes, Order, k);
      RemovedAt(Order, k, 0);
      RemovedAt(Order, k, |Order| - 2);
      LinkOut(id, k);
      size := size - 1;
      Order := Removed(Order, k);
      ok := true;
    }

    /** Moves a node to where its new ratio belongs; the other ids keep their order. */
    method ReInsert(nicr: Ratios, id: Address, x: nat, prevHint: Address, nextHint: Address)
      returns (ok: bool, ghost from: nat, ghost to: nat)
      requires Valid()
      modifies this
      ensures Valid() && maxSize == old(maxSize)
      ensures ok <==> id in old(Order) && x > 0
      ensures !ok ==> Order == old(Order)
      ensures ok ==>
                && from < |old(Order)| && old(Order)[from] == id
                && Fits(Removed(old(Order), from), nicr, x, to)
                && Order == Inserted(Removed(old(Order), from), to, id)
      ensures ok && nicr(id) == x && Sorted(Removed(old(Order), from), nicr) ==> Sorted(Order, nicr)
    {
      ContainsIffInOrder(id);
      from, to := 0, 0;
      if !Contains(id) || x == 0 {
        return false, from, to;
      }
      var removed, inserted;
      removed, from := Remove(id);
      RemovedMembers(old(Order), from, id);
      inserted, to := Insert(nicr, id, x, prevHint, nextHint);
      ok := true;
    }
  }
}
