/**
 The kernel's capability table in its copying form: a sorted vector of capabilities, and beside it
 a reverse index from each parent to the ids of its children.
 */
module CapTable {
  import opened Types
  import opened SortedVec
  import opened Capabilities

  type CapVec = seq<(Id, Capability)>
  type ChildrenIndex = seq<(Id, seq<CapId>)>

  datatype KernelError =
    | CapNotFound(missing: CapId)
    | CapIdExhausted
    | CapIdCollision(taken: CapId)
    | CounterOverflow

  function ChildrenOf(index: ChildrenIndex, parent: CapId): seq<CapId> {
    match Get(index, parent)
    case Some(children) => children
    case None => []
  }

  function AddChild(index: ChildrenIndex, parent: CapId, child: CapId): ChildrenIndex {
    var p := LowerBound(index, parent);
    if Has(index, parent) then index[p := (parent, index[p].1 + [child])]
    else Insert(index, parent, [child])
  }

  datatype Table = Table(caps: CapVec, epoch: U64, index: ChildrenIndex)
  {
    function Lookup(id: CapId): Option<Capability> {
      Get(caps, id)
    }

    predicate Present(id: CapId) {
      Lookup(id).Some?
    }

    predicate IsValid(id: CapId) {
      Present(id) && Lookup(id).value.valid
    }

    function ParentOf(id: CapId): Option<CapId> {
      match Lookup(id)
      case Some(cap) => cap.parent
      case None => None
    }

    /** The naive walk towards the root, cut off after `fuel` parents. */
    predicate HasAncestorWithFuel(id: CapId, ancestor: CapId, fuel: nat)
      decreases fuel
    {
      fuel != 0 &&
      match Lookup(id)
      case None => false
      case Some(cap) =>
        match cap.parent
        case None => false
        case Some(parent) => parent == ancestor || HasAncestorWithFuel(parent, ancestor, fuel - 1)
    }

    /** The kernel spends the capability's own id as fuel. */
    predicate HasAncestor(id: CapId, ancestor: CapId) {
      HasAncestorWithFuel(id, ancestor, id)
    }

    predicate InRevokeSet(id: CapId, revoked: CapId) {
      id == revoked || HasAncestor(id, revoked)
    }

    function RevokeTransitive(id: CapId): Table {
      this.(caps := seq(|caps|, i requires 0 <= i < |caps| =>
        if InRevokeSet(caps[i].0, id) then (caps[i].0, caps[i].1.Revoked()) else caps[i]))
    }

    function InsertCap(cap: Capability): Result<Table, KernelError> {
      if Has(caps, cap.id) then Err(CapIdCollision(cap.id))
      else
        var index' := match cap.parent case Some(p) => AddChild(index, p, cap.id) case None => index;
        Ok(Table(Insert(caps, cap.id, cap), epoch, index'))
    }

    predicate AnyValidTargeting(target: ResourceId) {
      exists i :: 0 <= i < |caps| && caps[i].1.valid && caps[i].1.target == target
    }
  }

  const EMPTY_TABLE: Table := Table([], 0, [])

  // ---- What the documentation of RevocationState asks of a table ----

  ghost predicate KeysMatch(t: Table) {
    forall id: CapId :: t.Present(id) ==> t.Lookup(id).value.id == id
  }

  /** Every parent named in the table is itself in the table. */
  ghost predicate ParentsPresent(t: Table) {
    forall id: CapId :: t.ParentOf(id).Some? ==> t.Present(t.ParentOf(id).value)
  }

  /** A valid capability has a valid parent. */
  ghost predicate ValidParents(t: Table) {
    forall id: CapId :: t.IsValid(id) && t.ParentOf(id).Some? ==> t.IsValid(t.ParentOf(id).value)
  }

  ghost predicate ParentLt(t: Table) {
    forall id: CapId :: t.ParentOf(id).Some? ==> t.ParentOf(id).value < id
  }

  /** The index is exactly the inverse of the parent relation. */
  ghost predicate IndexExact(t: Table) {
    forall p: CapId, c: CapId {:trigger c in ChildrenOf(t.index, p)} ::
      c in ChildrenOf(t.index, p) <==> t.ParentOf(c) == Some(p)
  }

  ghost predicate Layout(t: Table) {
    Sorted(t.caps) && Sorted(t.index)
  }

  /** What every table reached from the empty one satisfies, whatever ids bootstrap roots are given. */
  ghost predicate Coherent(t: Table) {
    Layout(t) && KeysMatch(t) && ParentsPresent(t) && ValidParents(t) && IndexExact(t)
  }

  /** With fresh ids handed out in order, parents also come before children. */
  ghost predicate Ordered(t: Table, nextCapId: CapId) {
    ParentLt(t) && forall id: CapId :: t.Present(id) ==> id < nextCapId
  }

  /** Two versions of one capability: only the revocation flag may differ, and only downwards. */
  ghost predicate SameButRevoked(before: Capability, after: Capability) {
    before.(valid := after.valid) == after && (after.valid ==> before.valid)
  }

  /** `after` keeps every capability of `before`, unchanged except that some may be revoked. */
  ghost predicate Extends(before: Table, after: Table) {
    forall id: CapId :: before.Present(id) ==>
      after.Present(id) && SameButRevoked(before.Lookup(id).value, after.Lookup(id).value)
  }

  // ---- Insertion ----

  lemma ChildrenAfterAdd(index: ChildrenIndex, parent: CapId, child: CapId, q: CapId)
    requires Sorted(index)
    ensures Sorted(AddChild(index, parent, child))
    ensures ChildrenOf(AddChild(index, parent, child), q)
         == ChildrenOf(index, q) + (if q == parent then [child] else [])
  {
    var p := LowerBound(index, parent);
    if Has(index, parent) {
      GetUpdated(index, p, index[p].1 + [child], q);
    } else {
      InsertKeepsSorted(index, parent, [child]);
      GetInserted(index, parent, [child], q);
    }
  }

  lemma LookupAfterInsert(t: Table, cap: Capability, q: CapId)
    requires Layout(t) && !t.Present(cap.id)
    ensures t.InsertCap(cap).Ok?
    ensures t.InsertCap(cap).value.Lookup(q) == if q == cap.id then Some(cap) else t.Lookup(q)
  {
    GetInserted(t.caps, cap.id, cap, q);
  }

  lemma ChildrenAfterInsert(t: Table, cap: Capability, q: CapId)
    requires Layout(t) && !t.Present(cap.id)
    ensures ChildrenOf(t.InsertCap(cap).value.index, q)
         == ChildrenOf(t.index, q) + (if cap.parent == Some(q) then [cap.id] else [])
  {
    if cap.parent.Some? {
      ChildrenAfterAdd(t.index, cap.parent.value, cap.id, q);
    }
  }

  lemma InsertKeepsLayout(t: Table, cap: Capability)
    requires Layout(t) && !t.Present(cap.id)
    ensures Layout(t.InsertCap(cap).value)
  {
    InsertKeepsSorted(t.caps, cap.id, cap);
    if cap.parent.Some? {
      ChildrenAfterAdd(t.index, cap.parent.value, cap.id, 0);
    }
  }

  ghost predicate Adds(t: Table, t': Table, cap: Capability) {
    forall q: CapId :: t'.Lookup(q) == if q == cap.id then Some(cap) else t.Lookup(q)
  }

  lemma AddsKeepsParents(t: Table, t': Table, cap: Capability)
    requires Adds(t, t', cap) && !t.Present(cap.id)
    requires KeysMatch(t) && ParentsPresent(t) && ValidParents(t)
    requires cap.parent.Some? ==> t.IsValid(cap.parent.value)
    ensures KeysMatch(t') && ParentsPresent(t') && ValidParents(t') && Extends(t, t')
  {
    forall q: CapId | t'.ParentOf(q).Some?
      ensures t'.Present(t'.ParentOf(q).value)
      ensures t'.IsValid(q) ==> t'.IsValid(t'.ParentOf(q).value)
    {
      assert q != cap.id ==> t.ParentOf(q) == t'.ParentOf(q) && t.IsValid(q) == t'.IsValid(q);
    }
  }

  lemma InsertKeepsIndex(t: Table, cap: Capability)
    requires Layout(t) && IndexExact(t) && !t.Present(cap.id)
    requires Adds(t, t.InsertCap(cap).value, cap)
    ensures IndexExact(t.InsertCap(cap).value)
  {
    var t' := t.InsertCap(cap).value;
    forall p: CapId, c: CapId
      ensures c in ChildrenOf(t'.index, p) <==> t'.ParentOf(c) == Some(p)
    {
      ChildrenAfterInsert(t, cap, p);
      assert c in ChildrenOf(t.index, p) <==> t.ParentOf(c) == Some(p);
    }
  }

  /** Adding a root, or a child of a valid capability, keeps the table coherent. */
  lemma InsertKeepsCoherent(t: Table, cap: Capability)
    requires Coherent(t) && !t.Present(cap.id)
    requires cap.parent.Some? ==> t.IsValid(cap.parent.value)
    ensures t.InsertCap(cap).Ok?
    ensures Adds(t, t.InsertCap(cap).value, cap)
    ensures Coherent(t.InsertCap(cap).value)
    ensures Extends(t, t.InsertCap(cap).value)
  {
    InsertKeepsLayout(t, cap);
    forall q: CapId
      ensures t.InsertCap(cap).value.Lookup(q) == if q == cap.id then Some(cap) else t.Lookup(q)
    {
      LookupAfterInsert(t, cap, q);
    }
    AddsKeepsParents(t, t.InsertCap(cap).value, cap);
    InsertKeepsIndex(t, cap);
  }
}
