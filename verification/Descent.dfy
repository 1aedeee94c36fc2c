/**
 The parent relation as a reference for both revocations: who descends from whom, how far away,
 and what the naive walk on fuel really decides.
 */
module Descent {
  import opened Types
  import opened CapTable

  /** The capability n parents above id, if the chain is that long. */
  ghost function Up(t: Table, id: CapId, n: nat): Option<CapId>
    decreases n
  {
    if n == 0 then Some(id)
    else match t.ParentOf(id) case Some(parent) => Up(t, parent, n - 1) case None => None
  }

  ghost predicate Descends(t: Table, id: CapId, ancestor: CapId) {
    exists n: nat :: n > 0 && Up(t, id, n) == Some(ancestor)
  }

  ghost predicate DescendsWithin(t: Table, id: CapId, ancestor: CapId, limit: nat) {
    exists n: nat :: 0 < n <= limit && Up(t, id, n) == Some(ancestor)
  }

  ghost predicate InSubtree(t: Table, id: CapId, root: CapId) {
    id == root || Descends(t, id, root)
  }

  lemma UpStep(t: Table, id: CapId, n: nat)
    requires n > 0
    ensures t.ParentOf(id).Some? ==> Up(t, id, n) == Up(t, t.ParentOf(id).value, n - 1)
    ensures t.ParentOf(id).None? ==> Up(t, id, n) == None
  {
  }

  lemma DescendsStep(t: Table, id: CapId, ancestor: CapId)
    ensures Descends(t, id, ancestor)
        <==> t.ParentOf(id).Some? && InSubtree(t, t.ParentOf(id).value, ancestor)
  {
    if Descends(t, id, ancestor) {
      var n: nat :| n > 0 && Up(t, id, n) == Some(ancestor);
      UpStep(t, id, n);
      if n > 1 {
        assert Descends(t, t.ParentOf(id).value, ancestor);
      } else {
        assert Up(t, t.ParentOf(id).value, 0) == Some(ancestor);
      }
    }
    if t.ParentOf(id).Some? && InSubtree(t, t.ParentOf(id).value, ancestor) {
      var p := t.ParentOf(id).value;
      if p == ancestor {
        assert Up(t, p, 0) == Some(ancestor);
        UpStep(t, id, 1);
      } else {
        var n: nat :| n > 0 && Up(t, p, n) == Some(ancestor);
        UpStep(t, id, n + 1);
      }
    }
  }

  /** The fuelled walk answers yes exactly when the ancestor is at most `fuel` parents away. */
  lemma {:induction false} FuelExact(t: Table, id: CapId, ancestor: CapId, fuel: nat)
    ensures t.HasAncestorWithFuel(id, ancestor, fuel) <==> DescendsWithin(t, id, ancestor, fuel)
    decreases fuel
  {
    if fuel > 0 && t.ParentOf(id).Some? {
      var p := t.ParentOf(id).value;
      FuelExact(t, p, ancestor, fuel - 1);
      assert Up(t, id, 1) == Up(t, p, 0) == Some(p);
      if t.HasAncestorWithFuel(id, ancestor, fuel) && p != ancestor {
        var n: nat :| 0 < n <= fuel - 1 && Up(t, p, n) == Some(ancestor);
        UpStep(t, id, n + 1);
      }
      if DescendsWithin(t, id, ancestor, fuel) && p != ancestor {
        var n: nat :| 0 < n <= fuel && Up(t, id, n) == Some(ancestor);
        UpStep(t, id, n);
        assert n - 1 > 0;
      }
    } else if fuel > 0 {
      forall n: nat | 0 < n <= fuel
        ensures Up(t, id, n) == None
      {
        UpStep(t, id, n);
      }
    }
  }

  /** When parents come before children, a chain of n parents starts at an id of at least n. */
  lemma {:induction false} ChainFitsId(t: Table, id: CapId, n: nat)
    requires ParentLt(t) && Up(t, id, n).Some?
    ensures Up(t, id, n).value + n <= id
    decreases n
  {
    if n > 0 {
      UpStep(t, id, n);
      ChainFitsId(t, t.ParentOf(id).value, n - 1);
    }
  }

  /** So the id itself is always enough fuel, and the naive walk decides descent exactly. */
  lemma FuelIsAdequate(t: Table, id: CapId, ancestor: CapId)
    requires ParentLt(t)
    ensures t.HasAncestor(id, ancestor) <==> Descends(t, id, ancestor)
  {
    FuelExact(t, id, ancestor, id);
    if Descends(t, id, ancestor) {
      var n: nat :| n > 0 && Up(t, id, n) == Some(ancestor);
      ChainFitsId(t, id, n);
    }
  }

  /** Some valid capability hangs further below the root than its own id, where the naive walk misses it. */
  ghost predicate PastFuel(t: Table, root: CapId) {
    exists id: CapId :: t.IsValid(id) && id != root && Descends(t, id, root) && !DescendsWithin(t, id, root, id)
  }

  lemma OrderIsWithinFuel(t: Table, root: CapId)
    requires ParentLt(t)
    ensures !PastFuel(t, root)
  {
    forall id: CapId | Descends(t, id, root)
      ensures DescendsWithin(t, id, root, id)
    {
      FuelIsAdequate(t, id, root);
      FuelExact(t, id, root, id);
    }
  }

  // ---- What descent implies in a coherent table ----

  /** Everything above a valid capability is valid. */
  lemma {:induction false} ValidChain(t: Table, id: CapId, n: nat)
    requires ValidParents(t) && t.IsValid(id) && Up(t, id, n).Some?
    ensures t.IsValid(Up(t, id, n).value)
    decreases n
  {
    if n > 0 {
      UpStep(t, id, n);
      ValidChain(t, t.ParentOf(id).value, n - 1);
    }
  }

  lemma DeadSubtree(t: Table, root: CapId, id: CapId)
    requires ValidParents(t) && !t.IsValid(root) && InSubtree(t, id, root)
    ensures !t.IsValid(id)
  {
    if t.IsValid(id) && id != root {
      var n: nat :| n > 0 && Up(t, id, n) == Some(root);
      ValidChain(t, id, n);
    }
  }

  /** Growing the table or revoking in it leaves the chains of old capabilities alone. */
  lemma {:induction false} ChainsAreStable(t: Table, t': Table, id: CapId, n: nat)
    requires ParentsPresent(t) && Extends(t, t') && t.Present(id)
    ensures Up(t', id, n) == Up(t, id, n)
    ensures Up(t, id, n).Some? ==> t.Present(Up(t, id, n).value)
    decreases n
  {
    if n > 0 {
      assert t'.ParentOf(id) == t.ParentOf(id);
      UpStep(t, id, n);
      UpStep(t', id, n);
      if t.ParentOf(id).Some? {
        ChainsAreStable(t, t', t.ParentOf(id).value, n - 1);
      }
    }
  }

  lemma DescentIsStable(t: Table, t': Table, id: CapId, root: CapId)
    requires ParentsPresent(t) && Extends(t, t') && t.Present(id)
    ensures InSubtree(t', id, root) <==> InSubtree(t, id, root)
  {
    if Descends(t', id, root) {
      var n: nat :| n > 0 && Up(t', id, n) == Some(root);
      ChainsAreStable(t, t', id, n);
    }
    if Descends(t, id, root) {
      var n: nat :| n > 0 && Up(t, id, n) == Some(root);
      ChainsAreStable(t, t', id, n);
    }
  }

  lemma ExtendsTransitive(a: Table, b: Table, c: Table)
    requires Extends(a, b) && Extends(b, c)
    ensures Extends(a, c)
  {
  }
}
