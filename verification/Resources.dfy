/** Resource lifecycles: which addresses are allocated, which have been freed. */
module Resources {
  import opened Types

  datatype Status = Unallocated | Allocated(owner: PluginId) | Freed

  datatype FreeError = DoubleFree(addr: MemAddr) | NotAllocated(addr: MemAddr)

  datatype Meta = Meta(resources: map<MemAddr, Status>, freed: set<MemAddr>)
  {
    predicate IsFreed(addr: MemAddr) {
      addr in freed
    }

    predicate IsAllocated(addr: MemAddr) {
      addr in resources && resources[addr].Allocated?
    }

    predicate IsLive(addr: MemAddr) {
      IsAllocated(addr) && addr !in freed
    }

    /** The address the next allocation gets: the number of resources, cut to 64 bits. */
    function NextAddr(): MemAddr {
      |resources| % (U64_MAX + 1)
    }

    function Alloc(addr: MemAddr, owner: PluginId): Meta {
      this.(resources := resources[addr := Allocated(owner)])
    }

    /** The copying form records the address as freed and nothing else, whatever its status. */
    function Free(addr: MemAddr): Meta {
      this.(freed := freed + {addr})
    }

    /** The in-place form checks the status first, and updates it too. */
    function FreeInPlace(addr: MemAddr): Result<Meta, FreeError> {
      if addr in freed then Err(DoubleFree(addr))
      else if addr in resources && resources[addr].Allocated?
      then Ok(Meta(resources[addr := Freed], freed + {addr}))
      else if addr in resources && resources[addr].Freed? then Err(DoubleFree(addr))
      else Err(NotAllocated(addr))
    }
  }

  const EMPTY_META: Meta := Meta(map[], {})

  /** Addresses are handed out densely, and each is live until it is freed. */
  ghost predicate MetaInv(m: Meta) {
    (forall a: MemAddr :: a in m.resources <==> a < |m.resources|)
    && (forall a: MemAddr :: a in m.freed ==> a in m.resources)
    && (forall a: MemAddr :: a in m.resources && a !in m.freed ==> m.resources[a].Allocated?)
  }

  /** Live and freed addresses split 0..n-1 between them. */
  lemma Partition(m: Meta, a: MemAddr)
    requires MetaInv(m)
    ensures m.IsLive(a) || m.IsFreed(a) <==> a < |m.resources|
    ensures !(m.IsLive(a) && m.IsFreed(a))
  {
  }

  lemma AllocKeepsInv(m: Meta, owner: PluginId)
    requires MetaInv(m)
    ensures MetaInv(m.Alloc(m.NextAddr(), owner))
    ensures m.Alloc(m.NextAddr(), owner).freed == m.freed
    ensures |m.resources| <= U64_MAX ==>
      !m.IsLive(m.NextAddr()) && !m.IsFreed(m.NextAddr()) && m.Alloc(m.NextAddr(), owner).IsLive(m.NextAddr())
  {
    var n, m' := m.NextAddr(), m.Alloc(m.NextAddr(), owner);
    if |m.resources| <= U64_MAX {
      assert n == |m.resources| && n !in m.resources;
      assert m'.resources.Keys == m.resources.Keys + {n};
      assert |m'.resources| == |m.resources| + 1;
    } else {
      assert n <= U64_MAX < |m.resources|;
      assert n in m.resources;
      assert m'.resources.Keys == m.resources.Keys;
      assert |m'.resources| == |m'.resources.Keys|;
    }
  }

  /** The two ledgers cannot be told apart by any check the kernel makes. */
  ghost predicate SameLedger(m: Meta, m': Meta) {
    m.freed == m'.freed && m.resources.Keys == m'.resources.Keys
    && forall a: MemAddr :: m.IsLive(a) <==> m'.IsLive(a)
  }

  lemma SameLedgerKeepsInv(m: Meta, m': Meta)
    requires MetaInv(m) && SameLedger(m, m')
    ensures MetaInv(m')
  {
    assert |m.resources| == |m.resources.Keys| && |m'.resources| == |m'.resources.Keys|;
    forall a: MemAddr | a in m'.resources && a !in m'.freed
      ensures m'.resources[a].Allocated?
    {
      assert a in m.resources.Keys && m.IsLive(a);
    }
  }

  /** The in-place free refuses exactly what is not live; otherwise both forms leave the same ledger. */
  lemma FreeFormsAgree(m: Meta, addr: MemAddr)
    ensures m.FreeInPlace(addr).Ok? <==> m.IsLive(addr)
    ensures m.IsLive(addr) ==> SameLedger(m.Free(addr), m.FreeInPlace(addr).value)
    ensures m.IsLive(addr) ==> m.FreeInPlace(addr).value.resources == m.resources[addr := Freed]
  {
  }

  /** The in-place free tells an address freed before from one that was never allocated. */
  lemma FreeErrors(m: Meta, addr: MemAddr)
    requires MetaInv(m) && !m.IsLive(addr)
    ensures m.FreeInPlace(addr) ==
      if addr < |m.resources| then Err(DoubleFree(addr)) else Err(NotAllocated(addr))
  {
    Partition(m, addr);
  }

  lemma LedgersStaySame(m: Meta, m': Meta, owner: PluginId, addr: MemAddr)
    requires SameLedger(m, m')
    ensures SameLedger(m.Alloc(m.NextAddr(), owner), m'.Alloc(m'.NextAddr(), owner))
    ensures SameLedger(m.Free(addr), m'.Free(addr))
  {
    assert |m.resources| == |m.resources.Keys| && |m'.resources| == |m'.resources.Keys|;
    var n := m.NextAddr();
    assert m.Alloc(n, owner).resources.Keys == m.resources.Keys + {n};
    assert m'.Alloc(n, owner).resources.Keys == m'.resources.Keys + {n};
    forall a: MemAddr
      ensures m.Free(addr).IsLive(a) <==> m.IsLive(a) && a != addr
      ensures m'.Free(addr).IsLive(a) <==> m'.IsLive(a) && a != addr
      ensures m.Alloc(n, owner).IsLive(a) <==> if a == n then a !in m.freed else m.IsLive(a)
      ensures m'.Alloc(n, owner).IsLive(a) <==> if a == n then a !in m'.freed else m'.IsLive(a)
    {
    }
  }

  class MetaState {
    var resources: map<MemAddr, Status>
    var freed: set<MemAddr>

    ghost function View(): Meta
      reads this
    {
      Meta(resources, freed)
    }

    constructor ()
      ensures View() == EMPTY_META
    {
      resources, freed := map[], {};
    }

    method AllocMut(addr: MemAddr, owner: PluginId)
      modifies this
      ensures View() == old(View()).Alloc(addr, owner)
    {
      resources := resources[addr := Allocated(owner)];
    }

    method FreeMut(addr: MemAddr) returns (r: Result<(), FreeError>)
      modifies this
      ensures match old(View()).FreeInPlace(addr)
              case Ok(m) => r == Ok(()) && View() == m
              case Err(e) => r == Err(e) && View() == old(View())
    {
      if addr in freed {
        return Err(DoubleFree(addr));
      }
      if addr !in resources {
        return Err(NotAllocated(addr));
      }
      match resources[addr] {
        case Allocated(_) =>
          resources := resources[addr := Freed];
          freed := freed + {addr};
          r := Ok(());
        case Freed =>
          r := Err(DoubleFree(addr));
        case Unallocated =>
          r := Err(NotAllocated(addr));
      }
    }
  }
}
