/** A plugin's linear memory: 4 KiB pages standing in for a flat byte array that starts out zero. */
module PagedMemory {
  import opened Types

  const PAGE_SIZE: nat := 4096

  datatype MemoryError = OutOfBounds(addr: U64, len: U64, bounds: U64)

  function PageOf(addr: U64): U64 {
    addr / PAGE_SIZE
  }

  function OffsetInPage(addr: U64): nat {
    addr % PAGE_SIZE
  }

  /** How much of `wanted` fits in the rest of the page. */
  function ChunkAt(pos: U64, wanted: nat): (chunk: nat)
    ensures chunk <= wanted && OffsetInPage(pos) + chunk <= PAGE_SIZE
    ensures wanted > 0 ==> chunk > 0
    ensures chunk < wanted ==> OffsetInPage(pos) + chunk == PAGE_SIZE
  {
    var pageRemaining := PAGE_SIZE - OffsetInPage(pos);
    if pageRemaining < wanted then pageRemaining else wanted
  }

  function ZeroPage(): (page: seq<U8>)
    ensures |page| == PAGE_SIZE
  {
    seq(PAGE_SIZE, _ => 0)
  }

  datatype Mem = Mem(pages: map<U64, seq<U8>>, bounds: U64)
  {
    ghost predicate Valid() {
      forall pg :: pg in pages ==> |pages[pg]| == PAGE_SIZE && pg <= PageOf(U64_MAX)
    }

    /** The overflow-checked bounds test. */
    predicate AddrInBounds(addr: U64, len: U64) {
      addr + len <= U64_MAX && addr + len <= bounds
    }

    /** The flat view. */
    function Read(addr: U64): U8
      requires Valid()
    {
      if PageOf(addr) in pages then pages[PageOf(addr)][OffsetInPage(addr)] else 0
    }

    function PageAt(pg: U64): (page: seq<U8>)
      requires Valid()
      ensures |page| == PAGE_SIZE
    {
      if pg in pages then pages[pg] else ZeroPage()
    }
  }

  predicate Covers(addr: U64, len: U64, a: nat) {
    addr <= a < addr + len
  }

  /** Every byte of the range lies below the bound, and even an empty range starts no later than it. */
  ghost predicate Inside(bounds: U64, addr: U64, len: U64) {
    addr <= bounds && forall a: nat :: Covers(addr, len, a) ==> a < bounds
  }

  /** The test never overflows into a wrong answer: it means what it should for all 64-bit operands. */
  lemma BoundsMeaning(m: Mem, addr: U64, len: U64)
    ensures m.AddrInBounds(addr, len) <==> Inside(m.bounds, addr, len)
  {
    if len > 0 {
      assert Covers(addr, len, addr + len - 1);
    }
  }

  /** m' is m with data stored at addr: every byte, every bound, and just the touched pages allocated. */
  ghost predicate Stored(m: Mem, m': Mem, addr: U64, data: seq<U8>)
    requires m.Valid() && addr + |data| <= U64_MAX + 1
  {
    m'.Valid() && m'.bounds == m.bounds
    && (forall a: U64 :: m'.Read(a) == if addr <= a < addr + |data| then data[a - addr] else m.Read(a))
    && (forall pg: U64 :: pg in m'.pages <==>
          pg in m.pages || (|data| > 0 && addr / 4096 <= pg <= (addr + |data| - 1) / 4096))
  }

  ghost predicate Reads(m: Mem, addr: U64, len: nat, bytes: seq<U8>)
    requires m.Valid() && addr + len <= U64_MAX + 1
  {
    |bytes| == len && forall i :: 0 <= i < len ==> bytes[i] == m.Read(addr + i)
  }

  /** Reading back what was written returns it, across any number of pages. */
  lemma WriteThenRead(m: Mem, m': Mem, addr: U64, data: seq<U8>, bytes: seq<U8>)
    requires m.Valid() && addr + |data| <= U64_MAX + 1
    requires Stored(m, m', addr, data) && Reads(m', addr, |data|, bytes)
    ensures bytes == data
  {
  }

  /** Stored leaves no freedom: pages and all, there is one memory that satisfies it. */
  lemma StoredIsUnique(m: Mem, m1: Mem, m2: Mem, addr: U64, data: seq<U8>)
    requires m.Valid() && addr + |data| <= U64_MAX + 1
    requires Stored(m, m1, addr, data) && Stored(m, m2, addr, data)
    ensures m1 == m2
  {
    forall pg: U64 | pg in m1.pages
      ensures m1.pages[pg] == m2.pages[pg]
    {
      SamePage(m1, m2, pg);
    }
    assert m1.pages.Keys == m2.pages.Keys;
  }

  lemma SamePage(m1: Mem, m2: Mem, pg: U64)
    requires m1.Valid() && m2.Valid() && pg in m1.pages && pg in m2.pages
    requires forall a: U64 :: m1.Read(a) == m2.Read(a)
    ensures m1.pages[pg] == m2.pages[pg]
  {
    forall off | 0 <= off < PAGE_SIZE
      ensures m1.pages[pg][off] == m2.pages[pg][off]
    {
      var a: U64 := pg * PAGE_SIZE + off;
      assert PageOf(a) == pg && OffsetInPage(a) == off;
      assert m1.Read(a) == m2.Read(a);
    }
  }

  /** Storing next to what was just stored is storing both. */
  lemma StoredExtends(m: Mem, m1: Mem, m2: Mem, addr: U64, data: seq<U8>, more: seq<U8>)
    requires m.Valid() && addr + |data| + |more| <= U64_MAX + 1 && addr + |data| <= U64_MAX
    requires Stored(m, m1, addr, data) && Stored(m1, m2, addr + |data|, more)
    ensures Stored(m, m2, addr, data + more)
  {
  }

  function WriteInPage(m: Mem, addr: U64, data: seq<U8>): Mem
    requires m.Valid() && OffsetInPage(addr) + |data| <= PAGE_SIZE
  {
    var pg, off := PageOf(addr), OffsetInPage(addr);
    var page := m.PageAt(pg);
    m.(pages := m.pages[pg := page[..off] + data + page[off + |data|..]])
  }

  lemma WriteInPageStores(m: Mem, addr: U64, data: seq<U8>)
    requires m.Valid() && 0 < |data| && OffsetInPage(addr) + |data| <= PAGE_SIZE && addr + |data| <= U64_MAX + 1
    ensures Stored(m, WriteInPage(m, addr, data), addr, data)
  {
    var m' := WriteInPage(m, addr, data);
    assert PageOf(addr + |data| - 1) == PageOf(addr);
    forall a: U64
      ensures m'.Read(a) == if addr <= a < addr + |data| then data[a - addr] else m.Read(a)
    {
      if PageOf(a) == PageOf(addr) {
        assert OffsetInPage(a) - OffsetInPage(addr) == a - addr;
      }
    }
  }

  lemma NothingStored(m: Mem, addr: U64, data: seq<U8>)
    requires m.Valid() && data == []
    ensures Stored(m, m, addr, data)
  {
  }

  lemma ChunkStored(m0: Mem, m: Mem, addr: U64, done: seq<U8>, more: seq<U8>)
    requires m0.Valid() && addr + |done| + |more| <= U64_MAX && 0 < |more|
    requires Stored(m0, m, addr, done) && OffsetInPage(addr + |done|) + |more| <= PAGE_SIZE
    ensures Stored(m0, WriteInPage(m, addr + |done|, more), addr, done + more)
  {
    WriteInPageStores(m, addr + |done|, more);
    StoredExtends(m0, m, WriteInPage(m, addr + |done|, more), addr, done, more);
  }

  lemma ReadInPage(m: Mem, addr: U64, i: nat)
    requires m.Valid() && OffsetInPage(addr) + i < PAGE_SIZE && addr + i <= U64_MAX
    ensures m.Read(addr + i) == m.PageAt(PageOf(addr))[OffsetInPage(addr) + i]
  {
  }

  class LinearMemory {
    var pages: map<U64, seq<U8>>
    const bounds: U64

    ghost function View(): Mem
      reads this
    {
      Mem(pages, bounds)
    }

    constructor (size: U64)
      ensures View().Valid() && View() == Mem(map[], size)
      ensures forall a: U64 :: View().Read(a) == 0
    {
      pages, bounds := map[], size;
    }

    /** Bytes copied into the page that holds addr, allocating it first if need be. */
    method CopyIntoPage(addr: U64, data: seq<U8>)
      requires View().Valid() && OffsetInPage(addr) + |data| <= PAGE_SIZE
      modifies this
      ensures View() == WriteInPage(old(View()), addr, data)
    {
      var pg, off := PageOf(addr), OffsetInPage(addr);
      if pg !in pages {
        pages := pages[pg := ZeroPage()];
      }
      pages := pages[pg := pages[pg][..off] + data + pages[pg][off + |data|..]];
    }

    method WriteMut(addr: U64, val: U8)
      requires View().Valid()
      modifies this
      ensures Stored(old(View()), View(), addr, [val])
    {
      WriteInPageStores(View(), addr, [val]);
      CopyIntoPage(addr, [val]);
    }

    /** The bounds test of the callers is what keeps `pos` within 64 bits. */
    method WriteRangeMut(addr: U64, data: seq<U8>)
      requires View().Valid() && addr + |data| <= U64_MAX
      modifies this
      ensures Stored(old(View()), View(), addr, data)
    {
      var pos: U64 := addr;
      var srcOff := 0;
      ghost var done: seq<U8> := [];
      NothingStored(View(), addr, done);
      while srcOff < |data|
        invariant 0 <= srcOff <= |data| && pos == addr + srcOff
        invariant done == data[..srcOff]
        invariant Stored(old(View()), View(), addr, done)
      {
        var chunk := ChunkAt(pos, |data| - srcOff);
        var bytes := data[srcOff..srcOff + chunk];
        ChunkStored(old(View()), View(), addr, done, bytes);
        CopyIntoPage(pos, bytes);
        done := done + bytes;
        pos := pos + chunk;
        srcOff := srcOff + chunk;
      }
      assert done == data;
    }

    method WriteRangeChecked(addr: U64, data: seq<U8>) returns (r: Result<(), MemoryError>)
      requires View().Valid() && |data| <= U64_MAX
      modifies this
      ensures View().Valid()
      ensures r == if Inside(bounds, addr, |data|) then Ok(()) else Err(OutOfBounds(addr, |data|, bounds))
      ensures r.Ok? ==> addr + |data| <= bounds
      ensures if r.Ok? then Stored(old(View()), View(), addr, data) else View() == old(View())
    {
      BoundsMeaning(View(), addr, |data|);
      if addr + |data| > U64_MAX || addr + |data| > bounds {
        return Err(OutOfBounds(addr, |data|, bounds));
      }
      WriteRangeMut(addr, data);
      r := Ok(());
    }

    method ReadRange(addr: U64, len: U64) returns (r: Result<seq<U8>, MemoryError>)
      requires View().Valid()
      ensures r.Ok? <==> Inside(bounds, addr, len)
      ensures r.Err? ==> r.error == OutOfBounds(addr, len, bounds)
      ensures r.Ok? ==> addr + len <= bounds
      ensures r.Ok? ==> Reads(View(), addr, len, r.value)
    {
      BoundsMeaning(View(), addr, len);
      if addr + len > U64_MAX || addr + len > bounds {
        return Err(OutOfBounds(addr, len, bounds));
      }
      var result: seq<U8> := [];
      var pos: U64 := addr;
      var end: U64 := addr + len;
      while pos < end
        invariant addr <= pos <= end
        invariant Reads(View(), addr, pos - addr, result)
      {
        var pg, off := PageOf(pos), OffsetInPage(pos);
        var chunk := ChunkAt(pos, end - pos);
        forall a: U64 | pos <= a < pos + chunk
          ensures View().Read(a) == View().PageAt(pg)[off + (a - pos)]
        {
          ReadInPage(View(), pos, a - pos);
        }
        if pg in pages {
          result := result + pages[pg][off..off + chunk];
        } else {
          result := result + seq(chunk, _ => 0);
        }
        pos := pos + chunk;
      }
      r := Ok(result);
    }
  }
}
