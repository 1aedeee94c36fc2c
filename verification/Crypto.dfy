/** The 64-byte image of a payload that every seal is computed over, and the seal itself. */
module Crypto {
  import opened Types
  import opened Capabilities

  function Pow256(k: nat): (r: nat)
    ensures r > 0
  {
    if k == 0 then 1 else 256 * Pow256(k - 1)
  }

  function ToLE(n: nat, k: nat): (s: seq<U8>)
    ensures |s| == k
    decreases k, n
  {
    if k == 0 then [] else [n % 256] + ToLE(n / 256, k - 1)
  }

  function FromLE(s: seq<U8>): (n: nat)
    ensures n < Pow256(|s|)
  {
    if s == [] then 0 else s[0] + 256 * FromLE(s[1..])
  }

  lemma {:induction false} LERoundTrip(n: nat, k: nat)
    requires n < Pow256(k)
    ensures FromLE(ToLE(n, k)) == n
    decreases k
  {
    if k > 0 {
      LERoundTrip(n / 256, k - 1);
      assert ToLE(n, k)[1..] == ToLE(n / 256, k - 1);
    }
  }

  /** Byte i carries the bits of weight 256 to the i: little-endian. */
  lemma {:induction false} LEBytes(n: nat, k: nat, i: nat)
    requires i < k
    ensures ToLE(n, k)[i] == n / Pow256(i) % 256
    decreases i
  {
    if i > 0 {
      LEBytes(n / 256, k - 1, i - 1);
      assert ToLE(n, k)[i] == ToLE(n / 256, k - 1)[i - 1];
      DivideTwice(n, Pow256(i - 1));
    }
  }

  lemma DivideTwice(n: nat, m: nat)
    requires m > 0
    ensures n / 256 / m == n / (256 * m)
  {
    var q, r := n / (256 * m), n % (256 * m);
    assert n == 256 * (m * q) + r by {
      assert n == (256 * m) * q + r;
      assert (256 * m) * q == 256 * (m * q);
    }
    assert n / 256 == m * q + r / 256;
    QuotientIs(n / 256, m, q, r / 256);
  }

  lemma QuotientIs(n: nat, d: nat, q: nat, r: nat)
    requires 0 <= r < d && n == d * q + r
    ensures n / d == q
  {
    assert n == d * (n / d) + n % d;
    if n / d > q {
      MulApart(d, n / d, q);
    } else if n / d < q {
      MulApart(d, q, n / d);
    }
  }

  /** Multiples of d by different factors are at least d apart. */
  lemma {:induction false} MulApart(d: nat, p: nat, q: nat)
    requires p > q
    ensures d * p >= d * q + d
    decreases p
  {
    assert d * p == d * (p - 1) + d;
    if p > q + 1 {
      MulApart(d, p - 1, q);
    }
  }

  /** The rights in bit order, lowest bit first. */
  const ALL_RIGHTS: seq<Right> :=
    [Read, Write, Execute, Create, Delete, Send, Receive, Delegate, Revoke, Declassify]

  function Pow2(k: nat): nat {
    if k == 0 then 1 else 2 * Pow2(k - 1)
  }

  function BitsOf(rights: Rights, order: seq<Right>): (b: nat)
    ensures b < Pow2(|order|)
    decreases |order|, rights
  {
    if order == [] then 0 else (if order[0] in rights then 1 else 0) + 2 * BitsOf(rights, order[1..])
  }

  function RightsOf(bits: nat, order: seq<Right>): Rights {
    if order == [] then {}
    else (if bits % 2 == 1 then {order[0]} else {}) + RightsOf(bits / 2, order[1..])
  }

  lemma {:induction false} BitsRoundTrip(rights: Rights, order: seq<Right>)
    ensures RightsOf(BitsOf(rights, order), order) == set r | r in order && r in rights
  {
    if order != [] {
      var rest := BitsOf(rights, order[1..]);
      BitsRoundTrip(rights, order[1..]);
      assert BitsOf(rights, order) / 2 == rest;
      assert order == [order[0]] + order[1..];
    }
  }

  function ToBits(rights: Rights): (b: U16) {
    assert |ALL_RIGHTS| == 10 && Pow2(10) == 1024;
    BitsOf(rights, ALL_RIGHTS)
  }

  predicate BitSet(b: nat, i: nat) {
    if i == 0 then b % 2 == 1 else BitSet(b / 2, i - 1)
  }

  /** Bit i of the bitmap says whether the i-th right is granted. */
  lemma {:induction false} BitMeansRight(rights: Rights, order: seq<Right>, i: nat)
    requires i < |order|
    ensures BitSet(BitsOf(rights, order), i) <==> order[i] in rights
  {
    if i > 0 {
      BitMeansRight(rights, order[1..], i - 1);
    }
  }

  /** The number of a right on the wire. */
  function ToU8(r: Right): nat {
    match r
    case Read => 0
    case Write => 1
    case Execute => 2
    case Create => 3
    case Delete => 4
    case Send => 5
    case Receive => 6
    case Delegate => 7
    case Revoke => 8
    case Declassify => 9
  }

  lemma ListedInOrder(r: Right)
    ensures ToU8(r) < |ALL_RIGHTS| && ALL_RIGHTS[ToU8(r)] == r
  {
  }

  /** So in the 16-bit bitmap the bit that a right's number names says whether it is granted. */
  lemma BitmapMeaning(rights: Rights, r: Right)
    ensures BitSet(ToBits(rights), ToU8(r)) <==> r in rights
  {
    ListedInOrder(r);
    BitMeansRight(rights, ALL_RIGHTS, ToU8(r));
  }

  lemma EveryRightListed(r: Right)
    ensures r in ALL_RIGHTS
  {
  }

  /** 0 stands for no parent, id + 1 for the parent id. */
  function ParentCode(parent: Option<CapId>): U128
    requires parent != Some(U128_MAX)
  {
    match parent case None => 0 case Some(p) => p + 1
  }

  /** The one parent id that has no code: serialising it aborts. */
  predicate Serializable(p: Payload) {
    p.parent != Some(U128_MAX)
  }

  function Serialized(p: Payload): (s: seq<U8>)
    requires Serializable(p)
    ensures |s| == 64
  {
    ToLE(p.holder, 16) + ToLE(p.target, 16) + ToLE(p.epoch, 8)
    + ToLE(ParentCode(p.parent), 16) + ToLE(ToBits(p.rights), 8)
  }

  lemma Widths()
    ensures Pow256(8) == U64_MAX + 1 && Pow256(16) == U128_MAX + 1
  {
  }

  function Deserialized(s: seq<U8>): Payload
    requires |s| == 64
  {
    Widths();
    var code: U128 := FromLE(s[40..56]);
    Payload(
      FromLE(s[0..16]), FromLE(s[16..32]), RightsOf(FromLE(s[56..64]), ALL_RIGHTS),
      if code == 0 then None else Some(code - 1), FromLE(s[32..40]))
  }

  lemma FieldsInPlace(a: seq<U8>, b: seq<U8>, c: seq<U8>, d: seq<U8>, e: seq<U8>)
    requires |a| == 16 && |b| == 16 && |c| == 8 && |d| == 16 && |e| == 8
    ensures var s := a + b + c + d + e;
      s[0..16] == a && s[16..32] == b && s[32..40] == c && s[40..56] == d && s[56..64] == e
  {
  }

  /** Which bytes of the image hold what. */
  lemma PayloadLayout(p: Payload)
    requires Serializable(p)
    ensures var s := Serialized(p);
      FromLE(s[0..16]) == p.holder && FromLE(s[16..32]) == p.target && FromLE(s[32..40]) == p.epoch
      && FromLE(s[40..56]) == (if p.parent.None? then 0 else p.parent.value + 1)
      && FromLE(s[56..64]) == ToBits(p.rights)
  {
    Widths();
    FieldsInPlace(ToLE(p.holder, 16), ToLE(p.target, 16), ToLE(p.epoch, 8),
      ToLE(ParentCode(p.parent), 16), ToLE(ToBits(p.rights), 8));
    LERoundTrip(p.holder, 16);
    LERoundTrip(p.target, 16);
    LERoundTrip(p.epoch, 8);
    LERoundTrip(ParentCode(p.parent), 16);
    LERoundTrip(ToBits(p.rights), 8);
  }

  lemma RightsRoundTrip(rights: Rights)
    ensures RightsOf(ToBits(rights), ALL_RIGHTS) == rights
  {
    BitsRoundTrip(rights, ALL_RIGHTS);
    forall r
      ensures r in ALL_RIGHTS
    {
      EveryRightListed(r);
    }
  }

  lemma Assembled(s: seq<U8>, p: Payload)
    requires Serializable(p) && |s| == 64
    requires FromLE(s[0..16]) == p.holder && FromLE(s[16..32]) == p.target && FromLE(s[32..40]) == p.epoch
    requires FromLE(s[40..56]) == ParentCode(p.parent) && RightsOf(FromLE(s[56..64]), ALL_RIGHTS) == p.rights
    ensures Deserialized(s) == p
  {
  }

  /** The decoder recovers every payload that can be serialised, absent and zero parents apart. */
  lemma PayloadRoundTrip(p: Payload)
    requires Serializable(p)
    ensures Deserialized(Serialized(p)) == p
  {
    PayloadLayout(p);
    RightsRoundTrip(p.rights);
    Assembled(Serialized(p), p);
  }

  lemma SerializedInjective(p: Payload, q: Payload)
    requires Serializable(p) && Serializable(q)
    ensures Serialized(p) == Serialized(q) <==> p == q
  {
    PayloadRoundTrip(p);
    PayloadRoundTrip(q);
  }

  /** The seal, with the payload itself standing for its bytes; serialising must not abort. */
  function Seal(key: Key, p: Payload): Tag
    requires Serializable(p)
  {
    Mac(key, p)
  }

  predicate VerifySeal(key: Key, p: Payload, tag: Tag)
    requires Serializable(p)
  {
    tag == Mac(key, p)
  }

  /** What the MAC is really computed over. */
  ghost function MacInput(key: Key, p: Payload): (Key, seq<U8>)
    requires Serializable(p)
  {
    (key, Serialized(p))
  }

  /**
   Nothing is lost by that: with a MAC that binds key and message, a seal verifies under some key for
   some payload exactly when both computed it over the same bytes.
   */
  lemma SealBindsBytes(key: Key, p: Payload, key': Key, q: Payload)
    requires Serializable(p) && Serializable(q)
    ensures VerifySeal(key', q, Seal(key, p)) <==> MacInput(key, p) == MacInput(key', q)
  {
    SerializedInjective(p, q);
  }

  // ---- The code ----

  lemma SpliceNext(before: seq<U8>, at: nat, written: seq<U8>, b: U8)
    requires at + |written| < |before|
    ensures (before[..at] + written + before[at + |written|..])[at + |written| := b]
         == before[..at] + (written + [b]) + before[at + |written| + 1..]
  {
  }

  method CopyLE(data: array<U8>, at: nat, n: nat, k: nat)
    requires at + k <= data.Length
    modifies data
    ensures data[..] == old(data[..at]) + ToLE(n, k) + old(data[at + k..])
  {
    ghost var before := data[..];
    ghost var written: seq<U8> := [];
    var rest := n;
    for i := 0 to k
      invariant |written| == i && written + ToLE(rest, k - i) == ToLE(n, k)
      invariant data[..] == before[..at] + written + before[at + i..]
    {
      SpliceNext(before, at, written, rest % 256);
      data[at + i] := rest % 256;
      written := written + [rest % 256];
      rest := rest / 256;
    }
  }

  /** Fills the buffer field by field; aborts exactly on the parent that has no code. */
  method SerializePayload(p: Payload) returns (data: array<U8>, aborted: bool)
    ensures fresh(data) && data.Length == 64
    ensures aborted <==> !Serializable(p)
    ensures !aborted ==> data[..] == Serialized(p)
  {
    data := new U8[64](_ => 0);
    ghost var done: seq<U8> := ToLE(p.holder, 16);
    CopyLE(data, 0, p.holder, 16);
    assert data[..16] == done;
    CopyLE(data, 16, p.target, 16);
    done := done + ToLE(p.target, 16);
    assert data[..32] == done;
    CopyLE(data, 32, p.epoch, 8);
    done := done + ToLE(p.epoch, 8);
    assert data[..40] == done;
    if p.parent == Some(U128_MAX) {
      return data, true;
    }
    var parentVal: U128 := match p.parent case None => 0 case Some(id) => id + 1;
    CopyLE(data, 40, parentVal, 16);
    done := done + ToLE(parentVal, 16);
    assert data[..56] == done;
    CopyLE(data, 56, ToBits(p.rights), 8);
    done := done + ToLE(ToBits(p.rights), 8);
    assert data[..] == done;
    aborted := false;
  }
}
