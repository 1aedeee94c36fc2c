/** Key rotation with a grace period for seals made under the previous key. */
module Keys {
  import opened Types
  import opened Capabilities
  import opened Crypto

  datatype KeyState = KeyState(
    current: Key, epoch: U64, previous: Option<Key>, previousEpoch: Option<U64>)
  {
    /** None stands for the abort on an exhausted epoch counter. */
    function Rotated(newKey: Key): Option<KeyState> {
      if epoch == U64_MAX then None
      else Some(KeyState(newKey, epoch + 1, Some(current), Some(epoch)))
    }

    /** The fields as a rotation leaves them; an abort comes after the key fields are overwritten. */
    function AfterRotate(newKey: Key): KeyState {
      match Rotated(newKey)
      case Some(k) => k
      case None => KeyState(newKey, epoch, Some(current), Some(epoch))
    }

    function Cleared(): KeyState {
      this.(previous := None, previousEpoch := None)
    }

    predicate EpochValid(capEpoch: U64) {
      capEpoch >= epoch || (previousEpoch.Some? && capEpoch >= previousEpoch.value)
    }

    predicate VerifySeal(p: Payload, tag: Tag)
      requires Serializable(p)
    {
      Crypto.VerifySeal(current, p, tag) || (previous.Some? && Crypto.VerifySeal(previous.value, p, tag))
    }

    predicate VerifyWithEpoch(p: Payload, tag: Tag, capEpoch: U64)
      requires Serializable(p)
    {
      EpochValid(capEpoch) && VerifySeal(p, tag)
    }
  }

  datatype KeyOp = Rotate(key: Key) | ClearPrevious

  function KeyStep(k: KeyState, op: KeyOp): Option<KeyState> {
    match op case Rotate(key) => k.Rotated(key) case ClearPrevious => Some(k.Cleared())
  }

  /** The state after a history of key operations, if none of them aborts. */
  function Replay(k: KeyState, ops: seq<KeyOp>): Option<KeyState> {
    if ops == [] then Some(k)
    else match Replay(k, ops[..|ops| - 1]) case Some(k1) => KeyStep(k1, ops[|ops| - 1]) case None => None
  }

  function Rotations(ops: seq<KeyOp>): nat {
    if ops == [] then 0
    else Rotations(ops[..|ops| - 1]) + (if ops[|ops| - 1].Rotate? then 1 else 0)
  }

  ghost predicate KeyInv(k: KeyState) {
    (k.previous.Some? <==> k.previousEpoch.Some?)
    && (k.previousEpoch.Some? ==> k.previousEpoch.value + 1 == k.epoch)
  }

  lemma {:induction false} History(k: KeyState, ops: seq<KeyOp>)
    requires KeyInv(k) && Replay(k, ops).Some?
    ensures var k' := Replay(k, ops).value;
      KeyInv(k')
      && k'.epoch == k.epoch + Rotations(ops)
      && (Rotations(ops) == 0 ==> k'.current == k.current)
      && (Rotations(ops) == 1 && k'.previous.Some? ==> k'.previous == Some(k.current))
  {
    if ops != [] {
      History(k, ops[..|ops| - 1]);
    }
  }

  /** Nothing was cleared after a rotation. */
  ghost predicate KeptSinceRotation(ops: seq<KeyOp>) {
    forall i, j :: 0 <= i < j < |ops| && ops[i].Rotate? ==> !ops[j].ClearPrevious?
  }

  lemma {:induction false} RotationsMeaning(ops: seq<KeyOp>)
    ensures Rotations(ops) == 0 <==> forall i :: 0 <= i < |ops| ==> !ops[i].Rotate?
  {
    if ops != [] {
      RotationsMeaning(ops[..|ops| - 1]);
    }
  }

  lemma PreviousIsKept(k: KeyState, ops: seq<KeyOp>)
    requires Replay(k, ops).Some? && Rotations(ops) == 1
    ensures Replay(k, ops).value.previous.Some? <==> KeptSinceRotation(ops)
  {
    RotationsMeaning(ops[..|ops| - 1]);
  }

  /** Whether a seal survives a history: no rotation, or a single one with nothing cleared after it. */
  ghost predicate WithinGrace(ops: seq<KeyOp>) {
    Rotations(ops) == 0 || (Rotations(ops) == 1 && KeptSinceRotation(ops))
  }

  /** A seal made under the current key verifies after exactly such histories, whatever keys were chosen. */
  lemma GracePeriod(k: KeyState, ops: seq<KeyOp>, p: Payload)
    requires KeyInv(k) && Replay(k, ops).Some? && Serializable(p)
    ensures Replay(k, ops).value.VerifyWithEpoch(p, Seal(k.current, p), k.epoch) <==> WithinGrace(ops)
  {
    History(k, ops);
    if Rotations(ops) == 1 {
      PreviousIsKept(k, ops);
    }
  }

  /** The keys a history makes current, oldest first. */
  function KeysUsed(first: Key, ops: seq<KeyOp>): (keys: seq<Key>)
    ensures |keys| == 1 + Rotations(ops)
  {
    if ops == [] then [first]
    else
      KeysUsed(first, ops[..|ops| - 1])
      + match ops[|ops| - 1] case Rotate(key) => [key] case ClearPrevious => []
  }

  /** The old key is kept exactly while a rotation is the last key operation. */
  predicate GraceOpen(ops: seq<KeyOp>) {
    ops != [] && ops[|ops| - 1].Rotate?
  }

  lemma {:induction false} RingAfter(k: KeyState, ops: seq<KeyOp>)
    requires k.previous == None && k.previousEpoch == None && Replay(k, ops).Some?
    ensures var k', keys := Replay(k, ops).value, KeysUsed(k.current, ops);
      k'.epoch == k.epoch + Rotations(ops) && k'.current == keys[|keys| - 1]
      && (if GraceOpen(ops) then
            |keys| > 1 && k'.previous == Some(keys[|keys| - 2]) && k'.previousEpoch == Some(k'.epoch - 1)
          else k'.previous == None && k'.previousEpoch == None)
  {
    if ops != [] {
      RingAfter(k, ops[..|ops| - 1]);
    }
  }

  /**
   What a key ring that started without a previous key accepts after any history: MACs over the payload
   itself under the current key or, while the old one is kept, under that; with an epoch no older than
   the oldest key kept. Nothing of any other origin passes.
   */
  lemma AcceptedExactly(k: KeyState, ops: seq<KeyOp>, p: Payload, tag: Tag, epoch: U64)
    requires k.previous == None && k.previousEpoch == None && Replay(k, ops).Some? && Serializable(p)
    ensures var keys := KeysUsed(k.current, ops);
      Replay(k, ops).value.VerifyWithEpoch(p, tag, epoch) <==>
        tag.Mac? && tag.payload == p
        && (tag.key == keys[|keys| - 1] || (GraceOpen(ops) && tag.key == keys[|keys| - 2]))
        && epoch + (if GraceOpen(ops) then 1 else 0) >= k.epoch + Rotations(ops)
  {
    RingAfter(k, ops);
  }

  /** A history aborts exactly when it rotates past the last epoch. */
  lemma {:induction false} AbortsOnlyOnOverflow(k: KeyState, ops: seq<KeyOp>)
    requires KeyInv(k)
    ensures Replay(k, ops).Some? <==> k.epoch + Rotations(ops) <= U64_MAX
  {
    if ops != [] {
      AbortsOnlyOnOverflow(k, ops[..|ops| - 1]);
      if Replay(k, ops[..|ops| - 1]).Some? {
        History(k, ops[..|ops| - 1]);
      }
    }
  }

  /** A history may also be read from its first operation on. */
  lemma {:induction false} ReplayCons(k: KeyState, op: KeyOp, ops: seq<KeyOp>)
    ensures Replay(k, [op] + ops) == match KeyStep(k, op) case Some(k1) => Replay(k1, ops) case None => None
    ensures Rotations([op] + ops) == Rotations(ops) + if op.Rotate? then 1 else 0
  {
    if ops == [] {
      assert ([op] + ops)[..0] == [];
    } else {
      var rest := ops[..|ops| - 1];
      ReplayCons(k, op, rest);
      assert ([op] + ops)[..|ops|] == [op] + rest;
    }
  }

  class KeyRing {
    var current: Key
    var epoch: U64
    var previous: Option<Key>
    var previousEpoch: Option<U64>

    ghost function View(): KeyState
      reads this
    {
      KeyState(current, epoch, previous, previousEpoch)
    }

    constructor (key: Key)
      ensures View() == KeyState(key, 0, None, None) && KeyInv(View())
    {
      current, epoch, previous, previousEpoch := key, 0, None, None;
    }

    /** On the abort the fields before the counter have already been overwritten. */
    method Rotate(newKey: Key) returns (aborted: bool)
      modifies this
      ensures aborted <==> old(View()).Rotated(newKey).None?
      ensures View() == old(View()).AfterRotate(newKey)
    {
      previous := Some(current);
      previousEpoch := Some(epoch);
      current := newKey;
      if epoch == U64_MAX {
        return true;
      }
      epoch := epoch + 1;
      aborted := false;
    }

    method ClearPrevious()
      modifies this
      ensures View() == old(View()).Cleared()
    {
      previous := None;
      previousEpoch := None;
    }
  }
}
