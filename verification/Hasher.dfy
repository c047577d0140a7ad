/** The incremental hasher: bytes are taken in pieces, a half-finished hasher can be copied, and finishing gives
    the hash of everything taken. */
module Hasher {
  import opened Sha3
  import opened HeaderHash

  /** The message so far: whole blocks are in the state, the rest is pending. */
  ghost predicate Holds(state: seq<bv64>, pending: Bytes, message: Bytes)
  {
    && |state| == 25 && |pending| < RATE && |pending| <= |message|
    && message[|message| - |pending|..] == pending
    && (|message| - |pending|) % RATE == 0
    && state == Absorb(ZeroState(), message[..|message| - |pending|], (|message| - |pending|) / RATE)
  }

  class Sha3Hasher {
    var state: seq<bv64>
    var pending: Bytes
    var finalized: bool
    ghost var message: Bytes

    ghost predicate Valid()
      reads this
    {
      Holds(state, pending, message)
    }

    constructor ()
      ensures Valid() && message == [] && !finalized
    {
      hide Holds, ZeroState;
      state, pending, message, finalized := ZeroState(), [], [], false;
      new;
      HoldsNothing();
    }

    /** Takes more bytes; a finished hasher refuses. */
    method Update(data: Bytes) returns (ok: bool)
      requires Valid()
      modifies this
      ensures Valid() && finalized == old(finalized) && ok == !old(finalized)
      ensures message == if ok then old(message) + data else old(message)
    {
      hide Holds;
      if finalized {
        return false;
      }
      for i := 0 to |data|
        invariant Valid() && !finalized && message == old(message) + data[..i]
      {
        Take(data[i]);
        assert data[..i + 1] == data[..i] + [data[i]];
      }
      assert data[..|data|] == data;
      ok := true;
    }

    /** Takes one byte and absorbs the block it completes. */
    method Take(b: bv8)
      requires Valid()
      modifies `state, `pending, `message
      ensures Valid() && message == old(message) + [b]
    {
      hide Holds, Absorb, AbsorbBlock;
      HoldsByte(state, pending, message, b);
      message := message + [b];
      if |pending| + 1 == RATE {
        state, pending := AbsorbBlock(state, pending + [b]), [];
      } else {
        pending := pending + [b];
      }
    }

    /** Pads and squeezes, once. */
    method Finalize() returns (ok: bool, hash: Bytes)
      requires Valid()
      modifies this
      ensures Valid() && finalized && message == old(message) && ok == !old(finalized)
      ensures ok ==> hash == Sha3_512(message)
    {
      hide Holds, Absorb, Padding, Squeeze, Sha3_512;
      if finalized {
        return false, [];
      }
      finalized := true;
      HoldsShape(state, pending, message);
      HoldsAll(state, pending, message);
      ok, hash := true, Squeeze(AbsorbBlock(state, pending + Padding(|pending|)), 8);
    }

    method CopyStateFrom(other: Sha3Hasher)
      requires other.Valid()
      modifies this
      ensures Valid() && message == old(other.message) && finalized == old(other.finalized)
    {
      hide Holds;
      state, pending, message, finalized := other.state, other.pending, other.message, other.finalized;
    }
  }

  lemma HoldsNothing()
    ensures Holds(ZeroState(), [], [])
  {
  }

  /** Absorbing one block after others. */
  lemma {:induction false} AbsorbSnoc(state: seq<bv64>, data: Bytes, block: Bytes, n: nat)
    requires |state| == 25 && |data| == RATE * n && |block| == RATE
    ensures |data + block| == RATE * (n + 1)
    ensures Absorb(state, data + block, n + 1) == AbsorbBlock(Absorb(state, data, n), block)
    decreases n
  {
    hide AbsorbBlock;
    var all := data + block;
    if n == 0 {
      assert all == block && all[..RATE] == block && all[RATE..] == [];
      assert Absorb(AbsorbBlock(state, block), all[RATE..], 0) == AbsorbBlock(state, block);
    } else {
      assert all[..RATE] == data[..RATE] && all[RATE..] == data[RATE..] + block;
      AbsorbSnoc(AbsorbBlock(state, data[..RATE]), data[RATE..], block, n - 1);
    }
  }

  lemma HoldsShape(state: seq<bv64>, pending: Bytes, message: Bytes)
    requires Holds(state, pending, message)
    ensures |state| == 25 && |pending| < RATE && |pending| <= |message|
    ensures |message| % RATE == |pending| && |Padding(|pending|)| == RATE - |pending| && Padding(|message|) == Padding(|pending|)
  {
    hide Absorb;
  }

  lemma HoldsByte(state: seq<bv64>, pending: Bytes, message: Bytes, b: bv8)
    requires Holds(state, pending, message)
    ensures |state| == 25 && |pending| < RATE
    ensures if |pending| + 1 == RATE then Holds(AbsorbBlock(state, pending + [b]), [], message + [b])
            else Holds(state, pending + [b], message + [b])
  {
    hide Absorb, AbsorbBlock;
    var more, at := message + [b], |message| - |pending|;
    assert more[..at] == message[..at];
    if |pending| + 1 == RATE {
      assert more == message[..at] + (pending + [b]);
      AbsorbSnoc(ZeroState(), message[..at], pending + [b], at / RATE);
      assert more[..|more|] == more;
    }
  }

  /** Padding fills exactly one block with the pending bytes. */
  lemma HoldsAll(state: seq<bv64>, pending: Bytes, message: Bytes)
    requires Holds(state, pending, message) && |pending + Padding(|pending|)| == RATE
    ensures |state| == 25 && Squeeze(AbsorbBlock(state, pending + Padding(|pending|)), 8) == Sha3_512(message)
  {
    hide Absorb, AbsorbBlock, Padding, Squeeze;
    HoldsShape(state, pending, message);
    var data, at := message + Padding(|message|), |message| - |pending|;
    assert data == message[..at] + (pending + Padding(|pending|));
    AbsorbSnoc(ZeroState(), message[..at], pending + Padding(|pending|), at / RATE);
    assert |data| / RATE == at / RATE + 1;
  }
}
