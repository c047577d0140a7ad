/** Writing to a growing buffer and reading with an advancing position, against the wire format. */
module WireIO {
  import opened Arith
  import opened Primitives
  import opened Wire

  // ---------------------------------------------------------------------------
  // Writing
  // ---------------------------------------------------------------------------

  class Buffer {
    var bytes: seq<Byte>

    constructor ()
      ensures bytes == []
    {
      bytes := [];
    }

    /** Appends an integer byte by byte, lowest first. */
    method WriteInt(v: nat, n: nat)
      modifies this
      ensures bytes == old(bytes) + LittleEndian(v, n)
    {
      var left := v;
      for i := 0 to n
        invariant bytes + LittleEndian(left, n - i) == old(bytes) + LittleEndian(v, n)
      {
        assert LittleEndian(left, n - i) == [left % 0x100] + LittleEndian(left / 0x100, n - (i + 1));
        bytes := bytes + [left % 0x100];
        left := left / 0x100;
      }
    }

    method WriteVarint(v: nat)
      modifies this
      ensures bytes == old(bytes) + Varint(v)
    {
      hide LittleEndian;
      if v < 0xFD {
        bytes := bytes + [v];
      } else if v <= 0xFFFF {
        bytes := bytes + [0xFD];
        WriteInt(v, 2);
      } else if v <= 0xFFFF_FFFF {
        bytes := bytes + [0xFE];
        WriteInt(v, 4);
      } else {
        bytes := bytes + [0xFF];
        WriteInt(v, 8);
      }
    }

    method WriteBytes(b: seq<Byte>)
      modifies this
      ensures bytes == old(bytes) + Prefixed(b)
    {
      hide Varint;
      WriteVarint(|b|);
      bytes := bytes + b;
    }

    method WriteInputs(xs: seq<TxIn>)
      modifies this
      ensures bytes == old(bytes) + (Varint(|xs|) + WriteAll(WriteIn, xs))
    {
      hide Varint, WriteIn;
      WriteVarint(|xs|);
      ghost var before := bytes;
      assert before + [] == before && xs[..0] == [];
      for i := 0 to |xs|
        invariant bytes == before + WriteAll(WriteIn, xs[..i])
      {
        WriteAllNext(WriteIn, xs, i);
        bytes := bytes + WriteIn(xs[i]);
      }
      assert xs[..|xs|] == xs;
    }

    method WriteOutputs(xs: seq<TxOut>)
      modifies this
      ensures bytes == old(bytes) + (Varint(|xs|) + WriteAll(WriteOut, xs))
    {
      hide Varint, WriteOut;
      WriteVarint(|xs|);
      ghost var before := bytes;
      assert before + [] == before && xs[..0] == [];
      for i := 0 to |xs|
        invariant bytes == before + WriteAll(WriteOut, xs[..i])
      {
        WriteAllNext(WriteOut, xs, i);
        bytes := bytes + WriteOut(xs[i]);
      }
      assert xs[..|xs|] == xs;
    }

    method WriteTransaction(t: Transaction)
      modifies this
      ensures bytes == old(bytes) + WriteTx(t)
    {
      hide WriteSigned, Varint, WriteIn, WriteOut, LittleEndian, WriteAll;
      bytes := bytes + WriteSigned(t.version, 4);
      WriteInputs(t.inputs);
      WriteOutputs(t.outputs);
      WriteInt(t.lockTime, 4);
    }

    method WriteWholeBlock(b: Block)
      modifies this
      ensures bytes == old(bytes) + WriteBlock(b)
    {
      hide WriteHeader, Varint, WriteTx, WriteBlockTx;
      ghost var start := bytes;
      bytes := bytes + WriteHeader(b.header);
      WriteVarint(|b.transactions|);
      ghost var before := bytes;
      assert before + [] == before && b.transactions[..0] == [];
      for i := 0 to |b.transactions|
        invariant bytes == before + WriteAll(WriteBlockTx, b.transactions[..i])
      {
        WriteAllNext(WriteBlockTx, b.transactions, i);
        var inner := new Buffer();
        inner.WriteTransaction(b.transactions[i]);
        assert inner.bytes == WriteTx(b.transactions[i]);
        WriteBytes(inner.bytes);
        BlockTxIs(b.transactions[i]);
      }
      assert b.transactions[..|b.transactions|] == b.transactions;
      assert bytes == start + WriteBlock(b);
    }
  }

  lemma BlockTxIs(t: Transaction)
    ensures WriteBlockTx(t) == Prefixed(WriteTx(t))
  {
    hide Prefixed, WriteTx;
  }

  lemma WriteAllNext<T>(write: T -> seq<Byte>, xs: seq<T>, i: nat)
    requires i < |xs|
    ensures WriteAll(write, xs[..i + 1]) == WriteAll(write, xs[..i]) + write(xs[i])
  {
    assert xs[..i + 1][..i] == xs[..i];
  }

  // ---------------------------------------------------------------------------
  // Reading
  // ---------------------------------------------------------------------------

  /** A read that succeeded took what the format says and left the rest; a failed one found too little. */
  ghost predicate Took<T>(p: Parsed<T>, v: Option<T>, rest: seq<Byte>) {
    match p
    case Short => v.None?
    case Read(x, after) => v == Some(x) && rest == after
  }

  /** Adds up shifted bytes, lowest first. */
  method SumBytes(b: seq<Byte>) returns (value: nat)
    ensures value == FromLittle(b)
  {
    var scale: nat := 1;
    value := 0;
    for i := 0 to |b|
      invariant scale == Pow256(i) && value + scale * FromLittle(b[i..]) == FromLittle(b)
    {
      assert b[i..][1..] == b[i + 1..];
      NextByte(value, scale, b[i], FromLittle(b[i + 1..]));
      value := value + b[i] * scale;
      scale := 0x100 * scale;
    }
  }

  class Cursor {
    var rest: seq<Byte>

    constructor (data: seq<Byte>)
      ensures rest == data
    {
      rest := data;
    }

    method ReadInt(n: nat) returns (v: Option<nat>)
      modifies this
      ensures Took(ReadLittle(old(rest), n), v, rest)
    {
      if |rest| < n {
        return None;
      }
      var value := SumBytes(rest[..n]);
      rest := rest[n..];
      return Some(value);
    }

    method ReadCount() returns (v: Option<nat>)
      modifies this
      ensures Took(ReadVarint(old(rest)), v, rest)
    {
      hide ReadLittle;
      if rest == [] {
        return None;
      }
      var first := rest[0];
      rest := rest[1..];
      if first < 0xFD {
        return Some(first);
      }
      v := ReadInt(if first == 0xFD then 2 else if first == 0xFE then 4 else 8);
    }

    method ReadBytes() returns (v: Option<seq<Byte>>)
      modifies this
      ensures Took(ReadPrefixed(old(rest)), v, rest)
    {
      hide ReadVarint;
      var n := ReadCount();
      if n.None? || |rest| < n.value {
        return None;
      }
      v := Some(rest[..n.value]);
      rest := rest[n.value..];
    }

    method ReadWord() returns (v: Option<Uint32>)
      modifies this
      ensures Took(ReadUint32(old(rest)), v, rest)
    {
      hide FromLittle;
      ghost var data := rest;
      var word := ReadInt(4);
      if word.None? {
        return None;
      }
      LittleRange(data[..4]);
      Ranges();
      return Some(word.value);
    }

    method ReadSignedInt(n: nat) returns (v: Option<int>)
      modifies this
      ensures Took(ReadSigned(old(rest), n), v, rest)
      ensures v.Some? ==> 0 <= 2 * v.value + Pow256(n) < 2 * Pow256(n)
    {
      hide FromLittle, Pow256;
      ghost var data := rest;
      var word := ReadInt(n);
      if word.None? {
        return None;
      }
      LittleRange(data[..n]);
      return Some(Signed(word.value, n));
    }

    method ReadDigest() returns (v: Option<nat>)
      modifies this
      ensures Took(ReadHash(old(rest)), v, rest)
    {
      if |rest| < 32 {
        return None;
      }
      v := Some(FromBig(rest[..32]));
      rest := rest[32..];
    }

    method ReadOutPoint() returns (v: Option<OutPoint>)
      modifies this
      ensures Took(ReadPoint(old(rest)), v, rest)
    {
      hide ReadHash, ReadUint32;
      var hash := ReadDigest();
      if hash.None? {
        return None;
      }
      var index := ReadWord();
      if index.None? {
        return None;
      }
      return Some(OutPoint(hash.value, index.value));
    }

    method ReadInput() returns (v: Option<TxIn>)
      modifies this
      ensures Took(ReadIn(old(rest)), v, rest)
    {
      hide ReadPoint, ReadPrefixed, ReadUint32;
      var prevout := ReadOutPoint();
      if prevout.None? {
        return None;
      }
      var script := ReadBytes();
      if script.None? {
        return None;
      }
      var sequence := ReadWord();
      if sequence.None? {
        return None;
      }
      return Some(TxIn(prevout.value, script.value, sequence.value));
    }

    method ReadOutput() returns (v: Option<TxOut>)
      modifies this
      ensures Took(ReadOut(old(rest)), v, rest)
    {
      hide ReadSigned, ReadPrefixed, Pow256;
      var value := ReadSignedInt(8);
      if value.None? {
        return None;
      }
      var script := ReadBytes();
      if script.None? {
        return None;
      }
      return Some(TxOut(AsInt64(value.value), script.value));
    }

    method ReadInputs() returns (v: Option<seq<TxIn>>)
      modifies this
      ensures Took(ReadIns(old(rest)), v, rest)
    {
      hide ReadVarint, ReadIn;
      var n := ReadCount();
      if n.None? {
        return None;
      }
      ghost var start := rest;
      var xs: seq<TxIn> := [];
      for i := 0 to n.value
        invariant ReadAll(ReadIn, start, i) == Read(xs, rest)
      {
        var x := ReadInput();
        if x.None? {
          ReadAllFails(ReadIn, start, i + 1, n.value);
          return None;
        }
        xs := xs + [x.value];
      }
      return Some(xs);
    }

    method ReadOutputs() returns (v: Option<seq<TxOut>>)
      modifies this
      ensures Took(ReadOuts(old(rest)), v, rest)
    {
      hide ReadVarint, ReadOut;
      var n := ReadCount();
      if n.None? {
        return None;
      }
      ghost var start := rest;
      var xs: seq<TxOut> := [];
      for i := 0 to n.value
        invariant ReadAll(ReadOut, start, i) == Read(xs, rest)
      {
        var x := ReadOutput();
        if x.None? {
          ReadAllFails(ReadOut, start, i + 1, n.value);
          return None;
        }
        xs := xs + [x.value];
      }
      return Some(xs);
    }

    method ReadTransaction() returns (v: Option<Transaction>)
      modifies this
      ensures Took(ReadTx(old(rest)), v, rest)
    {
      hide ReadSigned, ReadIns, ReadOuts, ReadUint32, Pow256;
      var version := ReadSignedInt(4);
      if version.None? {
        return None;
      }
      var inputs := ReadInputs();
      if inputs.None? {
        return None;
      }
      var outputs := ReadOutputs();
      if outputs.None? {
        return None;
      }
      var lockTime := ReadWord();
      if lockTime.None? {
        return None;
      }
      return Some(Transaction(version.value, inputs.value, outputs.value, lockTime.value));
    }

    method ReadBlockHeader() returns (v: Option<Header>)
      modifies this
      ensures Took(ReadHeader(old(rest)), v, rest)
    {
      hide ReadSigned, ReadHash, ReadUint32, Pow256;
      var version := ReadSignedInt(4);
      if version.None? {
        return None;
      }
      var prev := ReadDigest();
      if prev.None? {
        return None;
      }
      var merkleRoot := ReadDigest();
      if merkleRoot.None? {
        return None;
      }
      var timestamp := ReadWord();
      if timestamp.None? {
        return None;
      }
      var bits := ReadWord();
      if bits.None? {
        return None;
      }
      var nonce := ReadWord();
      if nonce.None? {
        return None;
      }
      return Some(Header(version.value, prev.value, merkleRoot.value, timestamp.value, bits.value, nonce.value));
    }

    method ReadNestedTransaction() returns (v: Option<Transaction>)
      modifies this
      ensures Took(ReadBlockTx(old(rest)), v, rest)
    {
      hide ReadPrefixed, ReadTx;
      var inner := ReadBytes();
      if inner.None? {
        return None;
      }
      var nested := new Cursor(inner.value);
      v := nested.ReadTransaction();
    }

    /** Reads a block and leaves the position right behind it. */
    method ReadWholeBlock() returns (v: Option<Block>)
      modifies this
      ensures Took(ReadBlock(old(rest)), v, rest)
    {
      hide ReadHeader, ReadVarint, ReadBlockTx;
      var header := ReadBlockHeader();
      if header.None? {
        return None;
      }
      var n := ReadCount();
      if n.None? {
        return None;
      }
      ghost var start := rest;
      var txs: seq<Transaction> := [];
      for i := 0 to n.value
        invariant ReadAll(ReadBlockTx, start, i) == Read(txs, rest)
      {
        var t := ReadNestedTransaction();
        if t.None? {
          ReadAllFails(ReadBlockTx, start, i + 1, n.value);
          return None;
        }
        txs := txs + [t.value];
      }
      return Some(Block(header.value, txs));
    }
  }

  lemma NextByte(value: nat, scale: nat, b: nat, more: nat)
    ensures value + scale * (b + 0x100 * more) == (value + b * scale) + (0x100 * scale) * more
  {
  }

  lemma {:induction false} ReadAllFails<T>(read: seq<Byte> -> Parsed<T>, data: seq<Byte>, k: nat, n: nat)
    requires k <= n && ReadAll(read, data, k).Short?
    ensures ReadAll(read, data, n).Short?
    decreases n
  {
    if k < n {
      ReadAllFails(read, data, k, n - 1);
    }
  }

  /** Main result: a well-formed block written to a buffer and read back, with other bytes behind it, is the
      same block, and exactly the other bytes are left. */
  method RoundTrip(b: Block, tail: seq<Byte>) returns (v: Option<Block>, rest: seq<Byte>)
    requires BlockOk(b)
    ensures v == Some(b) && rest == tail
  {
    hide WriteBlock, ReadBlock, BlockOk;
    var buffer := new Buffer();
    buffer.WriteWholeBlock(b);
    assert buffer.bytes == WriteBlock(b);
    var cursor := new Cursor(buffer.bytes + tail);
    v := cursor.ReadWholeBlock();
    BlockThen(b, tail);
    rest := cursor.rest;
  }
}
