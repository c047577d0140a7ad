/** The wire format: integers, counts, byte strings, transactions, headers and blocks. */
module Wire {
  import opened Arith
  import opened Primitives
  import opened CompactTarget
  import Radix

  // ---------------------------------------------------------------------------
  // Integers
  // ---------------------------------------------------------------------------

  /** n bytes, lowest first. */
  function LittleEndian(v: nat, n: nat): (b: seq<Byte>)
    ensures |b| == n
  {
    if n == 0 then [] else [v % 0x100] + LittleEndian(v / 0x100, n - 1)
  }

  function FromLittle(b: seq<Byte>): nat {
    if b == [] then 0 else b[0] + 0x100 * FromLittle(b[1..])
  }

  lemma {:induction false} LittleBack(v: nat, n: nat)
    requires v < Pow256(n)
    ensures FromLittle(LittleEndian(v, n)) == v
    decreases n
  {
    if n != 0 {
      LittleBack(v / 0x100, n - 1);
      assert LittleEndian(v, n)[1..] == LittleEndian(v / 0x100, n - 1);
    }
  }

  lemma LittleNext(v: nat, n: nat)
    ensures LittleEndian(v, n + 1) == [v % 0x100] + LittleEndian(v / 0x100, n) && LittleEndian(v, 0) == []
  {
  }

  lemma {:induction false} LittleRange(b: seq<Byte>)
    ensures FromLittle(b) < Pow256(|b|)
    decreases |b|
  {
    if b != [] {
      LittleRange(b[1..]);
    }
  }

  /** n bytes, highest first. */
  function BigEndian(v: nat, n: nat): (b: seq<Byte>)
    ensures |b| == n
  {
    if n == 0 then [] else BigEndian(v / 0x100, n - 1) + [v % 0x100]
  }

  function FromBig(b: seq<Byte>): nat {
    if b == [] then 0 else FromBig(b[..|b| - 1]) * 0x100 + b[|b| - 1]
  }

  lemma {:induction false} BigBack(v: nat, n: nat)
    requires v < Pow256(n)
    ensures FromBig(BigEndian(v, n)) == v
    decreases n
  {
    if n != 0 {
      BigBack(v / 0x100, n - 1);
      assert BigEndian(v, n)[..n - 1] == BigEndian(v / 0x100, n - 1);
    }
  }

  /** Two's complement of a signed number in n bytes. */
  function Unsigned(x: int, n: nat): (v: nat)
    requires 0 <= 2 * x + Pow256(n) < 2 * Pow256(n)
    ensures v < Pow256(n)
  {
    if x < 0 then x + Pow256(n) else x
  }

  function Signed(v: nat, n: nat): (x: int)
    requires v < Pow256(n)
    ensures 0 <= 2 * x + Pow256(n) < 2 * Pow256(n)
  {
    if 2 * v < Pow256(n) then v else v - Pow256(n)
  }

  lemma SignedBack(x: int, n: nat)
    requires 0 <= 2 * x + Pow256(n) < 2 * Pow256(n)
    ensures Signed(Unsigned(x, n), n) == x
  {
  }

  lemma Ranges()
    ensures Pow256(1) == 0x100 && Pow256(2) == 0x1_0000 && Pow256(4) == 0x1_0000_0000 && Pow256(8) == 0x1_0000_0000_0000_0000
  {
    assert Pow256(3) == 0x100_0000;
    assert Pow256(5) == 0x100_0000_0000;
    assert Pow256(6) == 0x1_0000_0000_0000;
    assert Pow256(7) == 0x100_0000_0000_0000;
  }

  // ---------------------------------------------------------------------------
  // Reading
  // ---------------------------------------------------------------------------

  /** A value and the bytes after it, or not enough data. */
  datatype Parsed<T> = Short | Read(value: T, rest: seq<Byte>)

  function ReadLittle(data: seq<Byte>, n: nat): Parsed<nat> {
    if |data| < n then Short else Read(FromLittle(data[..n]), data[n..])
  }

  function ReadHash(data: seq<Byte>): Parsed<nat> {
    if |data| < 32 then Short else Read(FromBig(data[..32]), data[32..])
  }

  /** One byte, or a marker and two, four or eight bytes. */
  function Varint(v: nat): seq<Byte> {
    if v < 0xFD then [v]
    else if v <= 0xFFFF then [0xFD] + LittleEndian(v, 2)
    else if v <= 0xFFFF_FFFF then [0xFE] + LittleEndian(v, 4)
    else [0xFF] + LittleEndian(v, 8)
  }

  function ReadVarint(data: seq<Byte>): Parsed<nat> {
    if data == [] then Short
    else if data[0] < 0xFD then Read(data[0], data[1..])
    else ReadLittle(data[1..], if data[0] == 0xFD then 2 else if data[0] == 0xFE then 4 else 8)
  }

  function Prefixed(b: seq<Byte>): seq<Byte> {
    Varint(|b|) + b
  }

  function ReadPrefixed(data: seq<Byte>): Parsed<seq<Byte>> {
    match ReadVarint(data)
    case Short => Short
    case Read(n, rest) => if |rest| < n then Short else Read(rest[..n], rest[n..])
  }

  const MAX_LENGTH: nat := 0x1_0000_0000_0000_0000

  lemma LittleThen(v: nat, n: nat, tail: seq<Byte>)
    requires v < Pow256(n)
    ensures ReadLittle(LittleEndian(v, n) + tail, n) == Read(v, tail)
  {
    hide LittleEndian, FromLittle;
    LittleBack(v, n);
    var data := LittleEndian(v, n) + tail;
    assert data[..n] == LittleEndian(v, n) && data[n..] == tail;
  }

  lemma HashThen(v: nat, tail: seq<Byte>)
    requires v < Pow256(32)
    ensures ReadHash(BigEndian(v, 32) + tail) == Read(v, tail)
  {
    hide BigEndian, FromBig, Pow256;
    BigBack(v, 32);
    var data := BigEndian(v, 32) + tail;
    assert data[..32] == BigEndian(v, 32) && data[32..] == tail;
  }

  lemma VarintThen(v: nat, tail: seq<Byte>)
    requires v < MAX_LENGTH
    ensures ReadVarint(Varint(v) + tail) == Read(v, tail)
  {
    hide LittleEndian, Pow256, ReadLittle;
    Ranges();
    var data := Varint(v) + tail;
    if v < 0xFD {
      assert data[1..] == tail;
    } else if v <= 0xFFFF {
      LittleThen(v, 2, tail);
      assert data[1..] == LittleEndian(v, 2) + tail;
    } else if v <= 0xFFFF_FFFF {
      LittleThen(v, 4, tail);
      assert data[1..] == LittleEndian(v, 4) + tail;
    } else {
      LittleThen(v, 8, tail);
      assert data[1..] == LittleEndian(v, 8) + tail;
    }
  }

  lemma PrefixedThen(b: seq<Byte>, tail: seq<Byte>)
    requires |b| < MAX_LENGTH
    ensures ReadPrefixed(Prefixed(b) + tail) == Read(b, tail)
  {
    hide Varint, ReadVarint;
    VarintThen(|b|, b + tail);
    assert Prefixed(b) + tail == Varint(|b|) + (b + tail);
    assert (b + tail)[..|b|] == b && (b + tail)[|b|..] == tail;
  }

  // ---------------------------------------------------------------------------
  // Lists
  // ---------------------------------------------------------------------------

  function WriteAll<T>(write: T -> seq<Byte>, xs: seq<T>): seq<Byte> {
    if xs == [] then [] else WriteAll(write, xs[..|xs| - 1]) + write(xs[|xs| - 1])
  }

  function ReadAll<T>(read: seq<Byte> -> Parsed<T>, data: seq<Byte>, n: nat): Parsed<seq<T>> {
    if n == 0 then Read([], data)
    else
      match ReadAll(read, data, n - 1)
      case Short => Short
      case Read(xs, rest) =>
        match read(rest)
        case Short => Short
        case Read(x, rest') => Read(xs + [x], rest')
  }

  /** The reader undoes the writer on x, whatever follows. */
  ghost predicate Undoes<T(!new)>(write: T -> seq<Byte>, read: seq<Byte> -> Parsed<T>, x: T) {
    forall tail: seq<Byte> :: read(write(x) + tail) == Read(x, tail)
  }

  lemma {:induction false} ReadWritten<T(!new)>(write: T -> seq<Byte>, read: seq<Byte> -> Parsed<T>, xs: seq<T>, n: nat, tail: seq<Byte>)
    requires n <= |xs| && forall i :: 0 <= i < |xs| ==> Undoes(write, read, xs[i])
    ensures ReadAll(read, WriteAll(write, xs[..n]) + tail, n) == Read(xs[..n], tail)
    decreases n
  {
    if n == 0 {
      assert WriteAll(write, xs[..0]) + tail == tail;
      assert xs[..0] == [];
    } else {
      var front, last := xs[..n - 1], xs[n - 1];
      assert xs[..n][..n - 1] == front;
      assert xs[..n] == front + [last];
      assert WriteAll(write, xs[..n]) + tail == WriteAll(write, front) + (write(last) + tail);
      ReadWritten(write, read, xs, n - 1, write(last) + tail);
      assert Undoes(write, read, last);
    }
  }

  // ---------------------------------------------------------------------------
  // Transactions and blocks
  // ---------------------------------------------------------------------------

  predicate PointOk(p: OutPoint) {
    p.txHash < Pow256(32)
  }

  predicate InOk(i: TxIn) {
    PointOk(i.prevout) && |i.scriptSig| < MAX_LENGTH
  }

  predicate OutOk(o: TxOut) {
    |o.script| < MAX_LENGTH
  }

  predicate Int32(x: int) {
    -0x8000_0000 <= x < 0x8000_0000
  }

  predicate TxOk(t: Transaction) {
    && Int32(t.version)
    && |t.inputs| < MAX_LENGTH && |t.outputs| < MAX_LENGTH
    && (forall i :: 0 <= i < |t.inputs| ==> InOk(t.inputs[i]))
    && (forall i :: 0 <= i < |t.outputs| ==> OutOk(t.outputs[i]))
  }

  predicate HeaderOk(h: Header) {
    Int32(h.version) && h.prev < Pow256(32) && h.merkleRoot < Pow256(32)
  }

  predicate BlockOk(b: Block) {
    && HeaderOk(b.header) && |b.transactions| < MAX_LENGTH
    && forall i :: 0 <= i < |b.transactions| ==> TxOk(b.transactions[i]) && |WriteTx(b.transactions[i])| < MAX_LENGTH
  }

  /** Conversions to fixed-width integers keep what fits and drop high bits. */
  function WriteSigned(x: int, n: nat): seq<Byte> {
    LittleEndian(x % Pow256(n), n)
  }

  function WritePoint(p: OutPoint): seq<Byte> {
    BigEndian(p.txHash, 32) + LittleEndian(p.index, 4)
  }

  function WriteIn(i: TxIn): seq<Byte> {
    WritePoint(i.prevout) + Prefixed(i.scriptSig) + LittleEndian(i.sequence, 4)
  }

  function WriteOut(o: TxOut): seq<Byte> {
    WriteSigned(o.value, 8) + Prefixed(o.script)
  }

  function WriteTx(t: Transaction): seq<Byte> {
    WriteSigned(t.version, 4) + Varint(|t.inputs|) + WriteAll(WriteIn, t.inputs)
    + Varint(|t.outputs|) + WriteAll(WriteOut, t.outputs) + LittleEndian(t.lockTime, 4)
  }

  function WriteHeader(h: Header): seq<Byte> {
    WriteSigned(h.version, 4) + BigEndian(h.prev, 32) + BigEndian(h.merkleRoot, 32)
    + LittleEndian(h.timestamp, 4) + LittleEndian(h.bits, 4) + LittleEndian(h.nonce, 4)
  }

  function WriteBlockTx(t: Transaction): seq<Byte> {
    Prefixed(WriteTx(t))
  }

  function WriteBlock(b: Block): seq<Byte> {
    WriteHeader(b.header) + Varint(|b.transactions|) + WriteAll(WriteBlockTx, b.transactions)
  }

  function ReadUint32(data: seq<Byte>): Parsed<Uint32> {
    match ReadLittle(data, 4)
    case Short => Short
    case Read(v, rest) => Read(Small(v, data[..4]), rest)
  }

  function Small(v: nat, b: seq<Byte>): Uint32
    requires |b| == 4 && v == FromLittle(b)
  {
    LittleRange(b);
    Ranges();
    v
  }

  function ReadSigned(data: seq<Byte>, n: nat): (p: Parsed<int>)
    ensures p.Read? ==> 0 <= 2 * p.value + Pow256(n) < 2 * Pow256(n)
  {
    match ReadLittle(data, n)
    case Short => Short
    case Read(v, rest) =>
      LittleRange(data[..n]);
      Read(Signed(v, n), rest)
  }

  function ReadPoint(data: seq<Byte>): Parsed<OutPoint> {
    match ReadHash(data)
    case Short => Short
    case Read(hash, rest) =>
      match ReadUint32(rest)
      case Short => Short
      case Read(index, rest') => Read(OutPoint(hash, index), rest')
  }

  function ReadIn(data: seq<Byte>): Parsed<TxIn> {
    match ReadPoint(data)
    case Short => Short
    case Read(prevout, rest) =>
      match ReadPrefixed(rest)
      case Short => Short
      case Read(script, rest') =>
        match ReadUint32(rest')
        case Short => Short
        case Read(sequence, end) => Read(TxIn(prevout, script, sequence), end)
  }

  function AsInt64(x: int): Int64
    requires 0 <= 2 * x + Pow256(8) < 2 * Pow256(8)
  {
    Ranges();
    x
  }

  function ReadOut(data: seq<Byte>): Parsed<TxOut> {
    match ReadSigned(data, 8)
    case Short => Short
    case Read(value, rest) =>
      match ReadPrefixed(rest)
      case Short => Short
      case Read(script, end) => Read(TxOut(AsInt64(value), script), end)
  }

  function ReadIns(data: seq<Byte>): Parsed<seq<TxIn>> {
    match ReadVarint(data)
    case Short => Short
    case Read(n, rest) => ReadAll(ReadIn, rest, n)
  }

  function ReadOuts(data: seq<Byte>): Parsed<seq<TxOut>> {
    match ReadVarint(data)
    case Short => Short
    case Read(n, rest) => ReadAll(ReadOut, rest, n)
  }

  function ReadTx(data: seq<Byte>): Parsed<Transaction> {
    match ReadSigned(data, 4)
    case Short => Short
    case Read(version, rest) =>
      match ReadIns(rest)
      case Short => Short
      case Read(inputs, rest') =>
        match ReadOuts(rest')
        case Short => Short
        case Read(outputs, rest'') =>
          match ReadUint32(rest'')
          case Short => Short
          case Read(lockTime, end) => Read(Transaction(version, inputs, outputs, lockTime), end)
  }

  function ReadHashes(data: seq<Byte>): Parsed<(nat, nat)> {
    match ReadHash(data)
    case Short => Short
    case Read(a, rest) =>
      match ReadHash(rest)
      case Short => Short
      case Read(b, end) => Read((a, b), end)
  }

  function ReadTail(data: seq<Byte>): Parsed<(Uint32, Uint32, Uint32)> {
    match ReadUint32(data)
    case Short => Short
    case Read(a, rest) =>
      match ReadUint32(rest)
      case Short => Short
      case Read(b, rest') =>
        match ReadUint32(rest')
        case Short => Short
        case Read(c, end) => Read((a, b, c), end)
  }

  function ReadHeader(data: seq<Byte>): Parsed<Header> {
    match ReadSigned(data, 4)
    case Short => Short
    case Read(version, rest) =>
      match ReadHashes(rest)
      case Short => Short
      case Read(hashes, rest') =>
        match ReadTail(rest')
        case Short => Short
        case Read(tail, end) => Read(Header(version, hashes.0, hashes.1, tail.0, tail.1, tail.2), end)
  }

  /** A transaction inside its own byte string; bytes behind it in the string are ignored. */
  function ReadBlockTx(data: seq<Byte>): Parsed<Transaction> {
    match ReadPrefixed(data)
    case Short => Short
    case Read(inner, rest) =>
      match ReadTx(inner)
      case Short => Short
      case Read(t, _) => Read(t, rest)
  }

  function ReadBlock(data: seq<Byte>): Parsed<Block> {
    match ReadHeader(data)
    case Short => Short
    case Read(header, rest) =>
      match ReadVarint(rest)
      case Short => Short
      case Read(n, rest') =>
        match ReadAll(ReadBlockTx, rest', n)
        case Short => Short
        case Read(txs, end) => Read(Block(header, txs), end)
  }

  // ---------------------------------------------------------------------------
  // Round trips
  // ---------------------------------------------------------------------------

  lemma Uint32Then(v: Uint32, tail: seq<Byte>)
    ensures ReadUint32(LittleEndian(v, 4) + tail) == Read(v, tail)
  {
    hide LittleEndian, FromLittle, ReadLittle;
    Ranges();
    LittleThen(v, 4, tail);
  }

  lemma SignedThen(x: int, n: nat, tail: seq<Byte>)
    requires 0 <= 2 * x + Pow256(n) < 2 * Pow256(n)
    ensures ReadSigned(WriteSigned(x, n) + tail, n) == Read(x, tail)
  {
    hide LittleEndian, FromLittle, ReadLittle, Pow256;
    Remainder(x, Pow256(n));
    SignedBack(x, n);
    LittleThen(Unsigned(x, n), n, tail);
  }

  lemma Remainder(x: int, m: nat)
    requires 0 < m && 0 <= 2 * x + m < 2 * m
    ensures x % m == if x < 0 then x + m else x
  {
  }

  lemma PointThen(p: OutPoint, tail: seq<Byte>)
    requires PointOk(p)
    ensures ReadPoint(WritePoint(p) + tail) == Read(p, tail)
  {
    hide BigEndian, LittleEndian, ReadHash, ReadUint32, Pow256;
    HashThen(p.txHash, LittleEndian(p.index, 4) + tail);
    Uint32Then(p.index, tail);
    assert WritePoint(p) + tail == BigEndian(p.txHash, 32) + (LittleEndian(p.index, 4) + tail);
  }

  lemma InThen(i: TxIn)
    requires InOk(i)
    ensures Undoes(WriteIn, ReadIn, i)
  {
    hide WritePoint, LittleEndian, Prefixed, ReadPoint, ReadPrefixed, ReadUint32, Pow256;
    forall tail: seq<Byte>
      ensures ReadIn(WriteIn(i) + tail) == Read(i, tail)
    {
      var c := LittleEndian(i.sequence, 4) + tail;
      var b := Prefixed(i.scriptSig) + c;
      PointThen(i.prevout, b);
      PrefixedThen(i.scriptSig, c);
      Uint32Then(i.sequence, tail);
      assert WriteIn(i) + tail == WritePoint(i.prevout) + b;
    }
  }

  lemma OutThen(o: TxOut)
    requires OutOk(o)
    ensures Undoes(WriteOut, ReadOut, o)
  {
    hide WriteSigned, Prefixed, ReadSigned, ReadPrefixed, Pow256;
    Ranges();
    forall tail: seq<Byte>
      ensures ReadOut(WriteOut(o) + tail) == Read(o, tail)
    {
      SignedThen(o.value, 8, Prefixed(o.script) + tail);
      PrefixedThen(o.script, tail);
      assert WriteOut(o) + tail == WriteSigned(o.value, 8) + (Prefixed(o.script) + tail);
    }
  }

  lemma InsThen(xs: seq<TxIn>, tail: seq<Byte>)
    requires |xs| < MAX_LENGTH && forall i :: 0 <= i < |xs| ==> InOk(xs[i])
    ensures ReadIns(Varint(|xs|) + WriteAll(WriteIn, xs) + tail) == Read(xs, tail)
  {
    hide Varint, ReadVarint, WriteIn, ReadIn, ReadAll, WriteAll, InOk;
    VarintThen(|xs|, WriteAll(WriteIn, xs) + tail);
    forall i | 0 <= i < |xs|
      ensures Undoes(WriteIn, ReadIn, xs[i])
    {
      InThen(xs[i]);
    }
    ReadWritten(WriteIn, ReadIn, xs, |xs|, tail);
    assert xs[..|xs|] == xs;
    assert Varint(|xs|) + WriteAll(WriteIn, xs) + tail == Varint(|xs|) + (WriteAll(WriteIn, xs) + tail);
  }

  lemma OutsThen(xs: seq<TxOut>, tail: seq<Byte>)
    requires |xs| < MAX_LENGTH && forall i :: 0 <= i < |xs| ==> OutOk(xs[i])
    ensures ReadOuts(Varint(|xs|) + WriteAll(WriteOut, xs) + tail) == Read(xs, tail)
  {
    hide Varint, ReadVarint, WriteOut, ReadOut, ReadAll, WriteAll, OutOk;
    VarintThen(|xs|, WriteAll(WriteOut, xs) + tail);
    forall i | 0 <= i < |xs|
      ensures Undoes(WriteOut, ReadOut, xs[i])
    {
      OutThen(xs[i]);
    }
    ReadWritten(WriteOut, ReadOut, xs, |xs|, tail);
    assert xs[..|xs|] == xs;
    assert Varint(|xs|) + WriteAll(WriteOut, xs) + tail == Varint(|xs|) + (WriteAll(WriteOut, xs) + tail);
  }

  lemma TxThen(t: Transaction, tail: seq<Byte>)
    requires TxOk(t)
    ensures ReadTx(WriteTx(t) + tail) == Read(t, tail)
  {
    hide Varint, WriteAll, WriteIn, WriteOut, LittleEndian, WriteSigned, ReadSigned, ReadIns, ReadOuts, ReadUint32, Pow256, InOk, OutOk;
    Ranges();
    var d := LittleEndian(t.lockTime, 4) + tail;
    var c := Varint(|t.outputs|) + WriteAll(WriteOut, t.outputs) + d;
    var b := Varint(|t.inputs|) + WriteAll(WriteIn, t.inputs) + c;
    SignedThen(t.version, 4, b);
    InsThen(t.inputs, c);
    OutsThen(t.outputs, d);
    Uint32Then(t.lockTime, tail);
    assert WriteTx(t) + tail == WriteSigned(t.version, 4) + b;
  }

  lemma HashesThen(a: nat, b: nat, tail: seq<Byte>)
    requires a < Pow256(32) && b < Pow256(32)
    ensures ReadHashes(BigEndian(a, 32) + BigEndian(b, 32) + tail) == Read((a, b), tail)
  {
    hide BigEndian, ReadHash, Pow256;
    HashThen(a, BigEndian(b, 32) + tail);
    HashThen(b, tail);
    assert BigEndian(a, 32) + BigEndian(b, 32) + tail == BigEndian(a, 32) + (BigEndian(b, 32) + tail);
  }

  lemma TailThen(a: Uint32, b: Uint32, c: Uint32, tail: seq<Byte>)
    ensures ReadTail(LittleEndian(a, 4) + LittleEndian(b, 4) + LittleEndian(c, 4) + tail) == Read((a, b, c), tail)
  {
    hide LittleEndian, ReadUint32;
    var y := LittleEndian(c, 4) + tail;
    var x := LittleEndian(b, 4) + y;
    Uint32Then(a, x);
    Uint32Then(b, y);
    Uint32Then(c, tail);
    assert LittleEndian(a, 4) + LittleEndian(b, 4) + LittleEndian(c, 4) + tail == LittleEndian(a, 4) + x;
  }

  lemma HeaderThen(h: Header, tail: seq<Byte>)
    requires HeaderOk(h)
    ensures ReadHeader(WriteHeader(h) + tail) == Read(h, tail)
  {
    hide BigEndian, LittleEndian, WriteSigned, ReadSigned, ReadHashes, ReadTail, Pow256;
    Ranges();
    var c := LittleEndian(h.timestamp, 4) + LittleEndian(h.bits, 4) + LittleEndian(h.nonce, 4) + tail;
    var b := BigEndian(h.prev, 32) + BigEndian(h.merkleRoot, 32) + c;
    SignedThen(h.version, 4, b);
    HashesThen(h.prev, h.merkleRoot, c);
    TailThen(h.timestamp, h.bits, h.nonce, tail);
    assert WriteHeader(h) + tail == WriteSigned(h.version, 4) + b;
  }

  lemma BlockTxThen(t: Transaction)
    requires TxOk(t) && |WriteTx(t)| < MAX_LENGTH
    ensures Undoes(WriteBlockTx, ReadBlockTx, t)
  {
    hide Prefixed, ReadPrefixed, WriteTx, ReadTx, TxOk;
    forall tail: seq<Byte>
      ensures ReadBlockTx(WriteBlockTx(t) + tail) == Read(t, tail)
    {
      PrefixedThen(WriteTx(t), tail);
      TxThen(t, []);
      assert WriteTx(t) + [] == WriteTx(t);
    }
  }

  /** Main result: reading a written block, whatever bytes follow it, gives the block back and leaves exactly
      those bytes. */
  lemma BlockThen(b: Block, tail: seq<Byte>)
    requires BlockOk(b)
    ensures ReadBlock(WriteBlock(b) + tail) == Read(b, tail)
  {
    hide Varint, ReadVarint, WriteHeader, ReadHeader, WriteAll, ReadAll, WriteBlockTx, ReadBlockTx, TxOk, WriteTx, HeaderOk;
    var txs := b.transactions;
    var d := WriteAll(WriteBlockTx, txs) + tail;
    HeaderThen(b.header, Varint(|txs|) + d);
    VarintThen(|txs|, d);
    forall i | 0 <= i < |txs|
      ensures Undoes(WriteBlockTx, ReadBlockTx, txs[i])
    {
      BlockTxThen(txs[i]);
    }
    ReadWritten(WriteBlockTx, ReadBlockTx, txs, |txs|, tail);
    assert txs[..|txs|] == txs;
    assert WriteBlock(b) + tail == WriteHeader(b.header) + (Varint(|txs|) + d);
  }

  // ---------------------------------------------------------------------------
  // The layout, byte by byte
  // ---------------------------------------------------------------------------

  /** Byte i of a number, counted from the lowest. */
  function ByteOf(v: nat, i: nat): Byte {
    Quotient(v, Pow256(i)) % 0x100
  }

  lemma {:induction false} LittleBytes(v: nat, n: nat, i: nat)
    requires i < n
    ensures LittleEndian(v, n)[i] == ByteOf(v, i)
    decreases n
  {
    Pow256Small();
    if i != 0 {
      LittleBytes(v / 0x100, n - 1, i - 1);
      hide LittleEndian;
      DivDiv(v, 0x100, Pow256(i - 1));
    }
  }

  lemma {:induction false} BigBytes(v: nat, n: nat, i: nat)
    requires i < n
    ensures BigEndian(v, n)[i] == ByteOf(v, n - 1 - i)
    decreases n
  {
    Pow256Small();
    if i != n - 1 {
      BigBytes(v / 0x100, n - 1, i);
      hide BigEndian;
      DivDiv(v, 0x100, Pow256(n - 2 - i));
    }
  }

  /** Six fields one after the other. */
  lemma FieldAt(a: seq<Byte>, b: seq<Byte>, c: seq<Byte>, d: seq<Byte>, e: seq<Byte>, f: seq<Byte>, i: nat)
    requires |a| == 4 && |b| == 32 && |c| == 32 && |d| == 4 && |e| == 4 && |f| == 4 && i < 80
    ensures var all := a + b + c + d + e + f;
            |all| == 80
            && all[i] == if i < 4 then a[i] else if i < 36 then b[i - 4] else if i < 68 then c[i - 36]
                         else if i < 72 then d[i - 68] else if i < 76 then e[i - 72] else f[i - 76]
  {
  }

  /** Main result: the 80 bytes of a header. Version, time, bits and nonce stand with their lowest byte first, the two hashes
      with their highest byte first, in the order version, parent, merkle root, time, bits, nonce. */
  lemma HeaderLayout(h: Header, i: nat)
    requires i < 80
    ensures |WriteHeader(h)| == 80
    ensures WriteHeader(h)[i] == if i < 4 then ByteOf(h.version % 0x1_0000_0000, i)
                                 else if i < 36 then ByteOf(h.prev, 35 - i)
                                 else if i < 68 then ByteOf(h.merkleRoot, 67 - i)
                                 else if i < 72 then ByteOf(h.timestamp, i - 68)
                                 else if i < 76 then ByteOf(h.bits, i - 72)
                                 else ByteOf(h.nonce, i - 76)
  {
    hide *;
    HeaderFields(h);
    FieldAt(LittleEndian(h.version % 0x1_0000_0000, 4), BigEndian(h.prev, 32), BigEndian(h.merkleRoot, 32),
            LittleEndian(h.timestamp, 4), LittleEndian(h.bits, 4), LittleEndian(h.nonce, 4), i);
    if i < 4 {
      LittleBytes(h.version % 0x1_0000_0000, 4, i);
    } else if i < 36 {
      BigBytes(h.prev, 32, i - 4);
    } else if i < 68 {
      BigBytes(h.merkleRoot, 32, i - 36);
    } else if i < 72 {
      LittleBytes(h.timestamp, 4, i - 68);
    } else if i < 76 {
      LittleBytes(h.bits, 4, i - 72);
    } else {
      LittleBytes(h.nonce, 4, i - 76);
    }
  }

  lemma HeaderFields(h: Header)
    ensures WriteHeader(h) == LittleEndian(h.version % 0x1_0000_0000, 4) + BigEndian(h.prev, 32) + BigEndian(h.merkleRoot, 32)
                              + LittleEndian(h.timestamp, 4) + LittleEndian(h.bits, 4) + LittleEndian(h.nonce, 4)
  {
    hide LittleEndian, BigEndian, Pow256;
    Ranges();
  }

  /** Lengths below 253 take one byte, others a marker that tells how many bytes follow, lowest first. */
  lemma VarintLayout(v: nat, i: nat)
    requires v < MAX_LENGTH
    ensures var width := if v < 253 then 0 else if v < 0x1_0000 then 2 else if v < 0x1_0000_0000 then 4 else 8;
            && |Varint(v)| == 1 + width
            && Varint(v)[0] == (if width == 0 then v else if width == 2 then 253 else if width == 4 then 254 else 255)
            && (i < width ==> Varint(v)[1 + i] == ByteOf(v, i))
  {
    hide LittleEndian, ByteOf;
    var width := if v < 253 then 0 else if v < 0x1_0000 then 2 else if v < 0x1_0000_0000 then 4 else 8;
    if i < width {
      LittleBytes(v, width, i);
    }
  }

  /** Main result: a transaction starts with its version, then the counted inputs, then the counted outputs, and ends with
      the lock time; an input names the hash, highest byte first, and the index of the output it spends, and ends with its
      sequence number; an output starts with its value. */
  lemma TxLayout(t: Transaction, x: TxIn, o: TxOut, i: nat)
    ensures i < 4 ==> |WriteTx(t)| >= 8 && WriteTx(t)[i] == ByteOf(t.version % 0x1_0000_0000, i)
                      && WriteTx(t)[|WriteTx(t)| - 4 + i] == ByteOf(t.lockTime, i)
    ensures Varint(|t.inputs|) + WriteAll(WriteIn, t.inputs) + Varint(|t.outputs|) + WriteAll(WriteOut, t.outputs)
            == WriteTx(t)[4..|WriteTx(t)| - 4]
    ensures i < 32 ==> |WriteIn(x)| >= 40 && WriteIn(x)[i] == ByteOf(x.prevout.txHash, 31 - i)
    ensures i < 4 ==> WriteIn(x)[32 + i] == ByteOf(x.prevout.index, i) && WriteIn(x)[|WriteIn(x)| - 4 + i] == ByteOf(x.sequence, i)
    ensures WriteIn(x)[36..|WriteIn(x)| - 4] == Varint(|x.scriptSig|) + x.scriptSig
    ensures i < 8 ==> |WriteOut(o)| >= 8 && WriteOut(o)[i] == ByteOf(o.value % 0x1_0000_0000_0000_0000, i)
    ensures WriteOut(o)[8..] == Varint(|o.script|) + o.script
  {
    hide LittleEndian, BigEndian, Pow256, ByteOf, Varint, WriteAll;
    Ranges();
    if i < 4 {
      LittleBytes(t.version % 0x1_0000_0000, 4, i);
      LittleBytes(t.lockTime, 4, i);
      LittleBytes(x.prevout.index, 4, i);
      LittleBytes(x.sequence, 4, i);
    }
    if i < 32 {
      BigBytes(x.prevout.txHash, 32, i);
    }
    if i < 8 {
      LittleBytes(o.value % 0x1_0000_0000_0000_0000, 8, i);
    }
  }

  /** Main result: a block is its header, the number of its transactions, and each transaction with its length in front. */
  lemma {:induction false} BlockLayout(b: Block, k: nat)
    requires k < |b.transactions|
    ensures |WriteHeader(b.header)| == 80 && WriteHeader(b.header) <= WriteBlock(b)
    ensures Varint(|b.transactions|) + WriteAll(WriteBlockTx, b.transactions) == WriteBlock(b)[80..]
    ensures WriteAll(WriteBlockTx, b.transactions[..k + 1])
            == WriteAll(WriteBlockTx, b.transactions[..k]) + (Varint(|WriteTx(b.transactions[k])|) + WriteTx(b.transactions[k]))
  {
    hide WriteHeader, WriteTx, Varint;
    HeaderLayout(b.header, 0);
    assert b.transactions[..k + 1][..k] == b.transactions[..k];
  }
}
