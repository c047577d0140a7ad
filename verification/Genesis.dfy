/** The first block of a network and the tables of a node that knows nothing else. */
module Genesis {
  import opened Arith
  import opened CompactTarget
  import opened Primitives
  import opened Utxo
  import opened PathValidation
  import opened ChainState
  import opened ChainSteps
  import opened ForkChoice

  const GENESIS_ADDRESS: seq<Byte> := Ascii("AAECAwQFBgcICQoLDA0ODxAREhM=")

  function GenesisCoinbase(): Transaction {
    FirstReward();
    Transaction(1, [TxIn(OutPoint(0, NULL_INDEX), [], 0xFFFF_FFFF)], [TxOut(BlockReward(0), GENESIS_ADDRESS)], 0)
  }

  lemma FirstReward()
    ensures BlockReward(0) == INITIAL_BLOCK_REWARD * SATOSHIS
  {
  }

  function GenesisBlock(r: Rules): Block {
    var txs := [GenesisCoinbase()];
    Block(Header(1, 0, r.c.MerkleRoot(txs), r.p.genesisTimestamp, r.p.powLimitBits, r.p.genesisNonce), txs)
  }

  function GenesisState(r: Rules): State {
    var g := GenesisBlock(r);
    var id := r.c.Id(g.header);
    State(0, id, g.header.bits, map[0 := id], map[id := g.header], map[r.c.Link(g.header) := id], map[id := 0],
          map[id := BlockWork(r.p, g.header.bits)], map[], map[id := g], map[id := 0],
          Some(Checkpoint(0, id)), false, Apply(r.c, map[], g.transactions[0], 0).utxo)
  }

  /** The first block passes every check of a path once its timestamp is acceptable. */
  lemma GenesisReplay(r: Rules, now: nat)
    requires !TooFarInFuture(r.p, r.p.genesisTimestamp, now)
    ensures Replay(r, [GenesisBlock(r)], now, false)
            == Accepted(Apply(r.c, map[], GenesisCoinbase(), 0).utxo)
  {
    hide IsCanonical, CheckPow, BlockReward, AddOutputs;
    var g := GenesisBlock(r);
    FirstReward();
    assert [g][..0] == [];
    assert Replay(r, [], now, false) == Accepted(map[]);
    assert HeaderFault(r, [], g, now, false).None?;
    GenesisTransactions(r);
  }

  lemma GenesisTransactions(r: Rules)
    ensures TransactionsOutcome(r, GenesisBlock(r), 0, map[]) == Accepted(Apply(r.c, map[], GenesisCoinbase(), 0).utxo)
  {
    hide AddOutputs, BlockReward;
    var coinbase := GenesisCoinbase();
    FirstReward();
    var txs := [coinbase];
    assert ApplyAll(r.c, map[], txs, 0, 0) == Applied(None, map[], 0);
    assert ApplyAll(r.c, map[], txs, 0, 1) == ApplyNext(r.c, ApplyAll(r.c, map[], txs, 0, 0), coinbase, 0, 0);
    assert OutputSum(coinbase.outputs[..0]) == 0;
    assert coinbase.TotalOutputValue() == BlockReward(0);
  }

  lemma GenesisTables(r: Rules)
    requires r.c.Sound()
    ensures TablesOk(r, GenesisState(r))
    ensures ActiveBlocks(r, GenesisState(r)) == [GenesisBlock(r)]
    ensures ActiveHeaders(r, GenesisState(r)) == [GenesisBlock(r).header]
    ensures ActivePath(GenesisState(r)) == [r.c.Id(GenesisBlock(r).header)]
  {
    hide BlockWork, Apply;
    var s := GenesisState(r);
    var id := r.c.Id(GenesisBlock(r).header);
    assert PathOfMap(s.heightMap, 0) == [id];
    assert WorkAt(r.p, s.index, s.links, s.work, s.heights, id);
  }

  /** The tables of a new node are consistent and its outputs are those of the first block. */
  lemma GenesisConsistent(r: Rules, now: nat)
    requires r.c.Sound() && !TooFarInFuture(r.p, r.p.genesisTimestamp, now)
    ensures TablesOk(r, GenesisState(r)) && UtxoOk(r, GenesisState(r), now, false)
    ensures RunOk(r.p, [GenesisBlock(r).header], [], ActiveHeaders(r, GenesisState(r)))
    ensures GenesisState(r).heightMap == map[0 := r.c.Id(GenesisBlock(r).header)]
    ensures GenesisState(r).pool == map[r.c.Id(GenesisBlock(r).header) := GenesisBlock(r)]
  {
    hide TablesOk, Replay, BlockWork, Apply, ActiveBlocks, ActiveHeaders;
    GenesisTables(r);
    GenesisReplay(r, now);
    assert GenesisState(r).utxo == Apply(r.c, map[], GenesisCoinbase(), 0).utxo;
  }

  lemma GenesisHeight(r: Rules)
    ensures GenesisState(r).best == 0
  {
  }

  lemma GenesisShape(r: Rules)
    ensures GenesisBlock(r).transactions == [GenesisCoinbase()]
  {
  }
}
