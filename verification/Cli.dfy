/** The command-line client: its state in memory, and the commands that change it. */
module Cli {
  import opened Bytes
  import opened Crypto
  import opened LinkedList
  import opened Transactions
  import opened Validity
  import opened UpdateUnspent
  import opened Create
  import opened Blocks
  import opened Mining
  import opened Ledger
  import Hex

  function Values(nodes: seq<BlockNode>): (r: seq<Block>)
    reads nodes
    ensures |r| == |nodes|
  {
    if nodes == [] then [] else Values(nodes[..|nodes| - 1]) + [nodes[|nodes| - 1].Value()]
  }

  method ReadValues(nodes: seq<BlockNode>) returns (r: seq<Block>)
    ensures r == Values(nodes)
  {
    r := [];
    for i := 0 to |nodes|
      invariant r == Values(nodes[..i])
    {
      assert nodes[..i + 1][..i] == nodes[..i];
      r := r + [nodes[i].Value()];
    }
    assert nodes[..|nodes|] == nodes;
  }

  /** By amount, one way or the other: the flag the client passes to the sort is neither of the two the library has. */
  predicate SortedByAmount(us: seq<Unspent>) {
    || (forall i, j :: 0 <= i < j < |us| ==> us[i].out.amount <= us[j].out.amount)
    || (forall i, j :: 0 <= i < j < |us| ==> us[i].out.amount >= us[j].out.amount)
  }

  /** blockchain_t */
  class Blockchain {
    var chain: seq<BlockNode>
    var unspent: seq<Unspent>

    /** blockchain_create */
    constructor ()
      ensures fresh(this) && Values(chain) == [Genesis()] && unspent == []
      ensures fresh(chain)
    {
      var node := new BlockNode.FromValue(Genesis());
      chain := [node];
      unspent := [];
    }

    /** update_unspent, on the list in place: for each transaction, a removal an input and an addition an output. */
    method Update(txs: seq<Tx>, blockHash: Digest)
      modifies this`unspent
      ensures unspent == ApplyTxs(old(unspent), blockHash, txs)
    {
      ghost var start := unspent;
      for t := 0 to |txs|
        invariant unspent == ApplyTxs(start, blockHash, txs[..t])
      {
        UpdateByOne(txs[t], blockHash);
        assert txs[..t + 1][..t] == txs[..t];
      }
      assert txs[..|txs|] == txs;
    }

    /** The two inner loops of update_unspent. */
    method UpdateByOne(tx: Tx, blockHash: Digest)
      modifies this`unspent
      ensures unspent == ApplyTx(old(unspent), blockHash, tx)
    {
      ghost var before, hashes, entries := unspent, InHashes(tx.inputs), NewEntries(blockHash, tx);
      for i := 0 to |tx.inputs|
        invariant unspent == Spend(before, hashes[..i])
      {
        unspent := RemoveFirst(unspent, HasHash(tx.inputs[i].txOutHash));
        assert hashes[..i + 1][..i] == hashes[..i];
      }
      assert hashes[..|hashes|] == hashes;
      ghost var rest := unspent;
      for i := 0 to |tx.outputs|
        invariant unspent == rest + entries[..i]
      {
        unspent := unspent + [UnspentCreate(blockHash, tx.id, tx.outputs[i])];
      }
      assert entries[..|entries|] == entries;
    }
  }

  /** state_t */
  class State {
    var wallet: Option<EcKey>
    var blockchain: Blockchain
    var pool: seq<Tx>

    ghost function View(): Ledger
      reads this, blockchain, blockchain.chain
    {
      Ledger(wallet, Values(blockchain.chain), blockchain.unspent, pool)
    }

    constructor ()
      ensures View() == Initial()
      ensures fresh(blockchain) && fresh(blockchain.chain)
    {
      wallet := None;
      blockchain := new Blockchain();
      pool := [];
    }

    method SetWallet(key: EcKey)
      modifies this`wallet
      ensures View() == old(View()).(wallet := Some(key))
    {
      wallet := Some(key);
    }

    /** The list command sorts the unspent outputs by amount; `order` is the order the sort yields. */
    method List(order: seq<Unspent>)
      requires multiset(order) == multiset(blockchain.unspent) && SortedByAmount(order)
      modifies blockchain`unspent
      ensures View() == old(View()).(unspent := order)
      ensures SortedByAmount(blockchain.unspent) && multiset(blockchain.unspent) == old(multiset(blockchain.unspent))
    {
      blockchain.unspent := order;
    }

    /** handle_send */
    method HandleSend(c: Suite, amount: int, address: array<char>, random: nat) returns (status: int)
      modifies this`pool, address
      ensures View() == SendStep(c, old(View()), amount, Receiver(c, old(address[..])), random)
      ensures status == if View().pool == old(View().pool) then -1 else 0
    {
      var pub := Hex.ParsePub(address);
      var receiver := if pub.None? then None else c.fromPub(pub.value);
      var tx := TransactionCreate(c, wallet, receiver, Wrap32(amount), blockchain.unspent, pool, random);
      if tx.None? {
        return -1;
      }
      status := AddToPool(c, tx.value);
    }

    /** The last half of handle_send: the new transaction is validated and appended. */
    method AddToPool(c: Suite, tx: Tx) returns (status: int)
      modifies this`pool
      ensures View() == if TxValid(c, tx, old(blockchain.unspent)) then old(View()).(pool := old(pool) + [tx])
                        else old(View())
      ensures status == if TxValid(c, tx, old(blockchain.unspent)) then 0 else -1
    {
      var valid := TransactionIsValid(c, tx, blockchain.unspent);
      if !valid {
        return -1;
      }
      pool := pool + [tx];
      return 0;
    }

    /** The removal of the first invalid transaction, as often as the pool is long. */
    method FilterPool(c: Suite)
      modifies this`pool
      ensures pool == Without(old(pool), Rejected(c, blockchain.unspent))
    {
      ghost var was, bad := pool, Rejected(c, blockchain.unspent);
      var size := |pool|;
      for i := 0 to size
        invariant Filtered(pool, was, bad, size - i)
      {
        FilterRound(pool, was, bad, size - i);
        RemoveInvalid(c);
      }
      WithoutEmpty(pool, bad);
    }

    /** llist_remove_node: the first invalid transaction goes. */
    method RemoveInvalid(c: Suite)
      modifies this`pool
      ensures pool == RemoveFirst(old(pool), Rejected(c, blockchain.unspent))
    {
      var k := FindInvalid(c);
      if k < |pool| {
        pool := pool[..k] + pool[k + 1..];
      }
    }

    method FindInvalid(c: Suite) returns (k: nat)
      ensures k == FirstIndex(pool, Rejected(c, blockchain.unspent))
    {
      k := 0;
      while k < |pool|
        invariant k <= FirstIndex(pool, Rejected(c, blockchain.unspent))
      {
        var valid := TransactionIsValid(c, pool[k], blockchain.unspent);
        if !valid {
          assert Rejected(c, blockchain.unspent)(pool[k]);
          return;
        }
        k := k + 1;
      }
    }

    /** The first half of mine: the pool is filtered, and the block gets its transactions and its difficulty. */
    method Prepare(c: Suite, block: BlockNode, coinbase: Tx)
      requires block !in blockchain.chain
      modifies this`pool, block
      ensures block.Value() == old(Prepared(c, View(), block.Value(), coinbase))
      ensures View() == old(View()).(pool := old(Accepted(c, View())))
    {
      FilterPool(c);
      block.transactions := Some(TxList(block.Value()) + pool);
      var values := ReadValues(blockchain.chain);
      block.info := block.info.(difficulty := NextDifficulty(values));
      block.transactions := Some([coinbase] + block.transactions.value);
    }

    /** The last half of mine: the unspent outputs are updated, the pool emptied and the block appended. */
    method Append(block: BlockNode)
      requires block !in blockchain.chain && block.transactions.Some?
      modifies this`pool, blockchain
      ensures View() == old(View()).(
                chain := old(View().chain) + [old(block.Value())],
                unspent := ApplyTxs(old(View().unspent), old(block.hash), old(block.transactions.value)),
                pool := [])
    {
      var chain := blockchain.chain;
      blockchain.Update(block.transactions.value, block.hash);
      pool := [];
      blockchain.chain := chain + [block];
      assert blockchain.chain[..|chain|] == chain;
    }

    /** mine: prepares the block, searches its nonce, and commits it or gives it up. */
    method Mine(c: Suite, block: BlockNode, prev: BlockNode, coinbase: Tx) returns (status: int)
      requires blockchain.chain != [] && prev == blockchain.chain[|blockchain.chain| - 1]
      requires block !in blockchain.chain
      requires Minable(c, Prepared(c, View(), block.Value(), coinbase))
      modifies this`pool, blockchain, block
      ensures View() == Commit(c, old(View()), Mined(c, old(Prepared(c, View(), block.Value(), coinbase))))
      ensures status == if |View().chain| > |old(View().chain)| then 0 else -1
    {
      var chain := blockchain.chain;
      Prepare(c, block, coinbase);
      block.Mine(c);
      assert Values(chain) == old(Values(chain)) && prev.Value() == Values(chain)[|chain| - 1];
      var valid := BlockIsValid(c, block.Value(), Some(prev.Value()), blockchain.unspent);
      if !valid {
        return -1;
      }
      Append(block);
      return 0;
    }

    /** handle_mine */
    method HandleMine(c: Suite, time: uint64) returns (status: int)
      requires CanMine(c, View(), time)
      modifies this`pool, blockchain
      ensures View() == MineStep(c, old(View()), time)
      ensures status == if |View().chain| > |old(View().chain)| then 0 else -1
    {
      if wallet.None? {
        return -1;
      }
      var prev := blockchain.chain[|blockchain.chain| - 1];
      var block := new BlockNode(prev.Value(), Zeros(DATA_MAX), time);
      var coinbase := CoinbaseCreate(c, wallet.value, block.info.index);
      var ok := CoinbaseIsValid(c, coinbase, block.info.index);
      CoinbaseIsAccepted(c, wallet.value.pub, block.info.index);
      if !ok {
        return -1;
      }
      status := Mine(c, block, prev, coinbase);
    }
  }
}
