/** The ledger as a state machine: what each command does to the wallet, the chain, the list of unspent
    outputs and the transaction pool. */
module Ledger {
  import opened Bytes
  import opened Crypto
  import opened LinkedList
  import opened Transactions
  import opened Validity
  import opened UpdateUnspent
  import opened Create
  import opened Blocks
  import opened Mining
  import Hex

  datatype Ledger = Ledger(wallet: Option<EcKey>, chain: seq<Block>, unspent: seq<Unspent>, pool: seq<Tx>)

  function Initial(): Ledger {
    Ledger(None, [Genesis()], [], [])
  }

  /** The commands. A signature's randomness, the clock and the order a sort produces are inputs. */
  datatype Step =
    | SetWallet(key: EcKey)
    | Send(amount: int, address: string, random: nat)
    | Mine(time: uint64)
    | List(order: seq<Unspent>)

  /** The receiver an address denotes, None when it is no key. */
  function Receiver(c: Suite, address: string): Option<Pub> {
    var pub := Hex.StringToPub(address);
    if pub.None? then None else c.fromPub(pub.value)
  }

  function SendStep(c: Suite, s: Ledger, amount: int, receiver: Option<Pub>, random: nat): Ledger {
    var tx := NewTransaction(c, s.wallet, receiver, Wrap32(amount), s.unspent, s.pool, random);
    if tx.Some? && TxValid(c, tx.value, s.unspent) then s.(pool := s.pool + [tx.value]) else s
  }

  // ---- mining ----

  /** invalid_tx: the pooled transactions that are to be dropped. */
  function Rejected(c: Suite, us: seq<Unspent>): Tx -> bool {
    (tx: Tx) => !TxValid(c, tx, us)
  }

  /** The pooled transactions that are valid, in order. */
  function Accepted(c: Suite, s: Ledger): seq<Tx> {
    Without(s.pool, Rejected(c, s.unspent))
  }

  function Tip(s: Ledger): Block
    requires s.chain != []
  {
    s.chain[|s.chain| - 1]
  }

  /** A new block made ready for its nonce: the accepted transactions at its rear, the coinbase in front. */
  function Prepared(c: Suite, s: Ledger, b: Block, coinbase: Tx): Block {
    b.(info := b.info.(difficulty := NextDifficulty(s.chain)),
       transactions := Some([coinbase] + (TxList(b) + Accepted(c, s))))
  }

  /** The block a miner works on. */
  function Candidate(c: Suite, s: Ledger, miner: Pub, time: uint64): Block
    requires s.chain != []
  {
    var b := NewBlock(Tip(s), Zeros(DATA_MAX), time);
    Prepared(c, s, b, Coinbase(c, miner, b.info.index))
  }

  /** The mine command comes to an end: there is no wallet, or some nonce suits the block. */
  ghost predicate CanMine(c: Suite, s: Ledger, time: uint64) {
    s.chain != [] && (s.wallet.Some? ==> Minable(c, Candidate(c, s, s.wallet.value.pub, time)))
  }

  /** What becomes of the state when the mined block is b. */
  function Commit(c: Suite, s: Ledger, b: Block): Ledger
    requires s.chain != [] && b.info.difficulty <= 256
  {
    if BlockValid(c, b, Some(Tip(s)), s.unspent)
    then s.(chain := s.chain + [b], unspent := ApplyTxs(s.unspent, b.hash, TxList(b)), pool := [])
    else s.(pool := Accepted(c, s))
  }

  ghost function MineStep(c: Suite, s: Ledger, time: uint64): Ledger
    requires CanMine(c, s, time)
  {
    if s.wallet.None? then s
    else Commit(c, s, Mined(c, Candidate(c, s, s.wallet.value.pub, time)))
  }

  // ---- runs ----

  ghost predicate Enabled(c: Suite, s: Ledger, step: Step) {
    match step
    case Mine(time) => CanMine(c, s, time)
    case List(order) => multiset(order) == multiset(s.unspent)
    case _ => true
  }

  ghost function Next(c: Suite, s: Ledger, step: Step): Ledger
    requires Enabled(c, s, step)
  {
    match step
    case SetWallet(key) => s.(wallet := Some(key))
    case Send(amount, address, random) => SendStep(c, s, amount, Receiver(c, address), random)
    case Mine(time) => MineStep(c, s, time)
    case List(order) => s.(unspent := order)
  }

  /** The state s leads to by these commands, None when one of them never returns. */
  ghost function RunFrom(c: Suite, s: Ledger, steps: seq<Step>): Option<Ledger> {
    if steps == [] then Some(s)
    else
      var n := |steps| - 1;
      var before := RunFrom(c, s, steps[..n]);
      if before.Some? && Enabled(c, before.value, steps[n]) then Some(Next(c, before.value, steps[n])) else None
  }

  /** s is reached from the start by these commands. */
  ghost predicate Reached(c: Suite, steps: seq<Step>, s: Ledger) {
    RunFrom(c, Initial(), steps) == Some(s)
  }
}
