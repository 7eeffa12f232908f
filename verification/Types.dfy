/** Data structures and constants of the chain (core/types.go).
    Hashes are 256-bit numbers, Go strings are byte sequences, and every `uint64`
    operation that could wrap is written with `Add64` or `Sub64`. */
module Types {

  type byte = x: int | 0 <= x < 256
  type Text = seq<byte>

  const TWO64: int := 0x1_0000_0000_0000_0000
  type u64 = x: int | 0 <= x < 0x1_0000_0000_0000_0000

  function Add64(a: u64, b: u64): u64 {
    if a + b < TWO64 then a + b else a + b - TWO64
  }

  function Sub64(a: u64, b: u64): u64 {
    if b <= a then a - b else a - b + TWO64
  }

  /** What a uint64 keeps of a number. */
  function Low64(x: nat): u64 {
    x % 0x1_0000_0000_0000_0000
  }

  const BLOCK_TARGET_SPACING := 60
  const RETARGET_WINDOW := 20
  const LWMA_WINDOW := 90
  const HALVING_INTERVAL := 1_051_200
  const INITIAL_REWARD := 5_000_000_000
  const EPOCH_LENGTH := 4096
  const MAX_BLOCK_TXS := 200
  const MAX_FUTURE_DRIFT := 300
  const COINBASE_MATURITY := 100
  const MATURITY_HEIGHT := 500
  const MIN_FEE_HEIGHT := 450
  const FEE_MARKET_HEIGHT := 3195
  const CHAIN_ID_HEIGHT := 700
  const MAX_MEMPOOL_NONCE_GAP := 256
  const MAX_MEMPOOL_TXNS_PER_SENDER := 4096

  // --------------------------------------------------------------- addresses

  const ADDR_PREFIX: Text := [99, 114, 98, 49] // "crb1"
  const ADDR_LEN := 44

  predicate HexDigit(c: byte) {
    48 <= c <= 57 || 97 <= c <= 102 || 65 <= c <= 70
  }

  predicate ValidAddr(a: Text) {
    && |a| == ADDR_LEN
    && a[..4] == ADDR_PREFIX
    && forall i :: 4 <= i < ADDR_LEN ==> HexDigit(a[i])
  }

  /** The address the genesis coinbase pays to, meant to have no key. */
  function NobodyAddr(): (a: Text)
    ensures ValidAddr(a)
  {
    var zeros: Text := seq(40, _ => 48 as byte);
    assert (ADDR_PREFIX + zeros)[..4] == ADDR_PREFIX;
    ADDR_PREFIX + zeros
  }

  /** An address derived from a public key. */
  type Addr = a: Text | ValidAddr(a) witness NobodyAddr()

  // ------------------------------------------------------------ transactions

  /** The outcome of `FromAddr`: a coinbase has no sender, a malformed public key has no
      address, and any other key is identified with the address derived from it. */
  datatype Sender = NoSender | BadKey | Key(addr: Addr)

  datatype Tx = Tx(sender: Sender, to: Text, amount: u64, fee: u64, nonce: u64, sig: Text) {
    predicate IsCoinbase() {
      sender.NoSender?
    }

    predicate SentBy(a: Text) {
      sender.Key? && sender.addr == a
    }

    /** The address callers use after ignoring FromAddr's error: "" when there is none. */
    function From(): Text {
      if sender.Key? then sender.addr else []
    }
  }

  // ------------------------------------------------------------------ blocks

  /** The fields as they are serialised into the 124 header bytes. */
  datatype Header = Header(version: nat, height: u64, time: u64, prev: nat, txRoot: nat, target: nat, nonce: u64)

  /** `hexOk`: PrevHash is 64 lower-case hex digits, the only spelling that can equal a hash string,
      and TxRoot is 64 hex digits of either case. `rootLower`: TxRoot is in lower case, which the
      root commitment is compared with only after the proof of work. `targetOk`: Target is 64 hex
      digits of either case. A field that is not still contributes (truncated) bytes to the header,
      and so to the hash. */
  datatype Block = Block(hd: Header, hexOk: bool, rootLower: bool, targetOk: bool, txs: seq<Tx>)

  /** The epoch seed: the fixed seed of epoch 0, or the hash of an epoch's boundary block. */
  datatype Seed = Seed0 | SeedOf(hash: nat)

  /** Everything the node calls but does not define itself. Every result below holds for all
      values of these functions, under `Ideal` where it says so. */
  datatype Crypto = Crypto(
    hash: Header -> nat,
    txId: Tx -> nat,
    txRoot: seq<nat> -> nat,
    sigOk: (Tx, bool) -> bool,
    pow: (Seed, Header) -> nat,
    legacyFee: (nat, nat) -> u64,
    genesisSig: Text)

  /** Collision freedom of the three identities. */
  ghost predicate Ideal(cr: Crypto) {
    && (forall a, b :: cr.hash(a) == cr.hash(b) ==> a == b)
    && (forall a, b :: cr.txId(a) == cr.txId(b) ==> a == b)
    && (forall a, b :: cr.txRoot(a) == cr.txRoot(b) ==> a == b)
  }

  function Hash(cr: Crypto, b: Block): nat {
    cr.hash(b.hd)
  }

  function Ids(cr: Crypto, txs: seq<Tx>): (ids: seq<nat>)
    ensures |ids| == |txs|
    ensures forall i :: 0 <= i < |txs| ==> ids[i] == cr.txId(txs[i])
  {
    seq(|txs|, i requires 0 <= i < |txs| => cr.txId(txs[i]))
  }

  function TxRoot(cr: Crypto, txs: seq<Tx>): nat {
    cr.txRoot(Ids(cr, txs))
  }

  // ----------------------------------------------------------------- genesis

  const GENESIS_TIME: u64 := 1_781_136_000
  const GENESIS_TARGET: nat := 0x2_0000_0000_0000_0000_0000_0000_0000_0000_0000_0000_0000_0000_0000_0000_0000
  const MAX_TARGET: nat := 0x10_0000_0000_0000_0000_0000_0000_0000_0000_0000_0000_0000_0000_0000_0000_0000

  /** The genesis block pays nothing to an unspendable address. */
  function Genesis(cr: Crypto): Block {
    var cb := Tx(NoSender, NobodyAddr(), 0, 0, 0, cr.genesisSig);
    Block(Header(1, 0, GENESIS_TIME, 0, TxRoot(cr, [cb]), GENESIS_TARGET, 0), true, true, true, [cb])
  }

  // ----------------------------------------------------------------- subsidy

  function ShiftRight(x: nat, k: nat): nat {
    if k == 0 then x else ShiftRight(x, k - 1) / 2
  }

  function BlockSubsidy(height: nat): u64 {
    var halvings := height / HALVING_INTERVAL;
    if halvings >= 33 then 0 else ShiftRightBound(INITIAL_REWARD, halvings); ShiftRight(INITIAL_REWARD, halvings)
  }

  lemma {:induction false} ShiftRightBound(x: nat, k: nat)
    ensures ShiftRight(x, k) <= x
  {
    if k > 0 {
      ShiftRightBound(x, k - 1);
    }
  }

  /** Fees of a block as the uint64 sum the node computes. */
  function TotalFees(txs: seq<Tx>): u64 {
    if |txs| == 0 then 0 else
      var t := txs[|txs| - 1];
      var rest := TotalFees(txs[..|txs| - 1]);
      if t.IsCoinbase() then rest else Add64(rest, t.fee)
  }
}
