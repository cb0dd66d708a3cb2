/** Blocks as lists of value legs, the state a node keeps, and what validation demands of a block.
    Hidden amounts and hidden positions are ordinary fields here; every proof check is the relation
    that the proof establishes. */
module LedgerModel {
  import opened Params
  import opened Contracts

  const SUPPLY_CAP: nat := 18_400_000_000_000_000_000
  const TAIL_EMISSION: nat := 600_000_000_000
  const POOL_BPS: nat := 500
  const FLEX_RATE: nat := 500
  const BLOCKS_PER_YEAR: nat := 262_800
  const COINBASE_MATURITY: nat := 60
  const RING: nat := 16
  const SWAP_MARGIN: nat := POW_SEED_LAG
  const FEE_PER_BYTE: nat := 1000
  const MAX_LEGS: nat := 1024
  const ANCHOR_WINDOW: nat := 100_000
  const CONFIDENTIAL: nat := 0x1000_0000_0000_0000
  /** The order of the commitment group. */
  const ORDER: nat := 0x1000_0000_0000_0000_0000_0000_0000_0000_14de_f9de_a2f7_9cd6_5812_631a_5cf5_d3ed

  // --------------------------------------------------------------------------- entities

  /** A one-time key: the point of a secret plus a low-order part. */
  datatype Key = Key(secret: nat, twist: nat)

  /** A key image or anonymous tag; clearing the cofactor forgets the low-order part. */
  datatype Image = Image(core: nat, twist: nat)

  datatype Coin = Coin(key: Key, value: nat, height: nat, coinbase: bool, lock: nat)

  /** A commitment-tree leaf; its owner's secrets fix the nullifier. */
  datatype Note = Note(nullifier: nat, value: nat, blind: nat)

  datatype Leg =
    | Spend(ref: Key, image: Image, pseudo: nat)
    | Anon(pool: nat, tag: Image, pseudo: nat, member: nat)
    | SwapIn(swap: Id, refund: bool)
    | VaultIn(vault: Id, interest: nat)
    | SwapOut(swap: Id, nonce: Id, amount: nat, unlock: nat)
    | VaultOut(vault: Id, amount: nat, term: nat)
    | Out(key: Key, prime: nat, value: nat, lock: nat)
    | ZkIn(nullifier: nat, anchor: nat, amount: nat, at: nat)
    | ZkOut(leaf: Note, amount: nat)
    | Czk(nullifier: nat, anchor: nat, fee: nat, leaf: Note, at: nat)
    | PqIn(pq: Id)
    | PqOut(pq: Id, amount: nat)

  /** signed: every ownership, claim and authority signature verifies. */
  datatype Tx = Tx(legs: seq<Leg>, fee: nat, size: nat, signed: bool)

  datatype Coinbase = Coinbase(outs: seq<Leg>, minted: nat, height: nat)

  datatype Block = Block(height: nat, coinbase: Coinbase, txs: seq<Tx>)

  /** The consensus state. tags is both the nullifier set and the nullifier accumulator's log; an
      anchor is the number of leaves below it. */
  datatype State = State(
    height: nat,
    coins: seq<Coin>, primes: seq<nat>, spent: set<Key>, tags: seq<nat>,
    notes: seq<Note>, anchors: seq<nat>, zkNull: set<nat>,
    swaps: map<Id, Contract>, nonces: set<Id>, vaults: map<Id, Contract>,
    pqUtxo: map<Id, Contract>, pqKeys: seq<Id>, pqNull: set<Id>,
    emitted: nat, pool: nat)

  /** Before any block but genesis, which mints nothing. */
  predicate IsGenesis(S: State) {
    && S.height == 0 && S.coins == [] && S.primes == [] && S.spent == {} && S.tags == []
    && S.notes == [] && S.anchors == [] && S.zkNull == {}
    && S.swaps == map[] && S.nonces == {} && S.vaults == map[]
    && S.pqUtxo == map[] && S.pqKeys == [] && S.pqNull == {} && S.emitted == 0 && S.pool == 0
  }

  // ------------------------------------------------------------------------- economics

  function BlockReward(emitted: nat): nat {
    if emitted >= SUPPLY_CAP then TAIL_EMISSION else
      var reward := (SUPPLY_CAP - emitted) / 524_288;
      if reward < TAIL_EMISSION then TAIL_EMISSION else reward
  }

  function PoolShare(emitted: nat): nat {
    BlockReward(emitted) * POOL_BPS / 10_000
  }

  function VaultRate(term: nat): int {
    match term
    case 0 => FLEX_RATE
    case 21_600 => 100
    case 64_800 => 400
    case 262_800 => 2000
    case _ => -1
  }

  /** What a vault may claim at a height, or -1 when the amount does not fit 64 bits. */
  function YieldCap(v: Contract, height: nat): int
    requires v.Vault?
  {
    if v.term != 0 then
      var y := v.amount * v.rate / 10_000;
      if y > MAX64 then -1 else y
    else
      var elapsed := if height > v.deposit then height - v.deposit else 0;
      var y := v.amount * FLEX_RATE * elapsed / (BLOCKS_PER_YEAR * 10_000);
      if y > MAX64 then 0 else y
  }

  // -------------------------------------------------------------------- one leg at a time

  /** Position of the coin with a key, or the number of coins. */
  function IndexOf(coins: seq<Coin>, key: Key): (i: nat)
    ensures i <= |coins|
    ensures i < |coins| ==> coins[i].key == key
    ensures i == |coins| ==> forall j :: 0 <= j < |coins| ==> coins[j].key != key
  {
    if coins == [] then 0
    else if coins[0].key == key then 0
    else IndexOf(coins[1..], key) + 1
  }

  predicate Mature(c: Coin, h: nat) {
    c.coinbase ==> h >= c.height + COINBASE_MATURITY
  }

  /** The anonymity pool is complete and all its coins are mature. */
  predicate PoolUsable(coins: seq<Coin>, pool: nat, h: nat) {
    RING * pool + RING <= |coins| && forall i :: RING * pool <= i < RING * pool + RING ==> Mature(coins[i], h)
  }

  predicate SpendOk(S: State, h: nat, ref: Key, image: Image, pseudo: nat) {
    && ref !in S.spent && IndexOf(S.coins, ref) < |S.coins|
    && (var c := S.coins[IndexOf(S.coins, ref)];
        Mature(c, h) && h >= c.lock && pseudo == c.value)
    && image.core != 0 && image.core !in S.tags && image.core == ref.secret
  }

  predicate AnonOk(S: State, h: nat, pool: nat, tag: Image, pseudo: nat, member: nat) {
    && tag.core != 0 && tag.core !in S.tags && PoolUsable(S.coins, pool, h) && member < RING
    && tag.core == S.coins[RING * pool + member].key.secret
    && pseudo == S.coins[RING * pool + member].value
  }

  /** A refund from the unlock height on, a claim only a margin before it. */
  predicate SwapInOk(S: State, h: nat, k: Id, refund: bool) {
    && k in S.swaps && S.swaps[k].Swap?
    && (if refund then h >= S.swaps[k].unlock
        else S.swaps[k].unlock >= SWAP_MARGIN && h <= S.swaps[k].unlock - SWAP_MARGIN)
  }

  predicate VaultInOk(S: State, h: nat, k: Id, interest: nat) {
    && k in S.vaults && S.vaults[k].Vault? && h >= S.vaults[k].deposit + S.vaults[k].term
    && interest <= YieldCap(S.vaults[k], h)
  }

  predicate OutOk(S: State, key: Key, prime: nat, value: nat) {
    key != Key(0, 0) && value <= MAX64 && prime !in S.primes && IndexOf(S.coins, key) == |S.coins|
  }

  /** The leaf at a position below a known anchor carries this nullifier. */
  predicate NoteOk(S: State, nullifier: nat, anchor: nat, at: nat) {
    && nullifier !in S.zkNull && anchor in S.anchors && at < anchor && at < |S.notes|
    && S.notes[at].nullifier == nullifier
  }

  predicate LegOk(S: State, h: nat, leg: Leg) {
    match leg
    case Spend(ref, image, pseudo) => SpendOk(S, h, ref, image, pseudo)
    case Anon(pool, tag, pseudo, member) => AnonOk(S, h, pool, tag, pseudo, member)
    case SwapIn(k, refund) => SwapInOk(S, h, k, refund)
    case VaultIn(k, y) => VaultInOk(S, h, k, y)
    case SwapOut(k, nonce, amount, unlock) =>
      k !in S.swaps && nonce !in S.nonces && 0 < amount <= SUPPLY_CAP && unlock >= h + SWAP_MARGIN
    case VaultOut(k, amount, term) => VaultRate(term) >= 0 && 0 < amount <= SUPPLY_CAP && k !in S.vaults
    case Out(key, prime, value, _) => OutOk(S, key, prime, value)
    case ZkIn(nf, anchor, amount, at) => amount <= SUPPLY_CAP && NoteOk(S, nf, anchor, at)
          && S.notes[at].value == amount
    case ZkOut(leaf, amount) => amount <= SUPPLY_CAP && leaf.value == amount
    case Czk(nf, anchor, fee, leaf, at) =>
      && fee < CONFIDENTIAL && NoteOk(S, nf, anchor, at)
      && leaf.value < CONFIDENTIAL && S.notes[at].value < CONFIDENTIAL && S.notes[at].value == leaf.value + fee
    case PqIn(k) => k in S.pqUtxo && S.pqUtxo[k].PqCoin? && k !in S.pqNull
    case PqOut(k, amount) => 0 < amount <= SUPPLY_CAP && k !in S.pqKeys
  }

  /** The block-wide duplicate maps: what a leg claims for itself. */
  datatype Mark = RefMark(ref: Key) | TagMark(tag: nat) | SwapInMark(id: Id) | VaultInMark(id: Id)
    | SwapOutMark(id: Id) | NonceMark(id: Id) | VaultOutMark(id: Id) | KeyMark(key: Key)
    | PrimeMark(prime: nat) | ZkMark(nullifier: nat) | PqMark(id: Id) | PqKeyMark(id: Id)

  function Marks(leg: Leg): set<Mark> {
    match leg
    case Spend(ref, image, _) => {RefMark(ref), TagMark(image.core)}
    case Anon(_, tag, _, _) => {TagMark(tag.core)}
    case SwapIn(k, _) => {SwapInMark(k)}
    case VaultIn(k, _) => {VaultInMark(k)}
    case SwapOut(k, nonce, _, _) => {SwapOutMark(k), NonceMark(nonce)}
    case VaultOut(k, _, _) => {VaultOutMark(k)}
    case Out(key, prime, _, _) => {KeyMark(key), PrimeMark(prime)}
    case ZkIn(nf, _, _, _) => {ZkMark(nf)}
    case ZkOut(_, _) => {}
    case Czk(nf, _, _, _, _) => {ZkMark(nf)}
    case PqIn(k) => {PqMark(k)}
    case PqOut(k, _) => {PqKeyMark(k)}
  }

  function AllMarks(L: seq<Leg>): set<Mark> {
    if L == [] then {} else AllMarks(L[..|L| - 1]) + Marks(L[|L| - 1])
  }

  /** Every leg's marks are new when it is reached. */
  predicate Fresh(L: seq<Leg>, seen: set<Mark>) {
    L != [] ==> Fresh(L[..|L| - 1], seen) && Marks(L[|L| - 1]) !! (seen + AllMarks(L[..|L| - 1]))
  }

  predicate AllOk(S: State, h: nat, L: seq<Leg>) {
    forall i {:trigger L[i]} :: 0 <= i < |L| ==> LegOk(S, h, L[i])
  }

  // ------------------------------------------------------------------------ value per leg

  /** Hidden and public value on the two sides of a transaction. */
  datatype Tally = Tally(pseudo: nat, publicIn: nat, outs: nat, publicOut: nat)

  function Entry(S: State, leg: Leg): Tally {
    match leg
    case Spend(_, _, p) => Tally(p, 0, 0, 0)
    case Anon(_, _, p, _) => Tally(p, 0, 0, 0)
    case SwapIn(k, _) => Tally(0, if k in S.swaps then S.swaps[k].amount else 0, 0, 0)
    case VaultIn(k, y) => Tally(0, (if k in S.vaults then S.vaults[k].amount else 0) + y, 0, 0)
    case SwapOut(_, _, a, _) => Tally(0, 0, 0, a)
    case VaultOut(_, a, _) => Tally(0, 0, 0, a)
    case Out(_, _, v, _) => Tally(0, 0, v, 0)
    case ZkIn(_, _, a, _) => Tally(0, a, 0, 0)
    case ZkOut(_, a) => Tally(0, 0, 0, a)
    case Czk(_, _, f, _, _) => Tally(0, f, 0, 0)
    case PqIn(_) => Tally(0, 0, 0, 0)
    case PqOut(_, _) => Tally(0, 0, 0, 0)
  }

  function Add(a: Tally, b: Tally): Tally {
    Tally(a.pseudo + b.pseudo, a.publicIn + b.publicIn, a.outs + b.outs, a.publicOut + b.publicOut)
  }

  function TallyOf(S: State, L: seq<Leg>): Tally {
    if L == [] then Tally(0, 0, 0, 0) else Add(TallyOf(S, L[..|L| - 1]), Entry(S, L[|L| - 1]))
  }

  /** Post-quantum value in and out; it never meets the other kinds. */
  function PqNet(S: State, L: seq<Leg>): (int, int) {
    if L == [] then (0, 0) else
      var (i, o) := PqNet(S, L[..|L| - 1]);
      match L[|L| - 1]
      case PqIn(k) => (i + (if k in S.pqUtxo then S.pqUtxo[k].amount else 0), o)
      case PqOut(_, a) => (i, o + a)
      case _ => (i, o)
  }

  function YieldSum(L: seq<Leg>): nat {
    if L == [] then 0 else
      YieldSum(L[..|L| - 1]) + if L[|L| - 1].VaultIn? then L[|L| - 1].interest else 0
  }

  // ------------------------------------------------------------------------ transactions

  predicate IsPq(leg: Leg) { leg.PqIn? || leg.PqOut? }

  predicate IsInput(leg: Leg) {
    leg.Spend? || leg.Anon? || leg.SwapIn? || leg.VaultIn? || leg.ZkIn? || leg.Czk? || leg.PqIn?
  }

  predicate IsOutput(leg: Leg) {
    leg.SwapOut? || leg.VaultOut? || leg.Out? || leg.ZkOut? || leg.Czk? || leg.PqOut?
  }

  predicate HasPq(t: Tx) { exists i :: 0 <= i < |t.legs| && IsPq(t.legs[i]) }

  function Kind(leg: Leg): nat {
    match leg
    case Spend(_, _, _) => 0 case Anon(_, _, _, _) => 1 case SwapIn(_, _) => 2 case VaultIn(_, _) => 3
    case SwapOut(_, _, _, _) => 4 case VaultOut(_, _, _) => 5 case Out(_, _, _, _) => 6 case ZkIn(_, _, _, _) => 7
    case ZkOut(_, _) => 8 case Czk(_, _, _, _, _) => 9 case PqIn(_) => 10 case PqOut(_, _) => 11
  }

  function Count(L: seq<Leg>, kind: nat): nat {
    if L == [] then 0 else Count(L[..|L| - 1], kind) + if Kind(L[|L| - 1]) == kind then 1 else 0
  }

  /** Presence, limits, fee and signatures, which both kinds of transaction share. */
  predicate ShapeOk(t: Tx) {
    && (exists i :: 0 <= i < |t.legs| && IsInput(t.legs[i]))
    && (exists i :: 0 <= i < |t.legs| && IsOutput(t.legs[i]))
    && (forall k {:trigger Count(t.legs, k)} :: 0 <= k < 12 ==> Count(t.legs, k) <= MAX_LEGS)
    && t.size * FEE_PER_BYTE <= MAX64 && t.fee >= t.size * FEE_PER_BYTE && t.signed
  }

  /** What the conservation proof establishes: the two sides agree in the group of commitments. */
  predicate Conserves(y: Tally, publicOut: nat) {
    (y.pseudo + y.publicIn - y.outs - publicOut) % ORDER == 0
  }

  predicate ClassicOk(S: State, t: Tx) {
    var y := TallyOf(S, t.legs);
    y.publicIn <= MAX64 && t.fee + y.publicOut <= MAX64 && Conserves(y, t.fee + y.publicOut)
  }

  /** Only post-quantum legs, public amounts that add up, the fee burned. */
  predicate PqTxOk(S: State, t: Tx) {
    var (i, o) := PqNet(S, t.legs);
    && (forall k :: 0 <= k < |t.legs| ==> IsPq(t.legs[k]))
    && i <= MAX64 && o + t.fee <= MAX64 && i == o + t.fee
  }

  /** Everything about a transaction except duplicates within the block. */
  predicate TxOk(S: State, h: nat, t: Tx) {
    ShapeOk(t) && AllOk(S, h, t.legs) && if HasPq(t) then PqTxOk(S, t) else ClassicOk(S, t)
  }

  // ------------------------------------------------------------------------------ blocks

  function Flatten(txs: seq<Tx>): seq<Leg> {
    if txs == [] then [] else Flatten(txs[..|txs| - 1]) + txs[|txs| - 1].legs
  }

  function AllLegs(b: Block): seq<Leg> {
    b.coinbase.outs + Flatten(b.txs)
  }

  /** Fees the coinbase may collect: those of post-quantum transactions stay burned. */
  function Fees(txs: seq<Tx>): nat {
    if txs == [] then 0 else Fees(txs[..|txs| - 1]) + if HasPq(txs[|txs| - 1]) then 0 else txs[|txs| - 1].fee
  }

  predicate OnlyOuts(L: seq<Leg>) {
    forall i :: 0 <= i < |L| ==> L[i].Out?
  }

  predicate CoinbaseOk(S: State, b: Block) {
    var fees, base, share := Fees(b.txs), BlockReward(S.emitted), PoolShare(S.emitted);
    && OnlyOuts(b.coinbase.outs) && |b.coinbase.outs| <= MAX_BLOCK_BYTES && b.coinbase.height == b.height
    && fees <= MAX64 && share <= base && base - share + fees <= MAX64
    && b.coinbase.minted == base - share + fees && b.coinbase.minted <= SUPPLY_CAP
    && (b.coinbase.minted - TallyOf(S, b.coinbase.outs).outs) % ORDER == 0
  }

  predicate AllTxsOk(S: State, h: nat, txs: seq<Tx>) {
    forall i {:trigger txs[i]} :: 0 <= i < |txs| ==> TxOk(S, h, txs[i])
  }

  /** validateBlockLocked, as far as value and duplicates are concerned. */
  predicate BlockOk(S: State, b: Block) {
    && b.height == S.height + 1
    && CoinbaseOk(S, b) && AllOk(S, b.height, b.coinbase.outs) && AllTxsOk(S, b.height, b.txs)
    && Fresh(AllLegs(b), {})
    && YieldSum(AllLegs(b)) <= S.pool
  }
}
