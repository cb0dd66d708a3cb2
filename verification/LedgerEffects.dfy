/** What a block does to each part of the state, as functions of its legs in order. */
module LedgerEffects {
  import opened Params
  import opened Sequences
  import opened Contracts
  import opened HiddenValue
  import opened LedgerModel

  function CoinsOf(leg: Leg, h: nat, coinbase: bool): seq<Coin> {
    match leg
    case Out(key, _, value, lock) => [Coin(key, value, h, coinbase, lock)]
    case _ => []
  }

  /** The coins of the first n legs are the coinbase's. */
  function NewCoins(L: seq<Leg>, h: nat, n: nat): seq<Coin> {
    if L == [] then [] else NewCoins(L[..|L| - 1], h, n) + CoinsOf(L[|L| - 1], h, |L| - 1 < n)
  }

  function PrimesOf(leg: Leg): seq<nat> {
    match leg
    case Out(_, prime, _, _) => [prime]
    case _ => []
  }

  function NewPrimes(L: seq<Leg>): seq<nat> {
    if L == [] then [] else NewPrimes(L[..|L| - 1]) + PrimesOf(L[|L| - 1])
  }

  function RefsOf(leg: Leg): set<Key> {
    match leg
    case Spend(ref, _, _) => {ref}
    case _ => {}
  }

  function NewRefs(L: seq<Leg>): set<Key> {
    if L == [] then {} else NewRefs(L[..|L| - 1]) + RefsOf(L[|L| - 1])
  }

  function TagsOf(leg: Leg): seq<nat> {
    match leg
    case Spend(_, image, _) => [image.core]
    case Anon(_, tag, _, _) => [tag.core]
    case _ => []
  }

  /** blockTagsFromTxs. */
  function NewTags(L: seq<Leg>): seq<nat> {
    if L == [] then [] else NewTags(L[..|L| - 1]) + TagsOf(L[|L| - 1])
  }

  function UsesOf(S: State, leg: Leg): seq<nat> {
    match leg
    case Spend(ref, _, _) => [IndexOf(S.coins, ref)]
    case Anon(pool, _, _, member) => [RING * pool + member]
    case _ => []
  }

  /** The coins behind those tags: the named one, or the hidden member of the pool. */
  function NewUses(S: State, L: seq<Leg>): seq<nat> {
    if L == [] then [] else NewUses(S, L[..|L| - 1]) + UsesOf(S, L[|L| - 1])
  }

  function NotesOf(leg: Leg): seq<Note> {
    match leg
    case ZkOut(leaf, _) => [leaf]
    case Czk(_, _, _, leaf, _) => [leaf]
    case _ => []
  }

  /** cmLeavesFromTxs. */
  function NewNotes(L: seq<Leg>): seq<Note> {
    if L == [] then [] else NewNotes(L[..|L| - 1]) + NotesOf(L[|L| - 1])
  }

  function NullifiersOf(leg: Leg): seq<nat> {
    match leg
    case ZkIn(nf, _, _, _) => [nf]
    case Czk(nf, _, _, _, _) => [nf]
    case _ => []
  }

  function NewNullifiers(L: seq<Leg>): seq<nat> {
    if L == [] then [] else NewNullifiers(L[..|L| - 1]) + NullifiersOf(L[|L| - 1])
  }

  function RedeemsOf(leg: Leg): seq<nat> {
    match leg
    case ZkIn(_, _, _, at) => [at]
    case Czk(_, _, _, _, at) => [at]
    case _ => []
  }

  /** The leaves behind those nullifiers. */
  function NewRedeems(L: seq<Leg>): seq<nat> {
    if L == [] then [] else NewRedeems(L[..|L| - 1]) + RedeemsOf(L[|L| - 1])
  }

  function SwapDelsOf(leg: Leg): seq<Op> {
    match leg
    case SwapIn(k, _) => [Del(k)]
    case _ => []
  }

  function SwapDels(L: seq<Leg>): seq<Op> {
    if L == [] then [] else SwapDels(L[..|L| - 1]) + SwapDelsOf(L[|L| - 1])
  }

  function SwapPutsOf(leg: Leg): seq<Op> {
    match leg
    case SwapOut(k, nonce, amount, unlock) => [Put(k, Swap(amount, unlock, nonce))]
    case _ => []
  }

  function SwapPuts(L: seq<Leg>): seq<Op> {
    if L == [] then [] else SwapPuts(L[..|L| - 1]) + SwapPutsOf(L[|L| - 1])
  }

  function NoncesOf(leg: Leg): set<Id> {
    match leg
    case SwapOut(_, nonce, _, _) => {nonce}
    case _ => {}
  }

  function NewNonces(L: seq<Leg>): set<Id> {
    if L == [] then {} else NewNonces(L[..|L| - 1]) + NoncesOf(L[|L| - 1])
  }

  function VaultOpsOf(leg: Leg, h: nat): seq<Op> {
    match leg
    case VaultIn(k, _) => [Del(k)]
    case VaultOut(k, amount, term) =>
      var rate := if VaultRate(term) >= 0 then VaultRate(term) else 0;
      [Put(k, Vault(amount, term, rate, h))]
    case _ => []
  }

  function VaultOps(L: seq<Leg>, h: nat): seq<Op> {
    if L == [] then [] else VaultOps(L[..|L| - 1], h) + VaultOpsOf(L[|L| - 1], h)
  }

  function PqPutsOf(leg: Leg): seq<Op> {
    match leg
    case PqOut(k, amount) => [Put(k, PqCoin(amount))]
    case _ => []
  }

  function PqPuts(L: seq<Leg>): seq<Op> {
    if L == [] then [] else PqPuts(L[..|L| - 1]) + PqPutsOf(L[|L| - 1])
  }

  function PqDelsOf(leg: Leg): seq<Op> {
    match leg
    case PqIn(k) => [Del(k)]
    case _ => []
  }

  function PqDels(L: seq<Leg>): seq<Op> {
    if L == [] then [] else PqDels(L[..|L| - 1]) + PqDelsOf(L[|L| - 1])
  }

  function PqKeysOf(leg: Leg): seq<Id> {
    match leg
    case PqOut(k, _) => [k]
    case _ => []
  }

  function NewPqKeys(L: seq<Leg>): seq<Id> {
    if L == [] then [] else NewPqKeys(L[..|L| - 1]) + PqKeysOf(L[|L| - 1])
  }

  function PqNullsOf(leg: Leg): set<Id> {
    match leg
    case PqIn(k) => {k}
    case _ => {}
  }

  function NewPqNulls(L: seq<Leg>): set<Id> {
    if L == [] then {} else NewPqNulls(L[..|L| - 1]) + PqNullsOf(L[|L| - 1])
  }

  /** recordCMAnchorLocked within one epoch: the newest distinct roots, oldest dropped first. */
  function Anchored(anchors: seq<nat>, n: nat): seq<nat> {
    var more := if n in anchors then anchors else anchors + [n];
    if n == 0 then anchors else if |more| > ANCHOR_WINDOW then more[|more| - ANCHOR_WINDOW..] else more
  }

  function Saturating(a: nat, b: nat): nat {
    if a + b > MAX64 then MAX64 else a + b
  }

  /** The pool after this block's claims and share; a share that would overflow is dropped. */
  function PoolAfter(S: State, L: seq<Leg>): nat {
    var paid := if YieldSum(L) <= S.pool then S.pool - YieldSum(L) else 0;
    if paid + PoolShare(S.emitted) <= MAX64 then paid + PoolShare(S.emitted) else paid
  }

  /** The state transition of applyBlock. */
  function After(S: State, b: Block): State {
    var L := AllLegs(b);
    var notes := S.notes + NewNotes(L);
    State(
      b.height,
      S.coins + NewCoins(L, b.height, |b.coinbase.outs|),
      S.primes + NewPrimes(L),
      S.spent + NewRefs(L),
      S.tags + NewTags(L),
      notes,
      Anchored(S.anchors, |notes|),
      S.zkNull + (set x | x in NewNullifiers(L)),
      Run(S.swaps, SwapDels(L) + SwapPuts(L)),
      S.nonces + NewNonces(L),
      Run(S.vaults, VaultOps(L, b.height)),
      Run(S.pqUtxo, PqPuts(L) + PqDels(L)),
      S.pqKeys + NewPqKeys(L),
      S.pqNull + NewPqNulls(L),
      Saturating(S.emitted, BlockReward(S.emitted)),
      PoolAfter(S, L))
  }

  // ----------------------------------------------------------------------------- history

  /** What an observer who knows the openings records: the coin positions behind the tags, the leaf
      positions behind the nullifiers, the adaptor nonces of the swaps closed, all coins ever issued,
      and pool shares dropped for overflow. */
  datatype History = History(uses: seq<nat>, redeems: seq<nat>, closed: seq<Id>, issued: nat, forgone: nat)

  predicate IsBlank(H: History) {
    H.uses == [] && H.redeems == [] && H.closed == [] && H.issued == 0 && H.forgone == 0
  }

  /** Nonces of the contracts that a list of deletions closes. */
  function ClosedNonces(swaps: map<Id, Contract>, dels: seq<Op>): seq<Id> {
    if dels == [] then [] else
      var rest, k := ClosedNonces(swaps, dels[..|dels| - 1]), dels[|dels| - 1].key;
      if k in swaps && swaps[k].Swap? then rest + [swaps[k].nonce] else rest
  }

  function Recorded(S: State, H: History, b: Block): History {
    var L := AllLegs(b);
    var paid := if YieldSum(L) <= S.pool then S.pool - YieldSum(L) else 0;
    History(
      H.uses + NewUses(S, L),
      H.redeems + NewRedeems(L),
      H.closed + ClosedNonces(S.swaps, SwapDels(L)),
      H.issued + BlockReward(S.emitted),
      H.forgone + if paid + PoolShare(S.emitted) <= MAX64 then 0 else PoolShare(S.emitted))
  }

  // --------------------------------------------------------------------------- invariants

  function CoinValues(coins: seq<Coin>): (vals: seq<nat>)
    ensures |vals| == |coins| && forall i :: 0 <= i < |coins| ==> vals[i] == coins[i].value
  {
    if coins == [] then [] else CoinValues(coins[..|coins| - 1]) + [coins[|coins| - 1].value]
  }

  function NoteValues(notes: seq<Note>): (vals: seq<nat>)
    ensures |vals| == |notes| && forall i :: 0 <= i < |notes| ==> vals[i] == notes[i].value
  {
    if notes == [] then [] else NoteValues(notes[..|notes| - 1]) + [notes[|notes| - 1].value]
  }

  /** Everything of value that exists. */
  ghost function Supply(S: State, H: History): nat {
    Live(CoinValues(S.coins), Positions(H.uses)) + Total(S.swaps) + Total(S.vaults)
    + Live(NoteValues(S.notes), Positions(H.redeems)) + S.pool
  }

  /** Keys never repeat, amounts fit 64 bits. */
  ghost predicate CoinsOk(coins: seq<Coin>) {
    && (forall i, j :: 0 <= i < j < |coins| ==> coins[i].key != coins[j].key)
    && (forall i :: 0 <= i < |coins| ==> coins[i].value <= MAX64)
  }

  /** The tag log names one coin per entry and no tag twice, so no coin twice. */
  ghost predicate TagsOk(coins: seq<Coin>, tags: seq<nat>, uses: seq<nat>) {
    && |uses| == |tags| && Within(uses, |coins|) && Distinct(tags)
    && (forall i :: 0 <= i < |tags| ==> tags[i] == coins[uses[i]].key.secret)
  }

  /** Each nullifier was revealed for one leaf, even if several leaves share it. */
  ghost predicate NotesOk(notes: seq<Note>, zkNull: set<nat>, redeems: seq<nat>) {
    && Within(redeems, |notes|)
    && (forall i, j :: 0 <= i < j < |redeems| ==> notes[redeems[i]].nullifier != notes[redeems[j]].nullifier)
    && zkNull == set i | 0 <= i < |redeems| && redeems[i] < |notes| :: notes[redeems[i]].nullifier
  }

  ghost predicate SwapOk(swaps: map<Id, Contract>, nonces: set<Id>, closed: seq<Id>, k: Id)
    requires k in swaps
  {
    swaps[k].Swap? && swaps[k].nonce in nonces && swaps[k].nonce !in closed
  }

  predicate SameNonce(a: Contract, b: Contract) {
    a.Swap? && b.Swap? && a.nonce == b.nonce
  }

  /** Live swaps have distinct nonces that were never closed; no nonce is closed twice. */
  ghost predicate SwapsOk(swaps: map<Id, Contract>, nonces: set<Id>, closed: seq<Id>) {
    && (forall k {:trigger SwapOk(swaps, nonces, closed, k)} :: k in swaps ==> SwapOk(swaps, nonces, closed, k))
    && (forall j, k :: j in swaps && k in swaps && SameNonce(swaps[j], swaps[k]) ==> j == k)
    && Distinct(closed) && (forall n :: n in closed ==> n in nonces)
  }

  ghost predicate AnchorsOk(anchors: seq<nat>, n: nat) {
    |anchors| <= ANCHOR_WINDOW && Distinct(anchors) && (forall i :: 0 <= i < |anchors| ==> 0 < anchors[i] <= n)
    && (n > 0 ==> n in anchors)
  }

  /** What exists, with the pool shares dropped, is what was issued. */
  ghost predicate Conserved(S: State, H: History) {
    Supply(S, H) + H.forgone == H.issued
  }

  /** The emission counter is exact until it saturates, and until then no share is dropped. */
  predicate CountersOk(S: State, H: History) {
    && S.emitted == (if H.issued > MAX64 then MAX64 else H.issued)
    && (H.issued <= MAX64 ==> H.forgone == 0) && S.pool <= MAX64
  }

  /** Post-quantum coins keep a record of their keys. */
  ghost predicate PqOk(S: State) {
    forall k :: k in S.pqUtxo ==> k in S.pqKeys && S.pqUtxo[k].PqCoin?
  }

  ghost predicate Inv(S: State, H: History) {
    && CoinsOk(S.coins) && |S.primes| == |S.coins| && Distinct(S.primes)
    && TagsOk(S.coins, S.tags, H.uses)
    && NotesOk(S.notes, S.zkNull, H.redeems)
    && SwapsOk(S.swaps, S.nonces, H.closed)
    && (forall k :: k in S.vaults ==> S.vaults[k].Vault?)
    && PqOk(S)
    && AnchorsOk(S.anchors, |S.notes|)
    && Conserved(S, H) && CountersOk(S, H)
  }
}
