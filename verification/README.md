# Verified model of the Obscura full node

This project models the parts of Obscura, a privacy-preserving cryptocurrency node written in Go,
whose correctness is hardest to see from the code, and proves what they are for. It is plain Dafny 4.11;
`dafny verify dfyconfig.toml` checks all of it.

## What is modelled

- **Class group of binary quadratic forms** (`QuadraticForms`, `ClassGroup`, `FormCodec`, `Groups`):
  reduction, composition, inverse, wire form and 4-bit windowed exponentiation over unbounded integers.
- **Accumulator** (`Accumulators`): the dynamic accumulator in both modes and the proofs over it, for any
  group that satisfies the laws the group interface documents.
- **Joint anonymous-spend proof** (`Curves`, `Selectors`, `AnonSpend`, `AnonSpendLoops`, `TwistedRings`, `RingDrift`,
  `Extraction`): points form a module over the scalars modulo the group order, in `TwistedRings` and `RingDrift` with
  a low-order part on top; the challenge hash is an arbitrary function of the transcript; every scalar is reduced
  where the code reduces it. Soundness in `Extraction` assumes a prime order and independent commitment bases.
- **Consensus state machine**: rolling-back disk sets and coin store (`DiskSets`, `CoinStore`), snapshot restore and
  replay (`ChainRebuild`), orphan buffer, block tree and fork choice (`OrphanBuffer`, `ForkPaths`, `ForkChoice`,
  `PartitionHealing`), validation and application of blocks with their value legs (`LedgerModel`, `LedgerEffects`,
  `LedgerChecks`, `Ledger`), what every run keeps (`LedgerFlows`, `LedgerSteps`, `LedgerBalance`, `LedgerRuns`,
  `LedgerRules`), runs that reach the corner cases (`Strategies`, `MinerRuns`, `CornerRuns`, `FeeRuns`), anchors
  across the epochs of the commitment tree (`EpochAnchors`), switches and fork choice of a node that prunes
  (`PrunedReorgs`, `PrunedForks`), swaps across reorganisations (`SwapReorgs`), the state-root preimage (`ByteCodec`,
  `StateRoot`).
- **Merkle trees and proof of retrievability** (`Merkle`, `Retrievability`, `PeakAccumulator`): hashing is
  symbolic, so digests are injective and leaf and inner digests never meet.
- **Mempool** (`MempoolModel`, `Mempool`, `MempoolFees`, `PendingTxs`), **timestamps and difficulty** (`Difficulty`,
  `DifficultyLaws`, `HeaderTimes`).

Shared vocabulary is in `Integers`, `Primes`, `PrimeFields`, `Bits`, `Sequences`, `Wrappers`, `MapSums`, `Contracts`,
`HiddenValue` and `Params`.

Conventions. A block is its list of value legs in the order the code checks them. Hidden amounts and hidden ring
positions are ordinary fields of a leg, and every proof check is the relation that the proof establishes:
an equation modulo the group order for conservation, equality of values for the value proofs, "this coin's
secret" for key images and tags, "this leaf's nullifier and value" for ZK spends. A one-time key is a secret plus
a low-order part, a tag likewise, so that clearing the cofactor is visible. Amounts are naturals; each 64-bit
addition, wrap-around and saturation of the code is written out. `Chain.s` in `Ledger` is a record whose
parts stand for the fields of the node's chain object; each pass of block application rewrites some of them.

## Findings

- The `emitted` counter equals the supply exactly until the emission up to the height exceeds 2^64 - 1
  (`LedgerRuns.SupplyIsEmitted`, `LedgerRuns.CounterSaturates`); a miner alone can reach that height
  (`MinerRuns.SomeRunSaturates`). While a node reads a counter below 2^64 - 1, it is the supply.
- No post-quantum transaction can ever be valid: coinbase minting of post-quantum outputs is refused and nothing
  else creates the first one (`LedgerRuns.NoPqEver`). A comment in `pkg/chain/pqvalidate.go` still says that such
  minting is unrestricted; the model follows the code.
- Two commitment-tree leaves may carry the same nullifier; a leaf is redeemable exactly while its nullifier is
  unrevealed, so once one twin is spent the other's value stays in the supply for ever and is never spendable
  (`LedgerRuns.LeafSpendable`, `LedgerRuns.StrandedByTwin`, `LedgerRuns.SharedNullifierStrands`; a run that does it:
  `CornerRuns.SomeRunStrands`). Supply is therefore counted by leaf position, not by nullifier.
- Two one-time keys of one secret with different low-order parts are different outputs, but their key images and tags
  have one canonical form. Once one of the coins is spent the other stays in the supply for ever and is never
  spendable (`LedgerRuns.StrandedByKin`, `LedgerRuns.SharedSecretStrands`; a run that does it:
  `CornerRuns.SomeRunStrandsCoin`).
- The time lock of a coin binds open spends only: before it has passed the coin can be spent exactly when its
  anonymity pool is complete and mature (`LedgerRuns.LockHolds`, `CornerRuns.LockPassedBy`).
- Output validation admits ring members with a low-order part, and the verifier does not clear it from the ring. An
  honest anonymous spend from place l of a ring of 2^m is accepted for all randomness and every challenge function
  if and only if the secret is not zero and no member of either ring has a low-order part, except the one at place
  2^m - 1 - l, whose part does no harm unless m = 0 (`RingDrift.AcceptanceLaw`, `RingDrift.DriftLaw`; a ring that
  fails: `TwistedRings.SomeRingDrifts`).
- A branch switch reads every body from genesis on and refuses a branch with a missing one whatever snapshots exist
  (`pkg/chain/forkchoice.go:475-479`). So once any body was pruned, at height 10200 on a node that only extends its
  tip, no switch succeeds: the refusal comes before anything is changed and the node stays, intact, on its branch
  (`PrunedReorgs.Switch`, `Retrievability.ScheduledRun`). Two such nodes can ever agree on a tip again if and only if
  the tip of one lies on the branch of the other (`PrunedForks.AgreementLaw`): from that height on two competing
  blocks on one parent split the nodes for good, however small the fork (`PrunedForks.CompetingTips`).
- Apart from that refusal, every acceptable fork has a restore point exactly when nothing was pruned or the oldest
  stored snapshot is at least the seed lag below the tip (`Retrievability.CoveredIff`). Interval snapshots always
  satisfy this; graceful shutdowns on four consecutive blocks break it (`Retrievability.ShutdownsUncover`).
- A later newest timestamp can raise the difficulty only if a 64-bit difference wraps, which needs a negative
  timestamp: exactly when is `Difficulty.ParentDecides`, a case is `Difficulty.LatestRaises`. On a valid chain this
  does not happen: timestamps are above the median of the past ones, hence above that of genesis
  (`HeaderTimes.TimesFromGenesis`), and of two timestamps that the next header may carry the later one never leads to
  a higher difficulty (`HeaderTimes.LaterHeaderNeverRaises`).
- The fees of replaced transactions are summed in 64 bits without a check. A replacement pays for what it replaces
  exactly when their true sum fits (`Mempool.ReplacementPays`). It always does while the emission counter is not
  saturated and the yields they claim fit the incentive pool together (`MempoolFees.ReplacementPaysOnChain`). Admission
  does not ask for the latter, and a flexible vault earns without bound: some valid run, 2^47 blocks long, ends in a
  state on which two valid claims with fees of 2^63 each are replaced for less than a thousandth of them
  (`FeeRuns.SomeRunUndercuts`).
- The pool compares what transactions consume, not what they create: a selection can be conflict-free and still fit
  no block (`MempoolModel.SelectionFresh`, `CornerRuns.SomeSelectionFails`).
- A comment of the pool says that a pending transaction whose spend keys a block did not touch remains valid
  (`pkg/mempool/mempool.go:282-288`). It does if and only if its claims, deposits and yields are in time for the next
  height, none of its anchors is evicted and the block creates no key, prime, nonce or contract that it creates
  (`PendingTxs.PendingStaysValid`; a run on which it does not: `CornerRuns.SomePendingOutdated`). The model follows the
  code, which does not look again.
- Marshalling a form is reversible exactly when its leading coefficient has fewer than 65536 bytes
  (`FormCodec.RoundTrip`, `FormCodec.LongForm`).

## Model

| member | source | states |
|---|---|---|
| QuadraticForms.NormalizeTranslates | pkg/group/classgroup.go:120-137 | normalize is a translation x -> x + k*y: it keeps the leading coefficient, the discriminant and the class, and brings b into (-a, a] |
| QuadraticForms.RhoStep | pkg/group/classgroup.go:140-159 | each swap-and-normalize step of a normal, unsettled form strictly lowers the leading coefficient and keeps the discriminant, so reduction terminates |
| QuadraticForms.Reduce | pkg/group/classgroup.go:140-159 | from any positive-definite form the result is positive definite with the same discriminant and reduced: -a < b <= a <= c, and b >= 0 when a = c |
| QuadraticForms.ReduceLoop | pkg/group/classgroup.go:140-159 | the in-place loop computes that reduced form |
| QuadraticForms.ReduceFixesReduced | pkg/group/classgroup.go:140-159 | reduction is the identity on reduced forms |
| QuadraticForms.ReduceIsEquivalent | pkg/group/classgroup.go:140-159 | the result is SL2(Z)-equivalent to the input |
| QuadraticForms.ReducedIsUnique | pkg/group/classgroup.go:140-159 | a class contains only one reduced form |
| QuadraticForms.ReduceIsCanonical | pkg/group/classgroup.go:140-159 | two forms reduce to the same form if and only if they are equivalent |
| ClassGroup.Xgcd | pkg/group/classgroup.go:164-176 | a*x + b*y is the non-negative gcd for any signs, zeros included, and it divides both arguments |
| ClassGroup.ComposeExact | pkg/group/classgroup.go:192-232 | for any two positive-definite forms of one odd negative discriminant, every division in compose is exact (e into a1 and a2, e^2 into a1*a2, 4*a3 into B^2 - D) and the raw result is positive definite of the same discriminant |
| ClassGroup.ComposeIndependent | pkg/group/classgroup.go:192-232 | the composed class does not depend on which Bezout coefficients the gcd returns |
| ClassGroup.Compose | pkg/group/classgroup.go:192-236 | composition yields a reduced positive-definite form of the discriminant |
| ClassGroup.ComposeCommutes | pkg/group/group.go:38-45 | composition is commutative, although the algorithm treats its two arguments differently |
| ClassGroup.IdentityNeutral | pkg/group/classgroup.go:101-105 | composing with the principal form on either side gives the reduced form unchanged |
| ClassGroup.InverseOfReduced | pkg/group/classgroup.go:238-241 | the inverse of a reduced form is (a, -b, c), or the form itself when it is ambiguous |
| ClassGroup.InverseCancels | pkg/group/classgroup.go:238-241 | a reduced primitive form composed with its inverse, in either order, is the principal form |
| ClassGroup.SquareFreeIsPrimitive | pkg/group/classgroup.go:70-96 | a discriminant without square factor, such as the derived prime ones, has only primitive forms |
| FormCodec.Unmarshal | pkg/group/classgroup.go:321-364 | whatever is accepted is a reduced positive-definite form of the group's discriminant |
| FormCodec.RoundTrip | pkg/group/classgroup.go:304-364 | Unmarshal gives back a marshalled reduced form, with any bytes after it, if and only if its leading coefficient has fewer than 65536 bytes |
| FormCodec.MarshalExample | pkg/group/classgroup.go:304-319 | the layout of the bytes, by an example |
| FormCodec.LongForm | pkg/group/classgroup.go:304-319 | for every length from 65536 bytes on there is a reduced form with such a leading coefficient that does not come back |
| Groups.Exp | pkg/group/classgroup.go:251-288 | windowed exponentiation is e-fold composition for every integer e, negative and zero included, in any commutative group |
| Groups.ExpPositive | pkg/group/classgroup.go:262-288 | the windows from the most significant bit down build exactly the power |
| Groups.PowerTable | pkg/group/classgroup.go:262-269 | the precomputed table holds the powers 0 to 15 |
| Groups.Window | pkg/group/classgroup.go:276-282 | four bits gathered at a position are that digit of the exponent, short of a full digit at the end |
| Groups.PowZMul | pkg/group/group.go:38-45 | a power of a power is the power of the product for all integer exponents |
| Accumulators.ModesAgree | pkg/accumulator/accumulator.go:39-52 | on distinct primes the member mode and the value-only mode have the same product and the same size |
| Accumulators.Accumulator.constructor | pkg/accumulator/accumulator.go:39-52 | an empty accumulator holds the generator |
| Accumulators.Accumulator.Add | pkg/accumulator/accumulator.go:90-103 | the value becomes the power by the prime; the member mode refuses a held prime and then changes nothing |
| Accumulators.Accumulator.AddBatch | pkg/accumulator/accumulator.go:112-118 | one exponentiation by a product of n primes leaves what n single additions leave |
| Accumulators.Accumulator.Remove | pkg/accumulator/accumulator.go:122-140 | removal fails exactly on an absent prime, and the new value raised to it is the old value |
| Accumulators.Accumulator.MembershipWitness | pkg/accumulator/accumulator.go:152-187 | a witness exists exactly for a held prime and verifies |
| Accumulators.Accumulator.ProveNonMembership | pkg/accumulator/accumulator.go:309-328 | a proof exists exactly when the prime is coprime to the members' product and then verifies |
| Accumulators.NonMembershipComplete | pkg/accumulator/accumulator.go:309-328 | every Bezout pair, negative coefficients included, passes the verifier |
| Accumulators.BothProofsRoot | pkg/accumulator/accumulator.go:286-328 | a membership and a non-membership proof for one exponent give a root of the generator, in any abelian group |
| Accumulators.FalseMembership | pkg/accumulator/accumulator.go:184-187 | a witness for an exponent coprime to what was accumulated gives a root of the generator |
| Accumulators.FalseAbsence | pkg/accumulator/accumulator.go:324-328 | so does a proof that an accumulated exponent is absent |
| Accumulators.PoEComplete | pkg/accumulator/accumulator.go:202-214 | an honest proof of exponentiation verifies for every challenge |
| Accumulators.PoERoot | pkg/accumulator/accumulator.go:209-214 | the verifier accepts exactly the l-th roots, shifted, of what the claim has in excess of the true power |
| Accumulators.PoKE2Complete | pkg/accumulator/accumulator.go:243-270 | an honest proof of knowledge of exponent verifies for every pair of challenges and any sign of the exponent |
| Accumulators.PoKE2Root | pkg/accumulator/accumulator.go:259-270 | against a commitment to x and the residue of x it accepts exactly the l-th roots, shifted, of what the target has in excess of the power by x |
| Accumulators.MultiPoKEComplete | pkg/accumulator/zkmem.go:34-70 | an honest two-exponent proof verifies for all exponents, negative ones too, and all challenges |
| Accumulators.MultiPoKERoot | pkg/accumulator/zkmem.go:55-70 | against commitments to two exponents and their residues the verifier accepts exactly the l-th roots, shifted, of what the target has in excess of the two powers |
| Accumulators.BlindedWitness | pkg/accumulator/zkmem.go:112-122 | the blinding factor of a witness is undone by the exponent -s*p |
| Accumulators.ZKMembershipComplete | pkg/accumulator/zkmem.go:112-128 | the blinded membership proof of any valid witness verifies |
| Selectors.EvalMulLinear | pkg/commit/oneofmany.go:132-142 | multiplying by c0 + c1*X multiplies the evaluation by c0 + c1*x |
| Selectors.SelectorEvaluates | pkg/commit/anonspend.go:46-65 | the selector polynomial at x is the verifier's product of f_j or x - f_j over the bits of the index |
| Selectors.SelectorPicks | pkg/commit/anonspend.go:46-65 | its top coefficient is 1 for the hidden index and 0 for every other index below 2^m |
| AnonSpend.ExchangeSums | pkg/commit/anonspend.go:46-65 | the ring evaluated at the selectors is the degree-wise sums evaluated at x plus x^m times the hidden member |
| AnonSpend.RingExact | pkg/commit/anonspend.go:211-259 | taking the blinded lower-degree sums off the ring leaves exactly the response times the base point |
| AnonSpend.TagNotLowOrder | pkg/commit/oneofmany.go:46-72 | the tag of a secret survives cofactor clearing if and only if the secret is not zero modulo the order |
| AnonSpend.Completeness | pkg/commit/anonspend.go:68-261 | for every power-of-two ring size, hidden index, openings, randomizers and challenge function, a proof of the prover's form satisfies every verifier equation if and only if the secret is not zero modulo the order |
| AnonSpendLoops.PolyMulLinear | pkg/commit/oneofmany.go:132-142 | the coefficient loop computes the product modulo the order |
| AnonSpendLoops.SelectorPoly | pkg/commit/anonspend.go:51-60 | repeated multiplication gives the selector polynomial modulo the order |
| AnonSpendLoops.PolySumsOverRing | pkg/commit/anonspend.go:46-65 | the nested loops accumulate the degree-wise sums over the whole ring |
| AnonSpendLoops.ProveAnonSpend | pkg/commit/anonspend.go:68-146 | the prover succeeds exactly on equal rings whose size is a power of two with the index inside, and its output has the honest form for its own challenge |
| AnonSpendLoops.VerifyAnonSpend | pkg/commit/anonspend.go:149-261 | the verifier accepts exactly when sizes, shape, tag and all equations hold |
| Extraction.Extract | pkg/commit/anonspend.go:149-261 | soundness: accepted answers to m + 1 distinct challenges on one set of commitments, for rings of 2^m, give an index, a secret that opens the first ring there and is not zero, an opening of the second ring there, and the tag is that secret's up to the cofactor |
| Extraction.ExtractFull | pkg/commit/anonspend.go:149-261 | the same for rings, tags and commitments with any low-order parts, in the prime-order parts |
| Extraction.SameCoinSameTag | pkg/commit/oneofmany.go:10-25 | of two such spends, on whatever rings, the canonical tags agree if and only if the members behind them are the same key |
| Extraction.ProofFixesTag | pkg/commit/anonspend.go:236-247 | one proof is accepted at one non-zero challenge with one canonical tag only |
| Extraction.TranscriptBinds | pkg/commit/anonspend.go:263-282 | the challenge is taken over the tag and every commitment |
| AnonSpendLoops.ProveThenVerify | pkg/commit/anonspend.go:68-261 | running the prover and then the verifier accepts exactly when the secret is not zero modulo the order |
| TwistedRings.RingParts | pkg/commit/anonspend.go:211-259 | over the full curve group the ring equation splits into the one over the prime-order parts and a congruence of the low-order parts modulo the cofactor |
| TwistedRings.FullCompleteness | pkg/commit/anonspend.go:68-261 | for rings whose members carry any low-order parts, one honest proof is accepted if and only if the secret is not zero modulo the order and its low-order sums agree modulo the cofactor; what that means for the ring is `RingDrift.AcceptanceLaw` |
| TwistedRings.FullScalars | pkg/commit/anonspend.go:68-261 | the laws that the loops of prover and verifier rely on hold for all points of the curve, not only for those of prime order |
| TwistedRings.SomeRingDrifts | pkg/commit/anonspend.go:46-65 | in a ring of four a low-order part of one other member makes an honest proof fail for every non-zero challenge when both masks are one |
| RingDrift.DriftLaw | pkg/commit/anonspend.go:211-259 | the low-order parts of a ring cancel for all masks and every challenge if and only if no member but the one whose index is the bitwise complement of the hidden one has such a part; in a ring of one, if and only if the member has none |
| RingDrift.AcceptanceLaw | pkg/commit/anonspend.go:68-261 | honest spends from a place are accepted for all randomness and every challenge function if and only if the secret is not zero modulo the order and both rings meet that condition |
| RingDrift.FullProveThenVerify | pkg/commit/anonspend.go:68-261 | running the prover and then the verifier on rings that meet that condition accepts exactly when the secret is not zero modulo the order; on any rings, exactly when the low-order sums of this proof agree as well |
| DiskSets.DiskSet.Add | pkg/chain/diskset.go:81-106 | the log grows by the key; membership, count and running commitment are those of the longer log, repeated keys counted but committed once |
| DiskSets.DiskSet.Truncate | pkg/chain/diskset.go:202-233 | for every history, truncating to n restores exactly the membership, count and commitment after the first n additions |
| DiskSets.DiskSet.SetCount | pkg/chain/diskset.go:240-243 | count and commitment become those of the first n additions |
| DiskSets.DiskSet.CommitAfter | pkg/chain/diskset.go:111-128 | the predicted commitment is the one the set will have after adding the keys in order |
| DiskSets.DiskSet.ReadCommit | pkg/chain/diskset.go:184-196 | the stored commitment of a count is that of the first n additions |
| DiskSets.TruncatedLog | pkg/chain/diskset.go:202-233 | dropping the tail of the three buckets leaves the buckets of the shorter log, even when dropped keys occur earlier |
| DiskSets.CommitOrderIndependent | pkg/chain/diskset.go:81-106 | logs with the same members have the same commitment in any order and with any repetitions |
| DiskSets.Add256Bytes | pkg/chain/diskset.go:54-63 | the byte-wise carry loop is addition modulo 2^256 |
| CoinStore.Coins.Add | pkg/chain/coinstore.go:86-102 | the coin gets the next index and both buckets hold the longer list |
| CoinStore.Coins.Truncate | pkg/chain/coinstore.go:136-157 | both buckets hold exactly the first n coins |
| CoinStore.Coins.UtxoEntry | pkg/chain/coinstore.go:162-174 | an entry is returned exactly for a created key that is not in the spent set |
| ChainRebuild.Chain.Rollback | pkg/chain/snapshot.go:276-321 | restoring a snapshot taken on the branch leaves memory, disk sets and coins in the state of that point |
| ChainRebuild.Chain.Rebuild | pkg/chain/forkchoice.go:466-537 | a rebuild from a snapshot on the branch succeeds exactly when all bodies are there and the branch replays from genesis, and then the state equals that replay |
| ChainRebuild.Chain.Reorg | pkg/chain/forkchoice.go:466-537 | with snapshots of the active chain at or below the fork, switching branches succeeds exactly when all bodies are there and the new branch replays, and then the state is that replay |
| ChainRebuild.Chain.ReorgTo | pkg/chain/forkchoice.go:544-563 | a failed switch is followed by a rebuild of the previous branch, which succeeds exactly when its bodies are there; the state is the replay of the new branch or of the old one, also when both are refused for a missing body, since nothing was changed then |
| ChainRebuild.Chain.ReplayFrom | pkg/chain/forkchoice.go:509-536 | replaying the blocks above a restored height succeeds exactly when the whole branch replays, with the same state |
| ChainRebuild.Chain.RestoreOrReset | pkg/chain/forkchoice.go:481-508 | the start point is the highest snapshot that lies at or below the fork and a reorganisation depth below the tip, or genesis if there is none, and the state is the replay up to it |
| ChainRebuild.Chain.Reset | pkg/chain/forkchoice.go:426-456 | with no usable snapshot memory is cleared, the set counts go to zero and the disk is truncated to the state before genesis |
| ChainRebuild.LogsGrow | pkg/chain/diskset.go:12-38 | the logs of a longer branch extend those of its prefix, which is what makes truncation a rollback |
| Merkle.MerkleRoot | pkg/block/block.go:320-340 | the layer loop computes the root of the tree that pairs an odd last node with itself |
| Merkle.SmallTrees | pkg/block/block.go:320-340 | the roots of up to three ids, written out |
| Merkle.MerkleRootInjective | pkg/block/block.go:320-340 | two lists without duplicate ids, of any two lengths, have equal roots only if they are equal |
| Merkle.OddListCollides | pkg/chain/validate.go:86-96 | without the duplicate check, repeating the last id of any odd list longer than one keeps the root |
| Merkle.IndexFromSteps | pkg/block/por.go:178-186 | the index is the little-endian bit string of left siblings within 64 bits |
| Merkle.VerifyMerkleProof | pkg/block/merkleproof.go:68-78 | accepts exactly when folding the branch from the leaf gives the root |
| Merkle.MerkleProof | pkg/block/merkleproof.go:35-64 | a branch exists exactly for an index inside the list and is the list of siblings layer by layer |
| Merkle.BranchComplete | pkg/block/merkleproof.go:35-78 | the branch of a position folds to the root, addresses that position and has the depth of the tree |
| Merkle.BranchSound | pkg/block/merkleproof.go:68-78 | any branch accepted against a root has the tree's depth, and if it addresses a position inside the list it proves the id at that position |
| Retrievability.ChallengeHeight | pkg/block/por.go:145-162 | the challenged height lies in the retained window below the block |
| Retrievability.ChallengeIndex | pkg/block/por.go:166-172 | the challenged index lies inside a non-empty block |
| Retrievability.AnythingChallenged | pkg/block/por.go:145-172 | every height of the last ten thousand and every index of its block can be challenged |
| Retrievability.VerifyPoREntry | pkg/block/por.go:191-205 | accepts exactly the entries with the expected height and index whose branch folds to the header's root |
| Retrievability.EntrySound | pkg/block/por.go:178-205 | for every branch a prover could choose, an accepted entry has the tree's depth and carries exactly the challenged transaction |
| Retrievability.EntryComplete | pkg/chain/por.go:22-43 | the honest entry of a challenged transaction is accepted |
| Retrievability.BodyStore.Build | pkg/chain/por.go:17-45 | on a node that has applied any run of extensions and snapshots the build never fails, and every entry passes validation |
| Retrievability.BodyStore.ValidatePoR | pkg/chain/por.go:49-81 | accepts exactly when the header counts the transactions, commits to the entries and every entry of a full set is acceptable, and acceptance means each entry carries the challenged transaction of the challenged block |
| Retrievability.PoRRootBinds | pkg/block/por.go:106-124 | the commitment of a header determines the entries |
| Retrievability.BodyStore.SaveSnapshot | pkg/chain/snapshot.go:135-198 | whenever a snapshot is saved, the challenge window of the next block and all bodies from the oldest kept snapshot on survive the pruning; exactly the newest snapshots stay, and the bodies stored are exactly those from the new floor on |
| Retrievability.BodyStore.Prune | pkg/chain/snapshot.go:186-195 | exactly the bodies below the floor are deleted |
| Retrievability.BodyStore.Extend | pkg/chain/forkchoice.go:251-269 | extending the tip keeps the window and the bodies a replay needs, with a snapshot every interval and the floor that this snapshot sets |
| Retrievability.BodyStore.Play | pkg/chain/forkchoice.go:251-269 | any run of extensions and graceful shutdowns leaves exactly the snapshots and the bodies that the retention rule says, every body that of its block |
| Retrievability.KeepIs | pkg/chain/snapshot.go:123-133 | the number of kept snapshots spans the deepest accepted reorganisation |
| Retrievability.OnSchedule | pkg/chain/forkchoice.go:266-269 | a node that only extends its tip holds the snapshots of the last four intervals and exactly the bodies from a window below the last of them |
| Retrievability.ReorgCovered | pkg/chain/snapshot.go:113-133 | with interval snapshots only, every fork point within the seed lag is at or above the oldest kept snapshot, or no snapshot was dropped |
| Retrievability.ExtraSnapshotsUncover | pkg/chain/snapshot.go:105-111 | four saves on consecutive blocks leave only those, so the oldest kept snapshot lies above the deepest acceptable fork |
| Retrievability.CoveredIff | pkg/chain/snapshot.go:113-133 | every acceptable fork has a kept snapshot below it, or bodies back to genesis, if and only if nothing was pruned or the oldest stored snapshot height is at most the tip minus the seed lag |
| Retrievability.ScheduledRun | pkg/chain/snapshot.go:113-198 | on every run without shutdowns all acceptable forks are covered, and the genesis body is stored exactly while the tip is below the first interval past the window |
| Retrievability.ShutdownsUncover | cmd/obscura-node/main.go:360-370 | after any run that has pruned bodies, four blocks each followed by a graceful shutdown leave a deep fork uncovered |
| Retrievability.SomeRunUncovers | cmd/obscura-node/main.go:360-370 | such a run exists from genesis on |
| PrunedReorgs.CompleteIff | pkg/chain/forkchoice.go:375-391 | the bodies of any prefix of the active chain are complete if and only if none was deleted |
| PrunedReorgs.Switch | pkg/chain/forkchoice.go:466-563 | with the bodies that a branch walk finds in the store, a switch succeeds if and only if no body was ever deleted, the side branch is complete and it replays; after a failed one the node is in the state of its old branch, rebuilt if and only if no body was ever deleted |
| PeakAccumulator.LevelRoot | pkg/pqaccum/merkle.go:133-167 | the level-by-level root of all leaves |
| PeakAccumulator.SmallRoots | pkg/pqaccum/merkle.go:133-167 | the roots of up to three leaves, written out |
| PeakAccumulator.PeaksHaveTreeRoot | pkg/pqaccum/merkle.go:88-111 | the roots of perfect subtrees, folded, give the root of the whole tree for every number of leaves |
| PeakAccumulator.RootInjective | pkg/pqaccum/merkle.go:157-167 | the root determines the list of leaves, whatever its length |
| PeakAccumulator.Streaming.Add | pkg/pqaccum/merkle.go:114-122 | the peaks become those of the longer list and the new leaf's index is returned |
| PeakAccumulator.Streaming.Root | pkg/pqaccum/merkle.go:157-160 | a node that keeps only peaks has the root of one that keeps all leaves |
| PeakAccumulator.Streaming.RootAfter | pkg/pqaccum/merkle.go:172-191 | the predicted root is the root after appending, and nothing is changed |
| OrphanBuffer.Buffer.Insert | pkg/chain/forkchoice.go:288-318 | a newcomer that is absent and within the whole budget is buffered last in the queue, behind all that was live but the oldest few that had to make room, with exact byte sum and both bounds |
| OrphanBuffer.Buffer.EvictOldest | pkg/chain/forkchoice.go:322-334 | exactly the first live entry of the queue goes, with the stale entries before it, and it fails exactly on an empty buffer |
| OrphanBuffer.Buffer.Remove | pkg/chain/forkchoice.go:339-354 | one orphan leaves the lists, the index and the byte count, and nothing else changes |
| OrphanBuffer.Buffer.MakeRoom | pkg/chain/forkchoice.go:298-302 | eviction ends with both bounds admitting the newcomer; exactly the oldest live orphans are gone, and with the last of them still there it would not fit |
| OrphanBuffer.Buffer.TakeChildren | pkg/chain/forkchoice.go:357-362 | exactly the children listed under a parent are taken, each once |
| OrphanBuffer.Buffer.Forget | pkg/chain/forkchoice.go:363-369 | a taken child leaves the accounting |
| ForkPaths.TopUnique | pkg/chain/forkchoice.go:279-280 | at most one block of a set has the greatest work with the lowest hash on ties |
| ForkPaths.ForkPoint | pkg/chain/forkchoice.go:397-421 | the last block of one branch that lies on the other is the end of their common part |
| ForkPaths.WorkIsTotal | pkg/chain/forkchoice.go:203-204 | the work of a block is the sum of the difficulties of its whole branch |
| ForkChoice.Tree.ReorgDepth | pkg/chain/forkchoice.go:397-421 | the depth is the number of active blocks that are not on the candidate branch |
| ForkChoice.Tree.Decide | pkg/chain/forkchoice.go:204-249 | a block is to become the tip if and only if the change improves, drops at most the seed lag, and past the normal depth leads by the recovery margin; it is refused if and only if it is better and drops more than the seed lag |
| ForkChoice.Tree.Place | pkg/chain/forkchoice.go:208-276 | a block is kept unless it is refused or is to become the tip and does not validate; it is stored with its cumulative work, and the tip moves to it exactly when the rule says so |
| ForkChoice.Tree.AddBlock | pkg/chain/forkchoice.go:162-277 | in every run each tip change strictly improves and obeys the depth rules, no buffered orphan has a known parent between calls, the recursion through reconnected orphans ends, and a tree that converges keeps converging |
| PartitionHealing.TakesOver | pkg/chain/forkchoice.go:204-249 | in numbers: dropping up to 100 blocks takes more work, or as much and a lower hash; up to 512, a lead of 100 times the difficulty of the last block; more is never adopted |
| PartitionHealing.DeliverBranch | pkg/chain/forkchoice.go:208-276 | a branch that drops at most 512 blocks, delivered in order: the tip stays until some block of it may take over and is the last block of the branch from then on |
| ForkChoice.Tree.ConnectOrphans | pkg/chain/forkchoice.go:357-372 | every waiting child is re-added once and nothing held is lost |
| ForkChoice.DeliverAll | pkg/chain/forkchoice.go:162-277 | valid blocks up to the reorganisation depth, delivered to a fresh node in any order with repetitions and without losing an orphan, end with an empty buffer and the unique best block as the tip |
| PrunedForks.Adopt | pkg/chain/forkchoice.go:208-276 | a block with a known parent becomes the tip if and only if the fork choice adopts it and it either extends the tip and validates, or no body was ever deleted and its branch is complete and replays; the state is that of the branch of the tip |
| PrunedForks.PrunedRun | pkg/chain/forkchoice.go:208-276 | a node that has deleted a body never undoes that, and whatever it is sent its branch only grows |
| PrunedForks.AgreementLaw | pkg/chain/forkchoice.go:466-479 | after any runs from genesis, two nodes that have deleted bodies can have the same tip after further events if and only if the tip of one is on the branch of the other |
| PrunedForks.FollowerPruned | pkg/chain/snapshot.go:136-198 | a node that was given one branch in order has deleted a body if and only if the branch is at least 10200 blocks high |
| PrunedForks.CompetingTips | pkg/chain/forkchoice.go:466-479 | from that height on, nodes that adopted one of two competing blocks on a parent and nodes that adopted the other never have the same tip again, whatever blocks reach them |
| SwapReorgs.NewBlocksAreHigh | pkg/chain/forkchoice.go:397-421 | a block that a branch switch brings in lies above the height of the old tip minus the blocks dropped |
| SwapReorgs.RefundThenNoClaim | pkg/config/params.go:482-517 | if a refund is on the active branch, no accepted tip change brings in a block in which a claim on the same terms is valid |
| Contracts.TotalOfRun | pkg/chain/apply.go:182-258 | the value locked in a contract map moves by exactly what the deletions and insertions say, when keys are touched once |
| HiddenValue.LiveAfter | pkg/chain/coinstore.go:159-174 | unused value grows by the new amounts and shrinks by exactly the amounts at freshly used positions |
| LedgerModel.IndexOf | pkg/chain/coinstore.go:120-132 | a coin is found exactly when some coin has the key |
| LedgerChecks.CheckLegs | pkg/chain/validate.go:403-708 | accepts exactly when every leg passes its state and proof checks and claims no mark twice in the block |
| LedgerChecks.CheckBalance | pkg/chain/validate.go:710-754 | accepts exactly when both public sums fit 64 bits and the conservation relation holds |
| LedgerChecks.CheckPq | pkg/chain/pqvalidate.go:96-215 | accepts exactly the pure post-quantum transactions whose public sums fit and balance with the fee |
| LedgerChecks.CheckTx | pkg/chain/validate.go:352-759 | accepts exactly the transactions of the model, and returns the marks it added |
| LedgerChecks.CheckTxs | pkg/chain/validate.go:137-155 | accepts exactly when every transaction is valid, no mark repeats over the whole block and the fee sum fits 64 bits; post-quantum fees are not counted |
| LedgerChecks.Affordable | pkg/chain/validate.go:157-181 | accepts exactly when the yields stated in the block fit in the pool |
| LedgerChecks.CheckCoinbase | pkg/chain/validate.go:183-209 | accepts exactly the coinbase that mints base reward minus pool share plus fees and opens to that amount |
| LedgerChecks.CheckBlock | pkg/chain/validate.go:98-209 | accepts exactly the blocks whose transactions and coinbase are valid, with no mark and no fee or yield sum out of bounds |
| LedgerChecks.FreshConcat | pkg/chain/validate.go:98-101 | the block-wide duplicate check can be run piece by piece, carrying the marks |
| LedgerFlows.FlowsAreTally | pkg/chain/validate.go:741-753 | the two sides that the conservation check compares are the changes of coins, swaps, vaults, notes and pool |
| LedgerFlows.CoinFlow | pkg/chain/apply.go:78-109 | coins change by the new outputs minus the coins behind the spent inputs, named or hidden |
| LedgerFlows.NoteFlow | pkg/chain/zkspend.go:25-44 | notes change by the new leaves minus the leaves behind the revealed nullifiers, confidential spends by their fee |
| LedgerSteps.TagsFresh | pkg/chain/validate.go:430-489 | the tags of a valid block are new and pairwise different across transparent and anonymous inputs |
| LedgerSteps.NoDoubleSpend | pkg/chain/validate.go:403-489 | no coin stands behind two tags, however it was spent |
| LedgerSteps.SwapsStep | pkg/chain/validate.go:628-668 | live swaps keep distinct nonces that were never closed, and no nonce is closed twice |
| LedgerSteps.VaultOpsClean | pkg/chain/validate.go:550-698 | a valid block claims live vaults once and opens only absent ones |
| LedgerBalance.ClassicBalance | pkg/commit/conservation.go:86-96 | a balance of commitments modulo the group order over range-checked amounts is a balance of the amounts |
| LedgerBalance.TxsFlow | pkg/chain/validate.go:141-155 | all transactions of a block together give up exactly their fees, classical and post-quantum apart |
| LedgerBalance.BlockFlow | pkg/chain/validate.go:850-865 | a block adds exactly the base reward minus the pool share: fees are re-minted once, post-quantum fees never |
| LedgerBalance.PqMoves | pkg/chain/pqvalidate.go:196-214 | post-quantum value shrinks by exactly the fees burned |
| LedgerBalance.Step | pkg/chain/apply.go:58-297 | a valid block keeps the whole invariant: unique keys, one coin per tag, one leaf per nullifier, contract keys and nonces, anchors, and supply plus dropped shares equal to what was issued |
| LedgerRuns.EveryRun | pkg/chain/apply.go:58-297 | the invariant holds after every run of valid blocks from genesis |
| LedgerRuns.SpentOnce | pkg/chain/validate.go:274-305 | on every run the nullifier log is the concatenation of the block tags without repetition, and each coin is spent at most once |
| LedgerRuns.SupplyIsEmitted | pkg/chain/apply.go:260-280 | on every run hidden coins, swaps, vault principals, live notes and the pool, with dropped pool shares, sum to what was issued; they equal the emitted counter if and only if at most 2^64 - 1 was issued, and always while the counter is below that maximum |
| LedgerRuns.CounterSaturates | pkg/config/params.go:620-632 | the height alone decides: counter and supply agree if and only if the emission up to the height fits 64 bits; past that the supply is strictly larger and the counter stays at the maximum |
| LedgerRuns.SharesAfter | pkg/chain/apply.go:260-280 | in every run the pool and the dropped shares are at most a twentieth of what was issued, and none is dropped before twenty times 2^64 was |
| MinerRuns.MinedOk | pkg/chain/validate.go:41-209 | from every state a miner can extend the chain by any number of valid coinbase-only blocks |
| MinerRuns.SomeRunSaturates | pkg/chain/apply.go:270-275 | there are valid runs after which the counter is at its maximum and the supply above it |
| LedgerRuns.ClosedOnce | pkg/chain/apply.go:182-222 | a swap, identified by its nonce, is closed at most once on any chain |
| LedgerRuns.NoPqEver | pkg/chain/validate.go:113-127 | no reachable state holds a post-quantum coin and no valid block a post-quantum transaction |
| LedgerRuns.SharedNullifierStrands | pkg/chain/zkspend.go:164-299 | once a leaf is stranded, in every valid continuation it is still unspent, its value is part of the supply, and no spend of it is valid at any height |
| LedgerRuns.LeafSpendable | pkg/chain/zkspend.go:164-230 | on a reachable state a leaf can be redeemed in full if and only if its nullifier was not revealed |
| LedgerRuns.StrandedByTwin | pkg/chain/zkspend.go:164-230 | a leaf is stranded if and only if it is unspent and a leaf with the same nullifier was spent |
| LedgerRuns.NullifierOnce | pkg/chain/zkspend.go:190-225 | a revealed nullifier is never accepted again |
| CornerRuns.SomeRunStrands | pkg/chain/zkspend.go:61-99 | some valid run from genesis mints two leaves with one nullifier and spends the first; the second is lost in every continuation |
| LedgerRuns.StrandedByKin | pkg/commit/oneofmany.go:57-72 | a coin can no longer be spent though it never was if and only if a coin with the same secret under another low-order part was spent |
| LedgerRuns.SharedSecretStrands | pkg/chain/validate.go:435-470 | once that is so, in every valid continuation the coin is still unspent, its value is part of the supply, and no open or anonymous spend of it is valid at any height |
| CornerRuns.SomeRunStrandsCoin | pkg/chain/validate.go:435-470 | some valid run from genesis pays a coin to a second key of its own secret, which is lost in every continuation |
| LedgerRuns.LockHolds | pkg/chain/query.go:96-120 | before its lock height an unspent coin can be spent if and only if all sixteen coins of its anonymity pool exist and those minted by a coinbase are sixty blocks old; after it, also openly, if it is no coinbase output or sixty blocks old |
| LedgerRules.SpentWhenRipe | pkg/chain/validate.go:406-428 | on every run from genesis, the coin behind an input is an output of an earlier block: of a coinbase at least 60 blocks earlier, however it is spent, and openly no sooner than its lock height |
| LedgerRules.SwapWindow | pkg/chain/validate.go:491-530 | on every run, a live swap was opened at least 512 blocks before its unlock height, can be refunded exactly from that height on and claimed exactly until 512 blocks before it |
| LedgerRules.VaultWindow | pkg/chain/vault.go:25-62 | on every run, a live vault can be claimed exactly from the end of its term on, with any yield up to its entitlement: 1, 4 or 20 percent of the three fixed terms, 5 percent a year by blocks of the flexible one, nothing of it past 64 bits |
| LedgerRules.VaultStays | pkg/chain/vault.go:25-25 | a vault is there, with its terms, until the end of its term, whatever valid blocks come |
| LedgerRules.RedeemedLater | pkg/chain/zkspend.go:164-230 | on every run, a redemption reveals the nullifier of a leaf that an earlier block appended and names a number of leaves that was current after an earlier block |
| LedgerRules.RedeemedInFull | pkg/chain/zkspend.go:164-299 | a redemption takes out the whole leaf: openly its amount, confidentially a new leaf and a public fee that together stay below 2^60 |
| LedgerRules.LeafBounded | pkg/chain/zkspend.go:61-99 | on every run no leaf holds more than the cap |
| LedgerRules.OutputIsNew | pkg/chain/validate.go:307-345 | on every run an output has a key other than the identity, a 64-bit value, and a key and a prime that no earlier one has |
| LedgerRules.FeesPayBytes | pkg/chain/validate.go:378-395 | every transaction of a valid block is signed, has an input, an output and at most 1024 legs of a kind and pays 1000 per byte, so the fees of the block do |
| LedgerRules.RewardLaw | pkg/config/params.go:620-632 | the reward is what is left of the cap over 2^19, rounded down, or the tail; a twentieth of it goes to the pool; it never rises |
| CornerRuns.LockPassedBy | pkg/chain/query.go:96-120 | some valid run reaches a state in which a coin locked beyond the next height is spendable there |
| Ledger.Chain.constructor | pkg/chain/apply.go:19-51 | genesis commits to the empty state |
| Ledger.Chain.PredictPrimes | pkg/chain/template.go:24-43 | the template's product and count, which skip seen primes, are those of all new outputs whenever these are new and distinct |
| Ledger.Chain.Template | pkg/chain/template.go:15-73 | the header a template predicts for a valid block is the one validation expects and application produces, with the Merkle root and count of the transactions and the state root of the parent state |
| Ledger.Chain.Validate | pkg/chain/validate.go:82-270 | accepts exactly the valid blocks without repeated ids whose header commits to their transactions, to the state after them and, by its state root, to the state before them |
| Ledger.Chain.CheckSeal | pkg/chain/validate.go:82-96 | accepts exactly when no transaction id repeats and the header has the Merkle root and the count of the transactions |
| Ledger.HeaderBindsTxs | pkg/chain/validate.go:210-214 | blocks that are accepted with the same header list the same transaction ids in the same order |
| Ledger.Chain.Mutate | pkg/chain/apply.go:58-280 | the passes in order leave exactly the model's next state, with the accumulator holding all primes and no stale state root |
| Ledger.Chain.SettleVaults | pkg/chain/apply.go:224-258 | claims and deposits leave the model's vaults and the pool reduced by exactly the stated yields; the defensive reset of the pool is never reached |
| Ledger.Chain.Emit | pkg/chain/apply.go:260-280 | the counter saturates and a share that would overflow the pool is dropped |
| Ledger.Chain.RecordSpends | pkg/chain/apply.go:151-181 | the spent set and the nullifier log grow by the block's references and tags in order |
| Ledger.Chain.Extend | pkg/chain/forkchoice.go:251-262 | a block is taken exactly when valid and refused without a trace; the state stays reachable, the tip header commits to it and the memoized state root is never stale |
| Ledger.Chain.VerifySnapshot | pkg/chain/snapshot.go:325-344 | the snapshot check never refuses a node's own state |
| Ledger.Chain.StateRoot | pkg/chain/stateroot.go:29-41 | the memoized root is always that of the current state |
| Ledger.Chain.VerifyTransfer | pkg/chain/snapshotsync.go:324-368 | a transferred snapshot that passes agrees, in all but the coin table, with every state that the header of its height and the state root of the next one commit to |
| Ledger.RecordAnchor | pkg/chain/zkspend.go:131-159 | the anchor list keeps the newest distinct roots up to the window |
| EpochAnchors.CommitmentTree.Append | pkg/stark/imt256_epoch.go:35-43 | leaf i sits at place i mod capacity of epoch i / capacity; all epochs but the last are full |
| EpochAnchors.CommitmentTree.RecordAnchor | pkg/chain/zkspend.go:131-159 | the terminal roots of finished epochs become known for ever, and the order of the others is the old one with the current root appended if it is new, cut to the newest window; every epoch's root is known afterwards |
| EpochAnchors.CommitmentTree.ApplyBlock | pkg/chain/zkspend.go:121-159 | after every block each leaf ever appended lies under a known root, however many epochs the block crossed and however old the leaf |
| StateRoot.SortedKeys | pkg/chain/stateroot.go:185-192 | the keys come out ascending whatever order the map is enumerated in |
| StateRoot.SortsOnce | pkg/chain/stateroot.go:185-192 | a set of keys has one ascending enumeration |
| StateRoot.StateRootOf | pkg/chain/stateroot.go:73-182 | the stream written to the hash is the preimage, independent of map order |
| StateRoot.PreimageInjective | pkg/chain/stateroot.go:73-182 | two residual states with the same preimage are equal: maps as maps, the anchor order as a sequence |
| ByteCodec.CutSections | pkg/chain/stateroot.go:78-88 | tables of the same names and schemas are told apart by their bytes |
| MempoolModel.KeysAreMarks | pkg/mempool/mempool.go:58-117 | every conflict key names a mark that block validation sets for an input, and every such mark has its key unless a tag is of low order |
| MempoolModel.ConflictsAreDoubleSpends | pkg/mempool/mempool.go:58-117 | two transactions that pass validation share a conflict key if and only if block validation would find one of their inputs twice |
| MempoolModel.TwistsConflict | pkg/commit/oneofmany.go:57-72 | two tags have one conflict key exactly when they differ by a low-order part only, unless they are of low order themselves |
| MempoolModel.TemplateInputsFresh | pkg/mempool/mempool.go:58-117 | the inputs of several transactions pass the duplicate check of a block together if and only if those of each do and no two share a conflict key |
| MempoolModel.FreshTogether | pkg/chain/validate.go:98-141 | the block-wide duplicate check passes if and only if it passes for each transaction alone and no two share a mark |
| MempoolModel.SelectionFresh | pkg/mempool/mempool.go:247-280 | a conflict-free selection of valid transactions passes that check if and only if no two create the same output key or prime, swap key or nonce, vault or post-quantum key |
| MempoolModel.TemplateValid | pkg/chain/template.go:15-85 | a template of such a selection is a valid block if and only if the coinbase is valid and apart, nothing is created twice and the yields fit the pool |
| CornerRuns.SomeSelectionFails | pkg/mempool/mempool.go:247-280 | after some valid run there are valid transactions without a common conflict key that no block can hold together |
| MempoolModel.NoDuplicateTx | pkg/chain/validate.go:86-96 | no valid block holds a transaction twice, so the check of transaction ids refuses nothing more |
| MempoolModel.RankingUnique | pkg/mempool/mempool.go:256-264 | the pool has one ranking, whatever order the map is enumerated in |
| MempoolModel.GreedyFits | pkg/mempool/mempool.go:266-279 | the selection stays within count and byte budget and in rank order |
| Mempool.Pool.Add | pkg/mempool/mempool.go:120-207 | index, byte count and both caps are kept; a worthy newcomer that qualifies pushes out exactly its rivals and, only as far as room is needed, the cheapest others, all of strictly lower rates, and is refused exactly when those do not suffice |
| Mempool.Pool.CheckReplacement | pkg/mempool/mempool.go:215-239 | accepts exactly when the conflicts are few, all pay a strictly lower rate, and the fee covers their 64-bit fee sum plus bandwidth without overflow |
| Mempool.ReplacementPays | pkg/mempool/mempool.go:209-239 | an accepted replacement pays for all it replaces plus its bandwidth if and only if the replaced fees fit 64 bits together |
| MempoolFees.FeesBacked | pkg/mempool/mempool.go:120-207 | valid transactions without a common conflict key pay together at most the supply outside the incentive pool and the yields they claim |
| MempoolFees.ReplacementPaysOnChain | pkg/mempool/mempool.go:209-239 | on every chain whose emission counter is below its maximum, an accepted replacement of transactions that are still valid and claim no more than the pool pays for all of them and its bandwidth |
| FeeRuns.SomeRunUndercuts | pkg/mempool/mempool.go:219-226 | after some valid run from genesis a well-formed pool of valid transactions has two that are replaced by a valid one for less than they pay together |
| Mempool.Pool.Conflicts | pkg/mempool/mempool.go:175-181 | the index finds exactly the pooled transactions that share a key |
| Mempool.Pool.MakeRoom | pkg/mempool/mempool.go:192-200 | capacity eviction ends; what leaves pays a strictly lower rate and no more than anything that stays, with the last of them still there the newcomer would not fit, and it fails only when none of a lower rate is left |
| Mempool.Pool.EvictLowest | pkg/mempool/mempool.go:338-352 | exactly one transaction of the lowest rate of all leaves, and only if that is strictly lower than the newcomer's |
| Mempool.Pool.Delete | pkg/mempool/mempool.go:312-326 | the entry, its keys and its bytes leave together |
| Mempool.Pool.Expire | pkg/mempool/mempool.go:328-335 | exactly the entries past their time to live leave |
| Mempool.Pool.Remove | pkg/mempool/mempool.go:289-310 | exactly the mined transactions and those that conflict with the block leave |
| PendingTxs.PendingStaysValid | pkg/mempool/mempool.go:282-310 | on every chain, a valid transaction that shares no spend key with a valid block is valid after the block if and only if its swap claims and deposits and its yields are in time for the next height, none of its anchors is the one evicted, and the block creates nothing that it creates |
| CornerRuns.SomePendingOutdated | pkg/mempool/mempool.go:282-310 | after some valid run a valid transaction is made invalid by a valid block that shares no spend key with it |
| Mempool.Pool.Select | pkg/mempool/mempool.go:247-280 | the result is conflict-free, within both limits and ordered by fee rate, then fee, then id; whatever is left out does not fit beside those taken that come before it, or they already fill the count |
| MempoolModel.GreedyLeaves | pkg/mempool/mempool.go:266-279 | what the scan leaves out is crowded out: those taken that come before it number n or leave no room for it |
| MempoolModel.RateLaw | pkg/mempool/mempool.go:191-204 | the rate is the fee per byte, rounded down |
| Difficulty.NextDifficulty | pkg/consensus/difficulty.go:22-93 | the loop and clamps compute the weighted average of the last window, the genesis value on short histories, the override when set; `DifficultyLaws.ClosedForm` says what that average is |
| Difficulty.NextBounds | pkg/consensus/difficulty.go:73-92 | the result is at least 16 and half the last difficulty, and at most the larger of 16 and twice it |
| Difficulty.DriftBound | pkg/consensus/difficulty.go:73-92 | k blocks move the difficulty by at most a factor of 2^k in either direction |
| Difficulty.FixedPoint | pkg/consensus/difficulty.go:45-72 | on-target solve times and constant difficulty of at least 16 reproduce that difficulty |
| DifficultyLaws.ClosedForm | pkg/consensus/difficulty.go:36-92 | on windows of n blocks without outliers the difficulty is the average of all but the oldest, times 120 times n(n-1)/2, over the newest timestamp n - 1 times less the sum of the others, at least 6n; kept between half and twice the last and from 16 to 2^64 - 1 |
| DifficultyLaws.OutliersCapped | pkg/consensus/difficulty.go:46-52 | a window behaves as the one whose steps are cut to 720 seconds either way |
| DifficultyLaws.OldestIgnored | pkg/consensus/difficulty.go:45-58 | the oldest difficulty of the window does not matter |
| DifficultyLaws.HarderNeverEasier | pkg/consensus/difficulty.go:45-92 | raising difficulties of the window never lowers the next one |
| DifficultyLaws.OnTarget | pkg/consensus/difficulty.go:45-92 | with every block on target the next difficulty is the average of all but the oldest, clamped |
| Difficulty.NewestTimestamp | pkg/consensus/difficulty.go:45-72 | a later newest timestamp never raises the difficulty without wrap-around, and never lowers it once the difference wraps to the lower clamp |
| Difficulty.WrapsIff | pkg/consensus/difficulty.go:46-46 | the difference of two int64 timestamps wraps if and only if it leaves the int64 range: upwards only after a negative parent, downwards only for a negative timestamp after a positive parent |
| Difficulty.ParentDecides | pkg/consensus/difficulty.go:45-72 | among int64 newest timestamps from a least one on, a later one never raises the difficulty, whatever the history before the parent, if and only if no difference can wrap or all do |
| Difficulty.LaterNeverRaises | pkg/chain/validate.go:62-69 | with a parent and newest timestamps that are not negative a later one never raises the difficulty |
| HeaderTimes.MedianTimePast | pkg/chain/validate.go:762-774 | the result is the upper median of the last eleven timestamps, of all on a shorter chain |
| HeaderTimes.MedianUnique | pkg/chain/validate.go:762-774 | a list of timestamps has one upper median, whatever order equal ones are sorted in |
| HeaderTimes.LaterThanMost | pkg/chain/validate.go:60-74 | a header extends the chain if and only if its timestamp exceeds more than half of the last eleven, six once there are eleven, and it has the difficulty of the window |
| HeaderTimes.CheckHeader | pkg/chain/validate.go:60-74 | accepts exactly the headers above that median, not too far in the future, with the difficulty of the window |
| HeaderTimes.TimesFromGenesis | pkg/chain/validate.go:60-74 | on every chain of such headers all timestamps after genesis are above that of genesis |
| HeaderTimes.LaterHeaderNeverRaises | pkg/chain/validate.go:60-74 | on every such chain, of two timestamps that the next header may carry the later one never leads to a higher difficulty after it |
| Difficulty.LatestRaises | pkg/consensus/difficulty.go:46-46 | after the parent -1 the latest int64 timestamp raises the difficulty above that of 1199 |
| Difficulty.WrapRaises | pkg/consensus/difficulty.go:45-72 | one parent and two newest timestamps of which one reaches the upper clamp and the other a negative difference give difficulties 500 and 2000 from 1000 |

## Left out

- Cryptographic hardness, random sampling, hash functions, curve encodings, RandomX: abstract relations stand in for them.
- Associativity of class-group composition: assumed where powers are taken, as the group interface documents it.
- Extraction.Extract: the forking argument that turns a convincing prover into several answers on one set of commitments is not modelled; the answers are given.
- AnonSpend.Completeness: over points of prime order; `RingDrift.AcceptanceLaw` is the law for rings with any low-order parts.
- AnonSpendLoops.ProveThenVerify: over points of prime order; `RingDrift.FullProveThenVerify` is the law for rings with any low-order parts.
- The single-ring one-of-many proof (pkg/commit/oneofmany.go:146-337): the same equations as the ownership half of the joint proof.
- The verified-proof cache, the parallel pre-verification pass, locks, goroutines and timers: calls are atomic and every proof is checked.
- Header fields without value content (proof of work, timestamps, median time, block size in bytes) in the ledger model; timestamps and difficulties are in `HeaderTimes`.
- LedgerChecks.CheckBlock: the checks of the header are apart, in `Ledger.Chain.Validate`, `HeaderTimes` and `Retrievability`.
- Ledger.Chain.Validate: no retrievability commitment, timestamp and difficulty in this header; `Retrievability` and `HeaderTimes` model them apart.
- Ledger.Chain.Template: no retrievability commitment, timestamp and difficulty in this header; `Retrievability` and `HeaderTimes` model them apart.
- Ledger.Chain.VerifyTransfer: the header chain, its proof of work and the coin table of a transfer are not checked.
- PrunedReorgs.Switch: bodies of the active chain are those on disk; the bounded copies of recent blocks in memory lie above the pruning floor.
- PrunedForks.Adopt: the store is the one before the block; what a successful switch writes to it is left open, and so is the disk after one in `PrunedForks.Moved`.
- Authority of swap, vault and ownership signatures: one flag of a transaction says that all of them verify.
- Byte collisions between output references and tags in the shared duplicate map: they are different marks in the model.
- Ledger.RecordAnchor: within one epoch of the commitment tree; `EpochAnchors` has the rule across epochs, apart from the ledger's state.
- Heights, counts and indices are unbounded; only amounts, fees, difficulties and word encodings carry their 64-bit width.
- Referral tags: they never change what is minted.
- Wire formats of blocks, transactions, coins and proofs, apart from class-group elements and the state-root preimage.
- Pruning of side-branch nodes from memory, persistence of the active chain after a reorganisation, restart.
- Inclusion proofs of the append-only accumulator (pkg/pqaccum/merkle.go:213-273).
- ForkChoice.Tree.AddBlock: whether a branch validates is decided by the environment, so a refused activation is any refusal.
- ChainRebuild.Chain.Rebuild: snapshots are assumed to lie on the branch; liveness of recovery is not claimed.
- SwapReorgs.RefundThenNoClaim: the opposite order, a claim replaced by a refund, does not follow from the depth bound and is not claimed.
- Node, dashboard, wallet, swap daemon, RPC, networking, Tor, simulators and statistics.
