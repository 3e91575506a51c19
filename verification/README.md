# Private signaling: verified models

This project models the algorithmic kernels of a private signaling prototype and of the
baselines it is compared with, and proves what they are for:

- the secret-shared shuffle (`Opv`, `ShareTranslation`, `Layout`, `PermNetwork`, `Offline`,
  `Shuffle`): punctured trees feed share translations, these feed a layered permutation
  network, and the layers' corrections fold into one;
- distributed point functions (`Dpf`, `XorDpf`, `Vdpf`, `Field61`, `Retry`, `KeyLayout`): key
  generation and evaluation walk the same tree, pointwise and level by level, an attempt of key
  generation is kept under an exact condition, and a verifiable key share survives its byte layout;
- garbled circuits (`Circuit`, `Bristol`, `Labels`, `Garble`, `GarbledCircuit`,
  `GarbledEvaluation`, `OffsetClash`, `Packing`, `Adder`): parsing, free-XOR labels, point-and-permute tables, the
  packed wire format and memoised evaluation, plain and garbled, down to a circuit file that adds;
- the oblivious batched update of PPS-GC (`BatchedUpdate`, `TwoServers`, `Blinding`): a branch-free
  double loop that equals a plain append, the invariant of two servers over whole runs, and
  outputs that the garbler's seed hides;
- streaming SHA-256 (`Words`, `Fips180`, `Sha256`) against FIPS 180-4, whose functions are stated
  bit by bit (`Fips180Bits`) and whose constants are roots of primes (`Fips180Roots`);
- admission of signals by two servers (`Admission`), over every interleaving of their calls, and
  with the verifiable point functions behind it (`VdpfAdmission`);
- Beaver multiplication and the compression test (`Compression`), and what the recipient gets after
  shuffle and compression (`Recovery`);
- the power ladder and range check of OMR (`Rings`, `PowerLadder`, `PatersonStockmeyer`).

`Bits`, `Blocks` and `Permutations` hold the shared arithmetic, `Memory` and `Network` the copying
of bytes and the connection of the two servers. `dafny verify dfyconfig.toml` checks everything.

## How the model is built

Machine words are natural numbers with the C operators written out in `Bits`; 64-bit lanes and
32-bit words wrap around explicitly. Code that changes arrays or fields in place is a method on
arrays or on a class with the same fields, specified by a function, and the properties are
lemmas about that function or clauses of the method that composes the steps.

Parameters of the model, each arbitrary unless a contract says otherwise:

- the tree generators, the block cipher, BLAKE2b and the hash H and H' are functions;
- oblivious transfer is ideal (`Opv.IdealOt`), the two-party garbled execution of PPS-GC is its
  circuit, and the Beaver triple is correct in the low lane;
- randomness is a tape (`nat -> label`, `nat -> nat`) or an argument (roots, masks, seeds);
- messages between servers go through first-in first-out queues (`Network.NetIO`);
- ciphertexts of the range check are a slot value in a commutative ring and a modulus level.

Where the code and what is written about it disagree, the model follows the code. Each case has
its exact condition and an input on which it shows:

- the zero block is the on-path marker of punctured expansion, so a zero node loses leaves
  (`Opv.PunctureExact`; `Opv.ZeroNodeBreaksExpansion`);
- with one layer the shuffle permutes ALICE's vector only (`Shuffle.SingleLayerShuffle`;
  `Shuffle.LostShareRun`);
- the proof hash runs on a counter-mode context, and xoring the input back cancels it
  (`Vdpf.MmoHashIsKeystream`), so running proofs agree if and only if the two keys carry the same
  `cs` (`Vdpf.CounterProofsAgree`), and admission takes keys whose shares are no point function
  (`VdpfAdmission.CounterSubmission`; `VdpfAdmission.FlatSubmission`);
- an output wire that no line assigns reads gate 0 (`Bristol.OutputDriverExact`;
  `Bristol.UnassignedOutputReadsInput`);
- an EQ line assigns wire 0 instead of the wire it names, and the constant gate it makes has an
  operand, which validation refuses (`Bristol.ParsedEvaluable`; `Bristol.ConstantWireIsLost`);
- an exclusive or that reads an output gate on one side only mixes two label offsets. On one input
  all labels that evaluation comes to are right if and only if every exclusive or among them is
  balanced or has a false left operand (`GarbledEvaluation.LabelsRightIff`; a run that decodes a
  wrong output: `OffsetClash.WrongOutput`);
- the compression test misses the values whose product with the random factor is a multiple of
  2^62. The factor is any 64-bit word: all nonzero values below 2^62 are found exactly for odd
  factors, all field values exactly for factors that are no multiples of 4
  (`Compression.OpenedZeroIff`, `Compression.FactorExact`; `Compression.EvenFactorLosesValue`);
- the compressed shares add up modulo 2^64 but are reduced modulo 2^61 - 1 before they are opened, so
  a value whose low lanes carry opens 8 too high. The recipient gets the nonzero values, with their
  multiplicities, if and only if the test sees all of them, all are field values and none carries
  (`Recovery.RecoveredExact`, `Compression.CarryIff`; `Compression.CarryShiftsValue`).

The coefficient table of the range check is an argument of the model. A block of 256 zero
coefficients would leave no ciphertext to switch (`PatersonStockmeyer.RangeCheck`); the table the
code ships (baselines/omr/include/global.h:21) has nonzero coefficients in every block.

## Model

| member | source | states |
|---|---|---|
| `Opv.PrepareCorrelation` | pvfss/src/opv.cc:5-16 | each string of the transfer ends as its old value xored with all left (right) nodes of its level |
| `Opv.ParseChoiceBits` | pvfss/src/opv.cc:99-103 | the bits are the negated bits of the index, highest first |
| `Opv.SimpleExpand` | pvfss/src/opv.cc:58-72 | the recursive calls fill exactly their slice with the leaves below the seed, left to right, and touch nothing else |
| `Opv.PunctureExpand` | pvfss/src/opv.cc:88-151 | the queue loop computes the layer-by-layer specification, with the zero block as on-path marker |
| `Opv.ExpandLayer` | pvfss/src/opv.cc:116-146 | one pass over the queue is one step of the layer specification: expansion, xor aggregate and correction of the sibling |
| `Opv.AggMaskPunctured` | pvfss/src/opv.cc:118-130 | the aggregate of an expanded layer is the level sum of the chosen side without the node next to the path |
| `Opv.LayerIsPunctured` | pvfss/src/opv.cc:116-145 | with honest seeds and no zero node every layer of the queue is the tree level with only the on-path node missing |
| `Opv.PunctureSound` | pvfss/src/opv.cc:88-151 | punctured expansion returns every leaf but x, and the zero block at x, when no node above the leaves off the path is the zero block |
| `Opv.PunctureExact` | pvfss/src/opv.cc:123-140 | for trees without a zero leaf that condition is also necessary: expansion is right if and only if no off-path node is the zero block |
| `Opv.ZeroPersists` | pvfss/src/opv.cc:131-140 | a zero block in one layer, on the path or not, leaves a zero block in every later layer |
| `Opv.ZeroNodeBreaksExpansion` | pvfss/src/dlen_prg.cc:3-10 | for every permutation of blocks in the place of the cipher: below the root that makes an inner node the zero block the receiver of index 0 does not get the other leaves |
| `Opv.PuncturedVector` | pvfss/src/opv.cc:18-55 | both parties together over an ideal transfer: the sender gets all leaves, the receiver what expansion makes of the level sums it was sent, which is all but leaf x under the condition above; the condition is also necessary when no leaf is zero |
| `ShareTranslation.FullSums` | pvfss/src/ss_shuffle.cc:39-44 | a holds the column sums and b the row sums of the matrix |
| `Blocks.LaneArithmetic` | pvfss/src/ss_shuffle.cc:39-59 | sums and differences of blocks are taken modulo 2^64 in each lane, with no carry between the lanes |
| `ShareTranslation.PuncturedSums` | pvfss/src/ss_shuffle.cc:54-59 | the receiver accumulates, per row, the row minus the column its permutation names |
| `ShareTranslation.RowLacks` | pvfss/src/ss_shuffle.cc:49-52 | a row sum of the full matrix is the one of the punctured matrix plus the missing entry |
| `ShareTranslation.ColLacks` | pvfss/src/ss_shuffle.cc:49-52 | column perm[i] lacks the entry of row i and no other |
| `ShareTranslation.DeltaIsTranslation` | pvfss/src/ss_shuffle.cc:54-59 | the receiver's double sum over the punctured matrix is b[i] - a[perm[i]] of the full one, for every permutation |
| `ShareTranslation.Translate` | pvfss/src/ss_shuffle.cc:23-61 | both parties over random roots: a and b are column and row sums of the leaves, delta the differences over what the receiver got, and they are a translation vector pair with matching delta whenever no tree hits the zero block |
| `Layout.IndexIsRadix` | pvfss/src/ss_shuffle.cc:76-81 | the or of shifted prefix, position and suffix is the mixed-radix number with these digits |
| `Layout.IndexBijection` | pvfss/src/ss_shuffle.cc:75-83 | block and position can be read back from an index, which stays below 2^n |
| `Layout.IndexCovers` | pvfss/src/ss_shuffle.cc:75-83 | every index below 2^n belongs to one block and position: the blocks of a layer partition the indices |
| `PermNetwork.SubPerm` | pvfss/src/ss_shuffle.cc:68-84 | one block is permuted by its sub-permutation, all other indices keep their value |
| `PermNetwork.SubPermLayer` | pvfss/src/ss_shuffle.cc:119-127 | a loop over all blocks reads the array through the permutation of the whole layer |
| `PermNetwork.LayerIsPerm` | pvfss/src/ss_shuffle.cc:119-127 | a layer of block permutations is a permutation of all indices |
| `PermNetwork.LayerAtStays` | pvfss/src/ss_shuffle.cc:75-83 | a layer moves an index within its block, to the position its sub-permutation names |
| `PermNetwork.LayerSuffix` | pvfss/src/ss_shuffle.cc:166-175 | the closed form of the suffix length per layer |
| `PermNetwork.SuffixSteps` | pvfss/src/ss_shuffle.cc:128-157 | the incrementally updated and capped suffix lengths of the first loop agree with the closed form |
| `PermNetwork.PermReconstruct` | pvfss/src/ss_shuffle.cc:97-160 | the reconstructed array is the composition of all layers, which is a permutation |
| `PermNetwork.SubPermReconstruct` | pvfss/src/ss_shuffle.cc:162-189 | one layer alone gives the same permutation as that layer inside the composition |
| `PermNetwork.SingleLayer` | pvfss/src/ss_shuffle.cc:104-112 | the branch for one layer gives the one-layer composition |
| `Permutations.ThroughPerm` | pvfss/src/ss_shuffle.cc:86-95 | reading a permutation through a permutation gives a permutation |
| `Permutations.ThroughMultiset` | pvfss/src/ss_shuffle.cc:86-95 | reading a vector through a permutation keeps its multiset of values |
| `Offline.Reallocate` | pvfss/src/ss_shuffle.cc:191-217 | each block-local position moves to the index the layer uses for it |
| `Offline.HomeInverse` | pvfss/src/ss_shuffle.cc:206-214 | the slot that lands on an index is unique and given by block and position |
| `Offline.PlacedTranslates` | pvfss/src/ss_shuffle.cc:273-281 | after reallocation the per-block translations are one translation through the layer's permutation |
| `Offline.Offsets` | pvfss/src/ss_shuffle.cc:283-286 | offset i is a of layer i + 1 minus b of layer i |
| `Offline.SimplePerm` | pvfss/src/ss_shuffle.cc:86-95 | in-place application of a permutation |
| `Offline.FoldDelta` | pvfss/src/ss_shuffle.cc:299-316 | the in-place loop over layers computes the fold of deltas and offsets |
| `Offline.FoldTelescopes` | pvfss/src/ss_shuffle.cc:299-309 | after m layers the fold is a of layer m minus a of layer 0 read through the first m layers |
| `Offline.FoldTranslates` | pvfss/src/ss_shuffle.cc:299-316 | the final delta is b of the last layer minus a of the first, read through the composed permutation |
| `Offline.OfflineFinish` | pvfss/src/ss_shuffle.cc:299-316 | one party's outputs: first a, last b and the folded delta; with one layer the layer's own vectors |
| `Offline.EndsPlaced` | pvfss/src/ss_shuffle.cc:288-316 | the vectors handed out are a of the first layer and b of the last one, reallocated if there is more than one layer |
| `Offline.OfflineBoth` | pvfss/src/ss_shuffle.cc:219-317 | both parties: permutations are the compositions, first a and last b are those of the first and last layer at their places, and each delta matches the other party's a and b |
| `Offline.SingleLayerTranslates` | pvfss/src/ss_shuffle.cc:264-271 | the branch for one layer also hands out a matching translation |
| `Shuffle.PermuteShare` | pvfss/src/ss_shuffle.cc:319-358 | both roles: the two outputs add up to the vector read through the permutation, the party that brings the vector ends with the mask less its b, and exactly the vector plus a is sent one way and the mask the other |
| `Shuffle.SecretSharedShuffle` | pvfss/src/ss_shuffle.cc:360-392 | both servers, more than one layer: BOB ends with ALICE's mask less his b, ALICE with the rest, so that the shares add up to the shared vector through BOB's then ALICE's permutation; the multiset of values is kept, every message is stated and received |
| `Shuffle.RunningVector` | pvfss/src/ss_shuffle.cc:384-390 | what BOB holds between the rounds is the vector through his permutation less ALICE's first output |
| `Shuffle.SingleLayerShuffle` | pvfss/src/ss_shuffle.cc:370-373 | with one layer only ALICE's vector is permuted and her output and the message are stated: the result is the shared vector if and only if BOB's share is zero |
| `Shuffle.LostShareRun` | pvfss/src/ss_shuffle.cc:370-373 | a run with one layer that loses a share: the result is not the shuffled vector |
| `Shuffle.IgnoredShare` | pvfss/src/ss_shuffle.cc:370-373 | dropping a share is harmless exactly when it is zero everywhere |
| `Shuffle.TranslateNetwork` | pvfss/src/ss_shuffle.cc:235-262 | a share translation for every block of every layer: a and b are the column and row sums of the leaves below the roots of that block, and delta translates them |
| `Shuffle.EndsOfTrees` | pvfss/src/ss_shuffle.cc:299-358 | what a party brings to the online rounds comes from its trees: a is the column sums of the first layer's, b the row sums of the last layer's, each at its place |
| `Shuffle.ShuffleEndToEnd` | pvfss/src/ss_shuffle.cc:219-392 | transfers, translations, folding and online rounds composed: for all roots without zero nodes and all masks the shares add up to the doubly permuted vector, BOB's share is ALICE's mask less row sums of his last layer's trees, and the four messages are stated, each under a mask or under sums of the sender's trees |
| `Dpf.DpfPrgIgnoresLowBit` | vdpf/src/common.c:57-82 | seeds handed out are even, and the low bit of a seed never matters |
| `Dpf.DpfPrgHoldsBlocks` | vdpf/src/common.c:57-82 | seed and control bit of a child hold an encrypted block xored with the even seed: the even seed itself on the left, the next number on the right, where the bit is flipped |
| `Dpf.GenTree` | vdpf/src/vdpf.c:45-95 | the key loop over the levels computes the recursive generation: correction words and both on-path nodes |
| `Dpf.ChildInvariant` | vdpf/src/vdpf.c:63-94 | a correction word keeps the on-path/off-path invariant on the kept side and on the lost side |
| `Dpf.TreeInvariant` | vdpf/src/vdpf.c:45-95 | at every node of every level: on the path the control bits differ and the nodes are the generated ones, off it seeds and bits are equal |
| `Dpf.OnPathIff` | vdpf/include/common.h:38-41 | a node is on the path exactly when its number agrees with the index on the bits of its level |
| `Dpf.SelectIs` | vdpf/src/vdpf.c:214-217 | the multiplications by the bit select one child |
| `Dpf.EvalPath` | vdpf/src/vdpf.c:202-218 | the evaluation loop reaches the leaf of the recursive tree and keeps the root |
| `Dpf.ParentFormula` | vdpf/src/dpf.c:220-224 | the index computed from the level counters is (i - 1) / 2 and the level counter is the parent's depth |
| `Dpf.HeapIsTree` | vdpf/src/dpf.c:218-250 | position 2^level - 1 + m of the array tree is node m of that level |
| `Dpf.FullTree` | vdpf/src/dpf.c:216-250 | the level-order loop fills the array so that its last 2^size entries are the leaves |
| `XorDpf.GenDPF` | vdpf/src/dpf.c:17-112 | the two keys share the correction words and the last word |
| `XorDpf.BatchEvalDPF` | vdpf/src/dpf.c:114-177 | every output is the pointwise share |
| `XorDpf.LastWordCorrects` | vdpf/src/dpf.c:164-173 | a share is the seed of the leaf, with the last correction word xored in exactly at leaves whose control bit is set |
| `XorDpf.FullDomainDPF` | vdpf/src/dpf.c:182-271 | entry x of the full-domain output is the pointwise share at x |
| `XorDpf.SharesOfPoint` | vdpf/src/dpf.c:93-112 | the two shares xor to 1 at the point and to 0 elsewhere |
| `Field61.Opposites` | vdpf/include/field61.h:12-22 | a value and its negation add to zero |
| `Field61.CorrectedShares` | vdpf/src/vdpf.c:130-133 | the correction word makes the two on-path shares add to beta modulo p, for either control bit |
| `Field61.ReduceFirst` | vdpf/include/field61.h:12-14 | adding an unreduced word gives the same as reducing it first |
| `Vdpf.GenVDPF` | vdpf/src/vdpf.c:16-153 | the retry loop returns the keys of the first attempt whose on-path seed bits differ |
| `Retry.SeedLsbIs` | vdpf/include/common.h:19-22 | the bit read is the second lowest one: the low two bits of a seed are twice it plus the lowest |
| `Retry.AcceptedIff` | vdpf/src/vdpf.c:119-125 | an attempt is kept exactly when the second lowest bits of the two on-path leaf seeds differ |
| `Retry.KeptChildrenDiffer` | vdpf/src/vdpf.c:63-94 | below nodes with different control bits the kept children differ in that bit exactly when one seed and not the other has children that do, whichever child is kept |
| `Retry.AcceptedExact` | vdpf/src/vdpf.c:45-125 | for every generator the exact condition on an attempt: the roots without levels, the children of the two nodes above the leaves otherwise |
| `Retry.ChildrenDifferIff` | vdpf/src/common.c:57-82 | with the generator of the code a seed has such children exactly when the cipher gives its two blocks different second lowest bits |
| `Retry.SomeAttemptKept` | vdpf/src/vdpf.c:106-125 | for every size and index there are a cipher and roots with which the generator of the code keeps an attempt |
| `Retry.NoAttemptKept` | vdpf/src/vdpf.c:106-125 | with the identity for the cipher no attempt is ever kept, for any size from 1, index and roots |
| `Vdpf.KeysOfAttempt` | vdpf/src/vdpf.c:96-151 | the two keys differ in their roots alone, and the correction turns the first hash of the on-path leaves into the second |
| `Vdpf.LeafPairShares` | vdpf/src/vdpf.c:248-258 | what the output code makes of two leaves adds up to zero for equal leaves, whatever the last word, and to beta for leaves with different control bits and their last word |
| `Vdpf.EvalOne` | vdpf/src/vdpf.c:200-263 | one turn of the loop gives the share at an input and the next proof value |
| `Vdpf.BatchEvalVDPF` | vdpf/src/vdpf.c:158-263 | all shares and the running proof over the whole input list |
| `Vdpf.StepParts` | vdpf/src/vdpf.c:223-246 | a proof step feeds H' the proof xored with the hash of input and leaf, which is corrected with cs exactly for leaf seeds whose low two bits are 2 or 3, and xors the result into the proof |
| `Vdpf.FullDomainVDPF` | vdpf/src/vdpf.c:284-372 | entry x of the full-domain output is the pointwise share at x |
| `Vdpf.SharesOfPoint` | vdpf/src/vdpf.c:130-133 | the two shares add modulo 2^61 - 1 to beta at the point and to 0 elsewhere, for every depth, point, value and seeds |
| `Vdpf.ProofsAgree` | vdpf/src/vdpf.c:223-246 | with the hashes as fixed functions, honest keys of a kept attempt give equal running proofs after every input below 2^size |
| `Vdpf.CorrectedHashesAgreeIff` | vdpf/src/vdpf.c:113-125 | correcting the two on-path hashes makes them agree if and only if the seed bits differ or the hashes were equal |
| `Vdpf.MmoHashIsKeystream` | vdpf/src/mmo.c:63-97 | in counter mode both hashes return the next four keystream blocks, whatever their input |
| `Vdpf.CallsAreKeystream` | vdpf/src/mmo.c:37-97 | call number n of either hash returns keystream blocks 4n to 4n + 3 |
| `Vdpf.StepIsKeystream` | vdpf/src/mmo.c:37-53 | with these hashes a proof step xors the next keystream blocks into the proof, whatever input and leaf |
| `Vdpf.CounterProofsAgree` | vdpf/src/mmo.c:37-53 | running proofs of any two keys over equally many inputs agree if and only if the keys carry the same cs |
| `Vdpf.CounterProof` | vdpf/src/mmo.c:37-53 | such a proof is cs xored with all keystream blocks H' returned, whatever the inputs, seeds and correction words |
| `Vdpf.FlatKeysAreNoPoint` | vdpf/src/vdpf.c:158-263 | for every generator, every size and every two roots: two keys with equal cs whose shares add up to zero neither at input 0 nor at input 1 |
| `Vdpf.FlatShares` | vdpf/src/vdpf.c:200-258 | the shares of these keys at inputs 0 and 1, from the uncorrected seeds |
| `KeyLayout.ReadKey` | vdpf/src/vdpf.c:178-191 | the parsing loop reads the fields of a key share from their positions |
| `KeyLayout.WriteKeys` | vdpf/src/vdpf.c:135-151 | the writing code leaves both key shares in the 18-byte stride layout |
| `KeyLayout.KeyPositions` | vdpf/src/vdpf.c:135-151 | where each field stands: party number before and after the root, a record of 18 bytes a level, then the last word over sixteen bytes and the four blocks of the hash correction |
| `KeyLayout.BytesDigit` | vdpf/src/vdpf.c:135-151 | byte i of a field holds bits 8i to 8i + 7 |
| `KeyLayout.KeyRoundTrip` | vdpf/src/vdpf.c:135-191 | a key share has the expected size and reading it back gives the key, for every key in range |
| `KeyLayout.KeyPairInRange` | vdpf/src/vdpf.c:45-151 | the keys that generation makes are in range, and the second is the first with its own root |
| `Circuit.AcyclicPredecessor` | baselines/fmd/toygarble/circuit.go:169-198 | a predecessor of a loop-free gate is loop-free and has strictly fewer ancestors |
| `Circuit.CyclicHasPredecessor` | baselines/fmd/toygarble/circuit.go:176-179 | a gate that reaches a loop reaches it through one of its predecessors |
| `Circuit.GateOutcome` | baselines/fmd/toygarble/circuit.go:200-301 | a gate succeeds exactly when its predecessors do and then combines their values |
| `Circuit.GateLaws` | baselines/fmd/toygarble/circuit.go:200-301 | what each kind of gate computes from the values of its operands: and, or, exclusive or, negation, copy, and inputs as given |
| `Circuit.EvaluateGate` | baselines/fmd/toygarble/circuit.go:169-311 | the memoised recursion ends, succeeds exactly on gates that reach no loop, returns the plain value and keeps the memo right |
| `Circuit.EvaluateCircuit` | baselines/fmd/toygarble/circuit.go:135-166 | success if and only if the input count is right, there is an output and no output reaches a loop; then the plain values |
| `Bristol.Parse` | baselines/fmd/toygarble/bristolparse.go:83-180 | parsing succeeds exactly when every line has a known operation and reads only inputs and wires assigned before, and the gates are the ones the lines describe, constants and copies included |
| `Bristol.LineLaws` | baselines/fmd/toygarble/bristolparse.go:83-169 | the value of a line, by its operation, from the values of the gates that drive its wires when it is read |
| `Bristol.EarlierGatesOnly` | baselines/fmd/toygarble/bristolparse.go:87-169 | a gate from a line, unless it is a constant, reads inputs or strictly earlier lines only |
| `Bristol.ParsedEvaluable` | baselines/fmd/toygarble/bristolparse.go:83-180 | parsed circuits with inputs are valid, and can be evaluated, if and only if no line is a constant |
| `Bristol.ParsedAcyclic` | baselines/fmd/toygarble/bristolparse.go:87-180 | parsed circuits with an input and without constants have no loop |
| `Bristol.ParsedOutputsAreSinks` | baselines/fmd/toygarble/bristolparse.go:184-206 | no gate of such a parsed circuit reads an output gate |
| `Bristol.NoInputsLoop` | baselines/fmd/toygarble/bristolparse.go:171-176 | without inputs and constants no line can be read and every output runs into itself |
| `Bristol.OutputDriverExact` | baselines/fmd/toygarble/bristolparse.go:171-176 | an output reads the gate that drives its wire exactly when the wire was assigned; an unassigned one falls back to gate 0 |
| `Bristol.UnassignedOutputReadsInput` | baselines/fmd/toygarble/bristolparse.go:171-176 | a file whose output wire no line assigns: it parses and the output shows input 0 |
| `Bristol.ConstantWireIsLost` | baselines/fmd/toygarble/bristolparse.go:148-153 | a file whose constant line is good and whose next line, which reads the constant, is not |
| `Adder.AdderAdds` | baselines/fmd/toygarble/circuit.go:200-301 | in the circuit of the full adder file the outputs are sum, carry and negated carry of the three inputs, as numbers |
| `Adder.Add` | baselines/fmd/toygarble/bristolparse.go:16-206 | parsing the full adder file and evaluating it adds three bits |
| `Labels.DecryptInverts` | baselines/fmd/toygarble/simplegarble.go:580-634 | decrypting an entry with the same row and keys gives the label back |
| `Labels.DecryptExact` | baselines/fmd/toygarble/simplegarble.go:580-634 | any other row and keys give the label back if and only if the hash does not tell them from the right ones |
| `Labels.HashedBytes` | baselines/fmd/toygarble/simplegarble.go:580-634 | the hashed bytes tell apart the row and the first fifteen bytes of both labels, and nothing else |
| `Labels.SelectorOfXor` | baselines/fmd/toygarble/simplegarble.go:417-425 | the selector of a xor of labels is the xor of the selectors |
| `Garble.SelectorsDiffer` | baselines/fmd/toygarble/simplegarble.go:395-461 | the two labels of every wire have different selectors |
| `Garble.OffsetOf` | baselines/fmd/toygarble/simplegarble.go:412-457 | the labels of a wire differ by the global offset, or by the output offset along right operands |
| `Garble.FreeXorExact` | baselines/fmd/toygarble/simplegarble.go:326-332 | xoring labels evaluates an exclusive or on all four bit pairs if and only if both operands have the same offset |
| `Garble.XorGateExact` | baselines/fmd/toygarble/simplegarble.go:412-431 | for a garbled circuit this holds exactly when both operands or neither lead to an output gate, or the offsets coincide |
| `Garble.XorBitExact` | baselines/fmd/toygarble/simplegarble.go:326-332 | on one pair of bits the xored label is right if and only if the operands have the same offset or the left bit is false |
| `Garble.RecursionEndsIff` | baselines/fmd/toygarble/simplegarble.go:382-410 | the recursion of label assignment ends at a gate if and only if the gate reaches no loop |
| `Garble.EndingIsDone` | baselines/fmd/toygarble/simplegarble.go:466-564 | garbling all gates ends normally if and only if no gate is a copy or a constant |
| `Garble.SinksBalanced` | baselines/fmd/toygarble/simplegarble.go:412-431 | circuits whose outputs nobody reads meet that condition at every exclusive or |
| `Garble.GetGatePermutation` | baselines/fmd/toygarble/simplegarble.go:638-669 | row i moves to the row its masked bits name; other table sizes are refused |
| `Garble.GarbleTable4` | baselines/fmd/toygarble/simplegarble.go:506-544 | every row selected by two operand labels encrypts the label of the combined bit |
| `Garble.GarbleTable2` | baselines/fmd/toygarble/simplegarble.go:545-550 | the same for one operand |
| `Garble.OtherRow` | baselines/fmd/toygarble/simplegarble.go:660-666 | different truth-table rows go to different table rows |
| `GarbledCircuit.SimpleGarbledCircuit.AssignWireLabels` | baselines/fmd/toygarble/simplegarble.go:382-461 | on circuits without loops the recursion ends, stops only at an operand that does not exist, labels a gate after its operands, never changes a label and never draws twice from one tape position |
| `GarbledCircuit.ChosenPairObeysRule` | baselines/fmd/toygarble/simplegarble.go:412-457 | the pair chosen in each branch obeys the label rule of the gate |
| `GarbledCircuit.OffsetBytes` | baselines/fmd/toygarble/simplegarble.go:149-163 | the offset is the first tape label with its last bit set |
| `GarbledCircuit.DrawnBytes` | baselines/fmd/toygarble/simplegarble.go:434-457 | a drawn zero label has five zero bytes and bytes 5 to 15 of its tape position |
| `GarbledCircuit.SimpleGarbledCircuit.GarbleGate` | baselines/fmd/toygarble/simplegarble.go:466-564 | the table of a gate is a correct garbling under the labels |
| `GarbledCircuit.SimpleGarbledCircuit.GarbleCircuit` | baselines/fmd/toygarble/simplegarble.go:132-182 | fails on invalid circuits and changes nothing, panics on operands that do not exist, and otherwise ends as its first gate that does not garble; when all operands exist the labels follow the rules, offset and zero labels hold the bytes of their tape positions, the offset is odd and no label is drawn twice; after normal ending every gate has a correct table |
| `GarbledCircuit.WiredByRules` | baselines/fmd/toygarble/simplegarble.go:395-402 | a valid circuit whose gates all got labels reads only gates that exist |
| `GarbledCircuit.SimpleGarbledCircuit.GetInputLabelsFromBools` | baselines/fmd/toygarble/simplegarble.go:186-209 | the label of each input bit, or nothing when the count is wrong |
| `Packing.PackedMarshal` | baselines/fmd/toygarble/simplegarble.go:42-62 | the bytes are the packed form of input labels and tables |
| `Packing.PackedUnmarshal` | baselines/fmd/toygarble/simplegarble.go:64-119 | success exactly on buffers of the expected length, a panic exactly on short ones that end between labels, an error otherwise; on success the bytes are the packed form of the result |
| `Packing.PacksInjective` | baselines/fmd/toygarble/simplegarble.go:42-119 | reading back gives exactly the labels and tables that were packed |
| `GarbledCircuit.SimpleGarbledCircuit.Unmarshal` | baselines/fmd/toygarble/simplegarble.go:64-119 | the same, stored in the object's fields |
| `GarbledEvaluation.Row4Decrypts` | baselines/fmd/toygarble/simplegarble.go:338-344 | the row two labels select decrypts to the label of the combined bit |
| `GarbledEvaluation.Row2Decrypts` | baselines/fmd/toygarble/simplegarble.go:346-349 | the same for one operand |
| `GarbledEvaluation.GateLabel` | baselines/fmd/toygarble/simplegarble.go:325-359 | a gate garbled under the labels turns the labels of two bits into the label of the result; an exclusive or does so if it is balanced or the left bit is false |
| `GarbledEvaluation.EvaluateGarbledGate` | baselines/fmd/toygarble/simplegarble.go:250-373 | on any tables of the right sizes and any labels the memoised recursion ends, succeeds exactly on gates that reach no loop and returns the recursive meaning of the gate on labels |
| `GarbledEvaluation.EvaluateLabels` | baselines/fmd/toygarble/simplegarble.go:213-247 | success exactly as plain evaluation, each result the recursive meaning of its output gate |
| `GarbledEvaluation.LabelsRightIff` | baselines/fmd/toygarble/simplegarble.go:250-373 | for one input all gates that evaluation comes to carry the label of their plain value if and only if every exclusive or among them is balanced or has a false left operand |
| `GarbledEvaluation.RightLabel` | baselines/fmd/toygarble/simplegarble.go:250-373 | under that condition each of these gates does, by recursion |
| `GarbledEvaluation.BalancedIsRight` | baselines/fmd/toygarble/simplegarble.go:412-431 | balance of the exclusive ors that evaluation comes to is enough, for every input |
| `GarbledEvaluation.OutputBit` | baselines/fmd/toygarble/simplegarble.go:435-441 | the low bit of an output label is the plain output |
| `GarbledEvaluation.DecodeOutputs` | baselines/fmd/toygarble/simplegarble.go:715-722 | the low bits as digits, the first output last |
| `GarbledEvaluation.PackedLength` | baselines/fmd/toygarble/simplegarble.go:83-118 | the packed form has the length the receiver expects |
| `GarbledEvaluation.GarbledRun` | baselines/fmd/toygarble/simplegarble.go:132-247 | garble, pack, unpack, choose labels, evaluate, decode: success exactly when garbling ends normally and the counts match; then the labels are those of the tape and none is drawn twice, the tables are a correct garbling under them, the bytes their packed form, the digits the low bits of the evaluated labels, and these are the plain outputs if the output gates are in place and every exclusive or that evaluation comes to is balanced or has a false left operand |
| `OffsetClash.ClashRun` | baselines/fmd/toygarble/simplegarble.go:326-356 | a circuit in which an output reads the exclusive or of another output and the input behind it: for every tape and hash its second digit is wrong exactly if the hash gives two keys different low bits |
| `OffsetClash.WrongOutput` | baselines/fmd/toygarble/simplegarble.go:326-356 | for every tape whose offset differs from the output offset in a bit of the first fifteen bytes, a hash under which the outputs true and false decode as 11 |
| `OffsetClash.DifferentBit` | baselines/fmd/toygarble/simplegarble.go:395-401 | such a bit exists whenever these bytes differ |
| `GarbledEvaluation.RunFile` | baselines/fmd/toygarble/bristolparse.go:16-180 | for every circuit file with inputs: garbling fails on files with constants, panics on others with copies, and on all the rest such a garbled run gives what plain evaluation gives, the values of the output gates of the parsed circuit |
| `Adder.AddGarbled` | baselines/fmd/toygarble/simplegarble.go:132-247 | garbling the full adder file, packing, unpacking and evaluating adds three bits, for every hash and every tape |
| `BatchedUpdate.AppendAllRow` | baselines/pps-gc/pps-garbled-circuits/src/circuits/batched_update.rs:296-344 | appending signals one by one puts the k-th signal of a row into slot start + k while there is room, keeps the other slots and counts what was placed |
| `BatchedUpdate.CaughtExactly` | baselines/pps-gc/pps-garbled-circuits/src/circuits/batched_update.rs:127-162 | the branch-free test catches a signal exactly when it is the first one of its row not placed yet and the slot is the next free one |
| `BatchedUpdate.UpdateSlot` | baselines/pps-gc/pps-garbled-circuits/src/circuits/batched_update.rs:115-170 | a slot takes at most one signal, which is marked handled, and the index moves by one exactly then |
| `BatchedUpdate.SlotMerged` | baselines/pps-gc/pps-garbled-circuits/src/circuits/batched_update.rs:177-182 | merging with the old location gives the appended slot under its blinding |
| `BatchedUpdate.UpdateRow` | baselines/pps-gc/pps-garbled-circuits/src/circuits/batched_update.rs:109-187 | one row: every slot is the appended one under its blinding, and the two-byte constants run out exactly for rows or slots past 65535 |
| `BatchedUpdate.BatchedUpdateTable` | baselines/pps-gc/pps-garbled-circuits/src/circuits/batched_update.rs:11-213 | the whole circuit: the error for unequal sizes, for no signals and the failed index exactly when they apply; otherwise every row is appended, every index blinded by strategy, and a signal is handled exactly when its row had room |
| `TwoServers.BlindingRng.RandomTable` | baselines/pps-gc/pps-garbled-circuits/src/plain.rs:37-54 | a table of draws in row order |
| `TwoServers.BlindingRng.RandomColumn` | baselines/pps-gc/pps-garbled-circuits/src/plain.rs:85-94 | a column of two-byte draws, taken after those of the table |
| `TwoServers.RunUpdate` | baselines/pps-gc/pps-garbled-circuits/src/lib.rs:298-470 | one run: both roles draw table then column, so a seed gives the same blindings in either role; rows and indexes are stated under these blindings |
| `Blinding.SeedCovers` | baselines/pps-gc/pps-garbled-circuits/src/plain.rs:37-94 | every table together with every column is what some seed draws: table and column use different draws |
| `Blinding.RunHides` | baselines/pps-gc/pps-garbled-circuits/src/circuits/batched_update.rs:109-219 | for fixed states, signals and evaluator's seed every table and every column of indexes is the output of a run under some garbler's seed |
| `Blinding.RunDetermined` | baselines/pps-gc/pps-garbled-circuits/src/circuits/batched_update.rs:109-219 | the seeds, states and signals fix the output of a run |
| `Blinding.IndexUnblinds` | baselines/pps-gc/pps-garbled-circuits/src/circuits/batched_update.rs:189-205 | under strategy A the output index xored with the blinding is the count, under strategy B it is the blinding |
| `TwoServers.AddressedShares` | baselines/pps-gc/pps-garbled-circuits/src/lib.rs:349-360 | the locations a row gets at the two servers are shares of the ones sent to it |
| `TwoServers.StrategiesMustDiffer` | baselines/pps-gc/pps-garbled-circuits/src/circuits/batched_update.rs:189-219 | for two runs under any strategies, the index entries of a row join to its new count if and only if the strategies differ or the count is zero |
| `TwoServers.RowJoined` | baselines/pps-gc/pps-garbled-circuits/examples/unified-bench.rs:168-230 | after both runs the xor of the servers' rows is the plain appended row |
| `TwoServers.RunBatch` | baselines/pps-gc/pps-garbled-circuits/examples/unified-bench.rs:168-236 | one batch with swapped roles: each server holds the output of the run it evaluated, and the joined state is the plain append of the joined signals; a batch that fails changes nothing |
| `TwoServers.RunBatches` | baselines/pps-gc/pps-garbled-circuits/examples/unified-bench.rs:155-238 | any sequence of batches, each with its own seeds: every state follows from the one before it by a batch, and the joined state is the plain append of all signals in order |
| `Words.RotIsRotation` | vdpf/src/sha256.c:18-24 | the shifts and or move the low bits above the others |
| `Words.RotInverse` | vdpf/src/sha256.c:18-24 | rotating by n and by 32 - n gives the word back |
| `Words.PackIsWord` | vdpf/src/sha256.c:64-65 | shifting and or-ing four bytes reads a big-endian word |
| `Words.BytesRoundTrip` | vdpf/src/sha256.c:221-227 | the four casts write a word that reads back as itself |
| `Fips180Roots.PrimesArePrime` | vdpf/src/sha256.c:82-84 | the 64 numbers behind the round constants are primes in ascending order |
| `Fips180Roots.RoundConstantIsRoot` | vdpf/src/sha256.c:81-95 | each round constant is the first 32 bits of the fraction of the cube root of its prime |
| `Fips180Roots.InitialHashIsRoot` | vdpf/src/sha256.c:128-139 | each initial hash word is the first 32 bits of the fraction of the square root of its prime |
| `Fips180Bits.BitOfRotation` | vdpf/src/sha256.c:18-24 | bit i of a rotated word is bit i + count modulo 32 of the word |
| `Fips180Bits.BigSigmaBits` | vdpf/src/sha256.c:78-98 | each bit of the two large sigmas is the exclusive or of its three source bits |
| `Fips180Bits.SmallSigmaBits` | vdpf/src/sha256.c:72-75 | each bit of the two small sigmas is the exclusive or of its source bits, of which the shifted one may be missing |
| `Fips180Bits.ChBits` | vdpf/src/sha256.c:79 | Ch takes a bit of its second argument where the first has one, of the third elsewhere |
| `Fips180Bits.MajBits` | vdpf/src/sha256.c:99 | Maj has a bit where at least two arguments have it |
| `Fips180Bits.SameBits` | vdpf/src/sha256.c:18-99 | words with equal bits are equal, so the bitwise statements fix these functions |
| `Fips180Bits.RoundMoves` | vdpf/src/sha256.c:97-109 | a round moves six of the eight words down by one and adds the two sums of section 6.2.2 of FIPS 180-4 modulo 2^32 |
| `Fips180Bits.ScheduleWords` | vdpf/src/sha256.c:62-77 | schedule words are the big-endian words of the block, then sums of four earlier words modulo 2^32 |
| `Fips180Bits.CompressAdds` | vdpf/src/sha256.c:113-115 | a compressed block adds the rounds' result to the hash, word by word modulo 2^32 |
| `Fips180Bits.PadIs` | vdpf/src/sha256.c:190-216 | padding is the message, the byte 0x80, fewer than 64 zero bytes and the bit length in eight bytes, to whole blocks |
| `Fips180Bits.DigestWords` | vdpf/src/sha256.c:219-229 | four bytes of the digest hold each hash word |
| `Sha256.NextWord` | vdpf/src/sha256.c:62-77 | the rolling 16-word buffer holds the words of the 64-word schedule |
| `Sha256.RoundInPlace` | vdpf/src/sha256.c:78-109 | the in-place updates are one round of section 6.2.2 of FIPS 180-4 |
| `Sha256.ConsumeChunk` | vdpf/src/sha256.c:33-116 | a chunk is compressed as section 6.2.2 of FIPS 180-4 says |
| `Sha256.Stream.Init` | vdpf/src/sha256.c:122-140 | an empty message, whatever was there before |
| `Sha256.Stream.Write` | vdpf/src/sha256.c:142-178 | the message grows by the data, whether buffered or taken past the buffer |
| `Sha256.Stream.Close` | vdpf/src/sha256.c:180-229 | the digest of everything written, in the caller's buffer |
| `Sha256.WriteLength` | vdpf/src/sha256.c:208-216 | the byte loop writes the eight digits of the bit length |
| `Sha256.LengthDigits` | vdpf/src/sha256.c:144 | a byte count modulo 2^64 gives the same 64-bit length field |
| `Sha256.PaddedShort` | vdpf/src/sha256.c:190-217 | with room for the length the padded message ends in one more block |
| `Sha256.PaddedLong` | vdpf/src/sha256.c:198-217 | without room it ends in two more |
| `Sha256.HashInPieces` | vdpf/src/sha256.c:231-237 | for every split of every message into writes the result is the hash of the whole, as FIPS 180-4 defines it |
| `Fips180.HashPrefix` | vdpf/src/sha256.c:113-115 | the hash of the first blocks does not depend on what follows |
| `Fips180.PadInjective` | vdpf/src/sha256.c:190-216 | messages of fewer than 2^64 bits with equal padded forms are equal |
| `Admission.HasDistinctInputs` | pvfss/src/admission.cc:8-17 | true exactly when no input is repeated |
| `Admission.AdmissionServer.Prepare` | pvfss/src/admission.cc:67-104 | ready exactly for a new id, distinct inputs and a key share the evaluator takes; the state of the server is untouched |
| `Admission.AdmissionServer.Finalize` | pvfss/src/admission.cc:106-133 | each decision by its own condition, in the order of the checks; the key share is stored exactly on acceptance |
| `Admission.VerdictsAgree` | pvfss/src/admission.cc:112-132 | on equal id sets both verdicts accept together and exactly when the exchange is admissible |
| `Admission.VerdictsAgreeIff` | pvfss/src/admission.cc:119-121 | for an exchange otherwise in order they accept together if and only if the servers agree on whether the id is stored |
| `Admission.StoreKeeps` | pvfss/src/admission.cc:106-133 | however many exchanges a server finalises, no stored key is replaced or dropped |
| `Admission.HistoryStep` | pvfss/src/admission.cc:67-133 | the next event of a run keeps what was recorded before and records what preparing gives on the keys held then |
| `Admission.SameExchangesAgree` | pvfss/src/admission.cc:106-133 | servers with equal id sets that finalise the same exchanges in the same order accept the same ones and hold equal id sets, each new id with both keys of its one exchange |
| `Admission.Run` | pvfss/src/admission.cc:67-133 | over every run, with preparations and finalisations of both servers interleaved in any way: each record is what preparing its submission on the keys held at that time gives, decisions and keys are those of finalising the pairs in order, no stored key is replaced or dropped, and if both finalise the same pairs in the same order the agreement above holds at the end |
| `VdpfAdmission.HonestBytes` | pvfss/src/dpf.cc:234-264 | honest key shares have the expected size, parse back to the keys and carry one hash correction |
| `VdpfAdmission.HonestEvaluations` | pvfss/src/dpf.cc:234-260 | honest key shares give equal proofs and outputs that add up to the point function, for both readings of the hashes |
| `VdpfAdmission.Submit` | pvfss/src/admission.cc:67-133 | two key shares of the expected size for a new id and distinct inputs: both servers accept and store them exactly when the digests are equal |
| `VdpfAdmission.HonestSubmission` | pvfss/src/admission.cc:67-133 | a fresh honest submission, as bytes, is accepted by both servers, which then hold its two key shares and outputs that add up to the point function |
| `VdpfAdmission.CounterSubmission` | pvfss/src/admission.cc:123-128 | with the hash as run, two key shares of the expected size are accepted for a new id if and only if the digests of their two cs under one mask are equal, so always for equal cs, whatever they evaluate to |
| `VdpfAdmission.FlatSubmission` | pvfss/src/admission.cc:123-128 | for every generator, size and two roots a submission that is accepted although its outputs are no point function |
| `Compression.BeaverProduct` | pvfss/src/server.cpp:450-461 | with a correct triple on the low lane, D * E plus the two local shares is the product of the shared factors modulo 2^64 |
| `Compression.Mult` | pvfss/src/server.cpp:433-462 | both parties get that product, and the messages are exactly the two masked factors and the local share of each |
| `Compression.OpenEntry` | pvfss/src/server.cpp:474-481 | one entry of the test: both open the same value, four times the product of value and factor |
| `Compression.OpenedIs` | pvfss/src/server.cpp:471-481 | the test opens four times the product with the random factor modulo 2^64 |
| `Compression.OpenedZeroIff` | pvfss/src/server.cpp:481-482 | for every value and factor the opened value is zero exactly when their product is a multiple of 2^62 |
| `Compression.FactorExact` | pvfss/src/server.cpp:472-482 | all nonzero values below 2^(62-s) are seen if and only if 2^(s+1) does not divide the factor: below 2^62 exactly for odd factors, field values exactly for no multiple of 4 |
| `Compression.EvenFactorLosesValue` | pvfss/src/server.cpp:481-482 | the factor 4 opens the field value 2^60 to zero |
| `Compression.Cprs` | pvfss/src/server.cpp:464-489 | both parties record the same indices in the same order, each with its own share modulo 2^61 - 1, and send for every entry the messages of one multiplication and its result |
| `Compression.RecordedExact` | pvfss/src/server.cpp:472-488 | for every factor the recorded indices are ascending and exactly those whose product of value and factor is no multiple of 2^62 |
| `Compression.RecordedNonzero` | pvfss/src/server.cpp:472-488 | for all lists of values below 2^(62-s) they are exactly the nonzero ones if and only if 2^(s+1) does not divide the factor |
| `Compression.RecoveryExact` | pvfss/src/server.cpp:484-486 | the recorded shares add up to the value, plus 8 for a carry out of the low lane, modulo 2^61 - 1: a value comes back exactly when it is a field value and its lanes do not carry |
| `Compression.CarryIff` | pvfss/src/server.cpp:484-486 | low lanes carry exactly when the first share exceeds the value |
| `Compression.CarryShiftsValue` | pvfss/src/server.cpp:484-486 | shares of 1 that the recipient opens to 9 |
| `Recovery.OpenShares` | pvfss/src/test.cc:631-644 | the recipient opens shares pairwise in the field, and only lists of equal length |
| `Recovery.ShuffledValues` | pvfss/src/test.cc:566-570 | a vector read through a permutation has the same nonzero values |
| `Recovery.ShiftIsNoPermutation` | pvfss/src/test.cc:662-669 | no nonempty list of nonzero field values is, as a multiset, itself moved by 8 |
| `Recovery.RecoveredExact` | pvfss/src/test.cc:662-669 | the opened values are the nonzero shared values, with multiplicities, if and only if every nonzero value is seen by the test, is a field value and has low lanes that do not carry |
| `Recovery.ShuffleAndRecover` | pvfss/src/test.cc:566-669 | shuffle, compression and opening composed on one connection, for all roots without zero nodes, masks and factors, with every message stated: the recipient gets exactly the nonzero shared values if and only if all come back; for field values and factors that are no multiples of 4, if and only if no nonzero value has low lanes that carry |
| `PowerLadder.LogCeilExact` | baselines/omr/include/PVWToBFVSeal.h:238 | the rounded-up logarithm is the least exponent of a power of two not below the degree |
| `PowerLadder.SwitchesExact` | baselines/omr/include/PVWToBFVSeal.h:236-243 | the modulus switches spent on a degree are the least exponent of a power of four not below it |
| `PowerLadder.ProductRung` | baselines/omr/include/PVWToBFVSeal.h:233-241 | the product of two rungs, brought to one level, is the rung of the summed degree |
| `PowerLadder.SquareRung` | baselines/omr/include/PVWToBFVSeal.h:252-258 | the square of a rung is the rung of twice the degree |
| `PowerLadder.Climb` | baselines/omr/include/PVWToBFVSeal.h:217-265 | the bit loop ends with degree i calculated and keeps every calculated entry right, value and level |
| `PowerLadder.CalUptoDegreeK` | baselines/omr/include/PVWToBFVSeal.h:209-271 | entry d - 1 is the d-th power for every d up to K, all at one level; moduli are only ever switched down |
| `PatersonStockmeyer.PolyBlock` | baselines/omr/include/PVWToBFVSeal.h:342-368 | a block of coefficients times a power of x^256 continues the polynomial |
| `PatersonStockmeyer.LevelSum` | baselines/omr/include/PVWToBFVSeal.h:343-359 | the sum of a block skips zero coefficients and exists exactly when one is not zero |
| `PatersonStockmeyer.Ladders` | baselines/omr/include/PVWToBFVSeal.h:296-340 | the two ladders hold x, ..., x^256 and the powers of x^256, at the levels the products need |
| `PatersonStockmeyer.RangeCheck` | baselines/omr/include/PVWToBFVSeal.h:291-374 | goes through exactly when every block has a nonzero coefficient, and then gives 1 minus the polynomial over any commutative ring |
| `Rings.PowerPower` | baselines/omr/include/PVWToBFVSeal.h:337 | powers of x^256 are powers of x |

## Left out

- Opv.PunctureExact: assumes no leaf is the zero block, because a lost leaf that happens to be zero cannot be told from a kept one.
- GarbledCircuit.SimpleGarbledCircuit.GarbleCircuit: valid circuits with loops are excluded, because label assignment never ends on them (Garble.RecursionEndsIff).
- GarbledEvaluation.GarbledRun: excludes valid circuits with loops, as the garbler does, and input gates beyond the declared inputs, which both evaluators read out of range. Under wrong labels the digits depend on the hash; only the labels have an exact condition (GarbledEvaluation.LabelsRightIff).
- Bristol.Parse: works on lines already split into numbers and names; the header lines, lines with fields missing and wire numbers out of range are not modelled.
- VdpfAdmission.CounterSubmission: that SHA-256 gives different masked `cs` different digests is not claimed.
- KeyLayout.KeyRoundTrip: memory order is little-endian, as on the machines the code is built for.
- Vdpf.GenVDPF: takes a tape on which some attempt is kept, because termination of the retry loop is probabilistic: there are ciphers that keep attempts (Retry.SomeAttemptKept) and one that never does (Retry.NoAttemptKept).
- Vdpf.ProofsAgree: agreement of honest proofs only; for the hash the code runs, equal proofs do not imply a point function (VdpfAdmission.FlatSubmission).
- Vdpf.FullDomainVDPF: outputs only; its proof hashes tree indices and differs from the batch evaluator's.
- Fips180.HashOf: for messages of 2^64 bits and more the length field wraps around, where FIPS 180-4 defines nothing.
- PermNetwork.PermReconstruct: the block size divides the index length, as the layer computation needs; other sizes are not modelled.
- Offline.OfflineBoth: layers are sequences, one array per layer at a time, instead of slices of one d by N buffer.
- BatchedUpdate.BatchedUpdateTable: the circuit on values; wire encodings, gate garbling and the output builders of the library are not part of this model.
- TwoServers.RunUpdate: one draw stands for the 32 bytes of a location, and both runs of a batch are sequential calls.
- PatersonStockmeyer.RangeCheck: slot values and levels; ciphertext noise, relinearisation and memory pools are not modelled.
- Integer widths of loop counters and sizes (C `int`, Go `int`) are unbounded where the code stays far below them.
- GarbledCircuit: labels are drawn from a tape; an error of the random source is not modelled.
- Network channels, timers, files, benchmarks and process control.
- Paillier triple generation, extension transfers, elliptic curves and lattice libraries.
- The solver of linear equations on the OMR client, the legacy tree code of the shuffle and the Go wrapper of the point functions.
