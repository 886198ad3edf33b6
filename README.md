# Anon: Poseidon hash, Merkle groups, ring keys and the reward-gadget builder in Dafny

This project models four pieces of the anon pallets and gadgets and proves properties about them.

- **The Poseidon-style permutation of the merkle pallet** (`pallets/merkle/src/merkle/poseidon.rs`). It works over the curve25519 scalar field, as integers modulo L = 2^252 + 27742317777372353535851937790883648493. The model covers:
  - the parameter generation from hexadecimal constant tables;
  - the cube S-box and the round schedule;
  - the 2-to-1 and 4-to-1 hashes;
  - the constraint-system twin of the permutation.

  Linear combinations are modelled as lists of (variable, coefficient) pairs. `simplify` merges their terms through a sorted map, and multiplication gates are recorded by an abstract constraint system. The model keeps the two ways this permutation departs from the published Poseidon design:
  - the round keys are generated but never added;
  - the mixing layer scales each element by the sum of its matrix row instead of computing a matrix-vector product.
- **The fixed-depth Merkle group tree** (module `MerkleGroups`), as the merkle pallet's unit tests pin it down:
  - depth validation;
  - duplicate group ids;
  - capacity;
  - the root after each append, computed level by level with a lone node hashed with itself;
  - path verification, with the length check ahead of the fold.

  The 2-to-1 hash is a parameter of the storage.
- **Ring public keys and key sets of the groups pallet** (`pallets/groups/src/keys.rs`). These cover the 32-byte encodings, the SCALE encoding and decoding, duplicate detection, serialisation, and the maps from private to public keys and to key images. Ristretto points are a type parameter, and the curve operations are function parameters.
- **The reward gadget builder** (`gadgets/src/time_based_rewarding/builder.rs`): setters on `Option` fields, and a `build` that resolves each missing value to its default.

Panics in the source (`assert!`, `panic!`, out-of-range indexing, `unwrap`) are preconditions of the model. Dispatch errors and `Option` results are modelled as `Result` and `Option` values.

Files:
- `wrappers.dfy`: `Option` and `Result`.
- `field.dfy`: the scalar field and its 32-byte little-endian encoding.
- `r1cs.dfy`: variables, linear combinations, gates, `simplify`.
- `hex.dfy`: `decode_hex` and `get_scalar_from_hex`.
- `poseidon.dfy`: the permutation, its gadget and the hashes.
- `merkle_groups.dfy`: the group tree.
- `keys.dfy`: the ring keys and key sets.
- `reward_builder.dfy`: the reward gadget builder.

## Model

| member | source | states |
|---|---|---|
| Field.FromBytesModOrder | pallets/merkle/src/merkle/poseidon.rs:264-266 | 32 bytes read little-endian and reduced modulo L; a value already below L is returned unchanged |
| Field.ScalarBytesRoundTrip | pallets/merkle/src/merkle/poseidon.rs:262-267 | every scalar survives the trip through its 32-byte encoding and `from_bytes_mod_order` |
| Field.MulAddDistrib | pallets/merkle/src/merkle/poseidon.rs:30 | field multiplication distributes over addition, which the row fold of `mat_mul` relies on |
| R1cs.SimplifiedCorrect | pallets/merkle/src/merkle/poseidon.rs:9-23 | the simplified combination has each input variable exactly once, in ascending variable order, with the sum of its input coefficients, so it evaluates to the same value under every assignment |
| R1cs.AccumulateCorrect | pallets/merkle/src/merkle/poseidon.rs:14-16 | adding `(var, val)` into the sorted map keeps it sorted, adds `var` to its keys, and adds `val` to the entry of `var` (starting from zero when it is new) while every other entry stays as it was |
| R1cs.Simplify | pallets/merkle/src/merkle/poseidon.rs:9-23 | the two loops (accumulate into the sorted map, read it back) produce the specification `Simplified`: sorted, same variables, summed coefficients, same value |
| R1cs.EvalConcat | pallets/merkle/src/merkle/poseidon.rs:41-43 | adding two linear combinations (concatenating their terms) adds their values |
| R1cs.EvalScale | pallets/merkle/src/merkle/poseidon.rs:41-43 | multiplying a linear combination by a scalar multiplies its value by that scalar |
| R1cs.ConstraintSystem.Multiply | pallets/merkle/src/merkle/poseidon.rs:121-122 | `multiply` appends exactly one gate bound to its two inputs and returns that gate's left, right and output wires; commitments are untouched |
| R1cs.WitnessSatisfies | pallets/merkle/src/merkle/poseidon.rs:121-122 | when every gate refers only to commitments, the constant and the wires of earlier gates, an assignment satisfying the first gates extends to one satisfying all of them: each later gate's left, right and output wires get its inputs' values and their product, as the prover's `multiply` assigns them, and nothing that existed before changes |
| R1cs.ConstraintSystem.Commit | pallets/merkle/src/merkle/poseidon.rs:222-225 | `commit` appends one committed value and returns the fresh variable that stands for it; gates are untouched |
| Hex.DecodeHex | pallets/merkle/src/merkle/poseidon.rs:252-260 | after dropping two characters, each following pair becomes one byte: `(len - 2) / 2` bytes |
| Hex.DecodeEncodeHex | pallets/merkle/src/merkle/poseidon.rs:252-260 | `decode_hex` reads back every byte string written as `0x` and hex pairs |
| Hex.ScalarFromHex | pallets/merkle/src/merkle/poseidon.rs:262-267 | accepted only for exactly 32 decoded bytes; the little-endian value is reduced modulo L, and a value below L is kept |
| Hex.ScalarHexRoundTrip | pallets/merkle/src/merkle/poseidon.rs:262-267 | every scalar written as its 32-byte hex literal is read back by `get_scalar_from_hex` |
| PoseidonHash.MatMul | pallets/merkle/src/merkle/poseidon.rs:25-33 | the output has as many elements as the shorter of the matrix and the vector, because of the zip |
| PoseidonHash.RowFoldScales | pallets/merkle/src/merkle/poseidon.rs:28-31 | folding `sum + val * row_i` over a row gives `val` times the sum of the row |
| PoseidonHash.MatMulScalesByRowSum | pallets/merkle/src/merkle/poseidon.rs:25-33 | element i of `mat_mul` is `v[i]` times the sum of row i, so it is not a matrix-vector product |
| PoseidonHash.MatMulLc | pallets/merkle/src/merkle/poseidon.rs:35-46 | `mat_mul_lc` has the zip length of `mat_mul` |
| PoseidonHash.MatMulLcEval | pallets/merkle/src/merkle/poseidon.rs:35-46 | under every assignment, `mat_mul_lc` evaluates to `mat_mul` of the evaluated inputs: output i is input i times the sum of row i |
| PoseidonHash.GenRoundKeys | pallets/merkle/src/merkle/poseidon.rs:79-94 | with at least `width * total_rounds` table entries, exactly that many keys, key i read from table entry i |
| PoseidonHash.GenMdsMatrix | pallets/merkle/src/merkle/poseidon.rs:96-110 | a table of `width` rows of `width` entries gives a `width` by `width` matrix whose entry (i, j) is read from table entry (i, j) |
| PoseidonHash.New | pallets/merkle/src/merkle/poseidon.rs:64-77 | the parameters hold the given width and round counts; round key i is read from table entry i, for every round; the matrix is `width` by `width`, and its entry (i, j) is read from table entry (i, j) |
| PoseidonHash.ApplySbox | pallets/merkle/src/merkle/poseidon.rs:112-114 | the S-box is the cube map modulo L |
| PoseidonHash.SboxLayer | pallets/merkle/src/merkle/poseidon.rs:137-143 | in a full round every element goes through the S-box; otherwise only element 0 does and the rest are unchanged |
| PoseidonHash.Rounds | pallets/merkle/src/merkle/poseidon.rs:136-147 | the state keeps its length through round 0 and afterwards has the length the mixing layer leaves |
| PoseidonHash.Permute | pallets/merkle/src/merkle/poseidon.rs:126-149 | the round loop computes the specification `Permutation`, and with a square matrix returns `width` elements |
| PoseidonHash.PermutationIgnoresRoundKeys | pallets/merkle/src/merkle/poseidon.rs:135-147 | replacing the round keys by any others leaves the permutation unchanged: no round key is ever added |
| PoseidonHash.FullRoundCount | pallets/merkle/src/merkle/poseidon.rs:134-138 | with an even `full_rounds`, the rounds below `full/2` or at least `total - full/2` number exactly `full_rounds` |
| PoseidonHash.SboxCountTotal | pallets/merkle/src/merkle/poseidon.rs:165-179 | a permutation over a square matrix applies `full_rounds * width + partial_rounds` S-boxes |
| PoseidonHash.SboxGadgetSound | pallets/merkle/src/merkle/poseidon.rs:116-124 | when the square gate and the cube gate hold, the cube gate's output wire carries the S-box of the input |
| PoseidonHash.SynthesizeSbox | pallets/merkle/src/merkle/poseidon.rs:116-124 | exactly two gates are appended (square, then square times input); the result is the second output wire, which equals the S-box of the input under every satisfying assignment |
| PoseidonHash.FullLayerGatesAt | pallets/merkle/src/merkle/poseidon.rs:168-171 | in a full S-box layer behind `n` gates, the gates at positions `n + 2i` and `n + 2i + 1` are element i squared and that square times element i's left wire |
| PoseidonHash.RoundsSynthesisExtends | pallets/merkle/src/merkle/poseidon.rs:151-181 | the gadget only appends: the existing gates are a prefix of the new list, and exactly two gates are added per S-box of the plain permutation |
| PoseidonHash.LayerSynthesisSound | pallets/merkle/src/merkle/poseidon.rs:165-175 | when the gates after an S-box layer hold, its outputs carry the plain S-box layer of its inputs' values |
| PoseidonHash.RoundSynthesisSound | pallets/merkle/src/merkle/poseidon.rs:165-178 | when the gates after a round hold, its outputs carry the plain round of its inputs' values |
| PoseidonHash.RoundsSynthesisSound | pallets/merkle/src/merkle/poseidon.rs:163-179 | when the gates after `k` rounds hold, the state carries the first `k` plain rounds of the inputs' values |
| PoseidonHash.PermuteSynthesisSound | pallets/merkle/src/merkle/poseidon.rs:151-181 | when the gadget's gates hold, its outputs carry `permute` of the inputs' values |
| PoseidonHash.LayerSynthesisCausal | pallets/merkle/src/merkle/poseidon.rs:116-124 | each gate of an S-box layer over already known inputs refers only to commitments, the constant and earlier wires, and its outputs are known once it is done |
| PoseidonHash.RoundsSynthesisCausal | pallets/merkle/src/merkle/poseidon.rs:163-179 | the same holds for the gates and the state after any number of rounds, since mixing refers to nothing its inputs do not |
| PoseidonHash.MatMulLcBelow | pallets/merkle/src/merkle/poseidon.rs:35-46 | `mat_mul_lc` refers to no variable its inputs do not |
| PoseidonHash.PermuteSynthesisComplete | pallets/merkle/src/merkle/poseidon.rs:151-181 | when the earlier gates hold and refer only to earlier wires, and the inputs are known, the prover's assignment (each square and cube wire filled in) satisfies every gate, keeps every earlier value, and gives the outputs `permute` of the inputs' values |
| PoseidonHash.SboxLayerConstraints | pallets/merkle/src/merkle/poseidon.rs:165-175 | a full round appends one S-box pair per element, in element order, and returns each pair's cube wire; a partial round appends one pair for element 0 and replaces only element 0 |
| PoseidonHash.RoundConstraints | pallets/merkle/src/merkle/poseidon.rs:163-178 | one round appends exactly the gates of its S-box layer; the mixing layer adds none and returns `mat_mul_lc` of the layer's outputs |
| PoseidonHash.PermuteConstraints | pallets/merkle/src/merkle/poseidon.rs:151-181 | the gates appended are exactly the S-box pairs of every round in order (square, then square times input), two per S-box of the plain permutation; commitments are untouched; under every assignment satisfying the gates the outputs evaluate to `permute` of the evaluated inputs |
| PoseidonHash.Constrain | pallets/merkle/src/merkle/poseidon.rs:183-190 | appends exactly the gates of `permute_constraints`, returns its output 1, and under every assignment satisfying the gates that output evaluates to element 1 of the permutation of the evaluated inputs |
| PoseidonHash.Hash2 | pallets/merkle/src/merkle/poseidon.rs:192-202 | `hash_2(a, b)` is element 1 of the permutation of `[0, a, b, 101, 0, 0]` |
| PoseidonHash.Hash4 | pallets/merkle/src/merkle/poseidon.rs:204-215 | `hash_4(a, b, c, d)` is element 1 of the permutation of `[0, a, b, c, d, 101]` |
| PoseidonHash.Hash | pallets/merkle/src/merkle/poseidon.rs:269-272 | `Hasher::hash(a, b)` is element 1 of the permutation of `[0, a, b, 101, 0, 0]`, the value `hash_2` computes |
| PoseidonHash.ProverInputsOpen | pallets/merkle/src/merkle/poseidon.rs:217-228 | under an assignment opening the commitments, the laid-out inputs evaluate to `[0, xl, xr, 101, 0, 0]` |
| PoseidonHash.ProverConstrainInputs | pallets/merkle/src/merkle/poseidon.rs:217-228 | exactly the four values 0, 101, 0, 0 are committed, in that order, and no gate is added; the inputs are the first fresh commitment, `xl`, `xr` and the other three fresh commitments; under any assignment opening the commitments they evaluate to `[0, xl, xr, 101, 0, 0]` |
| PoseidonHash.ConstrainProver | pallets/merkle/src/merkle/poseidon.rs:274-282 | commits 0, 101, 0, 0, appends exactly the gates of `permute_constraints` over the laid-out inputs (two per S-box), and under every assignment that opens the commitments and satisfies the gates the output evaluates to `hash_2` of the values of the two inputs |
| PoseidonHash.ConstrainProverComplete | pallets/merkle/src/merkle/poseidon.rs:274-282 | from any assignment satisfying the earlier gates and opening the commitments, with `xl` and `xr` known, the prover's assignment satisfies every gate, still opens the commitments, and makes the output `hash_2` of the values of `xl` and `xr` |
| MerkleGroups.MerkleGroups.CreateGroup | pallets/merkle/src/tests.rs:42-109 | an existing id fails with "Group already exists."; a depth outside 1..32 fails with "Invalid tree depth."; otherwise an empty group is stored; failures change nothing |
| MerkleGroups.DepthBoundsScenario | pallets/merkle/src/tests.rs:42-93 | depths 0 and 33 are rejected with "Invalid tree depth.", 1 and 32 accepted |
| MerkleGroups.DuplicateIdScenario | pallets/merkle/src/tests.rs:95-109 | a second group with the same id is refused with "Group already exists." |
| MerkleGroups.MerkleGroups.AddMember | pallets/merkle/src/tests.rs:52-176 | a full group fails with "Exceeded maximum tree depth." and is unchanged; otherwise the leaf is appended and the root becomes the tree root of the new leaf sequence |
| MerkleGroups.CapacityExamples | pallets/merkle/src/tests.rs:52-69 | a depth-1 group takes one member and a depth-4 group fifteen |
| MerkleGroups.MinDepthScenario | pallets/merkle/src/tests.rs:52-69 | a depth-1 group accepts one member and refuses the second with "Exceeded maximum tree depth." |
| MerkleGroups.Depth2Trace | pallets/merkle/src/tests.rs:111-152 | the depth-2 roots are `h(h(k0,k0), h(k0,k0))`, then `h(h(k0,k1), h(k0,k1))`, then `h(h(k0,k1), h(k2,k2))` |
| MerkleGroups.RootAfterInsertionScenario | pallets/merkle/src/tests.rs:111-152 | the stored root after each of the three insertions is the one the test computes |
| MerkleGroups.Depth4Root | pallets/merkle/src/tests.rs:154-200 | with fifteen members at depth 4, the root is built level by level with the last leaf paired with itself |
| MerkleGroups.LevelsSingle | pallets/merkle/src/tests.rs:154-200 | at most `2^k` nodes reduce to a single root after `k` levels |
| MerkleGroups.AddMembers | pallets/merkle/src/tests.rs:169-175 | appending members one by one to a group with room stores all of them in order, with the matching root |
| MerkleGroups.FifteenMembersScenario | pallets/merkle/src/tests.rs:154-200 | fifteen insertions succeed, the root is the test's root, and the four test paths verify; the refusal of a sixteenth member follows from the model's capacity of 2^depth - 1, not from an assertion of the test |
| MerkleGroups.MerkleGroups.Verify | pallets/merkle/src/tests.rs:202-354 | a missing group fails; a path whose length is not the depth fails with "Invalid path length." whatever it holds; otherwise it succeeds iff the folded path equals the stored root, and fails with "Invalid proof." if not |
| MerkleGroups.PathLengthScenario | pallets/merkle/src/tests.rs:202-230 | paths of length 1 and 3 at depth 2 are refused with "Invalid path length." |
| MerkleGroups.TamperedPathsFail | pallets/merkle/src/tests.rs:232-274 | the three tampered depth-2 paths (a wrong flag, a wrong top sibling, a wrong leaf sibling) do not fold to the root |
| MerkleGroups.InvalidProofScenario | pallets/merkle/src/tests.rs:232-274 | the three tampered paths are refused with "Invalid proof." |
| MerkleGroups.Depth4Paths | pallets/merkle/src/tests.rs:276-354 | the four membership paths of the depth-4 test (`true` means hash as left child) fold to the root |
| MerkleGroups.AuthPathFolds | pallets/merkle/src/tests.rs:276-354 | folding any node's authentication path through `k` levels reaches the single node `k` levels up |
| MerkleGroups.MemberPathFolds | pallets/merkle/src/tests.rs:276-354 | every member of a group within capacity has a path of the group's depth that folds to the group's root |
| MerkleGroups.MerkleGroups.MembersVerify | pallets/merkle/src/tests.rs:276-354 | every member of a stored group passes `verify` with its authentication path |
| Keys.New | pallets/groups/src/keys.rs:37-40 | `RingPublicKey::new(b).as_bytes() == b` |
| Keys.AsBytes | pallets/groups/src/keys.rs:41-44 | a key serialises to 32 bytes |
| Keys.FromBytes | pallets/groups/src/keys.rs:46-56 | `None` iff the input is not 32 bytes long; otherwise the key's `as_bytes` is the input |
| Keys.FromAsBytes | pallets/groups/src/keys.rs:41-56 | every key is recovered from its own bytes |
| Keys.Encode | pallets/groups/src/keys.rs:19-23 | the encoding is exactly the key's 32 `as_bytes` bytes, with no length prefix |
| Keys.Decode | pallets/groups/src/keys.rs:27-34 | decoding succeeds iff at least 32 bytes remain; it consumes exactly 32 bytes, and the key's encoding followed by the unread rest is the input |
| Keys.DecodeEncode | pallets/groups/src/keys.rs:19-34 | decoding an encoded key followed by anything gives the key and leaves the rest unread |
| Keys.DistinctIffNoCollapse | pallets/groups/src/keys.rs:78-80 | a sequence has as many distinct elements as positions iff no two positions hold equal values |
| Keys.DuplicatesExist | pallets/groups/src/keys.rs:68-81 | true iff two different positions have equal compressed encodings |
| Keys.CopyLastCreatesDuplicate | pallets/groups/src/keys.rs:168-181 | copying the last key of a set of two or more keys into slot 0 creates a duplicate |
| Keys.FreshSetHasNoDuplicates | pallets/groups/src/keys.rs:168-175 | distinct private keys under an injective key derivation give a public set without duplicates |
| Keys.ToKeys | pallets/groups/src/keys.rs:97-99 | `to_keys` keeps the length of the set |
| Keys.ToBytes | pallets/groups/src/keys.rs:88-95 | `to_bytes` is 32 bytes per key |
| Keys.ToBytesLayout | pallets/groups/src/keys.rs:88-99 | bytes `[32 i, 32 i + 32)` of `to_bytes` are the i-th compressed key of `to_keys` |
| Keys.ToPublicSet | pallets/groups/src/keys.rs:112-120 | `to_public_set` keeps the length of the private set |
| Keys.PublicKeyAt | pallets/groups/src/keys.rs:151-167 | public key i is private key i times the base point, and depends on no other private key |
| Keys.ToPublicSetConcat | pallets/groups/src/keys.rs:112-120 | mapping a concatenation of private sets gives the concatenation of their public sets, so order is kept |
| Keys.ComputeKeyImages | pallets/groups/src/keys.rs:127-135 | one key image per private key |
| Keys.KeyImagesConcat | pallets/groups/src/keys.rs:127-135 | key images of a concatenation are the concatenation of the key images |
| Keys.KeyImagesAreKeysOverBasepoint | pallets/groups/src/keys.rs:112-135 | key images are the compressed public keys of the same private keys, taken over the signer's base point |
| RewardBuilder.RewardGadgetBuilder.constructor | gadgets/src/time_based_rewarding/builder.rs:20-26 | a new builder has no depth, no hash parameters and no tree |
| RewardBuilder.RewardGadgetBuilder.Depth | gadgets/src/time_based_rewarding/builder.rs:28-31 | sets the depth only and returns the same builder |
| RewardBuilder.RewardGadgetBuilder.HashParams | gadgets/src/time_based_rewarding/builder.rs:33-36 | sets the hash parameters only and returns the same builder |
| RewardBuilder.RewardGadgetBuilder.MerkleTree | gadgets/src/time_based_rewarding/builder.rs:38-41 | sets the tree only and returns the same builder |
| RewardBuilder.Resolve | gadgets/src/time_based_rewarding/builder.rs:43-67 | a supplied depth, parameters or tree is used unchanged; a missing depth is `DEFAULT_TREE_DEPTH`; missing parameters are the defaults; a missing tree is a new tree from the resolved parameters and depth |
| RewardBuilder.RewardGadgetBuilder.Build | gadgets/src/time_based_rewarding/builder.rs:43-67 | `build` only reads the builder; a supplied depth, parameters or tree is used as it is; a missing depth is the configured default, missing parameters are built from the default settings, and a missing tree is built for the gadget's parameters and depth |
| RewardBuilder.DefaultSettings | gadgets/src/time_based_rewarding/builder.rs:45-55 | the default parameters are width 6, 4 + 4 full rounds, 57 partial rounds, round keys for 65 rounds, a width-6 MDS matrix and the Inverse S-box |
| RewardBuilder.AllDefaults | gadgets/src/time_based_rewarding/builder.rs:43-67 | with nothing set, the gadget has the default depth, the default parameters and a tree built from both |
| RewardBuilder.SuppliedTreeUnchecked | gadgets/src/time_based_rewarding/builder.rs:57-66 | a supplied tree is used as it is, with no check against the depth or the parameters |
| RewardBuilder.DepthOnlyScenario | gadgets/src/time_based_rewarding/builder.rs:43-60 | given only a depth, the gadget has that depth, the default parameters, and a new tree built for both |
| RewardBuilder.ChainedScenario | gadgets/src/time_based_rewarding/builder.rs:28-67 | chained setters on one builder keep each other's settings, and `build` returns exactly the supplied values |

## Left out

- The bridge pallet, the mixer pallet and its tests, the benchmarks, the weights and the EVM integration tests are not part of this model. They are ledger glue, foreign cryptography or generated constants.
- The merkle pallet's group storage code is not part of this model. The tree is modelled from the behaviour its unit tests assert. So the following are not modelled:
  - the origin;
  - the `create_group` fee;
  - the default used when the depth is `None`;
  - the message of a missing group.

  The root of a group with no members is a constructor parameter, because no test fixes it. Which of the two `create_group` checks runs first is not fixed by any test either; the model checks the id first.
- The shape of the group tree is taken from the merkle pallet's unit tests, because its storage code is not part of this model:
  - the capacity of 2^depth - 1 members is the model's choice; it is consistent with the tests, which fix the capacity at 1 for depth 1 and at 15 or more for depth 4;
  - a missing right child is the left node hashed with itself, as the test roots are computed; no padding with empty subtrees is modelled.
- MerkleGroups.TamperedPathsFail: proved only for a collision-free hash and distinct members. Without those assumptions the tampered paths could fold to the root.
- MerkleGroups.InvalidProofScenario: has the same assumptions as `TamperedPathsFail`.
- `verifier_constrain_inputs` and `Hasher::constrain_verifier` are not modelled. They commit Pedersen points through the verifier's transcript.
- PoseidonHash.PermuteSynthesisComplete: completeness is proved only when the earlier gates and the inputs refer to commitments, the constant and earlier wires only. Every gate the bulletproofs prover builds has this form, because its wires are assigned as the gate is added.
- PoseidonHash.ConstrainProverComplete: has the same assumption as `PermuteSynthesisComplete`, for the earlier gates and for `xl` and `xr`.
- The bulletproofs proof system is not modelled. `cs.multiply` also adds two linear constraints; these are folded into what a satisfied gate means (`GateHolds`).
- The constant tables `ROUND_CONSTS` and `MDS_ENTRIES` and the round counts `POSEIDON_FULL_ROUNDS` and `POSEIDON_PARTIAL_ROUNDS` are not part of this model. They are parameters of `GenRoundKeys`, `GenMdsMatrix` and `New`.
- PoseidonHash.GenRoundKeys: does not model a `usize` overflow of `total_rounds * width`.
- Hex.DecodeHex: requires the first two characters to be one-byte characters. With a multi-byte first character, the Rust byte slice `&s[2..]` would drop a different prefix or panic.
- Ristretto point arithmetic, point compression and scalar multiplication are not modelled. They are function parameters.
- `PublicSet::hashed_pubkey` is not modelled. It is SHA-512 hash-to-point, a foreign call.
- `PrivateSet::new`, `PublicSet::len` and `PrivateSet::len` are the plain wrapper constructor and lengths (`PrivateSet`, `Len` and `PrivateLen`). They need no contract of their own; `ToPublicSet` and `ComputeKeyImages` state that lengths are kept.
- The gadgets crate's `PoseidonBuilder`, `gen_round_keys`, `gen_mds_matrix`, `VanillaSparseMerkleTree::new` and `DEFAULT_TREE_DEPTH` are not part of this model. They are passed to `build` as `Collaborators`.
- Scalar arithmetic is exact arithmetic modulo L. The byte-level limb arithmetic of curve25519 is not modelled.
