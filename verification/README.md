# Formal model of PhilCore's proof circuits and authority state machines

This project models two parts of the repository in Dafny and proves properties of the models.

**The Keccak arithmetization** (`proving/src`). Keccak-f[1600] and a chain of four sponge hashes are compiled into
polynomial constraints over a 256-row trace. The model has three levels: the step mappings, sponge and padding of
FIPS 202 (`KeccakSpec`, its tables checked against the rules that generate them in `KeccakConstants`), the code's
in-place round, padding and trace building (`KeccakWitness`, `KeccakPadding`, `KeccakTrace`, `KeccakSelectors`,
`UnlockBuilder`), and the constraints over a prime field (`KeccakAir`, `KeccakStatement`, `UnlockStatement`). The main results say that the constraints have exactly the intended solutions:
any satisfying trace, in any storage layout, is a real hash computation with a real secret and seed
(`KeccakStatement.Soundness`, `UnlockTheorems.Soundness`); the built trace satisfies them exactly when the public
values are right (`Completeness` in both); and the row-by-row checker reports nothing in exactly those cases
(`KeccakChecker`).

**The authority state machines and codecs** of the TypeScript SDK:

- `JsonGrammar`, `JsonAlphabet`, `JsonScan`, `JsonScanner`: the duplicate-key scanner accepts exactly a grammar with
  distinct names.
- `P256Der`, `P256Lenient`: strict and lenient DER signatures, low-S, raw form, and where the two readers differ.
- `Utf8`, `Cbor`, `CborRoundTrip`, `CborLossless`: the CBOR decoder, its round trip, and what it loses.
- `CredentialList`, `CredentialRegistry`, `CredentialAcceptance`, `CredentialRuns`: the credential registry object, when
  it accepts each call, and its runs.
- `RecoveryTerms`, `RecoveryPackage`, `RecoveryBundle`, `RecoveryCreation`, `RecoveryChecks`, `RecoverySecrecy`,
  `RecoveryRequests`, `RecoveryRuns`: exact two-of-three recovery, what packages and requests are made from, secrecy
  against one share, delayed requests, and runs under an anti-rollback floor.
- `KeyLifecycle`, `KeyAcceptance`, `KeyRuns`: storage-key rotation with rollback detection.
- `Account`, `AccountAcceptance`, `AccountRuns`: nonce lanes and delayed recovery of the V2 account.
- `ReplayStore`, `ReplayAcceptance`, `ReplayInterleaving`: replay reservation, sequential and interleaved at every await.
- `Base64Url`, `Transport`, `TransportChecks`, `TransportBootstrap`: frames, the nonce-tracking cipher, the bootstrap text.
- `SchemeRegistry`, `PostQuantum`, `PostQuantumChecks`, `PostQuantumClaims`: the scheme registry, policies, ceremonies
  and claims.

Code that works in place is a method or a class proved against a function; the properties are lemmas about that
function, or about every run of it. The modules named for acceptance or checks say on the arguments alone when an
operation succeeds, which error it gives otherwise and what it leaves. `Bits`, `BigEndian`, `Buffers`, `PrimeField`,
`RowLayout` and `Wrappers` are shared.

Assumptions, as they appear in the statements: a hash is the value it was taken of (so equal hashes have equal
inputs), except for Keccak in the circuit part, which is modelled bit by bit; AES-GCM opens under the key, nonce and
associated data of its sealing and no other; the field is the integers modulo any prime; the storage layout is any
pair of mutually inverse permutations; `localeCompare` orders strings by any real-valued rank; clocks, random values
and the verdicts of external verifiers are inputs.

Where the code does not do what its own texts suggest, the model follows the code and a lemma says exactly when:

- Padding is not pad10*1 at lengths 135 mod 136 (`KeccakPadding.PaddingIsPad101`, `ExtraBlockAt135`).
- A rotation that archives without confirmation throws after it has added the credential (`CredentialRuns.ThrowExactly`).
- A recovery request that has been used is accepted again, inside its window, exactly under the floors that do not
  refuse its bundle: no floor, or one not raised past it (`RecoveryRequests.ReplayExactly`, `RecoveryRuns.ReplayByFloor`).
  The caller's copy of a cancelled request stays usable as before (`RecoveryRequests.CancelLeavesCopy`).
- A rotation to the version that is already current leaves no key that can rotate next (`KeyRuns.NextRotationExactly`).
- A backup-key rotation always makes the stored registry unloadable by version (`KeyRuns.BackupRotationLocksOut`), and
  an ordinary save does exactly if there has been any rotation before it (`KeyRuns.SavedLoadsExactly`).
- An account state supplied from outside may carry a recovery window other than the canonical one
  (`AccountRuns.SuppliedWindow`).
- A replay store whose reserve does not check and insert in one step reserves a value twice under some schedule exactly
  if two acceptable, fresh calls share one (`ReplayInterleaving.PlainUnsafeExactly`).
- The CBOR decoder drops map entries under repeated keys or the key `__proto__` and a leading byte order mark of a text
  (`CborLossless.LosslessExactly`).
- The lenient DER parser takes long length forms of any value, contents that are empty, padded or unsigned, scalars
  outside the group order, a second integer truncated by the end of the input, and anything after the sequence; its
  inputs are a grammar (`P256Lenient.LenientExactly`), and the strict parser accepts exactly those of them that use none
  of this (`P256Lenient.StrictOfSpelling`).
- The JSON scanner by itself takes a wider class of white space than RFC 8259 (`JsonScan.AcceptsExactly`).

## Model

| member | source | states |
|---|---|---|
| Bits.BytesToBitsInjective | proving/src/keccak_compat.rs:436-450 | Byte strings with the same little-endian bits are equal. |
| Bits.BytesOfLanesOfBytes | proving/src/keccak_compat.rs:531-538 | Reading bytes as 64-bit little-endian lanes and writing them back gives the same bytes. |
| Bits.LanesOfBytesOfLanes | proving/src/keccak_compat.rs:595-601 | Writing lanes as bytes and reading them back gives the same lanes. |
| KeccakSpec.PiSourceIsModular | proving/src/keccak_compat.rs:499-511 | The lane table for pi is the modular formula of section 3.2.3 of FIPS 202, for every lane. |
| KeccakSpec.BackIsModular | proving/src/keccak_compat.rs:305-313 | The bit that a rotation reads from is the modular index of the code, for every bit and rotation. |
| KeccakConstants.RoundConstantGenerated | proving/src/constants.rs:56-81 | Every entry of the round-constant table is what the shift register of section 3.2.5 of FIPS 202 generates: bit 2^j - 1 of constant i is rc(j + 7i), every other bit is zero. |
| KeccakConstants.RhoAlongWalk | proving/src/constants.rs:52-54 | Along the walk (x, y) -> (y, 2x + 3y) from (1, 0) the rotation at step t is (t + 1)(t + 2)/2 modulo 64. |
| KeccakConstants.WalkMeetsAll | proving/src/constants.rs:52-54 | That walk meets every lane but lane 0, and lane 0 is not rotated. |
| KeccakSpec.ThetaInCoordinates | proving/src/keccak_compat.rs:540-593 | Theta in the coordinates of section 3.2.1: each bit takes the parities of columns (x - 1, z) and (x + 1, z - 1). |
| KeccakSpec.RhoPiInCoordinates | proving/src/keccak_compat.rs:499-511 | Rho and pi together in the coordinates of sections 3.2.2 and 3.2.3: source lane and rotated bit, for every lane and bit. |
| KeccakSpec.ChiInCoordinates | proving/src/keccak_compat.rs:540-593 | Chi in the coordinates of section 3.2.4. |
| KeccakWitness.InverseRhoPi | proving/src/keccak_compat.rs:499-511 | The search finds, for every target lane, the only source lane that rho and pi send there, and its rotation. |
| KeccakWitness.ScatterRhoPi | proving/src/keccak_compat.rs:540-593 | The scattering loop over source lanes computes the gathered form: rho after pi of the theta-adjusted state, in every lane. |
| KeccakWitness.ComputeParities | proving/src/keccak_compat.rs:540-593 | The parity loops compute pairwise, fourfold and full column parities of the state. |
| KeccakWitness.ComputeRound | proving/src/keccak_compat.rs:540-593 | The in-place round computes the witness whose next state is theta, rho, pi, chi and iota applied in turn. |
| KeccakWitness.AbsorbBlock | proving/src/keccak_compat.rs:531-538 | Absorbing XORs the 17 lanes of a rate block into the state and leaves the other 8 alone. |
| KeccakPadding.PadRateBlocks | proving/src/keccak_compat.rs:513-529 | The padding loop stops and yields the message followed by 0x01, zeros and a final 0x80, cut into 136-byte blocks; or the extra block at length 135 mod 136. |
| KeccakPadding.PaddingIsPad101 | proving/src/keccak_compat.rs:513-529 | The padded bits equal pad10*1 of section 5.1 of FIPS 202 if and only if the length is not 135 mod 136. |
| KeccakPadding.ExtraBlockAt135 | proving/src/keccak_compat.rs:513-529 | At length 135 mod 136 exactly one block more than with the standard padding comes out; the standard pads with the single byte 0x81, which the code never appends. |
| KeccakPadding.PaddingInjective | proving/src/keccak_compat.rs:513-529 | Messages with the same padded bytes are the same message, at every length. |
| KeccakPadding.PaddedBlocksInjective | proving/src/keccak_compat.rs:513-529 | Messages with the same list of blocks are the same message. |
| KeccakPadding.SpongeOfPaddedBlocks | proving/src/keccak_compat.rs:513-529 | The sponge over the padded blocks, squeezed to 32 bytes, is Keccak-256 of the message wherever the padding is the standard one. |
| PrimeField.NoZeroDivisors | proving/src/keccak_compat.rs:404-406 | Modulo a prime no product of nonzero elements vanishes; proved, not assumed. |
| PrimeField.BooleanRoots | proving/src/keccak_compat.rs:404-406 | The boolean constraint vanishes exactly at 0 and 1. |
| RowLayout.LayoutInvisible | proving/src/keccak_compat.rs:472-486 | A row check holds on every physical row, reading cyclic neighbours through the layout, exactly when it holds on the rows in logical order. |
| KeccakAir.SelectedOne | proving/src/keccak_compat.rs:202-370 | With exactly one block-start selector on, the absorb sum reduces to that block's equation. |
| KeccakAir.RhoPiExact | proving/src/keccak_compat.rs:298-319 | Given a boolean state, the gathering rho/pi constraints have exactly one solution: the bits the scattering witness computes. |
| KeccakAir.ChiExact | proving/src/keccak_compat.rs:321-333 | The chi helper constraints have exactly one solution, the bits of (not b1) and b2. |
| KeccakAir.RoundExact | proving/src/keccak_compat.rs:202-370 | On an active row with boolean state the round constraints hold if and only if every auxiliary column and the next state are the bits of the round witness. |
| KeccakAir.RoundOff | proving/src/keccak_compat.rs:202-370 | With the selector off the round constraints hold for all cells. |
| KeccakTrace.BooleanRound | proving/src/keccak_compat.rs:202-370 | On an active row whose state cells are boolean the round constraints have exactly one solution, the witness of the state those cells spell out. |
| KeccakTrace.BlockRuns | proving/src/keccak_compat.rs:202-370 | In any satisfying trace, row j of a block holds j rounds of the state the block starts from. |
| KeccakTrace.WriteBlock | proving/src/keccak_compat.rs:616-692 | Writing a block fills its 25 rows with absorbed state, round witnesses and successor states, leaves all other rows alone and returns Keccak-f of the absorbed state. |
| KeccakTrace.TraceRowsTransition | proving/src/keccak_compat.rs:603-695 | Boolean and round constraints hold on all 256 built rows, unused and wrap-around rows included. |
| KeccakStatement.AbsorbExact | proving/src/keccak_compat.rs:408-422 | At a block's first row the absorb constraints pin the state to the previous state with the block absorbed, from zero for the first block. |
| KeccakStatement.DigestExact | proving/src/keccak_compat.rs:358-366 | On the final row the digest constraints hold if and only if the state squeezes to the public digest. |
| KeccakStatement.Soundness | proving/src/keccak_compat.rs:202-370 | Any satisfying trace, in any layout, has a public digest equal to the sponge of the public blocks. |
| KeccakStatement.SoundnessForPreimage | proving/src/keccak_compat.rs:701-746 | For a preimage whose length is not 135 mod 136, any satisfying trace proves digest = Keccak-256(preimage). |
| KeccakStatement.Completeness | proving/src/keccak_compat.rs:603-695 | The built trace satisfies every constraint on every row if and only if the claimed digest is the sponge digest. |
| KeccakStatement.BuildTrace | proving/src/keccak_compat.rs:603-695 | The trace builder stores exactly the rows of the completeness theorem, for every layout and block list that fits. |
| KeccakSelectors.BuildSelectors | proving/src/keccak_compat.rs:816-858 | The preprocessed columns, written in layout order, give each physical row the selectors and round constants of its logical row. |
| KeccakChecker.AllPassExactly | proving/src/keccak_compat.rs:998-1281 | The cell comparisons of each of the thirteen checks pass on all cells if and only if the constraints of that family hold. |
| KeccakChecker.CheckRow | proving/src/keccak_compat.rs:998-1282 | The checks of one row report nothing if and only if all its constraints hold; otherwise they report the first cell that differs in the order of the loops. |
| KeccakChecker.FirstFailure | proving/src/keccak_compat.rs:983-1286 | The loop checker reports nothing if and only if the trace satisfies the statement; otherwise the first failing physical row and in it the first differing cell. |
| KeccakChecker.DebugFirstFailure | proving/src/keccak_compat.rs:1295-1300 | Building and checking under the coset layout reports nothing if and only if the claimed digest is the sponge digest. |
| Abi.ProofInputInjective | proving/src/abi.rs:74-108 | The 416-byte proof-input preimage determines every public input: owner, action, policy, nullifier, consumer and expiry. |
| Abi.NullifierPreimageInjective | proving/src/abi.rs:59-72 | The nullifier preimage determines owner, action, policy and seed. |
| Abi.OneArgumentParts | proving/src/abi.rs:45-57 | The identity and owner preimages, byte by byte: Keccak-256 of each label spelled out in bytes, then the argument. |
| Abi.NullifierParts | proving/src/abi.rs:59-72 | The nullifier preimage by its five words: the hash of its label, owner, action, policy and seed. |
| Abi.ProofInputLayout | proving/src/abi.rs:74-108 | All 416 bytes of the proof-input preimage: label hash, two offset words, five public words, the expiry, and at each offset the length and bytes of version and type, zero-padded. |
| Abi.DerivationsExactly | proving/src/abi.rs:110-140 | Identity root, owner commitment and nullifier as nested Keccak-256 digests of labels spelled out in bytes. |
| UnlockBlocks.IdentityLane | proving/src/abi.rs:45-50 | In the padded identity preimage exactly lanes 4 to 7 carry the secret; every other lane is constant. |
| UnlockBlocks.OwnerLane | proving/src/abi.rs:52-57 | In the padded owner preimage exactly lanes 4 to 7 carry the identity root; what the constant lanes hold is Abi.OneArgumentParts. |
| UnlockBlocks.NullifierLane | proving/src/abi.rs:59-72 | In the two padded nullifier blocks the seed sits in lane 16 of the first and lanes 0 to 2 of the second; every other lane is constant. |
| UnlockStatement.StartExact | proving/src/unlock_statement.rs:163-351 | At the first row of each of the eight blocks the start constraints pin the state to the absorbed one, reading secret, root and seed from where the code reads them. |
| UnlockStatement.StartCellIsBit | proving/src/unlock_statement.rs:382-452 | The start-bit helpers give the bit of the absorbed state, for every block, lane and bit. |
| UnlockStatement.AbsorbOff | proving/src/unlock_statement.rs:163-351 | On rows where no block of the scope starts, the start constraints hold for all cells. |
| UnlockTheorems.HashDigests | proving/src/abi.rs:110-140 | The four chained sponges squeeze to identity root, owner commitment, nullifier and proof-input hash, which Abi.DerivationsExactly spells out. |
| UnlockTheorems.StartsSound | proving/src/unlock_statement.rs:163-351 | In a satisfying trace every block starts from the state of the real hash of the extracted secret and seed, although the seed columns are only read at rows 50 and 75. |
| UnlockTheorems.Soundness | proving/src/unlock_statement.rs:163-351 | In every satisfying trace the secret at row 0 and the seed at rows 50 and 75 open the public owner commitment and, in the full scope, the public nullifier; and a claimed proof-input hash is the hash of the inputs. |
| UnlockTheorems.Completeness | proving/src/unlock_statement.rs:667-718 | The honest trace satisfies every constraint if and only if its secret and seed open the public inputs and, in the full scope, the claimed proof-input hash is theirs. |
| UnlockTheorems.CodeEvaluator | proving/src/unlock_statement.rs:537-594 | Both directions for the evaluator as the code builds it, which claims the hash it derives. |
| UnlockBuilder.BuildUnlockTrace | proving/src/unlock_statement.rs:667-718 | The builder stores exactly the honest rows: constant witness columns beside the four hash traces, blank rows elsewhere. |
| UnlockBuilder.WriteNext | proving/src/unlock_statement.rs:596-665 | One hash written into the next blank rows extends the honest rows by its blocks and returns its final sponge state. |
| JsonScan.ScanStringText | apps/phil-device-sdk/src/routineAuthorizationV1.ts:198-211 | The string token of any valid list of plain, short-escaped and hex-escaped characters is read whole and decodes to those characters. |
| JsonScan.NumberOver | apps/phil-device-sdk/src/routineAuthorizationV1.ts:232-234 | The scalar expression matches a whole RFC 8259 number whatever allowed text follows it. |
| JsonScan.DocumentVerdict | apps/phil-device-sdk/src/routineAuthorizationV1.ts:195-237 | On the text of any syntax tree the scan ends at the end of the text, accepting if the decoded names of every object are distinct and failing as a duplicate otherwise. |
| JsonScan.AcceptsExactly | apps/phil-device-sdk/src/routineAuthorizationV1.ts:195-237 | A text is accepted if and only if it is the text of some tree, white space in the wider ECMAScript class, whose objects at every depth have pairwise distinct decoded names. |
| JsonScan.RfcVerdict | apps/phil-device-sdk/src/routineAuthorizationV1.ts:195-237 | Every text of sections 2 to 7 of RFC 8259 is accepted exactly when its names are distinct. |
| JsonScan.RepeatedNameRefused | apps/phil-device-sdk/src/routineAuthorizationV1.ts:217-220 | Two members of one object with equal decoded names are refused as a duplicate, however either is spelled. |
| JsonScan.StrictObjectExactly | apps/phil-device-sdk/src/routineAuthorizationV1.ts:239-249 | The strict reader accepts exactly the RFC 8259 texts with an object at the root and distinct names; the byte order mark check never decides alone. |
| JsonAlphabet.ScriptSpaces | apps/phil-device-sdk/src/routineAuthorizationV1.ts:197-197 | The white space skipped is WhiteSpace and LineTerminator of ECMA-262, character by character. |
| JsonAlphabet.NumberParts | apps/phil-device-sdk/src/routineAuthorizationV1.ts:232-234 | A number is written as section 6 of RFC 8259 says: sign, digits, fraction after a point, exponent after e or E. |
| JsonAlphabet.Escapes | apps/phil-device-sdk/src/routineAuthorizationV1.ts:198-211 | The eight short escapes of section 7 and the characters they stand for, and no others. |
| JsonAlphabet.HexSpells | apps/phil-device-sdk/src/routineAuthorizationV1.ts:198-211 | Four hexadecimal digits, most significant first, spell every code unit. |
| JsonScanner.Scanner.StringToken | apps/phil-device-sdk/src/routineAuthorizationV1.ts:198-211 | The token loop over the shared offset returns the decoded string and leaves unread what follows it. |
| JsonScanner.Scanner.ReadValue | apps/phil-device-sdk/src/routineAuthorizationV1.ts:212-235 | The recursive reader with its moving offset terminates and leaves unread exactly what the scan function leaves. |
| JsonScanner.Scanner.ReadMembers | apps/phil-device-sdk/src/routineAuthorizationV1.ts:214-225 | The member loop with its key set agrees with the scan of the members. |
| JsonScanner.RejectDuplicateJsonKeys | apps/phil-device-sdk/src/routineAuthorizationV1.ts:195-237 | The entry point succeeds if and only if a tree with distinct names renders to the text, and reports a duplicate for every tree without. |
| P256Der.ReadDerLength | apps/phil-device-sdk/src/p256SignatureWireV2.ts:82-97 | The length loop returns the value and end of a short or minimal long form and refuses the rest. |
| P256Der.ContentsUnique | apps/phil-device-sdk/src/p256SignatureWireV2.ts:99-121 | Contents that pass the sign and minimality checks are the only distinguished contents of their value. |
| P256Der.StrictExactly | apps/phil-device-sdk/src/p256SignatureWireV2.ts:145-160 | The strict parser accepts exactly the distinguished encodings (sections 8.3 and 10.1 of ITU-T X.690) of pairs 1 <= r, s < n, and returns r and min(s, n - s). |
| P256Der.DerInjective | apps/phil-device-sdk/src/p256SignatureWireV2.ts:145-160 | Equal encodings come from equal pairs, so bytes and pair determine each other. |
| P256Der.LowSInRange | apps/phil-device-sdk/src/p256SignatureWireV2.ts:135-143 | Low-S normalization stays in range, gives the smaller of s and n - s, identifies the two and is idempotent. |
| P256Der.NormalizeExactly | apps/phil-device-sdk/src/p256SignatureWireV2.ts:135-143 | Normalizing succeeds exactly for two 32-byte scalars strictly between 0 and n, and gives the second or its complement, whichever is below n/2. |
| P256Der.OrderIs | apps/phil-device-sdk/src/p256SignatureWireV2.ts:39-42 | The group order in decimal, and that half of it is rounded down. |
| P256Der.DecodeOfEncode | apps/phil-device-sdk/src/p256SignatureWireV2.ts:162-177 | Encoding fails exactly when normalizing does; otherwise decoding the raw form gives the normalized pair. |
| P256Der.EncodeOfDecode | apps/phil-device-sdk/src/p256SignatureWireV2.ts:162-177 | Whatever decodes is already normal and encodes back to the same 64 bytes. |
| P256Der.RawExactly | apps/phil-device-sdk/src/p256SignatureWireV2.ts:162-177 | A pair survives the raw form if and only if it is its own low-S normal form. |
| P256Der.DerIntegerToFixed32 | apps/phil-device-sdk/src/deviceIdentityWebAuthn.ts:928-939 | The stripping loop gives the 32-byte form of the value, and fails exactly at 2^256. |
| P256Der.LenientOfDer | apps/phil-device-sdk/src/deviceIdentityWebAuthn.ts:941-953 | The lenient parser reads a distinguished encoding as its own pair, whatever bytes follow it. |
| P256Der.LenientAgrees | apps/phil-device-sdk/src/deviceIdentityWebAuthn.ts:941-953 | On everything the strict parser accepts, the lenient one gives the same pair up to low-S. |
| P256Der.ReadLenientLength | apps/phil-device-sdk/src/deviceIdentityWebAuthn.ts:900-914 | The lenient length loop, which counts bytes past the end as zero and takes long forms of any value. |
| P256Der.StrictRefusesTail | apps/phil-device-sdk/src/deviceIdentityWebAuthn.ts:941-953 | One family of differences: with any bytes appended to any signature the lenient parser answers and the strict one refuses. |
| P256Lenient.LenientExactly | apps/phil-device-sdk/src/deviceIdentityWebAuthn.ts:900-953 | The lenient parser accepts exactly the texts of an explicit grammar, and which 64 bytes it returns for each: any length form, empty, padded or high contents below 2^256, a second integer cut off by the end of the input, and any tail. |
| P256Lenient.StrictOfSpelling | apps/phil-device-sdk/src/deviceIdentityWebAuthn.ts:900-953 | Of the inputs the lenient parser accepts the strict one accepts exactly those with short lengths, minimal positive contents, both scalars in range, nothing cut off and no tail. |
| P256Lenient.StrictOfLenient | apps/phil-device-sdk/src/deviceIdentityWebAuthn.ts:941-953 | For every input the lenient parser answers, the strict one accepts if and only if the answered scalars are in range and the input is their distinguished encoding. |
| Utf8.RoundTrip | apps/phil-device-sdk/src/deviceIdentityWebAuthn.ts:626-633 | TextDecoder on an encoded text gives the text, without a leading byte order mark if it had one. |
| Utf8.DecodedFrom | apps/phil-device-sdk/src/deviceIdentityWebAuthn.ts:626-633 | Bytes decoded without a replacement character are the encoding of the text, with or without a byte order mark before it. |
| Cbor.DecodeCbor | apps/phil-device-sdk/src/deviceIdentityWebAuthn.ts:599-664 | The decoder with its pushing loops and moving offset returns exactly what the decoding function does, on every buffer and offset. |
| CborRoundTrip.HeadReads | apps/phil-device-sdk/src/deviceIdentityWebAuthn.ts:563-590 | Each of the four head forms, also longer than needed, is read back with its major type, argument and end. |
| CborRoundTrip.RoundTrip | apps/phil-device-sdk/src/deviceIdentityWebAuthn.ts:599-664 | For every nested supported item, decoding its encoding at any offset of any buffer gives what the item stores and exactly its end offset. |
| CborLossless.LosslessExactly | apps/phil-device-sdk/src/deviceIdentityWebAuthn.ts:634-653 | Decoding keeps the whole item if and only if no text starts with a byte order mark and each map's keys are distinct after conversion and none is "__proto__". |
| CborLossless.IntegerKeysClean | apps/phil-device-sdk/src/deviceIdentityWebAuthn.ts:592-597 | Maps keyed by distinct integers always qualify, because decimal conversion is injective. |
| CborLossless.NumberRead | apps/phil-device-sdk/src/deviceIdentityWebAuthn.ts:592-597 | The name of an integer key reads back, digit by digit, as the integer, without a leading zero. |
| CredentialList.SortSorted | apps/phil-device-sdk/src/deviceIdentityLifecycle.ts:227-235 | Sorting gives a list in order of priority, creation time and identifier. |
| CredentialList.SortStable | apps/phil-device-sdk/src/deviceIdentityLifecycle.ts:227-235 | Records that compare equal keep their order. |
| CredentialList.SortContents | apps/phil-device-sdk/src/deviceIdentityLifecycle.ts:227-235 | Sorting keeps the multiset of records. |
| CredentialRegistry.Registry.AddCredential | apps/phil-device-sdk/src/deviceIdentityLifecycle.ts:477-497 | The method leaves exactly the specified state and answer, field by field, also when it throws. |
| CredentialRegistry.Registry.RevokeCredential | apps/phil-device-sdk/src/deviceIdentityLifecycle.ts:499-518 | The method leaves exactly the state and answer of the revoking call; when that call is accepted and what it does is CredentialAcceptance.AcceptedExactly, EventExactly and CredentialRuns.StepMeaning. |
| CredentialRegistry.Registry.ArchiveCredential | apps/phil-device-sdk/src/deviceIdentityLifecycle.ts:520-539 | The same for the archiving call. |
| CredentialRegistry.Registry.RenameCredential | apps/phil-device-sdk/src/deviceIdentityLifecycle.ts:574-591 | The method leaves exactly the specified state and answer: the new label and one event, or the state untouched and the reason. |
| CredentialRegistry.Registry.MarkCredentialUsed | apps/phil-device-sdk/src/deviceIdentityLifecycle.ts:593-614 | The method leaves exactly the specified last use, counter and event, or the state untouched when the credential is unknown or not active. |
| CredentialRegistry.Registry.AllowRecovery | apps/phil-device-sdk/src/deviceIdentityLifecycle.ts:663-685 | Approving a recovery leaves exactly the specified policy and event, or the state untouched and the reason. |
| CredentialRegistry.Registry.RotateCredential | apps/phil-device-sdk/src/deviceIdentityLifecycle.ts:541-572 | The method leaves exactly the specified state and answer, including the inserted credential that the throw at 552-554 leaves behind. |
| CredentialRegistry.Registry.BeginRecovery | apps/phil-device-sdk/src/deviceIdentityLifecycle.ts:616-661 | Starting a recovery leaves exactly the specified pending request and event, or the state untouched and the reason. |
| CredentialRegistry.Registry.FinishRecovery | apps/phil-device-sdk/src/deviceIdentityLifecycle.ts:687-713 | Completing a recovery leaves exactly the specified policy, warnings and event, or the state untouched and the reason. |
| CredentialRegistry.Registry.RecomputeAntiLockoutWarnings | apps/phil-device-sdk/src/deviceIdentityLifecycle.ts:427-435 | The counting loop adds the two lockout warnings exactly when their conditions hold and removes none. |
| CredentialAcceptance.AcceptedExactly | apps/phil-device-sdk/src/deviceIdentityLifecycle.ts:399-425 | Each of the nine calls is accepted if and only if a condition on state and call holds: an invoked approved recovery, an empty registry on add, or an active actor; then confirmation, known or unknown target, status, stronger authentication, recovery state. |
| CredentialAcceptance.RefusedExactly | apps/phil-device-sdk/src/deviceIdentityLifecycle.ts:477-713 | A refused call answers with the first condition it fails, in the order of the checks. |
| CredentialAcceptance.PolicyExactly | apps/phil-device-sdk/src/deviceIdentityLifecycle.ts:616-713 | The whole recovery policy after each accepted call: three calls set the named fields, the others none. |
| CredentialAcceptance.EventExactly | apps/phil-device-sdk/src/deviceIdentityLifecycle.ts:370-397 | An accepted call records exactly one event: its kind, credentials, actor, time and details, under an identifier made of them and its position. |
| CredentialAcceptance.WarningsExactly | apps/phil-device-sdk/src/deviceIdentityLifecycle.ts:427-435 | Which warnings stand after an accepted call: those before, no active record, no recovery-only and fewer than two active records. |
| CredentialAcceptance.OrderExactly | apps/phil-device-sdk/src/deviceIdentityLifecycle.ts:227-235 | The list order as priority, then creation time, then identifier. |
| CredentialRuns.StepMeaning | apps/phil-device-sdk/src/deviceIdentityLifecycle.ts:437-614 | Seen as a map from identifiers to records, each call changes exactly the record it is for, in the way it is for; distinctness and order are kept. |
| CredentialRuns.ThrowExactly | apps/phil-device-sdk/src/deviceIdentityLifecycle.ts:541-572 | A throwing call changes the state if and only if it is a rotation with archiving, without confirmation, that passes all earlier checks; it has then inserted the new credential and done nothing else. |
| CredentialRuns.RunKeepsCredentials | apps/phil-device-sdk/src/deviceIdentityLifecycle.ts:437-614 | Over every run from distinct identifiers: they stay distinct, none is removed, the list stays sorted, no credential that is not active becomes active, and no other field changes. |
| CredentialRuns.RunKeepsAudit | apps/phil-device-sdk/src/deviceIdentityLifecycle.ts:370-397 | Over every run the audit trail only grows, by one event per successful call, numbered by position; warnings only grow. |
| CredentialRuns.EventsDistinct | apps/phil-device-sdk/src/deviceIdentityLifecycle.ts:255-277 | The event identifiers of a run are pairwise distinct. |
| CredentialRuns.Provenance | apps/phil-device-sdk/src/deviceIdentityLifecycle.ts:399-416 | In every run from the normal state each managing call with any effect is the first add to an empty registry, or has an actor active at the time, or falls after an approval that no start or completion has ended and that follows a request, both strongly authenticated. |
| CredentialRuns.BootstrapOnce | apps/phil-device-sdk/src/deviceIdentityLifecycle.ts:399-416 | At most one call of a run is the bootstrap. |
| RecoveryPackage.AssertSortedUnique | apps/phil-device-sdk/src/identityDataRecoveryV1.ts:330-336 | The neighbour loop succeeds if and only if the list is strictly increasing. |
| RecoveryPackage.ValidateExactly | apps/phil-device-sdk/src/identityDataRecoveryV1.ts:500-538 | A package is accepted if and only if it is canonical, described without sorting, and is then returned unchanged. |
| RecoveryCreation.SortByOrders | apps/phil-device-sdk/src/identityDataRecoveryV1.ts:399-403 | Sorting orders any list by identifier and keeps every record with its multiplicity. |
| RecoveryCreation.SortIncreasesExactly | apps/phil-device-sdk/src/identityDataRecoveryV1.ts:330-336 | The sorted identifiers are strictly increasing if and only if the given ones differ pairwise, in whatever order. |
| RecoveryCreation.CreatePackageExactly | apps/phil-device-sdk/src/identityDataRecoveryV1.ts:374-498 | A package is created if and only if secret, numbers, records, account scopes and capability epochs are in order and the identifiers of each list differ pairwise, in any order of the lists. |
| RecoveryCreation.CreatePackageRefusal | apps/phil-device-sdk/src/identityDataRecoveryV1.ts:374-498 | The error of a refused input, in the order of the checks: scopes, accounts one by one, devices, policy, capabilities, each list before its repetitions. |
| RecoveryCreation.CreatedPackage | apps/phil-device-sdk/src/identityDataRecoveryV1.ts:374-498 | A created package is canonical, holds exactly the given records, and differs from the input otherwise in the four derived fields alone. |
| RecoveryBundle.CreateExactly | apps/phil-device-sdk/src/identityDataRecoveryV1.ts:793-859 | A bundle is created exactly for a canonical package and positive numbers, and which bundle and shares come out. |
| RecoveryChecks.ValidShareExactly | apps/phil-device-sdk/src/identityDataRecoveryV1.ts:613-656 | The shares that pass are exactly those that creating some bundle can produce. |
| RecoveryChecks.BundleSafeExactly | apps/phil-device-sdk/src/identityDataRecoveryV1.ts:861-904 | A bundle passes if and only if formats, suites, numbers, ciphertext hash and the three wrappers in order are right, field by field. |
| RecoveryChecks.FloorExactly | apps/phil-device-sdk/src/identityDataRecoveryV1.ts:948-960 | A floor refuses exactly the bundles below it, by epoch and then by counter. |
| RecoveryChecks.PairKeyBinds | apps/phil-device-sdk/src/identityDataRecoveryV1.ts:666-702 | A pair key binds both contributions, the set, the epoch and the pair. |
| RecoveryChecks.AadBinds | apps/phil-device-sdk/src/identityDataRecoveryV1.ts:704-721 | The associated data bind every field of the envelope, and the wrapper's also the pair. |
| RecoveryChecks.RestoreMeaning | apps/phil-device-sdk/src/identityDataRecoveryV1.ts:962-1034 | An arbitrary bundle restores a package if and only if two valid shares of its set and epoch give the key of their wrapper, that wraps the key of the ciphertext, and it holds that canonical package at that epoch. |
| RecoveryBundle.RestoreExactly | apps/phil-device-sdk/src/identityDataRecoveryV1.ts:962-1034 | Restoring a created bundle, for any shares and floor: which error comes first, and success, with exactly the package, if and only if two valid shares of different holders, of this set and epoch, with the right contributions, pass the floor. |
| RecoveryBundle.TwoOfThree | apps/phil-device-sdk/src/identityDataRecoveryV1.ts:793-859 | For every package and each pair of shares in either order, restore after create returns exactly that package. |
| RecoveryBundle.MixedSharesRefused | apps/phil-device-sdk/src/identityDataRecoveryV1.ts:931-946 | Anything but two shares of different holders, all of the bundle's set and epoch, restores nothing, from any bundle. |
| RecoveryBundle.AlteredBundleRefused | apps/phil-device-sdk/src/identityDataRecoveryV1.ts:704-721 | Under the wrappers of a created bundle any change of envelope, ciphertext or format, alone or combined, is refused for every choice of shares. |
| RecoverySecrecy.OneShareLearnsNothing | apps/phil-device-sdk/src/identityDataRecoveryV1.ts:666-702 | No deduction from the public bundle, one holder's share and freely chosen other values reaches the package key or the package. |
| RecoverySecrecy.StartsWithTheShare | apps/phil-device-sdk/src/identityDataRecoveryV1.ts:588-611 | The observed share's contributions really are among what the deductions start from, when the holders' random numbers differ. |
| RecoverySecrecy.TwoSharesLearnAll | apps/phil-device-sdk/src/identityDataRecoveryV1.ts:666-702 | From the contributions of any pair there is a deduction of both. |
| RecoveryRequests.CreatedRequestWindow | apps/phil-device-sdk/src/identityDataRecoveryV1.ts:1036-1118 | A created request is accepted for exactly its operation and bundle, exactly from the end of the delay to the expiry. |
| RecoveryCreation.CreateRequestExactly | apps/phil-device-sdk/src/identityDataRecoveryV1.ts:1036-1118 | A request is created if and only if the bundle is sound, the times are ordered within 64 bits, an approval is given, and targets and evidence, in any order, are equally many, non-zero and without repetition. |
| RecoveryCreation.CreateRequestRefusal | apps/phil-device-sdk/src/identityDataRecoveryV1.ts:1036-1118 | Otherwise the error of the first check that fails. |
| RecoveryCreation.CreatedRequestFields | apps/phil-device-sdk/src/identityDataRecoveryV1.ts:1036-1118 | Every field of a created request: targets and evidence each hold the given values in increasing order, and the identifier binds all the others. |
| RecoveryChecks.PendingExactly | apps/phil-device-sdk/src/identityDataRecoveryV1.ts:1120-1227 | A request is accepted for use if and only if it is sound, pending, for this operation and bundle, and inside its window; otherwise why not. |
| RecoveryChecks.CancelExactly | apps/phil-device-sdk/src/identityDataRecoveryV1.ts:1229-1245 | Cancelling takes exactly sound pending requests with a reason and changes the status alone. |
| RecoveryChecks.CompleteRecoveryExactly | apps/phil-device-sdk/src/identityDataRecoveryV1.ts:1273-1361 | A recovery succeeds if and only if the request is accepted, the shares restore the bundle over the floor, and four counters have room. |
| RecoveryChecks.ReplaceSetExactly | apps/phil-device-sdk/src/identityDataRecoveryV1.ts:1363-1428 | A replacement succeeds if and only if the same holds with two counters. |
| RecoveryChecks.RecoveryHashes | apps/phil-device-sdk/src/identityDataRecoveryV1.ts:1247-1345 | The revocation root, the audit head and the completion bind the previous value, the request and the new numbers; the next bundle is at the next epoch. |
| RecoveryChecks.ReplacementHashes | apps/phil-device-sdk/src/identityDataRecoveryV1.ts:1381-1428 | The same for a replacement. |
| RecoveryRequests.RetiredForGood | apps/phil-device-sdk/src/identityDataRecoveryV1.ts:1203-1245 | A request that is not pending is refused by completion, replacement and cancellation, whatever else is supplied. |
| RecoveryRequests.ReturnedRequestsRetired | apps/phil-device-sdk/src/identityDataRecoveryV1.ts:1229-1245 | Every request these operations return is cancelled or completed. |
| RecoveryRequests.OperationMeaning | apps/phil-device-sdk/src/identityDataRecoveryV1.ts:1273-1428 | A successful operation restored a package under the floor, and its new bundle is one created for that package's successor with counter 1. |
| RecoveryRequests.ReplayExactly | apps/phil-device-sdk/src/identityDataRecoveryV1.ts:1203-1428 | A request accepted once, for completion or replacement, is accepted again with the same bundle and shares if and only if the time is in its window and the floor, whatever it is, does not refuse the bundle. |
| RecoveryRequests.CancelLeavesCopy | apps/phil-device-sdk/src/identityDataRecoveryV1.ts:1229-1245 | The copy of a request that was cancelled is accepted exactly where it was before: for its operation and bundle, inside its window. |
| RecoveryRequests.RecoveryEffect | apps/phil-device-sdk/src/identityDataRecoveryV1.ts:1293-1330 | A recovery leaves every credential revoked at the new device epoch and every account binding pending, each otherwise as it was, moves each epoch by one, and changes nothing else but capability and audit state. |
| RecoveryRequests.ReplacementEffect | apps/phil-device-sdk/src/identityDataRecoveryV1.ts:1380-1403 | A replacement changes only recovery epoch and audit state. |
| RecoveryRequests.RecoveryCanonical | apps/phil-device-sdk/src/identityDataRecoveryV1.ts:1273-1330 | The successor of a canonical package is canonical, so building it never fails short of overflow. |
| RecoveryRuns.RunKeeps | apps/phil-device-sdk/src/identityDataRecoveryV1.ts:1273-1428 | Over every run with the floor raised to each new bundle, any earlier bundle being presented again at will: secret, root, owner, data key and scopes never change, and the recovery epoch rises by one with each bundle retired. |
| RecoveryRuns.RetiredBundlesRefused | apps/phil-device-sdk/src/identityDataRecoveryV1.ts:948-960 | At the end of any run every retired bundle is refused as a rollback, with any shares. |
| RecoveryRuns.UsedRequestsRefused | apps/phil-device-sdk/src/identityDataRecoveryV1.ts:1203-1227 | A request bound to a retired bundle is never accepted again, for any bundle, although the caller's copy still says pending. |
| RecoveryRuns.SuccessBindsRetired | apps/phil-device-sdk/src/identityDataRecoveryV1.ts:1203-1227 | The request of a success binds the very bundle that the success retires. |
| RecoveryRuns.RecoveryLasts | apps/phil-device-sdk/src/identityDataRecoveryV1.ts:1295-1330 | After a recovery every credential is revoked and every account binding pending, and nothing later in the run undoes it. |
| RecoveryRuns.ReplayByFloor | apps/phil-device-sdk/src/identityDataRecoveryV1.ts:948-960 | The request of a success is accepted once more, inside its window, if and only if the floor does not refuse the retired bundle: the raised floor refuses it, no floor and the floor from before do not. |
| KeyLifecycle.LoadWithVersions | apps/phil-device-sdk/src/deviceIdentityKeyLifecycle.ts:519-589 | The loop over the ordered key ring succeeds if and only if some allowed, matching entry loads, and returns what that entry loads. |
| KeyLifecycle.Rotate | apps/phil-device-sdk/src/deviceIdentityKeyLifecycle.ts:635-765 | Read, overwrite, annotate, verify and restore leave the backend and answer exactly as specified; the last active-key check never fails. |
| KeyLifecycle.OneActiveAfterRotation | apps/phil-device-sdk/src/deviceIdentityKeyLifecycle.ts:736-759 | After a rotation exactly one key is active, whatever the next version. |
| KeyRuns.RotationExactly | apps/phil-device-sdk/src/deviceIdentityKeyLifecycle.ts:635-765 | Success as the absence of a fault (which KeyAcceptance.RotateExactly spells out), one active key, the blob sealed under the next key, the registry's contents and its trail; a failure leaves the blob. |
| KeyAcceptance.RotateExactly | apps/phil-device-sdk/src/deviceIdentityKeyLifecycle.ts:635-765 | A rotation succeeds if and only if exactly one key is active, the current one is, a required backup is completed, the blob is present, owned and opened by the current key, the next key resolves and nothing throws; otherwise the error of the first condition that fails, and the blob as it was. |
| KeyAcceptance.RotatedBlob | apps/phil-device-sdk/src/deviceIdentityKeyLifecycle.ts:668-715 | What a rotation stores: the contents it found under the next key, the trail with four events, annotated with the next version and the raised counter. |
| KeyAcceptance.RotatedLifecycle | apps/phil-device-sdk/src/deviceIdentityKeyLifecycle.ts:734-759 | The key records after a rotation, by count and in order of version: others unchanged, the old one retiring, the new one active. |
| KeyAcceptance.LoadWithVersionExactly | apps/phil-device-sdk/src/deviceIdentityKeyLifecycle.ts:482-517 | A blob loads by version if and only if a listed active or retiring key opens it and its annotation is current; otherwise the error of the first check that fails. |
| KeyAcceptance.RotateBackupExactly | apps/phil-device-sdk/src/deviceIdentityKeyLifecycle.ts:767-856 | A backup is re-encrypted if and only if it opens under the current backup key and there is a next one; it is then sealed under the next key and opens under no other, with its contents and the rotation in its trail. |
| KeyAcceptance.RotatedBackupKeys | apps/phil-device-sdk/src/deviceIdentityKeyLifecycle.ts:832-856 | The backup key records after it, by count and in order of version. |
| KeyRuns.FindRotated | apps/phil-device-sdk/src/deviceIdentityKeyLifecycle.ts:736-758 | The record of every version after a rotation; a next version equal to the current is shadowed by the retiring record. |
| KeyRuns.NextRotationExactly | apps/phil-device-sdk/src/deviceIdentityKeyLifecycle.ts:643-648 | The new key can take part in a next rotation if and only if its version differs from the one it replaced, which the code does not check. |
| KeyRuns.RunKeeps | apps/phil-device-sdk/src/deviceIdentityKeyLifecycle.ts:635-765 | Over every run with new versions: one active key, counter one plus rotations, contents kept, every earlier blob left behind. |
| KeyRuns.ActiveKeyLoads | apps/phil-device-sdk/src/deviceIdentityKeyLifecycle.ts:482-517 | In every such state the active key loads the stored blob. |
| KeyRuns.PastRefused | apps/phil-device-sdk/src/deviceIdentityKeyLifecycle.ts:301-328 | At the end of a run every earlier blob is refused with every key and from every ring. |
| KeyRuns.BackupRotationLocksOut | apps/phil-device-sdk/src/deviceIdentityKeyLifecycle.ts:839-852 | A backup-key rotation raises the same counter without rewriting the registry, so no key loads it any more. |
| KeyRuns.StorageRotationRepairs | apps/phil-device-sdk/src/deviceIdentityKeyLifecycle.ts:839-852 | The next storage rotation succeeds and makes it loadable again, the counter two higher. |
| KeyRuns.SavedLoadsExactly | apps/phil-device-sdk/src/deviceIdentityStorage.ts:672-692 | What an ordinary save wrote loads by version if and only if there has been no migration, the identity matches and the key is usable and opens it; after any migration every ring refuses it. |
| KeyRuns.SaveLocksOut | apps/phil-device-sdk/src/deviceIdentityStorage.ts:672-692 | In a run, a save with the active key loads again with that key if and only if there has been no migration yet. |
| Account.AccountCore.ValidateOperation | apps/phil-device-sdk/src/v2AccountCore.ts:771-890 | An accepted operation issues a new context bound to the whole state; a refused one issues none; nothing is consumed. |
| Account.AccountCore.ApplyTransition | apps/phil-device-sdk/src/v2AccountCore.ts:914-1040 | Applying consumes the context before the action is attempted and returns exactly the specified state. |
| AccountAcceptance.IssuesExactly | apps/phil-device-sdk/src/v2AccountCore.ts:771-890 | A context is issued if and only if the state is well-formed and unlocked, the entry point calls without unrestricted execution or paymaster, at the current sequence of a lane, and the parts outside agree. |
| AccountAcceptance.RefusedExactly | apps/phil-device-sdk/src/v2AccountCore.ts:771-890 | Otherwise the code of the first condition that fails. |
| AccountAcceptance.ContextExactly | apps/phil-device-sdk/src/v2AccountCore.ts:868-889 | The issued context carries this state, the nonce of the header, the action and the authorization's digest. |
| AccountAcceptance.ValidExactly | apps/phil-device-sdk/src/v2AccountCore.ts:431-583 | Which states the constructor accepts, field by field. |
| AccountAcceptance.AppliesExactly | apps/phil-device-sdk/src/v2AccountCore.ts:914-1040 | A context is used up if and only if it is usable, and then the transition happens if and only if the authorization is new and the action possible; the whole state it leaves. |
| AccountAcceptance.CompletesExactly | apps/phil-device-sdk/src/v2AccountCore.ts:1042-1090 | A recovery completes if and only if its request is pending, the window open, the validator unchanged and both epochs have room; the whole state it leaves. |
| AccountRuns.ApplyMeaning | apps/phil-device-sdk/src/v2AccountCore.ts:368-380 | A successful application uses the current sequence of one of three lanes and raises that lane by one and no other; its context was issued for this state and unused. |
| AccountRuns.ApplyAuthority | apps/phil-device-sdk/src/v2AccountCore.ts:949-1028 | What each action does to validator, epochs and pending recovery; rotation is impossible while a recovery is pending. |
| AccountRuns.CompleteMeaning | apps/phil-device-sdk/src/v2AccountCore.ts:1042-1090 | A completion installs the pending proposal within its window, raises both epochs by one and touches no nonce. |
| AccountRuns.RunKeeps | apps/phil-device-sdk/src/v2AccountCore.ts:892-1090 | Over every threaded run no nonce and no context is applied twice, recovery is active if and only if a request is pending, and each completion comes at least 172800 and less than 604800 seconds after the application of the very request it completes. |
| AccountRuns.CompletionExactly | apps/phil-device-sdk/src/v2AccountCore.ts:1042-1090 | Within a run a completion succeeds if and only if it names the pending request inside its window and no epoch is exhausted; the source-epoch check never decides. |
| AccountRuns.SuppliedWindow | apps/phil-device-sdk/src/v2AccountCore.ts:382-429 | A supplied state may carry any window: its pending recovery completes exactly within that one, whatever the canonical delay. |
| ReplayStore.LocalStore.AuthorizeComposition | apps/phil-device-sdk/src/sepoliaMintComposedAuthorizationV1.ts:78-223 | The call on a store object leaves exactly the specified reservations and answer. |
| ReplayStore.RunKeeps | apps/phil-device-sdk/src/sepoliaMintComposedAuthorizationV1.ts:172-201 | Over every sequential run no two reservations share a digest, nullifier, approval nonce or account nonce, and none is removed. |
| ReplayStore.RepeatedCall | apps/phil-device-sdk/src/sepoliaMintComposedAuthorizationV1.ts:124-127 | After a release, and any calls between, the same call adds nothing and gives the same release if the store recognizes reservations, and is refused otherwise. |
| ReplayStore.ReleasedExactly | apps/phil-device-sdk/src/sepoliaMintComposedAuthorizationV1.ts:172-203 | A call is released if and only if it is acceptable and its four values are unused or exactly reserved. |
| ReplayAcceptance.AuthorizeExactly | apps/phil-device-sdk/src/sepoliaMintComposedAuthorizationV1.ts:106-223 | The answer of a call by its fields: the first check that fails, in order, or the release of this reservation until the end of its window and at the fee limit. |
| ReplayAcceptance.ReserveExactly | apps/phil-device-sdk/src/sepoliaMintComposedAuthorizationV1.ts:201-201 | An atomic reserve refuses exactly when one of the four values is in the store; a plain one never. |
| ReplayInterleaving.AtomicIsSafe | apps/phil-device-sdk/src/sepoliaMintComposedAuthorizationV1.ts:118-203 | Under every schedule of any number of calls, interrupted at every await, an atomic reserve keeps each single-use value to one reservation, and whatever is released is reserved. |
| ReplayInterleaving.ReleasesApart | apps/phil-device-sdk/src/sepoliaMintComposedAuthorizationV1.ts:118-203 | Two released calls carry the same reservation or share no value. |
| ReplayInterleaving.AloneIsAuthorize | apps/phil-device-sdk/src/sepoliaMintComposedAuthorizationV1.ts:118-203 | The interleaved machine run without interruption is the sequential call. |
| ReplayInterleaving.PlainIsUnsafe | apps/phil-device-sdk/src/sepoliaMintComposedAuthorizationV1.ts:201-201 | With a plain reserve any two acceptable calls that share a value, both fresh, can both be released, whatever other calls are in progress. |
| ReplayInterleaving.PlainUnsafeExactly | apps/phil-device-sdk/src/sepoliaMintComposedAuthorizationV1.ts:118-203 | With a plain reserve some schedule of some calls reserves a value twice if and only if two of the calls are acceptable, fresh and share a value. |
| Transport.WriteFrame | apps/phil-device-sdk/src/routineAuthorizationTransportV1.ts:249-258 | The writes at offsets into a zeroed buffer produce the frame bytes or the serializer's error. |
| Transport.ParseExactly | apps/phil-device-sdk/src/routineAuthorizationTransportV1.ts:249-270 | Bytes parse to a frame if and only if the frame serializes to those bytes. |
| TransportChecks.SerializedExactly | apps/phil-device-sdk/src/routineAuthorizationTransportV1.ts:249-258 | Which frames serialize, the error of the others, and what stands at each offset. |
| TransportChecks.ParsedExactly | apps/phil-device-sdk/src/routineAuthorizationTransportV1.ts:260-270 | Which bytes are a frame, by length, version and length word, and where its parts are. |
| Transport.Cipher.EncryptFrame | apps/phil-device-sdk/src/routineAuthorizationTransportV1.ts:285-296 | The method leaves exactly the specified nonce sets and result. |
| Transport.Cipher.DecryptFrame | apps/phil-device-sdk/src/routineAuthorizationTransportV1.ts:298-307 | The method leaves exactly the specified nonce sets and result; a failed opening also uses up its nonce. |
| Transport.Cipher.DestroyKey | apps/phil-device-sdk/src/routineAuthorizationTransportV1.ts:309-311 | The key buffer is zeroed in place, the sets emptied, the flag set. |
| TransportChecks.EncryptExactly | apps/phil-device-sdk/src/routineAuthorizationTransportV1.ts:285-296 | The answer and new state of an encryption for every argument: four refusals in order, or the nonce used up and a frame sealing the text under key, nonce and data. |
| TransportChecks.DecryptExactly | apps/phil-device-sdk/src/routineAuthorizationTransportV1.ts:298-307 | The answer and new state of a decryption for every argument. |
| Transport.EmittedNoncesDistinct | apps/phil-device-sdk/src/routineAuthorizationTransportV1.ts:285-296 | Over every run the nonces of emitted frames are pairwise distinct. |
| Transport.FramesOpenOnce | apps/phil-device-sdk/src/routineAuthorizationTransportV1.ts:298-307 | After any attempt on a nonce, successful or not, every later attempt in the run fails. |
| Transport.NothingAfterDestroy | apps/phil-device-sdk/src/routineAuthorizationTransportV1.ts:309-311 | After destroy every encryption and decryption fails and the key stays zero. |
| Transport.EndToEnd | apps/phil-device-sdk/src/routineAuthorizationTransportV1.ts:285-307 | What one end encrypts the other decrypts, given the same key and associated data and an unseen nonce. |
| Base64Url.DecodeExactly | apps/phil-device-sdk/src/routineAuthorizationTransportV1.ts:83-98 | A text decodes to some bytes if and only if they are not empty and encode to that text. |
| Base64Url.AlphabetAt | apps/phil-device-sdk/src/routineAuthorizationTransportV1.ts:83-85 | Each value is written by the letter at its place in the alphabet of section 5 of RFC 4648. |
| Base64Url.GroupValue | apps/phil-device-sdk/src/routineAuthorizationTransportV1.ts:83-85 | Three bytes and their four digits are the same 24-bit number. |
| TransportBootstrap.DecodeExactly | apps/phil-device-sdk/src/routineAuthorizationTransportV1.ts:149-194 | A text decodes to a bootstrap if and only if the bootstrap encodes to that text. |
| TransportChecks.BootstrapExactly | apps/phil-device-sdk/src/routineAuthorizationTransportV1.ts:134-161 | Which bootstrap values are encoded, and what stands at each offset of the 216 bytes. |
| TransportChecks.PrivateExactly | apps/phil-device-sdk/src/routineAuthorizationTransportV1.ts:100-111 | The accepted addresses are exactly the three ranges of RFC 1918, as numbers. |
| SchemeRegistry.ValidateRegistry | apps/phil-device-sdk/src/postQuantumMigrationV1.ts:287-325 | The validation loop succeeds if and only if identifiers are distinct, retirement agrees with lifecycle and verifiers name registered proofs. |
| SchemeRegistry.FrozenValid | apps/phil-device-sdk/src/postQuantumMigrationV1.ts:265-283 | The frozen registry passes its own validation. |
| SchemeRegistry.FrozenHasNoResistantSignature | apps/phil-device-sdk/src/postQuantumMigrationV1.ts:265-283 | No active signature scheme of the frozen registry is quantum-resistant. |
| PostQuantum.Assess | apps/phil-device-sdk/src/postQuantumMigrationV1.ts:1064-1119 | The assessment succeeds exactly for valid bundles; exactly which claim it makes and exactly which reasons it gives, in order. |
| PostQuantum.ValidatedFields | apps/phil-device-sdk/src/postQuantumMigrationV1.ts:850-884 | An accepted bundle hashes, with the capability it was checked with, to the hash it claims. |
| PostQuantumChecks.ValidateExactly | apps/phil-device-sdk/src/postQuantumMigrationV1.ts:832-882 | A policy is accepted if and only if its capability is trusted, rebuilding it is allowed and gives the hash it claims, and epoch and hash are the trusted ones. |
| PostQuantumChecks.NormalizeSchemeIds | apps/phil-device-sdk/src/postQuantumMigrationV1.ts:364-383 | The loop over a list of schemes, with its codes: it passes exactly lists without repetition of known, admissible schemes of the kind. |
| PostQuantumChecks.RequireCompatibleSets | apps/phil-device-sdk/src/postQuantumMigrationV1.ts:416-432 | The two loops pass exactly when every proof has a verifier and every verifier a proof. |
| PostQuantumChecks.CreateNetworkCapability | apps/phil-device-sdk/src/postQuantumMigrationV1.ts:453-546 | The checks in the order of the code succeed exactly where the capability predicate holds. |
| PostQuantumChecks.BuildPolicyBundle | apps/phil-device-sdk/src/postQuantumMigrationV1.ts:705-820 | The same for policies, over lists. |
| PostQuantumChecks.CreateMigrationCeremony | apps/phil-device-sdk/src/postQuantumMigrationV1.ts:909-1062 | The same for ceremonies. |
| PostQuantumChecks.FrozenGroups | apps/phil-device-sdk/src/postQuantumMigrationV1.ts:265-283 | Which frozen schemes are active, candidates or forbidden, and which are vulnerable, resistant or unassessed, by name. |
| PostQuantumClaims.AboveClassicalExactly | apps/phil-device-sdk/src/postQuantumMigrationV1.ts:453-524 | Over any registry some input builds a capability above classical-only if and only if the registry has an active quantum-resistant signature scheme. |
| PostQuantumClaims.FrozenIsClassical | apps/phil-device-sdk/src/postQuantumMigrationV1.ts:705-777 | Over the frozen registry every capability and every policy is classical-only. |
| PostQuantumClaims.FrozenCeremonies | apps/phil-device-sdk/src/postQuantumMigrationV1.ts:931-1001 | Hybrid enrollment and classical retirement always fail there. |
| PostQuantumClaims.AssessFrozen | apps/phil-device-sdk/src/postQuantumMigrationV1.ts:1064-1119 | Every successful assessment there claims algorithm agility only. |
| PostQuantumClaims.FrozenAdmits | apps/phil-device-sdk/src/postQuantumMigrationV1.ts:453-546 | The frozen registry does admit a capability and, for every policy epoch, a bundle. |
| PostQuantumClaims.FrozenRotates | apps/phil-device-sdk/src/postQuantumMigrationV1.ts:909-1001 | And a rotation from each such bundle to the next. |
| PostQuantumClaims.LinkBinds | apps/phil-device-sdk/src/postQuantumMigrationV1.ts:850-884 | A link by bundle hash is a link of epoch, mode, registry epoch and network capability. |
| PostQuantumClaims.ChainMonotone | apps/phil-device-sdk/src/postQuantumMigrationV1.ts:909-1001 | Along every chain the policy epoch rises by one per ceremony; mode, registry epoch and capability epoch never fall; network and authority stay. |

## Left out

- STWO proving and verification, commitments, FRI and serialization of proofs: library code outside the repository.
- `bit_reverse_index` and the circle and coset index functions: not part of this model; any pair of inverse permutations stands for them.
- Debug switches of the Keccak evaluator (enabled families, degree bounds) and `constraint_family_from_counter`: labels for diagnosis.
- Lookup of the trace by column number: cells are grouped by lane and bit, rows are stored whole.
- KeccakStatement.SoundnessForPreimage: the lengths 135 mod 136 are excluded because the claim is false there; `KeccakStatement.Soundness` covers them with the code's own padding.
- Cbor.DecodeAt: a one- or four-byte argument cut off by the end of the buffer is a separate outcome; the source goes on there with an undefined length.
- Cbor.Assign: assigning `__proto__` also replaces the prototype of the record, which later lookups of missing names would see.
- JsonGrammar: texts are UTF-16 code units; decoding them from UTF-8 bytes happens before the scanner and is not modelled there.
- P256Der: curve operations and signature verification.
- CredentialRegistry.MarkUsed: one clock reading serves all records with the identifier; the source reads the clock once per record.
- CredentialRegistry.Add: the owner commitment in events and the construction of records from device metadata are left out.
- CredentialRegistry: the read-only queries, and dates as anything but texts.
- RecoveryBundle.BundleFault: the text scan of the serialized bundle for secret field names, which base64 ciphertext could trip by chance.
- RecoveryPackage.ScopesValid: the derivation of a scope commitment from its descriptor is a parameter, and the faults of one scope record share an error.
- RecoveryTerms: JSON codecs, base64 text and exact key sets of objects; a package text is the package.
- KeyLifecycle.Rotate: the write that restores the old blob is taken to succeed.
- KeyLifecycle: key derivation from passphrases, file and IndexedDB storage, marking keys retired or revoked.
- Account.ValidationFault: the intent codec, fund lifecycle digest and authorization engine are verdicts of the request; chain, addresses and factor commitments that no transition changes are left out.
- Account: `recovery_config_rotation` and local revocation of a validator, which this file never calls.
- ReplayStore.Authorize: bindings, envelope rebuild, proof and device verification are verdicts of the request.
- Transport: key agreement, fingerprints, associated-data labels and the JSON messages around the frames.
- TransportBootstrap: IPv4 addresses are their four bytes, and curve membership is a parameter.
- SchemeRegistry.FROZEN: labels, standard references, implementation bindings and introduction epochs; an identifier is the hash of a label, so distinct identifiers stand for both uniqueness checks.
- PostQuantumChecks.ValidateNetworkCapability: a capability that cannot be rebuilt is refused with one code, since a record is a set of schemes and not the list it came from.
- PostQuantum: uint64 text forms and the hash encodings; sets stand for sorted lists without repetition.
- The digest builders of the routine, Sepolia and network adapter files: equality checks and hashing that would add only easy members.
