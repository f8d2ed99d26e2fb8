# java-libbitcoinconsensus: flag masks and the verify-script wrapper

This project models the two parts of the Java binding to libbitcoinconsensus
that hold logic of their own.

- **Script verification flags** (`VerifyFlags`, in `verify_flag.dfy`). These are
  the eleven rules `NONE`, `P2SH`, `STRICTENC`, `DERSIG`, `LOW_S`, `NULLDUMMY`,
  `SIGPUSHONLY`, `MINIMALDATA`, `DISCOURAGE_UPGRADABLE_NOPS`, `CLEANSTACK` and
  `CHECKLOCKTIMEVERIFY`, with their fixed values (0, then `1 << 0` to `1 << 9`).
  The module also holds the mandatory and standard flag sets and `getValueOf`,
  which ORs a set of flags into one Java `int`.
  - `Mask` is the mask as a ghost fold over a `set`, taken in an arbitrary order.
  - `GetValueOf` is the source's loop, with an accumulator that the loop ORs into.
    It is proved equal to `Mask`, whatever order the loop visits the set in.
  - Lemmas cover the fold: order independence, union, idempotent insertion, bit
    membership, injectivity, and the two constant sets.
- **The wrapper `BitcoinConsensus`** (`Consensus`, in `bitcoin_consensus.dfy`,
  with the library's constants and call shape in `lib_bitcoin_consensus.dfy`).
  - The native engine is a deterministic function-valued field, `nativeLib`.
  - `VerifyScriptWithFlags` and `VerifyScript` make one engine call each. The
    ghost log `engineCalls` records that call, with the buffers forwarded
    unchanged and their true lengths.
  - The pure function `MapResult` translates the engine's `(result, err)` pair
    into an `Outcome`: `Valid(bool)`, `TxIndexOutOfBounds`, `TxSizeMismatch` or
    `Deserialize`. The three failures stand for the exceptions the Java method
    throws.

Java's `int` is the newtype `int32`. Flag values and masks are `bv32`, the bits
of that `int`.

**Unknown status codes are not reported.** The `switch` at
`BitcoinConsensus.java:72-79` has no `default` case. Any other code falls
through to `result == 1`, so an unknown code together with result 1 yields
`true`. `Outcome` has no variant for such a code, and `UnknownErrorActsAsOk`
states the fall-through.

## Model

| member | source | states |
|---|---|---|
| VerifyFlags.Value | src/main/java/co/bitwatch/libbitcoinconsensus/VerifyFlag.java:14-116 | a flag's value is 0 exactly for NONE; otherwise it is a single bit (a power of two) below `1 << 10` |
| VerifyFlags.FlagAt | src/main/java/co/bitwatch/libbitcoinconsensus/VerifyFlag.java:21-116 | for each k in 0..9 some non-NONE flag has value exactly `1 << k` |
| VerifyFlags.BitIndex | src/main/java/co/bitwatch/libbitcoinconsensus/VerifyFlag.java:21-116 | every non-NONE flag sits at a bit k < 10 and is the flag found at k (FlagAt inverts it) |
| VerifyFlags.ValuesDisjoint | src/main/java/co/bitwatch/libbitcoinconsensus/VerifyFlag.java:14-116 | two different flags never share a bit and never have equal values |
| VerifyFlags.ValueBit | src/main/java/co/bitwatch/libbitcoinconsensus/VerifyFlag.java:21-116 | bit k of a flag's value is set iff k < 10 and the flag is the one at bit k |
| VerifyFlags.Mask | src/main/java/co/bitwatch/libbitcoinconsensus/VerifyFlag.java:173-179 | the OR of the values of a set, taken in an arbitrary order, always below `1 << 10` |
| VerifyFlags.MaskRemove | src/main/java/co/bitwatch/libbitcoinconsensus/VerifyFlag.java:174-178 | taking any member first gives the same mask: the fold is independent of visiting order |
| VerifyFlags.MaskOfNone | src/main/java/co/bitwatch/libbitcoinconsensus/VerifyFlag.java:173-179 | the mask of the empty set and of {NONE} is 0 |
| VerifyFlags.MaskInsert | src/main/java/co/bitwatch/libbitcoinconsensus/VerifyFlag.java:173-179 | adding a flag ORs in its value; adding a flag already present leaves the mask unchanged |
| VerifyFlags.MaskUnion | src/main/java/co/bitwatch/libbitcoinconsensus/VerifyFlag.java:173-179 | the mask of S ∪ T is mask(S) OR mask(T) |
| VerifyFlags.MaskBit | src/main/java/co/bitwatch/libbitcoinconsensus/VerifyFlag.java:21-179 | bit k of the mask is set iff k < 10 and the flag with value `1 << k` is in the set, for every k < 32 |
| VerifyFlags.MaskMember | src/main/java/co/bitwatch/libbitcoinconsensus/VerifyFlag.java:173-179 | a non-NONE flag is in the set iff its bit is in the mask |
| VerifyFlags.MaskInjective | src/main/java/co/bitwatch/libbitcoinconsensus/VerifyFlag.java:173-179 | equal masks mean equal sets once NONE is disregarded |
| VerifyFlags.MandatoryFlags | src/main/java/co/bitwatch/libbitcoinconsensus/VerifyFlag.java:126-142 | MANDATORY_VERIFY_FLAGS is {P2SH}, has mask 1, and is a subset of STANDARD_VERIFY_FLAGS |
| VerifyFlags.StandardFlags | src/main/java/co/bitwatch/libbitcoinconsensus/VerifyFlag.java:135-142 | STANDARD_VERIFY_FLAGS omits NONE, LOW_S and SIGPUSHONLY and has mask 983 |
| VerifyFlags.GetValueOf | src/main/java/co/bitwatch/libbitcoinconsensus/VerifyFlag.java:173-179 | the loop's merged int equals the mask of the set, whatever order the set is visited in, and lies in 0..1023 |
| Consensus.MapResult | src/main/java/co/bitwatch/libbitcoinconsensus/BitcoinConsensus.java:72-81 | err 1, 2 and 3 give TxIndexOutOfBounds, TxSizeMismatch and Deserialize, whatever the result; every other err gives Valid, true only when result is 1 |
| Consensus.UnknownErrorActsAsOk | src/main/java/co/bitwatch/libbitcoinconsensus/BitcoinConsensus.java:72-81 | an undefined error code is handled as OK, so with result 1 it yields Valid(true) |
| Consensus.NativeFlagConstants | src/main/java/co/bitwatch/libbitcoinconsensus/LibBitcoinConsensus.java:14-18 | the library's NONE, P2SH and DERSIG flag constants equal the values of the corresponding flags |
| Consensus.CallFor | src/main/java/co/bitwatch/libbitcoinconsensus/BitcoinConsensus.java:68-70 | the engine call forwards script, transaction, nIn and flags unchanged and declares the true buffer lengths |
| Consensus.BitcoinConsensus.constructor | src/main/java/co/bitwatch/libbitcoinconsensus/BitcoinConsensus.java:34-36 | the wrapper holds the given library and has made no engine call |
| Consensus.BitcoinConsensus.VerifyScriptWithFlags | src/main/java/co/bitwatch/libbitcoinconsensus/BitcoinConsensus.java:66-82 | exactly one engine call is made, with the forwarded arguments and true lengths; the outcome is the mapping of that call's reply |
| Consensus.BitcoinConsensus.VerifyScript | src/main/java/co/bitwatch/libbitcoinconsensus/BitcoinConsensus.java:49-52 | behaves as the four-argument form with flag mask NONE (0) |
| Consensus.VerifyTwice | src/main/java/co/bitwatch/libbitcoinconsensus/BitcoinConsensus.java:66-82 | given a deterministic engine, verifying the same input twice gives the same outcome; the log gains exactly two identical forwarded calls and keeps its earlier entries |
| Consensus.VerifyWithFlagSet | src/main/java/co/bitwatch/libbitcoinconsensus/BitcoinConsensus.java:66-70 | verifying under a merged flag set makes one call that forwards the buffers with their true lengths, nIn, and exactly the mask of that set; the earlier log entries stay |

## Left out

- The script interpreter behind `bitcoinconsensus_verify_script` is not modelled. It is native code, so the engine is an uninterpreted function `nativeLib`, assumed deterministic.
- The engine-version query `bitcoinconsensus_version` is not modelled. It is a bare native passthrough, and the wrapper class does not expose it.
- Library loading with `Native.loadLibrary`, and the default library name, are left out. They are foreign I/O. The constructor receives the already loaded engine.
- The JNA `IntByReference` out-slot is not modelled as an object. It is the `err` field of the engine's reply.
- The exception classes become `Outcome` variants. Their messages and their Java superclasses are not modelled.
- The concrete test vectors need real ECDSA and script execution, so they are not restated. The mapping of each engine reply they check is covered by `MapResult`.
- The hex-decoding test helper `StringUtil.hexToBinary` is not part of this model. It delegates to a JDK class.
- Concurrency is not modelled. The wrapper introduces none.
- Consensus.BitcoinConsensus.VerifyScriptWithFlags: requires both buffers to be at most 2^31 - 1 bytes long. A Java array cannot be longer, and its length must fit the engine's `int` length arguments.
- Java null arguments are not modelled, since a `seq` cannot be null. In the source, a null buffer raises a NullPointerException before the engine is called.
