/** The Java wrapper around the native library: one engine call per
    verification, and the translation of the engine's status into an outcome. */
module Consensus {
  import opened JavaTypes
  import opened LibBitcoinConsensus
  import VerifyFlags

  /** What a verification reports: the script's validity, or one of the three
      failures the wrapper raises as exceptions. */
  datatype Outcome =
    | Valid(ok: bool)
    | TxIndexOutOfBounds
    | TxSizeMismatch
    | Deserialize

  /** Translates the engine's reply. The three known error codes each give
      their own failure, whatever the result; every other code, OK and unknown
      ones alike, gives validity, which holds exactly when the result is 1. */
  function MapResult(reply: EngineReply): (outcome: Outcome)
    ensures outcome == TxIndexOutOfBounds <==> reply.err == ErrTxIndex
    ensures outcome == TxSizeMismatch <==> reply.err == ErrTxSizeMismatch
    ensures outcome == Deserialize <==> reply.err == ErrDeserialize
    ensures outcome.Valid? <==> reply.err !in {ErrTxIndex, ErrTxSizeMismatch, ErrDeserialize}
    ensures outcome == Valid(true) ==> reply.result == 1
    ensures outcome.Valid? && reply.result == 1 ==> outcome.ok
  {
    if reply.err == ErrTxIndex then TxIndexOutOfBounds
    else if reply.err == ErrTxSizeMismatch then TxSizeMismatch
    else if reply.err == ErrDeserialize then Deserialize
    else Valid(reply.result == 1)
  }

  /** An error code the library does not define is not reported: the outcome
      is the one an OK code would give, so it can be Valid(true). */
  lemma UnknownErrorActsAsOk(result: int32, err: int32)
    requires err !in {ErrOk, ErrTxIndex, ErrTxSizeMismatch, ErrDeserialize}
    ensures MapResult(EngineReply(result, err)) == MapResult(EngineReply(result, ErrOk))
    ensures result == 1 ==> MapResult(EngineReply(result, err)) == Valid(true)
  {
  }

  /** The flag constants of the native library agree with the flag enumeration. */
  lemma NativeFlagConstants()
    ensures ScriptFlagsVerifyNone as int == VerifyFlags.Value(VerifyFlags.None) as int
    ensures ScriptFlagsVerifyP2SH as int == VerifyFlags.Value(VerifyFlags.P2SH) as int
    ensures ScriptFlagsVerifyDerSig as int == VerifyFlags.Value(VerifyFlags.DerSig) as int
  {
  }

  /** The call the wrapper makes for its arguments: buffers forwarded as they
      are, with their true lengths. */
  function CallFor(scriptPubKey: seq<byte>, txTo: seq<byte>, nIn: int32, flags: int32): (call: EngineCall)
    requires |scriptPubKey| <= MaxInt32 && |txTo| <= MaxInt32
    ensures LengthsMatch(call)
    ensures call.scriptPubKey == scriptPubKey && call.txTo == txTo
    ensures call.nIn == nIn && call.flags == flags
  {
    EngineCall(scriptPubKey, |scriptPubKey| as int32, txTo, |txTo| as int32, nIn, flags)
  }

  /** The wrapper object: it holds the loaded native library. The ghost
      `engineCalls` records every call made to it, in order. */
  class BitcoinConsensus {
    const nativeLib: Engine
    ghost var engineCalls: seq<EngineCall>

    /** Every call the wrapper has made declared the true buffer lengths. */
    ghost predicate Valid()
      reads this
    {
      forall i :: 0 <= i < |engineCalls| ==> LengthsMatch(engineCalls[i])
    }

    /** Wraps an already loaded library. */
    constructor (lib: Engine)
      ensures Valid()
      ensures nativeLib == lib && engineCalls == []
    {
      nativeLib := lib;
      engineCalls := [];
    }

    /** Evaluates a script under the given flag mask: exactly one engine call,
        whose reply decides the outcome. */
    method VerifyScriptWithFlags(scriptPubKey: seq<byte>, txTo: seq<byte>, nIn: int32, flags: int32)
      returns (outcome: Outcome)
      requires Valid()
      requires |scriptPubKey| <= MaxInt32 && |txTo| <= MaxInt32
      modifies this`engineCalls
      ensures Valid()
      ensures engineCalls == old(engineCalls) + [CallFor(scriptPubKey, txTo, nIn, flags)]
      ensures outcome == MapResult(nativeLib(CallFor(scriptPubKey, txTo, nIn, flags)))
    {
      var call := EngineCall(scriptPubKey, |scriptPubKey| as int32, txTo, |txTo| as int32, nIn, flags);
      var reply := nativeLib(call);
      engineCalls := engineCalls + [call];
      if reply.err == ErrTxIndex {
        outcome := TxIndexOutOfBounds;
      } else if reply.err == ErrTxSizeMismatch {
        outcome := TxSizeMismatch;
      } else if reply.err == ErrDeserialize {
        outcome := Deserialize;
      } else {
        outcome := Outcome.Valid(reply.result == 1);
      }
    }

    /** Evaluates a script with no verification flags: the same as the
        four-argument form with the flag mask NONE. */
    method VerifyScript(scriptPubKey: seq<byte>, txTo: seq<byte>, nIn: int32)
      returns (outcome: Outcome)
      requires Valid()
      requires |scriptPubKey| <= MaxInt32 && |txTo| <= MaxInt32
      modifies this`engineCalls
      ensures Valid()
      ensures engineCalls == old(engineCalls) + [CallFor(scriptPubKey, txTo, nIn, ScriptFlagsVerifyNone)]
      ensures outcome == MapResult(nativeLib(CallFor(scriptPubKey, txTo, nIn, ScriptFlagsVerifyNone)))
    {
      outcome := VerifyScriptWithFlags(scriptPubKey, txTo, nIn, ScriptFlagsVerifyNone);
    }
  }

  /** A caller that verifies the same input twice. Given a deterministic
      engine both outcomes agree, and the wrapper made exactly two engine
      calls, both with the same forwarded arguments. */
  method VerifyTwice(lib: BitcoinConsensus, scriptPubKey: seq<byte>, txTo: seq<byte>, nIn: int32, flags: int32)
    returns (first: Outcome, second: Outcome)
    requires lib.Valid()
    requires |scriptPubKey| <= MaxInt32 && |txTo| <= MaxInt32
    modifies lib`engineCalls
    ensures lib.Valid()
    ensures first == second
    ensures lib.engineCalls == old(lib.engineCalls) + [CallFor(scriptPubKey, txTo, nIn, flags), CallFor(scriptPubKey, txTo, nIn, flags)]
  {
    first := lib.VerifyScriptWithFlags(scriptPubKey, txTo, nIn, flags);
    second := lib.VerifyScriptWithFlags(scriptPubKey, txTo, nIn, flags);
  }

  /** A caller that selects a set of flags, merges it, and verifies under the
      resulting mask: the engine receives exactly the mask of the set. */
  method VerifyWithFlagSet(lib: BitcoinConsensus, scriptPubKey: seq<byte>, txTo: seq<byte>, nIn: int32,
                           flags: set<VerifyFlags.VerifyFlag>)
    returns (outcome: Outcome)
    requires lib.Valid()
    requires |scriptPubKey| <= MaxInt32 && |txTo| <= MaxInt32
    modifies lib`engineCalls
    ensures lib.Valid()
    ensures lib.engineCalls == old(lib.engineCalls) + [CallFor(scriptPubKey, txTo, nIn, VerifyFlags.Mask(flags) as int as int32)]
    ensures outcome == MapResult(lib.nativeLib(CallFor(scriptPubKey, txTo, nIn, VerifyFlags.Mask(flags) as int as int32)))
  {
    var mask := VerifyFlags.GetValueOf(flags);
    outcome := lib.VerifyScriptWithFlags(scriptPubKey, txTo, nIn, mask);
  }
}
