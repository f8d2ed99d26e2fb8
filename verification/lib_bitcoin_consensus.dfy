/** The native consensus library's call boundary: its flag and status
    constants and the shape of its verify-script entry point. The script
    interpreter behind that entry point is not part of this model. */
module LibBitcoinConsensus {
  import opened JavaTypes

  /** Flag masks the library names itself. */
  const ScriptFlagsVerifyNone: int32 := 0
  const ScriptFlagsVerifyP2SH: int32 := 1
  const ScriptFlagsVerifyDerSig: int32 := 4

  /** Status codes written into the engine's out-slot. */
  const ErrOk: int32 := 0
  const ErrTxIndex: int32 := 1
  const ErrTxSizeMismatch: int32 := 2
  const ErrDeserialize: int32 := 3

  /** The arguments of one call to the engine, in the library's order. */
  datatype EngineCall = EngineCall(
    scriptPubKey: seq<byte>, scriptPubKeyLen: int32,
    txTo: seq<byte>, txToLen: int32,
    nIn: int32, flags: int32)

  /** What one call returns: the verification status and the out-slot `err`. */
  datatype EngineReply = EngineReply(result: int32, err: int32)

  /** The native verify-script function, taken as an uninterpreted but
      deterministic function of its arguments. */
  type Engine = EngineCall -> EngineReply

  /** A call whose declared lengths are the true lengths of its buffers. */
  predicate LengthsMatch(call: EngineCall)
  {
    call.scriptPubKeyLen as int == |call.scriptPubKey| && call.txToLen as int == |call.txTo|
  }
}
