/** Option and Result, and the reasons for which the relay refuses an input. */
module Wrappers {

  datatype Option<+T> = None | Some(value: T)

  /** How a concentrator answers one item of a downlink; any other status keeps its number. */
  datatype Ack = Ignored | AckOk | InternalError | OtherStatus(code: int)

  datatype Error =
    | EmptyInput
    | NotEnoughBytes
    | InvalidMType
    | HopCountRange
    | UplinkIdRange
    | DrRange
    | RssiRange
    | SnrRange
    | DelayRange
    | TxPowerRange
    | FrequencyTooLarge
    | FrequencyStep
    | ShortRead
    | HeartbeatLength
    | TimeBeforeEpoch
    | MicMissing
    | InvalidMic
    | OneItemExpected
    | EncryptedExpected
    | RxInfoMissing
    | TxInfoMissing
    | ModulationMissing
    | TimingMissing
    | OnlyDelayTiming
    | ContextTooShort
    | NoMeshFrequencies
    | NoUplinkContext
    | NotMapped
    | MaxHopCountExceeded
    | TimestampNotIncremented
    | RelayIdLength
    | RelayIdDigit
    | TxAckError(last: Ack)
    | TransmitFailed

  datatype Result<+T> = Ok(value: T) | Err(error: Error) {
    predicate IsFailure() {
      Err?
    }

    function PropagateFailure<U>(): Result<U>
      requires Err?
    {
      Err(error)
    }

    function Extract(): T
      requires Ok?
    {
      value
    }
  }
}
