/** Serialization settings: the target speech service and the output layout. */
module Options {
  /** The speech service a document is written for (`Flavor` in `src/lib.rs`). */
  datatype Flavor =
    | Generic
    | MicrosoftAzureCognitiveSpeechServices
    | GoogleCloudTextToSpeech
    | AmazonPolly
    | PykeSongbird

  /** `SerializeOptions`: target flavor, pretty printing, and whether flavor checks run. */
  datatype SerializeOptions = SerializeOptions(flavor: Flavor, pretty: bool, performChecks: bool)

  /** Generic flavor, compact output, checks on. */
  const DefaultOptions := SerializeOptions(Generic, false, true)
}
