/** The failures of the torrent core. The source signals each of them by
    throwing; here every operation returns a Result instead. */
module Errors {
  import opened Bytes

  datatype Error =
      /** Parser::peek at or past the end of the data: "Unexpected end of data". */
    | EndOfData
      /** parseValue on a lookahead that starts no production. */
    | UnexpectedCharacter(c: Byte)
      /** parseString: the digits are not followed by ':'. */
    | ExpectedColon
      /** parseString: the declared length runs past the end of the data. */
    | StringOutOfRange
      /** std::invalid_argument from std::stoul / std::stoull: no digits. */
    | InvalidArgument
      /** std::out_of_range from std::stoul / std::stoull: above 2^64 - 1. */
    | OutOfRange
      /** skipElement would read past the end of the data (undefined behaviour
          in the source, which never checks). */
    | ScanPastEnd
      /** skipElement: adding a string's declared length to the cursor wraps
          size_t (the source would carry on from the wrapped position). */
    | LengthWraps
      /** extractRawInfoSection: "4:info" does not occur. */
    | InfoNotFound
      /** extractRawInfoSection: the byte after "4:info" is missing or not 'd'. */
    | InfoInvalidStart
      /** fillMetadata: the descriptor file cannot be opened. */
    | CannotOpenFile
      /** fillMetadata: the decoder failed; the cause is kept. */
    | ParseFailed(cause: Error)
      /** std::bad_variant_access from Value::asInt / asStr / asList / asDict. */
    | TypeMismatch

  datatype Option<+T> = None | Some(value: T)

  datatype Result<+T> = Ok(value: T) | Err(error: Error) {
    predicate IsFailure() { Err? }

    function PropagateFailure<U>(): Result<U>
      requires Err?
    {
      Err(error)
    }

    function Extract(): T
      requires Ok?
    {
      value
    }
  }
}
