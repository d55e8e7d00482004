/** Outcomes of a conversion. */
module Errors {

  /** Why a conversion produces no output file.
      BadBlockTag is the source's own failure (a block whose tag is not "BLCK").
      The other kinds name inputs on which the source reads outside its
      buffers; the model reports them instead of reading undefined bytes. */
  datatype ConvertError =
    | ShortRead             // the input ends inside a header or a channel buffer
    | BadBlockTag           // a block header does not start with "BLCK"
    | MisalignedAdpcmBlock  // an ADPCM block size is not a whole number of 9-byte frames
    | InsufficientSamples   // a channel decoded fewer than LoopEnd samples
    | LoopPointsReversed    // looping is requested but LoopStart > LoopEnd

  datatype Result<T> = Ok(value: T) | Err(error: ConvertError)
}
