/** Failures of the transform services, written as values instead of raised
    exceptions, and the Option/Result carriers used throughout the model. */
module Outcome {

  /** An optional value: `None` stands for Python's `None` (for instance what
      `cv2.imread` returns for a file it cannot decode). */
  datatype Option<+T> = None | Some(value: T)

  /** What went wrong, by kind. The message texts of the source are not
      modelled; the fields keep what a message names (the style, the path). */
  datatype Error =
    | UnsupportedFileType(contentType: string)   // upload MIME type outside the allow-list
    | EmptyUpload                                // upload with zero bytes
    | Undecodable                                // the decoder could not identify an image
    | UnreadableImage                            // the input array is None (imread failed)
    | EmptyImage                                 // an image with no pixels
    | InvalidInput                               // an input array refused by a sketch filter
    | InvalidStyle(style: string)                // unknown style or preset name
    | ModelNotFound(path: string)                // checkpoint file missing
    | ZeroDivision                               // a scale computed from max(w, h) == 0
    | EmptyResize                                // a resampler asked for a zero width or height
    | UnsupportedChannels(channels: nat)         // a colour conversion refused the channel layout
    | TooFewSamples(samples: nat, clusters: nat) // k-means with fewer pixels than clusters
    | StyleTransferFailed(style: string, cause: Error)  // the RuntimeError of the style-transfer service
    | PixelArtFailed(style: string, cause: Error)       // the RuntimeError of the pixel-art service

  /** The outcome of an operation that may fail; usable with `:-`. */
  datatype Result<+T> = Ok(value: T) | Err(error: Error) {

    predicate IsFailure() {
      Err?
    }

    function PropagateFailure<U>(): Result<U>
      requires Err?
    {
      Err(error)
    }

    function Extract(): T
      requires Ok?
    {
      value
    }
  }
}
