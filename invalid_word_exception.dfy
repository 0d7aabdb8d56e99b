/** The one error the word counter raises: a message and the offending word. */
module Exceptions {
  import opened Wrappers

  /** `InvalidWordException`: `invalidWord` is `None` exactly where Java passes null. */
  datatype InvalidWordException = InvalidWordException(message: string, invalidWord: Option<string>)
}
