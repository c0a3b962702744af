/** The optional value used for decoder results, port names and the receiver's
    try-receive result. */
module Options {

  datatype Option<+T> = None | Some(value: T)

  /** The zero- or one-element sequence holding an optional value. */
  function ToSeq<T>(o: Option<T>): seq<T>
  {
    match o
    case None => []
    case Some(v) => [v]
  }
}
