/** Failure-carrying values shared by every module of the model. */
module Wrappers {

  /** A value that may be missing. */
  datatype Option<+T> = None | Some(value: T)

  /** A value or the error that prevented computing it (Go's `(T, error)` pair). */
  datatype Result<+T, +E> = Success(value: T) | Failure(error: E)

  /** The outcome of a call that returns only a Go `error`: `Pass` is `nil`. */
  datatype Outcome<+E> = Pass | Fail(error: E)
}

/** Go `error` values as they appear in the repository. */
module Errors {

  /** `KeyNotFound` is the store's `errors.New("key not found")`; every other
      error (RocksDB, Raft, JSON, network) is opaque and known by its message. */
  datatype Error = KeyNotFound | Opaque(message: string)

  /** The text `%v` prints for an error. */
  function Message(e: Error): string
  {
    match e
    case KeyNotFound => "key not found"
    case Opaque(m) => m
  }

  /** `fmt.Errorf(prefix + "%v", e)`: a new opaque error, never the store's
      "key not found", whose text starts with the prefix. */
  function Wrap(prefix: string, e: Error): (r: Error)
    ensures r.Opaque?
    ensures prefix <= Message(r)
  {
    Opaque(prefix + Message(e))
  }

  /** Wrapping loses nothing of the inner error's text: two errors wrapped
      with the same prefix are equal exactly when their texts are. */
  lemma WrapInjective(prefix: string, e1: Error, e2: Error)
    ensures Wrap(prefix, e1) == Wrap(prefix, e2) <==> Message(e1) == Message(e2)
  {
    if Wrap(prefix, e1) == Wrap(prefix, e2) {
      assert (prefix + Message(e1))[|prefix|..] == Message(e1);
      assert (prefix + Message(e2))[|prefix|..] == Message(e2);
    }
  }
}
