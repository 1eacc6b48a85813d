/** The domain entity and the outcomes every remote call can have. */
module Events {

  datatype Option<+T> = None | Some(value: T)

  datatype Error =
    | Unauthenticated
    | Invalid
    | StoreFailure
    | SearchFailure
    | VersionGap(missing: int, found: int)

  datatype Result<+T> = Ok(value: T) | Err(error: Error)

  /** The fields that nothing in the pipeline decides by, except that the feed sorts by `occurredAt`,
      which counts nanoseconds as a Go time does. */
  datatype Content = Content(
    kind: string, source: string, occurredAt: int, payload: string, metadata: map<string, string>)

  /** An immutable fact. `id` stands for the UUID: its text sorts as the number does. */
  datatype Event = Event(id: nat, tenantId: string, streamId: string, version: nat, content: Content)

  /** What became of a remote call with one effect: carried out and reported so, carried out although
      the caller saw an error, or not carried out. */
  datatype CallFate = Answered | ReplyLost | NotApplied

  /** What became of a write to a log. The writer retries, so a message may be there several times;
      an acknowledged one is there at least once. */
  datatype WriteFate = Acked(extra: nat) | Unacked(copies: nat)
  {
    function Copies(): nat {
      match this
      case Acked(extra) => 1 + extra
      case Unacked(copies) => copies
    }
  }

  /** `n` copies of `x`. */
  function Repeat<T>(x: T, n: nat): (r: seq<T>)
    ensures |r| == n
    ensures forall i | 0 <= i < n :: r[i] == x
  {
    seq(n, _ => x)
  }
}
