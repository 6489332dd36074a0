/** Shared vocabulary of the bridge: optional values (Java's nullable references),
    results of operations that may throw, the failures the adapters can raise,
    and the record of SDK calls an adapter makes before it returns or throws. */
module Common {

  /** A nullable reference: `None` stands for Java's `null`. */
  datatype Option<+T> = None | Some(value: T)

  /** The exceptions the adapters raise or let escape. */
  datatype Failure =
    | NullPointer                                // Objects.requireNonNull on a missing key, or a null dereference
    | ClassCast                                  // a map value that is not a String was cast to String
    | FlutterError(code: string, message: string, details: ErrorDetails) // the channel error a host API throws on bad input

  /** The `details` object of a channel error: the offending argument. */
  datatype ErrorDetails = TextDetails(text: string) | NumberDetails(number: int)

  datatype Result<+T> = Ok(value: T) | Err(failure: Failure)

  /** What one call into an adapter did: the SDK calls it made, in order, and the
      exception that escaped it, if any. */
  datatype Effect<+C> = Effect(calls: seq<C>, thrown: Option<Failure>)

  /** An adapter call that returned normally after making `calls`. */
  function Done<C>(calls: seq<C>): Effect<C>
  {
    Effect(calls, None)
  }

  /** An adapter call that threw `f` after making `calls`. */
  function Threw<C>(calls: seq<C>, f: Failure): Effect<C>
  {
    Effect(calls, Some(f))
  }

  const IntMin: int := -0x8000_0000
  const IntMax: int := 0x7FFF_FFFF
  const TwoTo32: int := 0x1_0000_0000

  predicate InIntRange(x: int)
  {
    IntMin <= x <= IntMax
  }

  /** Java's `Long.intValue()`: keeps the low 32 bits and reads them as a
      two's-complement `int`. */
  function IntValue(x: int): (r: int)
    ensures InIntRange(r)
    ensures (x - r) % TwoTo32 == 0
    ensures InIntRange(x) ==> r == x
  {
    var low := x % TwoTo32;
    if low <= IntMax then low else low - TwoTo32
  }
}
