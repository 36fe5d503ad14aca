/** The three ways a decode can fail, and the result of a decoder. */
module Errors {
  import opened Bytes

  /** `Io` stands for the `std::io::Error` of a `read_exact` that ran out of
      bytes: on an in-memory slice that is the only I/O error there is. */
  datatype Error =
    | Io
    | UnsupportedSegwitFlag(flag: u8)
    | ParseFailed(reason: string)

  /** What a decoder hands back: the value read and the bytes it left unread
      (the advanced reader). */
  datatype Decoded<T> = Decoded(item: T, rest: seq<u8>)

  datatype Result<T> = Ok(value: T) | Err(error: Error) {
    predicate IsFailure() {
      Err?
    }

    function PropagateFailure<U>(): Result<U>
      requires Err?
    {
      Err(error)
    }

    function Extract(): T
      requires Ok?
    {
      value
    }
  }

  /** `xs` in front of the items of a decoded list; errors pass through. */
  function Prefixed<T>(xs: seq<T>, r: Result<Decoded<seq<T>>>): (p: Result<Decoded<seq<T>>>)
    ensures p.Ok? <==> r.Ok?
  {
    match r
    case Ok(d) => Ok(Decoded(xs + d.item, d.rest))
    case Err(e) => Err(e)
  }

  lemma PrefixedNothing<T>(r: Result<Decoded<seq<T>>>)
    ensures Prefixed([], r) == r
  {
    if r.Ok? {
      assert [] + r.value.item == r.value.item;
    }
  }

  lemma PrefixedStep<T>(xs: seq<T>, x: T, r: Result<Decoded<seq<T>>>)
    ensures Prefixed(xs, Prefixed([x], r)) == Prefixed(xs + [x], r)
  {
    if r.Ok? {
      assert xs + ([x] + r.value.item) == (xs + [x]) + r.value.item;
    }
  }

  /** One turn of a decoding loop: if the whole list is `xs` in front of what
      is left, and what is left is `x` in front of the rest, then the whole
      is `xs + [x]` in front of the rest. */
  lemma PrefixedAdvance<T>(whole: Result<Decoded<seq<T>>>, xs: seq<T>, x: T,
                           left: Result<Decoded<seq<T>>>, next: Result<Decoded<seq<T>>>)
    requires whole == Prefixed(xs, left) && left == Prefixed([x], next)
    ensures whole == Prefixed(xs + [x], next)
  {
    PrefixedStep(xs, x, next);
  }
}
