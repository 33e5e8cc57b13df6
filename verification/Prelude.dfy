/** Types shared by the other modules. */
module Prelude {
  datatype Option<+T> = None | Some(value: T)

  /** One byte of a file or of a log line. */
  type Byte = b: int | 0 <= b < 256

  /** A Go string: its bytes. */
  type Str = seq<Byte>

  /** A log entry: a timestamp and the line. */
  datatype Entry = Entry(ts: int, data: seq<Byte>)

  /** The pieces one after the other. */
  function Concat<T>(xs: seq<seq<T>>): seq<T>
  {
    if xs == [] then [] else Concat(xs[..|xs| - 1]) + xs[|xs| - 1]
  }

  /** In order of time, equal times in any order. */
  ghost predicate SortedByTime(es: seq<Entry>) { forall i, j :: 0 <= i < j < |es| ==> es[i].ts <= es[j].ts }

  function Min(a: int, b: int): int { if a < b then a else b }
}
