/**
 Values that several components share.
 */
module Basics {

  datatype Option<T> = None | Some(value: T)

  type Byte = b: int | 0 <= b < 256
  type Bytes = seq<Byte>

  /** The least multiple of four that is not below `n`. */
  function Roundup4(n: nat): (r: nat)
    ensures n <= r < n + 4 && r % 4 == 0
  {
    if n % 4 == 0 then n else n + (4 - n % 4)
  }

  lemma FourTimes(q: int)
    ensures 4 * q % 4 == 0
  {
  }

  /** Sums and differences of multiples of four are multiples of four. */
  lemma MultiplesOfFour(a: int, b: int)
    requires a % 4 == 0 && b % 4 == 0
    ensures (a + b) % 4 == 0 && (a - b) % 4 == 0
  {
    assert a == 4 * (a / 4) && b == 4 * (b / 4);
    FourTimes(a / 4 + b / 4);
    FourTimes(a / 4 - b / 4);
  }

  /** Two multiples of four less than four apart are the same. */
  lemma SameMultiple(a: int, b: int)
    requires a % 4 == 0 && b % 4 == 0 && a - 4 < b < a + 4
    ensures a == b
  {
    assert a == 4 * (a / 4) && b == 4 * (b / 4);
  }

  /** Sequences one behind the other. */
  function Flat<T>(parts: seq<seq<T>>): seq<T> {
    if parts == [] then [] else Flat(parts[..|parts| - 1]) + parts[|parts| - 1]
  }

  lemma FlatSnoc<T>(parts: seq<seq<T>>, last: seq<T>)
    ensures Flat(parts + [last]) == Flat(parts) + last
  {
    assert (parts + [last])[..|parts|] == parts;
  }
}
