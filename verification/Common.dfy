/** Types shared by every part of the model. */
module Common {
  datatype Option<+T> = None | Some(value: T)

  type Bytes = seq<bv8>

  function Fill<T>(x: T, n: nat): (s: seq<T>)
    ensures |s| == n
    ensures forall i :: 0 <= i < n ==> s[i] == x
  {
    seq(n, _ => x)
  }

  function Zeros(n: nat): Bytes {
    Fill(0, n)
  }

  function Max(a: int, b: int): int {
    if a < b then b else a
  }

  /** The bytes of an ASCII string constant. */
  function Ascii(s: string): Bytes {
    seq(|s|, i requires 0 <= i < |s| => if s[i] as int < 256 then (s[i] as int) as bv8 else 0)
  }

  /** `data` copied over the front of the fixed buffer `buf`, the tail keeping its old contents. */
  function Overlay(data: Bytes, buf: Bytes): (r: Bytes)
    requires |data| <= |buf|
    ensures |r| == |buf|
  {
    data + buf[|data|..]
  }
}
