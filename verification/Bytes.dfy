/** Bytes and byte strings, shared by the buffers. */
module Bytes {

  type byte = b: int | 0 <= b < 256

  /** All the byte strings of a list, one after the other. */
  function Flatten(parts: seq<seq<byte>>): seq<byte>
  {
    if parts == [] then [] else parts[0] + Flatten(parts[1..])
  }

  /** `s` with the bytes from `at` on overwritten by `src`. */
  function Splice(s: seq<byte>, at: nat, src: seq<byte>): (r: seq<byte>)
    requires at + |src| <= |s|
    ensures |r| == |s|
  {
    s[..at] + src + s[at + |src|..]
  }

  /** `bcopy` of `src` to the index `at` of a buffer. */
  method CopyInto(a: array<byte>, at: nat, src: seq<byte>)
    requires at + |src| <= a.Length
    modifies a
    ensures a[..] == Splice(old(a[..]), at, src)
  {
    forall i | 0 <= i < |src| {
      a[at + i] := src[i];
    }
  }
}
