/** Hash strings and the functions that make them. */
module Digests {
  import opened Bytes

  type Hash = seq<byte>

  /** What a hash function returns: sixty-four characters. */
  type HexDigest = s: seq<byte> | |s| == 64 witness Zeros(64)

  /** What is proved of trees and transfers holds for every hash function; the program uses SHA-256. */
  type Digester = seq<byte> -> HexDigest
}
