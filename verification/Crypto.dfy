/**
 The hash function is an unknown function from byte strings to 32-byte digests:
 nothing else is assumed about it, and the few theorems that need it to be free
 of collisions say so in a `requires`.
 */
module Crypto {
  import opened Bytes
  import opened Wrappers

  type Digest = seq<byte>

  const UnknownHash: seq<byte> -> seq<byte>

  function Sha256(bytes: seq<byte>): (d: Digest)
    ensures |d| == 32
  {
    if |UnknownHash(bytes)| == 32 then UnknownHash(bytes) else seq(32, _ => 0)
  }

  function DoubleSha256(bytes: seq<byte>): (d: Digest)
    ensures |d| == 32
  {
    Sha256(Sha256(bytes))
  }

  /** No two of these byte strings have the same hash. */
  ghost predicate CollisionFreeOn(inputs: set<seq<byte>>) {
    forall a, b :: a in inputs && b in inputs && Sha256(a) == Sha256(b) ==> a == b
  }

  /** A body followed by its hash. */
  function Seal(body: seq<byte>): seq<byte> {
    body + Sha256(body)
  }

  /** The body of a sealed file of this body length, or an error. */
  function Unseal(bytes: seq<byte>, body: nat): (r: Result<seq<byte>>)
    ensures r.Success? ==> |r.value| == body
  {
    if |bytes| != body + 32 then Failure
    else if Sha256(bytes[..body]) != bytes[body..] then Failure
    else Success(bytes[..body])
  }

  lemma UnsealSealed(body: seq<byte>)
    ensures Unseal(Seal(body), |body|) == Success(body)
  {
    assert Seal(body)[..|body|] == body && Seal(body)[|body|..] == Sha256(body);
  }

  lemma SealUnsealed(bytes: seq<byte>, body: nat)
    requires Unseal(bytes, body).Success?
    ensures Seal(Unseal(bytes, body).value) == bytes
  {
    assert bytes == bytes[..body] + bytes[body..];
  }
}
