/** HMAC-SHA256 of ran-emulator/source/crypto.c, proved against section 2 of RFC 2104. */
module Hmac {
  import opened Sha256Spec
  import opened Sha256Context

  // ----- RFC 2104, section 2 -----

  const BLOCK := 64

  /** The key brought to the block length: hashed when longer, then filled with zeros. */
  function BlockKey(key: seq<Byte>): (k: seq<Byte>)
    ensures |k| == BLOCK
  {
    var k := if |key| > BLOCK then Sha256(key) else key;
    k + seq(BLOCK - |k|, _ => 0 as Byte)
  }

  function Xor(s: seq<Byte>, pad: Byte): (r: seq<Byte>)
    ensures |r| == |s|
  {
    seq(|s|, i requires 0 <= i < |s| => s[i] ^ pad)
  }

  function HmacSha256(key: seq<Byte>, text: seq<Byte>): (d: seq<Byte>)
    ensures |d| == 32
  {
    Sha256(Xor(BlockKey(key), 0x5c) + Sha256(Xor(BlockKey(key), 0x36) + text))
  }

  // ----- the one-shot and the streamed hash -----

  /** sha256_get */
  method Get(message: seq<Byte>) returns (hash: seq<Byte>)
    requires |message| < 0x8000_0000
    ensures hash == Sha256(message)
  {
    var sha := new Context();
    sha.Initialize();
    sha.Finalize(message);
    assert [] + message == message;
    hash := sha.hash[..];
  }

  function Concat(chunks: seq<seq<Byte>>): seq<Byte> {
    if chunks == [] then [] else Concat(chunks[..|chunks| - 1]) + chunks[|chunks| - 1]
  }

  /** Any number of sha256_update calls followed by sha256_finalize give the digest of the whole message. */
  method HashInParts(chunks: seq<seq<Byte>>, last: seq<Byte>) returns (hash: seq<Byte>)
    requires forall c :: c in chunks ==> |c| < 0x1_0000_0000
    requires |last| < 0x1_0000_0000
    ensures hash == Sha256(Concat(chunks) + last)
  {
    var sha := new Context();
    sha.Initialize();
    for i := 0 to |chunks|
      invariant sha.Valid() && sha.absorbed == Concat(chunks[..i])
      invariant fresh(sha) && fresh(sha.hash) && fresh(sha.buffer) && fresh(sha.state) && fresh(sha.length)
    {
      sha.Update(chunks[i]);
      assert chunks[..i + 1][..i] == chunks[..i];
    }
    assert chunks[..|chunks|] == chunks;
    sha.Finalize(last);
    hash := sha.hash[..];
  }

  // ----- the HMAC context -----

  class HmacContext {
    const digest: array<Byte>
    const key: array<Byte>
    const sha: Context
    ghost var secret: seq<Byte>

    ghost predicate Shape() {
      && digest.Length == 32 && key.Length == BLOCK && digest != key && sha.Shape()
      && sha.hash != key && sha.hash != digest
      && (key as object) !in {sha.buffer, sha.state, sha.length}
         && (digest as object) !in {sha.buffer, sha.state, sha.length}
    }

    /** Ready to absorb more of a text of which part was absorbed. */
    ghost predicate Absorbed(text: seq<Byte>)
      reads this, key, sha, sha.buffer, sha.state, sha.length
    {
      && Shape()
      && key[..] == Xor(BlockKey(secret), 0x36)
      && sha.Valid() && sha.absorbed == key[..] + text
    }

    constructor ()
      ensures Shape() && fresh(digest) && fresh(key) && fresh(sha)
      ensures fresh(sha.hash) && fresh(sha.buffer) && fresh(sha.state) && fresh(sha.length)
    {
      var s := new Context();
      digest := new Byte[32];
      key := new Byte[64];
      sha := s;
    }

    /** Both key loops of hmac_sha256_initialize: bytes of s masked with ipad, the rest ipad alone. */
    method MaskKey(s: seq<Byte>)
      requires Shape() && |s| <= BLOCK
      modifies key
      ensures key[..] == Xor(s + seq(BLOCK - |s|, _ => 0 as Byte), 0x36)
    {
      for i := 0 to |s|
        invariant forall k :: 0 <= k < i ==> key[k] == s[k] ^ 0x36
      {
        key[i] := s[i] ^ 0x36;
      }
      for i := |s| to BLOCK
        invariant forall k :: 0 <= k < |s| ==> key[k] == s[k] ^ 0x36
        invariant forall k :: |s| <= k < i ==> key[k] == 0x36
      {
        key[i] := 0x36;
      }
    }

    /** hmac_sha256_initialize */
    method Initialize(k: seq<Byte>)
      requires Shape() && |k| < 0x8000_0000
      modifies this, key, sha, sha.hash, sha.buffer, sha.state, sha.length
      ensures Absorbed([]) && secret == k
    {
      hide Context.Valid, Xor, Sha256;
      if |k| <= BLOCK {
        MaskKey(k);
      } else {
        sha.Initialize();
        sha.Finalize(k);
        assert [] + k == k;
        MaskKey(sha.hash[..]);
      }
      secret := k;
      sha.Initialize();
      sha.Update(key[..]);
    }

    /** hmac_sha256_update */
    method Update(message: seq<Byte>, ghost text: seq<Byte>)
      requires Absorbed(text) && |message| < 0x8000_0000
      modifies sha, sha.buffer, sha.state, sha.length
      ensures Absorbed(text + message) && secret == old(secret)
    {
      hide Context.Valid, Xor, BlockKey;
      sha.Update(message);
      assert key[..] + text + message == key[..] + (text + message);
    }

    /** The loop of hmac_sha256_finalize that turns the inner key into the outer key. */
    method FlipKey(ghost k: seq<Byte>)
      requires Shape() && |k| == BLOCK && key[..] == Xor(k, 0x36)
      modifies key
      ensures key[..] == Xor(k, 0x5c)
    {
      ghost var was := key[..];
      for i := 0 to BLOCK
        invariant forall j :: 0 <= j < i ==> key[j] == k[j] ^ 0x5c
        invariant forall j :: i <= j < BLOCK ==> key[j] == was[j]
      {
        Flip(k[i]);
        key[i] := key[i] ^ (0x36 ^ 0x5c);
      }
    }

    /** hmac_sha256_finalize */
    method Finalize(message: seq<Byte>, ghost text: seq<Byte>)
      requires Absorbed(text) && |message| < 0x8000_0000
      modifies digest, key, sha, sha.hash, sha.buffer, sha.state, sha.length
      ensures Shape() && digest[..] == HmacSha256(old(secret), text + message)
    {
      hide Context.Valid, Xor, Sha256, BlockKey;
      ghost var inner := key[..];
      sha.Finalize(message);
      assert inner + text + message == inner + (text + message);
      CopyDigest();
      FlipKey(BlockKey(secret));
      sha.Initialize();
      sha.Update(key[..]);
      assert [] + key[..] == key[..];
      sha.Finalize(digest[..]);
      CopyDigest();
    }

    method CopyDigest()
      requires Shape()
      modifies digest
      ensures digest[..] == sha.hash[..]
    {
      for i := 0 to 32
        invariant forall k :: 0 <= k < i ==> digest[k] == sha.hash[k]
      {
        digest[i] := sha.hash[i];
      }
    }
  }

  lemma Flip(k: Byte)
    ensures (k ^ 0x36) ^ (0x36 ^ 0x5c) == k ^ 0x5c
  {
  }

  /** sha_256: despite its name, the keyed hash of RFC 2104 for every key and message. */
  method KeyedDigest(message: seq<Byte>, key: seq<Byte>) returns (digest: seq<Byte>)
    requires |message| < 0x8000_0000 && |key| < 0x8000_0000
    ensures digest == HmacSha256(key, message)
  {
    var hmac := new HmacContext();
    hmac.Initialize(key);
    hmac.Finalize(message, []);
    assert [] + message == message;
    digest := hmac.digest[..];
  }
}
