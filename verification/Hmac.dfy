/** Incremental HMAC-SHA1, and section 2 of RFC 2104. */
module Hmac {
  import Basics
  import opened Words
  import opened BlockHash
  import Sha1

  const BLOCK_LENGTH: nat := 64

  /** The key, hashed first if it is longer than a block, with zeros appended. */
  function BlockKey(key: seq<Byte>): (k: seq<Byte>)
    ensures |k| == BLOCK_LENGTH
  {
    if |key| <= BLOCK_LENGTH then key + Zeros(BLOCK_LENGTH - |key|)
    else Sha1.Hash(key) + Zeros(BLOCK_LENGTH - Sha1.DIGEST_LENGTH)
  }

  function Pad(key: seq<Byte>, filler: Byte): (p: seq<Byte>)
    ensures |p| == BLOCK_LENGTH
  {
    seq(BLOCK_LENGTH, i requires 0 <= i < BLOCK_LENGTH => BlockKey(key)[i] ^ filler)
  }

  function Filled(filler: Byte): seq<Byte> {
    seq(BLOCK_LENGTH, _ => filler)
  }

  /** H(K XOR opad, H(K XOR ipad, text)). */
  function Mac(key: seq<Byte>, text: seq<Byte>): (d: seq<Byte>)
    ensures |d| == Sha1.DIGEST_LENGTH
  {
    Sha1.Hash(Pad(key, 0x5c) + Sha1.Hash(Pad(key, 0x36) + text))
  }

  // ----- what the key does to the code

  /** Zeros at the end of a key do not matter as long as it fits a block. */
  lemma ZerosDoNotMatter(key: seq<Byte>, n: nat, text: seq<Byte>)
    requires |key| + n <= 64
    ensures Mac(key + Zeros(n), text) == Mac(key, text)
  {
    hide Sha1.Hash;
    assert BlockKey(key + Zeros(n)) == BlockKey(key);
    assert Pad(key + Zeros(n), 0x36) == Pad(key, 0x36) && Pad(key + Zeros(n), 0x5c) == Pad(key, 0x5c);
  }

  /** A key that is longer than a block stands for its hash, and no other key does. */
  lemma LongKeyIsHashed(key: seq<Byte>, text: seq<Byte>)
    ensures |key| > 64 ==> Mac(key, text) == Mac(Sha1.Hash(key), text)
    ensures |key| == 64 ==> BlockKey(key) == key
  {
    hide Sha1.Hash;
    if |key| > 64 {
      assert BlockKey(Sha1.Hash(key)) == BlockKey(key);
      assert Pad(Sha1.Hash(key), 0x36) == Pad(key, 0x36) && Pad(Sha1.Hash(key), 0x5c) == Pad(key, 0x5c);
    }
  }

  /** The code of the empty key has the two filler bytes of RFC 2104 themselves in front. */
  lemma EmptyKey(text: seq<Byte>)
    ensures Mac([], text) == Sha1.Hash(seq(64, _ => 0x5c) + Sha1.Hash(seq(64, _ => 0x36) + text))
  {
    hide Sha1.Hash;
    EmptyPad(0x36);
    EmptyPad(0x5c);
  }

  lemma EmptyPad(filler: Byte)
    ensures Pad([], filler) == seq(64, _ => filler)
  {
    assert forall i :: 0 <= i < 64 ==> BlockKey([])[i] == 0;
    assert 0 ^ filler == filler;
    assert forall i :: 0 <= i < 64 ==> Pad([], filler)[i] == filler;
  }

  class Context {
    const ipad: array<Byte>
    const opad: array<Byte>
    const key: array<Byte>
    const shactx: Sha1.Context
    var keylen: nat
    var hashkey: bool
    ghost var secret: seq<Byte>  // the key bytes given so far
    ghost var text: seq<Byte>    // the message bytes given so far

    ghost predicate Shape()
      reads this, shactx
    {
      && ipad.Length == BLOCK_LENGTH && opad.Length == BLOCK_LENGTH && key.Length == BLOCK_LENGTH
      && ipad != opad && ipad != key && opad != key
      && shactx.Shape() && shactx.buffer != ipad && shactx.buffer != opad && shactx.buffer != key
      && (shactx.state as object) != ipad && (shactx.state as object) != opad && (shactx.state as object) != key
    }

    /** While the key is given: it is in the key buffer, or being hashed. */
    ghost predicate TakingKey()
      reads this, ipad, opad, key, shactx, shactx.state, shactx.buffer
    {
      && Shape()
      && ipad[..] == Filled(0x36) && opad[..] == Filled(0x5c)
      && if hashkey then
           |secret| > BLOCK_LENGTH && keylen == Sha1.DIGEST_LENGTH && shactx.Valid() && shactx.msg == secret
         else
           |secret| == keylen <= BLOCK_LENGTH && key[..keylen] == secret
    }

    /** Once the key is complete. */
    ghost predicate Keyed()
      reads this, ipad, opad, shactx
    {
      Shape() && ipad[..] == Pad(secret, 0x36) && opad[..] == Pad(secret, 0x5c)
    }

    /** While the message is given. */
    ghost predicate TakingText()
      reads this, ipad, opad, shactx, shactx.state, shactx.buffer
    {
      Keyed() && shactx.Valid() && shactx.msg == Pad(secret, 0x36) + text
    }

    constructor (k: seq<Byte>)
      requires |k| <= Sha1.STAGING_LENGTH
      ensures TakingText() && secret == k && text == []
    {
      ipad := new Byte[BLOCK_LENGTH];
      opad := new Byte[BLOCK_LENGTH];
      key := new Byte[BLOCK_LENGTH];
      shactx := new Sha1.Context();
      new;
      Init();
      UpdateKey(k);
      assert secret == k;
      EndKey();
      StartMessage();
    }

    method Init()
      requires Shape()
      modifies this, ipad, opad, key
      ensures TakingKey() && secret == []
    {
      forall i | 0 <= i < BLOCK_LENGTH {
        key[i] := 0;
      }
      forall i | 0 <= i < BLOCK_LENGTH {
        ipad[i] := 0x36;
      }
      forall i | 0 <= i < BLOCK_LENGTH {
        opad[i] := 0x5c;
      }
      keylen, hashkey := 0, false;
      secret := [];
    }

    /** Append bytes to the key; it is hashed from where it outgrows a block. */
    method UpdateKey(k: seq<Byte>)
      requires TakingKey() && |k| <= Sha1.STAGING_LENGTH
      modifies this, key, shactx, shactx.state, shactx.buffer
      ensures TakingKey() && secret == old(secret) + k
    {
      hide Streaming;
      if |k| < 1 {
        assert secret + k == secret;
        return;
      }
      if hashkey || |k| + keylen > BLOCK_LENGTH {
        if !hashkey {
          hashkey := true;
          shactx.Init();
          if keylen > 0 {
            shactx.Update(key[..keylen]);
          }
          assert shactx.msg == secret;
          keylen := Sha1.DIGEST_LENGTH;
        }
        shactx.Update(k);
      } else {
        Basics.Copy(key, keylen, k);
        assert key[..keylen + |k|] == key[..keylen] + key[keylen..keylen + |k|];
        keylen := keylen + |k|;
      }
      secret := secret + k;
    }

    /** Finish the key: hash it if it was long, and XOR it into the two pads. */
    method EndKey()
      requires TakingKey()
      modifies this, ipad, opad, key, shactx, shactx.state, shactx.buffer
      ensures Keyed() && secret == old(secret)
    {
      hide Streaming, Sha1.Hash;
      FinishKey();
      ghost var k := BlockKey(secret);
      var i := 0;
      while i < keylen
        invariant i <= keylen <= BLOCK_LENGTH && key[..] == k && Shape() && secret == old(secret)
        invariant forall j :: keylen <= j < BLOCK_LENGTH ==> k[j] == 0
        invariant forall j :: 0 <= j < i ==> ipad[j] == k[j] ^ 0x36 && opad[j] == k[j] ^ 0x5c
        invariant forall j :: i <= j < BLOCK_LENGTH ==> ipad[j] == 0x36 && opad[j] == 0x5c
      {
        ipad[i] := ipad[i] ^ key[i];
        opad[i] := opad[i] ^ key[i];
        i := i + 1;
      }
    }

    /** The key buffer holds the block key. */
    method FinishKey()
      requires TakingKey()
      modifies this, key, shactx, shactx.state, shactx.buffer
      ensures Shape() && key[..] == BlockKey(secret) && secret == old(secret) && keylen <= BLOCK_LENGTH
      ensures forall j :: keylen <= j < BLOCK_LENGTH ==> key[j] == 0
    {
      hide Streaming, Sha1.Hash;
      if hashkey {
        forall i | 0 <= i < BLOCK_LENGTH {
          key[i] := 0;
        }
        shactx.Final(key);
      }
      forall i | keylen <= i < BLOCK_LENGTH {
        key[i] := 0;
      }
      assert key[..] == key[..keylen] + key[keylen..];
      assert key[keylen..] == Zeros(BLOCK_LENGTH - keylen);
    }

    method StartMessage()
      requires Keyed()
      modifies this, shactx, shactx.state, shactx.buffer
      ensures TakingText() && secret == old(secret) && text == []
    {
      hide Streaming, Sha1.Hash, Pad;
      shactx.Init();
      shactx.Update(ipad[..]);
      text := [];
    }

    method UpdateMessage(data: seq<Byte>)
      requires TakingText() && |data| <= Sha1.STAGING_LENGTH
      modifies this, shactx, shactx.state, shactx.buffer
      ensures TakingText() && secret == old(secret) && text == old(text) + data
    {
      hide Streaming, Sha1.Hash, Pad;
      shactx.Update(data);
      text := text + data;
    }

    /** Write the code of key and message. */
    method EndMessage(out: array<Byte>)
      requires TakingText() && out.Length >= Sha1.DIGEST_LENGTH
      requires out != ipad && out != opad && out != shactx.buffer
      modifies shactx, shactx.state, shactx.buffer, out
      ensures out[..Sha1.DIGEST_LENGTH] == Mac(secret, text)
      ensures out[Sha1.DIGEST_LENGTH..] == old(out[Sha1.DIGEST_LENGTH..])
      ensures Shape()
    {
      hide Streaming, Sha1.Hash, Pad;
      var buf := new Byte[Sha1.DIGEST_LENGTH];
      shactx.Final(buf);
      assert buf[..] == buf[..Sha1.DIGEST_LENGTH] == Sha1.Hash(Pad(secret, 0x36) + text);
      shactx.Init();
      shactx.Update(opad[..]);
      shactx.Update(buf[..]);
      assert shactx.msg == Pad(secret, 0x5c) + Sha1.Hash(Pad(secret, 0x36) + text);
      shactx.Final(out);
    }
  }
}
