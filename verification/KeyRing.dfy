/** packages/golib/crypto/rotation.go: versioned keys, a one-byte version tag, and decryption that falls
    back on every key. AES-GCM and base64 are functions given by their laws. */
module KeyRing {
  import opened GoInts
  import opened Wrappers

  type Key = seq<byte>

  /** seal's output carries its nonce; open takes it apart again. */
  datatype Crypto = Crypto(
    seal: (Key, seq<byte>, string) -> seq<byte>,
    open: (Key, seq<byte>) -> Option<string>,
    encode: seq<byte> -> string,
    decode: string -> Option<seq<byte>>)

  /** An ideal AEAD: only the sealing key opens, and it opens to what was sealed. */
  ghost predicate Ideal(c: Crypto) {
    && (forall k, n, p :: c.open(k, c.seal(k, n, p)) == Some(p) && |c.seal(k, n, p)| >= 28)
    && (forall k, k', n, p | k' != k :: c.open(k', c.seal(k, n, p)) == None)
    && (forall b :: c.decode(c.encode(b)) == Some(b))
  }

  datatype KeyVersion = KeyVersion(version: nat, key: Key, active: bool)

  datatype Error = BadKeyLength | NoActiveKey | BadEncoding | TooShort | AllKeysFailed | NoKeys

  /** Versions are 1..n in order, and exactly the newest key is active. */
  predicate WellKept(keys: seq<KeyVersion>) {
    && keys != []
    && (forall i | 0 <= i < |keys| :: keys[i].version == i + 1 && (keys[i].active <==> i == |keys| - 1))
  }

  function Deactivated(keys: seq<KeyVersion>): seq<KeyVersion> {
    seq(|keys|, i requires 0 <= i < |keys| => keys[i].(active := false))
  }

  function Rotated(keys: seq<KeyVersion>, key: Key): seq<KeyVersion>
    requires keys != []
  {
    Deactivated(keys) + [KeyVersion(keys[|keys| - 1].version + 1, key, true)]
  }

  function Rotations(keys: seq<KeyVersion>, added: seq<Key>): (r: seq<KeyVersion>)
    requires keys != []
    ensures r != []
  {
    if added == [] then keys else Rotated(Rotations(keys, added[..|added| - 1]), added[|added| - 1])
  }

  /** The key Encrypt uses: the first active one. */
  function Active(keys: seq<KeyVersion>): Option<KeyVersion> {
    if keys == [] then None else if keys[0].active then Some(keys[0]) else Active(keys[1..])
  }

  lemma {:induction false} ActiveIs(keys: seq<KeyVersion>, i: nat)
    requires i < |keys| && keys[i].active && forall j | 0 <= j < i :: !keys[j].active
    ensures Active(keys) == Some(keys[i])
  {
    if i > 0 {
      ActiveIs(keys[1..], i - 1);
    }
  }

  lemma {:induction false} NoneActive(keys: seq<KeyVersion>)
    requires forall j | 0 <= j < |keys| :: !keys[j].active
    ensures Active(keys) == None
  {
    if keys != [] {
      NoneActive(keys[1..]);
    }
  }

  /** In a well-kept ring that is the newest. */
  lemma ActiveIsNewest(keys: seq<KeyVersion>)
    requires WellKept(keys)
    ensures Active(keys) == Some(keys[|keys| - 1])
  {
    ActiveIs(keys, |keys| - 1);
  }

  /** What Encrypt puts out under one key version. */
  function Ciphertext(c: Crypto, k: KeyVersion, nonce: seq<byte>, plaintext: string): string {
    c.encode([k.version % 256] + c.seal(k.key, nonce, plaintext))
  }

  /** Decrypt's order of trial: each match goes to the front, every other key to the back. */
  function TrialOrder(keys: seq<KeyVersion>, version: int): seq<KeyVersion> {
    if keys == [] then [] else
    var before, k := TrialOrder(keys[..|keys| - 1], version), keys[|keys| - 1];
    if k.version == version then [k] + before else before + [k]
  }

  function TryAll(c: Crypto, keys: seq<KeyVersion>, data: seq<byte>): Option<string> {
    if keys == [] then None
    else if c.open(keys[0].key, data).Some? then c.open(keys[0].key, data)
    else TryAll(c, keys[1..], data)
  }

  function Decrypted(c: Crypto, keys: seq<KeyVersion>, text: string): Result<string, Error> {
    var data := c.decode(text);
    if data.None? then Err(BadEncoding)
    else if |data.value| < 2 then Err(TooShort)
    else
      var r := TryAll(c, TrialOrder(keys, data.value[0]), data.value[1..]);
      if r.Some? then Ok(r.value) else if keys == [] then Err(NoKeys) else Err(AllKeysFailed)
  }

  lemma RotatedWellKept(keys: seq<KeyVersion>, key: Key)
    requires WellKept(keys)
    ensures WellKept(Rotated(keys, key))
  {
  }

  /** After any rotations versions are 1..n, the newest key alone is active, and no key bytes are lost. */
  lemma {:induction false} RotationsKeep(keys: seq<KeyVersion>, added: seq<Key>)
    requires WellKept(keys)
    ensures var r := Rotations(keys, added);
            && WellKept(r) && |r| == |keys| + |added|
            && (forall i | 0 <= i < |keys| :: r[i].key == keys[i].key && r[i].version == keys[i].version)
            && (forall i | 0 <= i < |added| :: r[|keys| + i].key == added[i])
  {
    if added != [] {
      RotationsKeep(keys, added[..|added| - 1]);
    }
  }

  lemma {:induction false} TrialOrderMembers(keys: seq<KeyVersion>, version: int)
    ensures |TrialOrder(keys, version)| == |keys|
    ensures forall k :: k in TrialOrder(keys, version) <==> k in keys
  {
    if keys != [] {
      TrialOrderMembers(keys[..|keys| - 1], version);
      assert keys == keys[..|keys| - 1] + [keys[|keys| - 1]];
      assert forall k :: k in keys <==> k in keys[..|keys| - 1] || k == keys[|keys| - 1];
    }
  }

  lemma {:induction false} TryAllFinds(c: Crypto, keys: seq<KeyVersion>, key: Key, nonce: seq<byte>, plaintext: string)
    requires Ideal(c)
    ensures TryAll(c, keys, c.seal(key, nonce, plaintext)) ==
            if exists k :: k in keys && k.key == key then Some(plaintext) else None
  {
    if keys != [] {
      TryAllFinds(c, keys[1..], key, nonce, plaintext);
      assert forall k :: k in keys <==> k == keys[0] || k in keys[1..];
      assert keys[0].key != key ==> c.open(keys[0].key, c.seal(key, nonce, plaintext)) == None;
    }
  }

  /** A ring decrypts a ciphertext to its plaintext exactly when it holds the key it was made with,
      whatever its version byte says. */
  lemma DecryptsOwnKeys(c: Crypto, keys: seq<KeyVersion>, k: KeyVersion, nonce: seq<byte>, plaintext: string)
    requires Ideal(c)
    ensures Decrypted(c, keys, Ciphertext(c, k, nonce, plaintext)) == Ok(plaintext) <==> exists m :: m in keys && m.key == k.key
    ensures Decrypted(c, keys, Ciphertext(c, k, nonce, plaintext)).Ok? ==>
              Decrypted(c, keys, Ciphertext(c, k, nonce, plaintext)) == Ok(plaintext)
  {
    var body := c.seal(k.key, nonce, plaintext);
    var data := [k.version % 256] + body;
    assert c.decode(c.encode(data)) == Some(data);
    assert data[1..] == body && |body| >= 28;
    var order := TrialOrder(keys, data[0]);
    TrialOrderMembers(keys, data[0]);
    TryAllFinds(c, order, k.key, nonce, plaintext);
    assert (exists m :: m in order && m.key == k.key) <==> (exists m :: m in keys && m.key == k.key);
  }

  /** Whatever was encrypted with the active key of a ring still decrypts to its plaintext after any
      number of rotations, past version 255 included. */
  lemma OldCiphertextsSurvive(c: Crypto, keys: seq<KeyVersion>, added: seq<Key>, nonce: seq<byte>, plaintext: string)
    requires Ideal(c) && WellKept(keys)
    ensures Active(keys).Some?
    ensures Decrypted(c, Rotations(keys, added), Ciphertext(c, Active(keys).value, nonce, plaintext)) == Ok(plaintext)
  {
    ActiveIsNewest(keys);
    var r, k := Rotations(keys, added), keys[|keys| - 1];
    RotationsKeep(keys, added);
    assert r[|keys| - 1] in r && r[|keys| - 1].key == k.key;
    DecryptsOwnKeys(c, r, k, nonce, plaintext);
  }

  lemma {:induction false} TryAllExactly(c: Crypto, keys: seq<KeyVersion>, data: seq<byte>)
    ensures TryAll(c, keys, data).Some? <==> exists k :: k in keys && c.open(k.key, data).Some?
    ensures TryAll(c, keys, data).Some? ==> exists k :: k in keys && c.open(k.key, data) == TryAll(c, keys, data)
  {
    if keys != [] {
      TryAllExactly(c, keys[1..], data);
      assert forall k :: k in keys <==> k == keys[0] || k in keys[1..];
    }
  }

  /** Any text at all decrypts exactly when it is encoded, has more than a tag, and some key opens it; and
      otherwise the error says which of these failed. */
  lemma DecryptsExactly(c: Crypto, keys: seq<KeyVersion>, text: string)
    ensures var data, r := c.decode(text), Decrypted(c, keys, text);
            && (r == Err(BadEncoding) <==> data == None)
            && (r == Err(TooShort) <==> data.Some? && |data.value| <= 1)
            && (r.Ok? <==> data.Some? && |data.value| > 1 && exists k :: k in keys && c.open(k.key, data.value[1..]).Some?)
            && (r == Err(NoKeys) <==> data.Some? && |data.value| > 1 && keys == [])
            && (r.Ok? ==> exists k :: k in keys && c.open(k.key, data.value[1..]) == Some(r.value))
  {
    var data := c.decode(text);
    if data.Some? && |data.value| > 1 {
      TrialOrderMembers(keys, data.value[0]);
      TryAllExactly(c, TrialOrder(keys, data.value[0]), data.value[1..]);
    }
  }

  lemma {:induction false} FirstTried(keys: seq<KeyVersion>, version: int)
    requires keys != [] && forall i | 0 <= i < |keys| :: keys[i].version == i + 1
    ensures TrialOrder(keys, version) != []
    ensures TrialOrder(keys, version)[0] == if 1 <= version <= |keys| then keys[version - 1] else keys[0]
  {
    if |keys| > 1 {
      FirstTried(keys[..|keys| - 1], version);
    } else {
      assert keys[..0] == [] && TrialOrder([], version) == [];
    }
  }

  /** The version byte leads straight to the right key exactly for the first 255 versions. */
  lemma RightKeyFirst(keys: seq<KeyVersion>, i: nat)
    requires WellKept(keys) && i < |keys|
    ensures TrialOrder(keys, keys[i].version % 256) != []
    ensures TrialOrder(keys, keys[i].version % 256)[0] == keys[i] <==> keys[i].version < 256
  {
    hide TrialOrder;
    var v, tag := keys[i].version, keys[i].version % 256;
    FirstTried(keys, tag);
    if v < 256 {
      assert tag == v;
    } else {
      assert tag < v;
    }
  }

  /** So a ciphertext is tried first with the key it was made with, among any number of later ones, exactly
      when that key's version is below 256: its first byte is then the version. */
  lemma OwnKeyTriedFirst(c: Crypto, keys: seq<KeyVersion>, added: seq<Key>, nonce: seq<byte>, plaintext: string)
    requires Ideal(c) && WellKept(keys)
    ensures Active(keys).Some? && Rotations(keys, added) != []
    ensures var k, r := Active(keys).value, Rotations(keys, added);
            var data := c.decode(Ciphertext(c, k, nonce, plaintext));
            && data.Some? && data.value != [] && (k.version < 256 ==> data.value[0] == k.version)
            && var order := TrialOrder(r, data.value[0]);
            order != [] && ((order[0].version == k.version && order[0].key == k.key) <==> k.version < 256)
  {
    hide TrialOrder, Rotations, Active;
    ActiveIsNewest(keys);
    RotationsKeep(keys, added);
    var k := keys[|keys| - 1];
    var data := [k.version % 256] + c.seal(k.key, nonce, plaintext);
    assert c.decode(c.encode(data)) == Some(data) && data[0] == k.version % 256;
    FirstTried(Rotations(keys, added), k.version % 256);
  }

  class Ring {
    var keys: seq<KeyVersion>

    constructor (key: Key)
      requires |key| == 32
      ensures keys == [KeyVersion(1, key, true)] && WellKept(keys)
    {
      keys := [KeyVersion(1, key, true)];
    }

    static method NewKeyRing(initialKey: Key) returns (r: Result<Ring, Error>)
      ensures r.Ok? <==> |initialKey| == 32
      ensures r.Err? ==> r.error == BadKeyLength
      ensures r.Ok? ==> fresh(r.value) && r.value.keys == [KeyVersion(1, initialKey, true)] && WellKept(r.value.keys)
    {
      if |initialKey| != 32 {
        return Err(BadKeyLength);
      }
      var ring := new Ring(initialKey);
      return Ok(ring);
    }

    method Rotate(newKey: Key) returns (err: Option<Error>)
      requires WellKept(keys)
      modifies this
      ensures WellKept(keys)
      ensures err == if |newKey| != 32 then Some(BadKeyLength) else None
      ensures keys == if |newKey| != 32 then old(keys) else Rotated(old(keys), newKey)
    {
      if |newKey| != 32 {
        return Some(BadKeyLength);
      }
      RotatedWellKept(keys, newKey);
      ghost var before := keys;
      for i := 0 to |keys|
        invariant |keys| == |before|
        invariant forall j | 0 <= j < |keys| :: keys[j] == if j < i then before[j].(active := false) else before[j]
      {
        keys := keys[i := keys[i].(active := false)];
      }
      var nextVersion := keys[|keys| - 1].version + 1;
      assert keys == Deactivated(before);
      keys := keys + [KeyVersion(nextVersion, newKey, true)];
      return None;
    }

    method Encrypt(c: Crypto, plaintext: string, nonce: seq<byte>) returns (r: Result<string, Error>)
      ensures r == match Active(keys)
                   case None => Err(NoActiveKey)
                   case Some(k) => Ok(Ciphertext(c, k, nonce, plaintext))
    {
      for i := 0 to |keys|
        invariant forall j | 0 <= j < i :: !keys[j].active
      {
        if keys[i].active {
          var k := keys[i];
          ActiveIs(keys, i);
          return Ok(c.encode([k.version % 256] + c.seal(k.key, nonce, plaintext)));
        }
      }
      NoneActive(keys);
      return Err(NoActiveKey);
    }

    method Decrypt(c: Crypto, ciphertext: string) returns (r: Result<string, Error>)
      ensures r == Decrypted(c, keys, ciphertext)
    {
      var data := c.decode(ciphertext);
      if data.None? {
        return Err(BadEncoding);
      }
      if |data.value| < 2 {
        return Err(TooShort);
      }
      var version, body := data.value[0], data.value[1..];
      var ordered := [];
      for i := 0 to |keys|
        invariant ordered == TrialOrder(keys[..i], version)
      {
        assert keys[..i + 1][..i] == keys[..i];
        if keys[i].version == version {
          ordered := [keys[i]] + ordered;
        } else {
          ordered := ordered + [keys[i]];
        }
      }
      assert keys[..|keys|] == keys;
      for i := 0 to |ordered|
        invariant TryAll(c, ordered[i..], body) == TryAll(c, ordered, body)
      {
        assert ordered[i..][1..] == ordered[i + 1..];
        var plain := c.open(ordered[i].key, body);
        if plain.Some? {
          return Ok(plain.value);
        }
      }
      TrialOrderMembers(keys, version);
      if |ordered| > 0 {
        return Err(AllKeysFailed);
      }
      return Err(NoKeys);
    }

    method ActiveVersion() returns (version: nat)
      ensures version == match Active(keys) case None => 0 case Some(k) => k.version
    {
      for i := 0 to |keys|
        invariant forall j | 0 <= j < i :: !keys[j].active
      {
        if keys[i].active {
          ActiveIs(keys, i);
          return keys[i].version;
        }
      }
      NoneActive(keys);
      return 0;
    }
  }
}
