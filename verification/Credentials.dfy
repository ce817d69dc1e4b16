/** Solr's stored credential strings: parsing with a lazily filled cache, and checking a
    candidate password. The cached salt is a Go slice whose backing buffer may be larger
    than the slice, and `append` writes into that spare room. */
module Credentials {
  import opened GoValues
  import Base64

  /** SHA-256 is left uninterpreted: every claim holds for every digest function. */
  type Digest = seq<Byte> -> seq<Byte>

  function Twice(digest: Digest, s: seq<Byte>): seq<Byte> {
    digest(digest(s))
  }

  /** The string Solr keeps for a password: the salted double digest, a space, the salt. */
  function Print(digest: Digest, salt: seq<Byte>, password: GoString): GoString {
    Base64.Encode(Twice(digest, salt + password)) + [SPACE] + Base64.Encode(salt)
  }

  datatype Parsed = Parsed(hash: seq<Byte>, salt: seq<Byte>)

  /** Parsing without a cache: two parts separated by one space, both base64. */
  function Parse(raw: GoString): (r: Result<Parsed>)
  {
    var parts := Split(raw, SPACE);
    if |parts| != 2 then Error
    else
      var hash, salt := Base64.Decode(parts[0]), Base64.Decode(parts[1]);
      if hash.None? || salt.None? then Error else Ok(Parsed(hash.value, salt.value))
  }

  /** Checking without a cache. */
  function Check(digest: Digest, raw: GoString, candidate: GoString): Result<bool>
  {
    match Parse(raw)
    case Error => Error
    case Ok(p) => Ok(p.hash == Twice(digest, p.salt + candidate))
  }

  lemma PrintParses(digest: Digest, salt: seq<Byte>, password: GoString)
    ensures Split(Print(digest, salt, password), SPACE)
         == [Base64.Encode(Twice(digest, salt + password)), Base64.Encode(salt)]
    ensures Parse(Print(digest, salt, password)) == Ok(Parsed(Twice(digest, salt + password), salt))
  {
    var hash := Twice(digest, salt + password);
    SplitJoined(Base64.Encode(hash), Base64.Encode(salt), SPACE);
    Base64.RoundTrip(hash);
    Base64.RoundTrip(salt);
  }

  /** A printed credential accepts a candidate exactly when the salted double digests agree;
      in particular it accepts the password it was printed from. */
  lemma PrintedChecks(digest: Digest, salt: seq<Byte>, password: GoString, candidate: GoString)
    ensures Check(digest, Print(digest, salt, password), candidate)
         == Ok(Twice(digest, salt + password) == Twice(digest, salt + candidate))
    ensures Check(digest, Print(digest, salt, password), password) == Ok(true)
  {
    PrintParses(digest, salt, password);
  }

  /** Written out: an entry that holds the twice applied digest of salt and password accepts a
      candidate if and only if its twice applied digest with that salt is the same. */
  lemma OrdinaryEntryChecks(digest: Digest, salt: seq<Byte>, password: GoString, candidate: GoString)
    ensures var entry := Base64.Encode(digest(digest(salt + password))) + Ascii(" ") + Base64.Encode(salt);
            && Print(digest, salt, password) == entry
            && Check(digest, entry, candidate)
               == Ok(digest(digest(salt + candidate)) == digest(digest(salt + password)))
  {
    var hash := digest(digest(salt + password));
    assert Ascii(" ") == [SPACE];
    SplitJoined(Base64.Encode(hash), Base64.Encode(salt), SPACE);
    Base64.RoundTrip(hash);
    Base64.RoundTrip(salt);
  }

  /** Exactly the entries with one space between two readable halves can be checked. */
  lemma ReadableIff(digest: Digest, raw: GoString, candidate: GoString)
    ensures Check(digest, raw, candidate).Ok? ==> multiset(raw)[SPACE] == 1
    ensures forall hash, salt :: SPACE !in hash && SPACE !in salt && raw == hash + [SPACE] + salt ==>
              (Check(digest, raw, candidate).Ok? <==> Base64.Decode(hash).Some? && Base64.Decode(salt).Some?)
  {
    SplitCount(raw, SPACE);
    forall hash, salt | SPACE !in hash && SPACE !in salt && raw == hash + [SPACE] + salt
      ensures Split(raw, SPACE) == [hash, salt]
    {
      SplitJoined(hash, salt, SPACE);
    }
  }

  // ---------------------------------------------------------------- the lazy cache

  /** A slice of length `len` at the front of a buffer. */
  datatype Slice = Slice(buffer: seq<Byte>, len: nat)

  /** The fields `ensureSplit` fills; a nil salt is `None`. */
  datatype Cache = Cache(rawHash: GoString, rawSalt: GoString, hash: seq<Byte>, salt: Option<Slice>) {
    predicate Valid() {
      salt.Some? ==> salt.value.len <= |salt.value.buffer|
    }

    /** What the cache holds agrees with the raw string it was filled from. */
    predicate Agrees(raw: GoString) {
      Valid() && (salt.Some? ==> Parse(raw) == Ok(Parsed(hash, salt.value.buffer[..salt.value.len])))
    }
  }

  const EMPTY_CACHE := Cache([], [], [], None)

  function Padded(s: seq<Byte>, size: nat): (r: seq<Byte>)
    requires |s| <= size
    ensures |r| == size
  {
    s + seq(size - |s|, _ => 0)
  }

  /** The cache after `ensureSplit`, and whether it succeeded. */
  function Refill(raw: GoString, cache: Cache): (Cache, bool)
  {
    if cache.salt.Some? then (cache, true)
    else
      var parts := Split(raw, SPACE);
      if |parts| != 2 then (cache, false)
      else
        var named := cache.(rawHash := parts[0], rawSalt := parts[1]);
        match Base64.Decode(parts[0])
        case None => (named, false)
        case Some(hash) =>
          match Base64.Decode(parts[1])
          case None => (named.(hash := hash), false)
          case Some(salt) =>
            var buffer := Padded(salt, Base64.DecodedLen(|parts[1]|));
            (named.(hash := hash, salt := Some(Slice(buffer, |salt|))), true)
  }

  /** The buffer after `append(slice, extra...)`: overwritten in place when it has room. */
  function Appended(s: Slice, extra: GoString): seq<Byte>
    requires s.len <= |s.buffer|
  {
    var n := s.len + |extra|;
    if n <= |s.buffer| then s.buffer[..s.len] + extra + s.buffer[n..] else s.buffer
  }

  /** The cache after `checkPassword`, and its answer. */
  function CachedCheck(digest: Digest, raw: GoString, cache: Cache, candidate: GoString): (Cache, Result<bool>)
    requires cache.Valid()
  {
    var (filled, ok) := Refill(raw, cache);
    if !ok then (filled, Error)
    else
      var s := filled.salt.value;
      (filled.(salt := Some(s.(buffer := Appended(s, candidate)))),
       Ok(filled.hash == Twice(digest, s.buffer[..s.len] + candidate)))
  }

  /** One cached check answers what the stateless check answers, and leaves the cache in
      agreement with the raw string even though the spare room behind the salt changed. */
  lemma CachedCheckIsCheck(digest: Digest, raw: GoString, cache: Cache, candidate: GoString)
    requires cache.Agrees(raw)
    ensures CachedCheck(digest, raw, cache, candidate).1 == Check(digest, raw, candidate)
    ensures CachedCheck(digest, raw, cache, candidate).0.Agrees(raw)
  {
    var (filled, ok) := Refill(raw, cache);
    if ok {
      var s := filled.salt.value;
      if cache.salt.None? {
        assert s.buffer[..s.len] == Base64.Decode(Split(raw, SPACE)[1]).value;
      }
      assert Appended(s, candidate)[..s.len] == s.buffer[..s.len];
    }
  }

  /** A filled cache is not filled again. What filling an empty one leaves behind, also half way: both halves are
      kept once there are two, and the hash once it is read, even if the salt cannot be. */
  lemma RefilledFields(hash: GoString, salt: GoString)
    requires SPACE !in hash && SPACE !in salt
    ensures forall cache: Cache :: cache.salt.Some? ==> Refill(hash + [SPACE] + salt, cache) == (cache, true)
    ensures var (cache, ok) := Refill(hash + [SPACE] + salt, EMPTY_CACHE);
            && cache.rawHash == hash && cache.rawSalt == salt
            && (Base64.Decode(hash).Some? ==> cache.hash == Base64.Decode(hash).value)
            && (ok <==> Base64.Decode(hash).Some? && Base64.Decode(salt).Some?) && (ok <==> cache.salt.Some?)
  {
    SplitJoined(hash, salt, SPACE);
  }

  /** The answers of a sequence of checks on one cache. */
  function CachedChecks(digest: Digest, raw: GoString, cache: Cache, candidates: seq<GoString>): (r: seq<Result<bool>>)
    requires cache.Agrees(raw)
    ensures |r| == |candidates|
    decreases |candidates|
  {
    if candidates == [] then []
    else
      CachedCheckIsCheck(digest, raw, cache, candidates[0]);
      var (next, answer) := CachedCheck(digest, raw, cache, candidates[0]);
      [answer] + CachedChecks(digest, raw, next, candidates[1..])
  }

  /** Any sequence of checks on one credential answers each candidate as if parsed afresh. */
  lemma {:induction false} CachedChecksAreChecks(digest: Digest, raw: GoString, cache: Cache,
                                                 candidates: seq<GoString>, i: nat)
    requires cache.Agrees(raw)
    requires i < |candidates|
    ensures CachedChecks(digest, raw, cache, candidates)[i] == Check(digest, raw, candidates[i])
    decreases |candidates|
  {
    CachedCheckIsCheck(digest, raw, cache, candidates[0]);
    if i > 0 {
      var next := CachedCheck(digest, raw, cache, candidates[0]).0;
      CachedChecksAreChecks(digest, raw, next, candidates[1..], i - 1);
    }
  }

  /** Go's `append` of bytes: in place when the buffer has room, into a new buffer otherwise. */
  method Append(buffer: array<Byte>, len: nat, extra: GoString) returns (combined: array<Byte>)
    requires len <= buffer.Length
    modifies buffer
    ensures len + |extra| <= combined.Length
    ensures combined[..len + |extra|] == old(buffer[..len]) + extra
    ensures buffer[..] == Appended(Slice(old(buffer[..]), len), extra)
    ensures if len + |extra| <= buffer.Length then combined == buffer else fresh(combined)
  {
    combined := buffer;
    var n := len + |extra|;
    if n > buffer.Length {
      combined := new Byte[n](_ => 0);
      forall i | 0 <= i < len {
        combined[i] := buffer[i];
      }
    }
    forall i | len <= i < n {
      combined[i] := extra[i - len];
    }
    assert combined[..n] == old(buffer[..len]) + extra;
    assert n <= buffer.Length ==> buffer[..] == old(buffer[..len]) + extra + old(buffer[n..]);
  }

  class CredInfo {
    const rawCreds: GoString
    var rawHash: GoString
    var rawSalt: GoString
    var hash: seq<Byte>
    var saltBuffer: array?<Byte>
    var saltLen: nat

    ghost predicate Valid()
      reads this, saltBuffer
    {
      View().Agrees(rawCreds)
    }

    ghost function View(): Cache
      reads this, saltBuffer
    {
      Cache(rawHash, rawSalt, hash,
            if saltBuffer == null then None else Some(Slice(saltBuffer[..], saltLen)))
    }

    constructor (raw: GoString)
      ensures Valid() && rawCreds == raw && View() == EMPTY_CACHE && saltBuffer == null
    {
      rawCreds := raw;
      rawHash, rawSalt, hash, saltBuffer, saltLen := [], [], [], null, 0;
    }

    method EnsureSplit() returns (ok: bool)
      requires Valid()
      modifies this
      ensures Valid()
      ensures (View(), ok) == Refill(rawCreds, old(View()))
      ensures ok ==> saltBuffer != null
      ensures saltBuffer != null && saltBuffer != old(saltBuffer) ==> fresh(saltBuffer)
    {
      if saltBuffer != null {
        return true;
      }
      var parts := Split(rawCreds, SPACE);
      if |parts| != 2 {
        return false;
      }
      rawHash, rawSalt := parts[0], parts[1];
      var decodedHash := Base64.Decode(rawHash);
      if decodedHash.None? {
        return false;
      }
      hash := decodedHash.value;
      var decodedSalt := Base64.Decode(rawSalt);
      if decodedSalt.None? {
        return false;
      }
      var content := Padded(decodedSalt.value, Base64.DecodedLen(|rawSalt|));
      var buffer := new Byte[|content|](i requires 0 <= i < |content| => content[i]);
      assert buffer[..] == content;
      assert content[..|decodedSalt.value|] == decodedSalt.value;
      saltBuffer, saltLen := buffer, |decodedSalt.value|;
      return true;
    }

    /** However often it is called, the answer is the stateless one. */
    method CheckPassword(digest: Digest, candidate: GoString) returns (answer: Result<bool>)
      requires Valid()
      modifies this, saltBuffer
      ensures Valid()
      ensures (View(), answer) == CachedCheck(digest, rawCreds, old(View()), candidate)
      ensures answer == Check(digest, rawCreds, candidate)
      ensures saltBuffer != null && saltBuffer != old(saltBuffer) ==> fresh(saltBuffer)
    {
      hide Split, Parse, Refill, Check, Base64.Decode;
      CachedCheckIsCheck(digest, rawCreds, View(), candidate);
      var ok := EnsureSplit();
      if !ok {
        return Error;
      }
      var combined := Append(saltBuffer, saltLen, candidate);
      var round1 := digest(combined[..saltLen + |candidate|]);
      return Ok(hash == digest(round1));
    }
  }
}
