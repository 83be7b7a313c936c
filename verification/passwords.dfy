/** Password records of the form $scrypt$<salt>$<hash>. The key derivation is a parameter: any
    deterministic function that yields 32 bytes or fails. */
module Passwords {
  import opened Wrappers
  import opened Base64
  import opened Getline

  const HASH_SIZE: nat := 32
  const SALT_SIZE: nat := 16
  const TAG := "$scrypt$"

  type Kdf = (string, seq<Byte>) -> Option<seq<Byte>>

  ghost predicate IsKdf(kdf: Kdf) {
    forall p, s :: kdf(p, s).Some? ==> |kdf(p, s).value| == HASH_SIZE
  }

  /** The comparison reads 32 bytes of the decoded hash; with fewer there is nothing to read. */
  datatype Verdict = Accepted | Rejected | ReadsPastEnd

  function Record(salt: seq<Byte>, hash: seq<Byte>): string {
    TAG + Encode(salt) + "$" + Encode(hash)
  }

  /** The salt is 16 random bytes. */
  method HashPassword(password: string, salt: seq<Byte>, kdf: Kdf) returns (r: Result<string, string>)
    requires IsKdf(kdf) && |salt| == SALT_SIZE
    ensures r.Ok? <==> kdf(password, salt).Some?
    ensures r.Ok? ==> r.value == Record(salt, kdf(password, salt).value)
  {
    var hash := kdf(password, salt);
    if hash.None? {
      return Err("scrypt hashing failed");
    }
    var encodedSalt := Base64Encode(salt);
    var encodedHash := Base64Encode(hash.value);
    return Ok(TAG + encodedSalt.value + "$" + encodedHash.value);
  }

  function Verify(password: string, storedHash: string, kdf: Kdf): Verdict {
    if !(TAG <= storedHash) then Rejected
    else
      var payload := storedHash[|TAG|..];
      var pos := Find(payload, '$');
      if pos == |payload| then Rejected
      else
        var salt, target := Decoded(payload[..pos]), Decoded(payload[pos + 1..]);
        if salt.Err? || target.Err? then Rejected
        else
          var hash := kdf(password, salt.value);
          if hash.None? then Rejected
          else if |target.value| < HASH_SIZE then ReadsPastEnd
          else if target.value[..HASH_SIZE] == hash.value then Accepted
          else Rejected
  }

  /** What VerifyPassword reads out of a stored record. */
  ghost predicate ParsesTo(stored: string, salt: seq<Byte>, hash: seq<Byte>) {
    && TAG <= stored
    && var payload := stored[|TAG|..];
       && Find(payload, '$') < |payload|
       && Decoded(payload[..Find(payload, '$')]) == Ok(salt)
       && Decoded(payload[Find(payload, '$') + 1..]) == Ok(hash)
  }

  /** The verdict in terms of what the record holds: it is accepted when its hash starts with the 32
      bytes derived under its salt, compared past its end when it has fewer than 32. */
  ghost predicate IsVerdict(password: string, stored: string, kdf: Kdf, v: Verdict) {
    && (v == Accepted <==> exists salt, hash :: ParsesTo(stored, salt, hash) && |hash| >= HASH_SIZE && kdf(password, salt) == Some(hash[..HASH_SIZE]))
    && (v == ReadsPastEnd <==> exists salt, hash :: ParsesTo(stored, salt, hash) && |hash| < HASH_SIZE && kdf(password, salt).Some?)
  }

  /** A record holds one salt and one hash at most. */
  lemma ParsesOneWay(stored: string, salt: seq<Byte>, hash: seq<Byte>, salt': seq<Byte>, hash': seq<Byte>)
    requires ParsesTo(stored, salt, hash) && ParsesTo(stored, salt', hash')
    ensures salt == salt' && hash == hash'
  {
  }

  lemma VerdictOfRecord(password: string, stored: string, salt: seq<Byte>, hash: seq<Byte>, kdf: Kdf)
    requires ParsesTo(stored, salt, hash)
    ensures Verify(password, stored, kdf)
            == if kdf(password, salt).None? then Rejected
               else if |hash| < HASH_SIZE then ReadsPastEnd
               else if kdf(password, salt) == Some(hash[..HASH_SIZE]) then Accepted else Rejected
  {
  }

  lemma OnlyRecordsPass(password: string, stored: string, kdf: Kdf)
    requires Verify(password, stored, kdf) != Rejected
    ensures exists salt, hash :: ParsesTo(stored, salt, hash)
  {
    var payload := stored[|TAG|..];
    var pos := Find(payload, '$');
    assert ParsesTo(stored, Decoded(payload[..pos]).value, Decoded(payload[pos + 1..]).value);
  }

  /** The three verdicts, each exactly when. */
  lemma VerdictExactly(password: string, stored: string, kdf: Kdf)
    ensures IsVerdict(password, stored, kdf, Verify(password, stored, kdf))
  {
    if salt, hash :| ParsesTo(stored, salt, hash) {
      VerdictOfRecord(password, stored, salt, hash, kdf);
      forall salt', hash' | ParsesTo(stored, salt', hash') ensures salt' == salt && hash' == hash {
        ParsesOneWay(stored, salt, hash, salt', hash');
      }
    } else if Verify(password, stored, kdf) != Rejected {
      OnlyRecordsPass(password, stored, kdf);
    }
  }

  /** A record without any hash is compared past its end, by every password. */
  lemma EmptyRecordIsOverread(password: string, kdf: Kdf)
    requires kdf(password, []).Some?
    ensures Verify(password, TAG + "$", kdf) == ReadsPastEnd
  {
    TextParses("", "", [], []);
    assert TAG + "" + "$" + "" == TAG + "$";
    VerdictOfRecord(password, TAG + "$", [], [], kdf);
  }

  /** Every record has the same length: a tag of 8 characters, 24 for the salt, a '$' and 44 for the hash. */
  lemma RecordLength(salt: seq<Byte>, hash: seq<Byte>)
    requires |salt| == SALT_SIZE && |hash| == HASH_SIZE
    ensures |Record(salt, hash)| == 8 + 24 + 1 + 44 && "$scrypt$" <= Record(salt, hash)
  {
    assert Record(salt, hash) == TAG + (Encode(salt) + "$" + Encode(hash));
  }

  method VerifyPassword(password: string, storedHash: string, kdf: Kdf) returns (v: Verdict)
    requires IsKdf(kdf)
    ensures IsVerdict(password, storedHash, kdf, v)
    ensures v == Verify(password, storedHash, kdf)
  {
    VerdictExactly(password, storedHash, kdf);
    if !(TAG <= storedHash) {
      return Rejected;
    }
    var payload := storedHash[|TAG|..];
    var pos := Find(payload, '$');
    if pos == |payload| {
      return Rejected;
    }
    var salt := Base64Decode(payload[..pos]);
    if salt.Err? {
      return Rejected;
    }
    var target := Base64Decode(payload[pos + 1..]);
    if target.Err? {
      return Rejected;
    }
    var hash := kdf(password, salt.value);
    if hash.None? {
      return Rejected;
    }
    if |target.value| < HASH_SIZE {
      return ReadsPastEnd;
    }
    v := if target.value[..HASH_SIZE] == hash.value then Accepted else Rejected;
  }

  predicate NeedsRehash(hash: string) {
    !(TAG <= hash)
  }

  lemma SplitAtDollar(s: string, h: string)
    requires '$' !in s
    ensures var payload := s + "$" + h; Find(payload, '$') == |s| && payload[..|s|] == s && payload[|s| + 1..] == h
  {
    var payload := s + "$" + h;
    assert payload[..|s|] == s;
    FindAt(payload, '$', |s|);
  }

  /** The delimiter is found where it was put, because '$' is outside the Base64 alphabet. */
  lemma RecordParses(salt: seq<Byte>, hash: seq<Byte>)
    requires |salt| <= MAX_ENCODABLE && |hash| <= MAX_ENCODABLE
    ensures ParsesTo(Record(salt, hash), salt, hash)
  {
    TextParses(Encode(salt), Encode(hash), salt, hash) by {
      EncodeShape(salt);
      RoundTrip(salt);
      RoundTrip(hash);
    }
  }

  lemma AfterTag(tag: string, rest: string)
    ensures tag <= tag + rest && (tag + rest)[|tag|..] == rest
  {
  }

  lemma TextParses(s: string, h: string, salt: seq<Byte>, hash: seq<Byte>)
    requires '$' !in s && Decoded(s) == Ok(salt) && Decoded(h) == Ok(hash)
    ensures ParsesTo(TAG + s + "$" + h, salt, hash)
  {
    AfterTag(TAG, s + "$" + h);
    assert TAG + s + "$" + h == TAG + (s + "$" + h);
    SplitAtDollar(s, h);
  }

  lemma VerifyRecord(attempt: string, salt: seq<Byte>, hash: seq<Byte>, kdf: Kdf)
    requires |salt| <= MAX_ENCODABLE && |hash| == HASH_SIZE
    ensures Verify(attempt, Record(salt, hash), kdf) == if kdf(attempt, salt) == Some(hash) then Accepted else Rejected
  {
    RecordParses(salt, hash);
    VerifyParsed(attempt, Record(salt, hash), salt, hash, kdf);
  }

  lemma VerifyParsed(attempt: string, stored: string, salt: seq<Byte>, hash: seq<Byte>, kdf: Kdf)
    requires ParsesTo(stored, salt, hash) && |hash| == HASH_SIZE
    ensures Verify(attempt, stored, kdf) == if kdf(attempt, salt) == Some(hash) then Accepted else Rejected
  {
    assert hash[..HASH_SIZE] == hash;
  }

  /** A record accepts exactly the passwords whose hash under its salt is the one it was made of;
      in particular the password it was made from. */
  lemma RecordAcceptsExactly(password: string, attempt: string, salt: seq<Byte>, kdf: Kdf)
    requires IsKdf(kdf) && |salt| == SALT_SIZE && kdf(password, salt).Some?
    ensures Verify(attempt, Record(salt, kdf(password, salt).value), kdf) == Accepted <==> kdf(attempt, salt) == kdf(password, salt)
    ensures Verify(attempt, Record(salt, kdf(password, salt).value), kdf) != ReadsPastEnd
    ensures Verify(password, Record(salt, kdf(password, salt).value), kdf) == Accepted
  {
    VerifyRecord(attempt, salt, kdf(password, salt).value, kdf);
    VerifyRecord(password, salt, kdf(password, salt).value, kdf);
  }

  /** A record that needs no rehash is what HashPassword makes; one that needs it verifies nothing. */
  lemma RehashExactly(password: string, stored: string, salt: seq<Byte>, hash: seq<Byte>, kdf: Kdf)
    ensures !NeedsRehash(Record(salt, hash)) && (NeedsRehash(stored) <==> !("$scrypt$" <= stored))
    ensures NeedsRehash(stored) ==> Verify(password, stored, kdf) == Rejected
  {
    assert Record(salt, hash) == TAG + (Encode(salt) + "$" + Encode(hash));
  }
}
