/**
  The two credential libraries, reduced to what the server observes.
  bcrypt is modelled structurally: a stored password is either a bcrypt
  digest, identified by the 72-byte key bcrypt derives from the plaintext,
  or a plaintext that was never hashed. JSON Web
  Tokens are an uninterpreted signer and verifier.
*/
module Crypto {
  import opened Base
  import opened Js

  /** The work factor the server passes to `bcrypt.hash`. */
  const BcryptCost: nat := 12

  /** bcrypt keys its cipher with 72 bytes. */
  const BcryptMaxBytes: nat := 72

  type Byte = b: int | 0 <= b < 256

  /** The `password` column of a user row: a bcrypt digest, which is
      determined by the cost and the key it was computed from, or a
      plaintext that was never hashed. */
  datatype Credential =
    | Hashed(cost: nat, key: seq<Byte>)
    | Cleartext(text: string)

  /** The errors a bcrypt call throws: a non-string password, or, when a
      stored text of digest length is compared, a salt part that bcrypt
      cannot read (its version, revision, rounds, round count or salt
      characters). */
  datatype BcryptError =
    | IllegalArguments
    | InvalidSaltVersion
    | InvalidSaltRevision
    | MissingSaltRounds
    | IllegalRounds
    | IllegalSaltLength

  /** The length of every bcrypt digest text, in UTF-16 code units; a
      stored text of any other length compares false without hashing. */
  const DigestLength: nat := 60

  /** The alphabet of bcrypt's own base64: `./A-Za-z0-9`. */
  predicate IsBase64Unit(u: int)
  {
    u == '.' as int || u == '/' as int || ('A' as int <= u <= 'Z' as int)
    || ('a' as int <= u <= 'z' as int) || ('0' as int <= u <= '9' as int)
  }

  predicate IsDigitUnit(u: int)
  {
    '0' as int <= u <= '9' as int
  }

  /** The checks `bcrypt.compare` makes, through `bcrypt.hash`, on the
      salt part (the first 29 code units) of a stored text of digest
      length, in the order bcryptjs makes them. The round count is
      rejected only when both of its units are digits: otherwise it is
      NaN, and NaN passes the range test. The 22 salt units are decoded
      in groups of four; the decoder stops, leaving the salt short of 16
      bytes, at the first unit outside the base64 alphabet among the
      first three of a group (or the last two units), but merges the
      fourth unit of a group into its byte without checking it. */
  function SaltCheck(u: seq<int>): (r: Option<BcryptError>)
    requires |u| == DigestLength
    ensures r.Some? ==> r.value != IllegalArguments
    ensures (u[0] != '$' as int || u[1] != '2' as int) <==> r == Some(InvalidSaltVersion)
  {
    if u[0] != '$' as int || u[1] != '2' as int then Some(InvalidSaltVersion)
    else if u[2] != '$' as int && (!(u[2] == 'a' as int || u[2] == 'b' as int || u[2] == 'y' as int) || u[3] != '$' as int)
    then Some(InvalidSaltRevision)
    else
      var offset := if u[2] == '$' as int then 3 else 4;
      if u[offset + 2] > '$' as int then Some(MissingSaltRounds)
      else if IsDigitUnit(u[offset]) && IsDigitUnit(u[offset + 1])
        && !(4 <= (u[offset] - '0' as int) * 10 + (u[offset + 1] - '0' as int) <= 31)
      then Some(IllegalRounds)
      else if exists i :: offset + 3 <= i < offset + 25 && (i - offset - 3) % 4 != 3 && !IsBase64Unit(u[i])
      then Some(IllegalSaltLength)
      else None
  }

  /** A stored plaintext that bcrypt rejects when comparing against it:
      of digest length, with an unreadable salt part. */
  predicate SaltRejects(t: string)
  {
    Utf16Length(t) == DigestLength && SaltCheck(Utf16(t)).Some?
  }

  /** The UTF-8 encoding of one character: one byte below U+0080, then
      two, three or four, every byte after the first in `0x80..0xBF`. */
  function Utf8Char(c: char): (bytes: seq<Byte>)
    ensures 1 <= |bytes| <= 4
    ensures bytes[0] == 0 <==> c == '\0'
    ensures c as int < 0x80 ==> bytes == [c as int]
    ensures forall i :: 1 <= i < |bytes| ==> 0x80 <= bytes[i] < 0xC0
  {
    var v := c as int;
    if v < 0x80 then [v]
    else if v < 0x800 then [0xC0 + v / 64, 0x80 + v % 64]
    else if v < 0x10000 then [0xE0 + v / 4096, 0x80 + (v / 64) % 64, 0x80 + v % 64]
    else [0xF0 + v / 262144, 0x80 + (v / 4096) % 64, 0x80 + (v / 64) % 64, 0x80 + v % 64]
  }

  /** The UTF-8 encoding of a string, which is what bcrypt hashes. */
  function Utf8(s: string): (bytes: seq<Byte>)
    ensures |s| <= |bytes| <= 4 * |s|
  {
    if s == [] then [] else Utf8(s[..|s| - 1]) + Utf8Char(s[|s| - 1])
  }

  /** An ASCII string is its own encoding, one byte per character. */
  lemma {:induction false} Utf8Ascii(s: string)
    requires forall i :: 0 <= i < |s| ==> s[i] as int < 0x80
    ensures |Utf8(s)| == |s|
    ensures forall i :: 0 <= i < |s| ==> Utf8(s)[i] == s[i] as int
  {
    if s != [] {
      Utf8Ascii(s[..|s| - 1]);
    }
  }

  /** Only the NUL character encodes to a zero byte. */
  lemma {:induction false} Utf8NoZero(s: string)
    requires forall i :: 0 <= i < |s| ==> s[i] != '\0'
    ensures forall i :: 0 <= i < |Utf8(s)| ==> Utf8(s)[i] != 0
  {
    if s != [] {
      Utf8NoZero(s[..|s| - 1]);
      var last := Utf8Char(s[|s| - 1]);
      assert forall i :: 0 <= i < |last| ==> last[i] != 0;
    }
  }

  /** The key bcrypt schedules: the password's UTF-8 bytes and a
      terminating zero byte, repeated cyclically up to 72 bytes. Whatever
      lies beyond the 72nd byte is never read. */
  function Key(p: string): (key: seq<Byte>)
    ensures |key| == BcryptMaxBytes
  {
    var bytes := Utf8(p) + [0];
    seq(BcryptMaxBytes, i requires 0 <= i < BcryptMaxBytes => Cycle(bytes, i))
  }

  /** Byte `i` of `bytes` repeated without end. */
  function Cycle(bytes: seq<Byte>, i: nat): Byte
    requires bytes != []
  {
    if i < |bytes| then bytes[i] else Cycle(bytes, i - |bytes|)
  }

  /** `bcrypt.hash(password, 12)`. */
  function BcryptHash(password: JsValue): (r: Result<Credential, BcryptError>)
    ensures r.Ok? <==> password.Str?
    ensures r.Ok? ==> r.value.Hashed? && r.value.cost == BcryptCost
  {
    match password
    case Str(p) => Ok(Hashed(BcryptCost, Key(p)))
    case _ => Err(IllegalArguments)
  }

  /** `bcrypt.compare(password, stored)`: true exactly when `stored` is a
      digest of a password with the same key. A stored plaintext compares
      false when its length is not that of a digest; otherwise bcrypt
      hashes the password with the plaintext's first 29 units as salt,
      which throws when that salt is unreadable. */
  function BcryptCompare(password: JsValue, stored: Credential): (r: Result<bool, BcryptError>)
    ensures r.Err? <==> !password.Str? || (stored.Cleartext? && SaltRejects(stored.text))
    ensures r.Err? && password.Str? ==> r.error == SaltCheck(Utf16(stored.text)).value
    ensures stored.Cleartext? ==> r != Ok(true)
  {
    if !password.Str? then Err(IllegalArguments)
    else
      match stored
      case Hashed(_, key) => Ok(key == Key(password.s))
      case Cleartext(t) =>
        if Utf16Length(t) != DigestLength then Ok(false)
        else
          match SaltCheck(Utf16(t))
          case Some(e) => Err(e)
          case None => Ok(false)
  }

  /** Hashing and comparing agree: a password compares equal to a digest
      exactly when the two keys agree, and a digest is never the plaintext
      column. Compared against a stored plaintext, a password is never
      accepted: the answer is false unless the plaintext has the length of
      a digest and an unreadable salt, and then bcrypt throws. */
  lemma HashThenCompare(p: string, q: string)
    ensures BcryptHash(Str(p)).Ok?
    ensures BcryptCompare(Str(q), BcryptHash(Str(p)).value) == Ok(Key(q) == Key(p))
    ensures BcryptHash(Str(p)).value != Cleartext(p)
    ensures !SaltRejects(p) ==> BcryptCompare(Str(q), Cleartext(p)) == Ok(false)
    ensures SaltRejects(p) ==> BcryptCompare(Str(q), Cleartext(p)) == Err(SaltCheck(Utf16(p)).value)
  {
  }

  /** Sixty characters of plain text, such as sixty `a`s stored by a
      registration that never hashed, make the compare throw rather than
      answer false. */
  lemma SixtyCharactersThrow(q: string, t: string)
    requires |t| == DigestLength && forall i :: 0 <= i < |t| ==> 'a' <= t[i] <= 'z'
    ensures SaltRejects(t)
    ensures BcryptCompare(Str(q), Cleartext(t)) == Err(InvalidSaltVersion)
  {
    Utf16Bmp(t);
  }

  /** A stored plaintext whose salt part is readable except for the
      unchecked fourth unit of a group is hashed, not rejected: the
      compare answers false. */
  lemma UncheckedSaltUnit(q: string)
    ensures var t := "$2a$10$aaa!" + seq(49, _ => 'a');
      SaltCheck(Utf16(t)).None? && BcryptCompare(Str(q), Cleartext(t)) == Ok(false)
  {
    var t := "$2a$10$aaa!" + seq(49, _ => 'a');
    Utf16Bmp(t);
    var u := Utf16(t);
    assert u[10] == '!' as int;
    assert forall i :: 11 <= i < |t| ==> u[i] == 'a' as int;
  }

  /** Two passwords whose encodings share their first 72 bytes have the
      same key, so each compares equal to the other's digest. */
  lemma KeyTruncates(p: string, q: string)
    requires |Utf8(p)| >= BcryptMaxBytes && |Utf8(q)| >= BcryptMaxBytes
    requires Utf8(p)[..BcryptMaxBytes] == Utf8(q)[..BcryptMaxBytes]
    ensures Key(p) == Key(q)
    ensures BcryptCompare(Str(q), BcryptHash(Str(p)).value) == Ok(true)
  {
    var bp := Utf8(p) + [0];
    var bq := Utf8(q) + [0];
    forall i | 0 <= i < BcryptMaxBytes
      ensures Key(p)[i] == Key(q)[i]
    {
      assert bp[i] == Utf8(p)[..BcryptMaxBytes][i];
      assert bq[i] == Utf8(q)[..BcryptMaxBytes][i];
    }
  }

  /** For ASCII passwords the 72 bytes are the first 72 characters. */
  lemma AsciiTruncates(p: string, q: string)
    requires forall i :: 0 <= i < |p| ==> p[i] as int < 0x80
    requires forall i :: 0 <= i < |q| ==> q[i] as int < 0x80
    requires |p| >= BcryptMaxBytes && |q| >= BcryptMaxBytes && p[..BcryptMaxBytes] == q[..BcryptMaxBytes]
    ensures BcryptCompare(Str(q), BcryptHash(Str(p)).value) == Ok(true)
  {
    Utf8Ascii(p);
    Utf8Ascii(q);
    assert forall i :: 0 <= i < BcryptMaxBytes ==> p[i] == p[..BcryptMaxBytes][i] && q[i] == q[..BcryptMaxBytes][i];
    assert Utf8(p)[..BcryptMaxBytes] == Utf8(q)[..BcryptMaxBytes];
    KeyTruncates(p, q);
  }

  /** Below 72 bytes, and without NUL characters, passwords with
      different encodings have different keys: the terminating zero marks
      where each ends. */
  lemma KeyDistinguishes(p: string, q: string)
    requires |Utf8(p)| < BcryptMaxBytes && |Utf8(q)| < BcryptMaxBytes
    requires forall i :: 0 <= i < |p| ==> p[i] != '\0'
    requires forall i :: 0 <= i < |q| ==> q[i] != '\0'
    requires Utf8(p) != Utf8(q)
    ensures Key(p) != Key(q)
    ensures BcryptCompare(Str(q), BcryptHash(Str(p)).value) == Ok(false)
  {
    Utf8NoZero(p);
    Utf8NoZero(q);
    var a, b := Utf8(p), Utf8(q);
    if |a| == |b| {
      var j :| 0 <= j < |a| && a[j] != b[j];
      KeyAt(p, j);
      KeyAt(q, j);
    } else if |a| < |b| {
      KeyAt(p, |a|);
      KeyAt(q, |a|);
    } else {
      KeyAt(p, |b|);
      KeyAt(q, |b|);
    }
  }

  /** Below 72 bytes the key starts with the encoding and its zero. */
  lemma KeyAt(p: string, j: nat)
    requires |Utf8(p)| < BcryptMaxBytes && j <= |Utf8(p)|
    ensures Key(p)[j] == (Utf8(p) + [0])[j]
  {
  }

  /** The payload `{ userId }` and the `expiresIn` option given to `jwt.sign`. */
  datatype Claims = Claims(userId: nat, expiresIn: string)

  /** `jwt.sign`, `jwt.verify` (None: it throws; otherwise the decoded
      payload) and the `JWT_EXPIRES_IN` environment variable. */
  datatype TokenService = TokenService(
    sign: Claims -> string,
    verify: string -> Option<JsValue>,
    expiresInEnv: Option<string>)

  /** The lifetime used when `JWT_EXPIRES_IN` is unset or empty. */
  const DefaultExpiry: string := "7d"

  /** A token together with the claims it was signed from. */
  datatype Issued = Issued(claims: Claims, token: string)

  /** `generateToken(userId)`. */
  function GenerateToken(ts: TokenService, userId: nat): (r: Issued)
    ensures r.claims.userId == userId
    ensures ts.expiresInEnv.Some? && ts.expiresInEnv.value != "" ==> r.claims.expiresIn == ts.expiresInEnv.value
    ensures ts.expiresInEnv.None? || ts.expiresInEnv.value == "" ==> r.claims.expiresIn == DefaultExpiry
    ensures r.token == ts.sign(r.claims)
  {
    var expiresIn := if ts.expiresInEnv.Some? && ts.expiresInEnv.value != "" then ts.expiresInEnv.value else DefaultExpiry;
    var claims := Claims(userId, expiresIn);
    Issued(claims, ts.sign(claims))
  }

  /** The payload a verifier returns for the claims of a fresh token. */
  function PayloadOf(c: Claims): JsValue
  {
    Obj(map["userId" := Number(Finite(c.userId))])
  }

  /** What the model assumes of a well-behaved JWT library when it checks
      round trips: tokens are non-empty and have no space, and a token
      signed now verifies to the payload it was signed from. */
  ghost predicate SoundTokens(ts: TokenService)
  {
    forall c :: ts.sign(c) != "" && ' ' !in ts.sign(c) && ts.verify(ts.sign(c)) == Some(PayloadOf(c))
  }
}
