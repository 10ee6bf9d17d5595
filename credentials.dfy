/** The password check `pwcheck`: a stored record is either a plain secret or
    an OpenLDAP `{SSHA}` record, the base64 encoding (section 4 of RFC 4648)
    of a 20-byte SHA-1 digest (FIPS 180-4) followed by a salt. */
module Credentials {
  import opened Common

  const DigestLength: nat := 20

  /** A SHA-1 digest is always 20 bytes long. */
  type Digest = s: Bytes | |s| == DigestLength witness seq(20, i => 0)

  const SshaPrefix: string := "{SSHA}"

  /** The library primitives the check relies on, left uninterpreted:
      base64 decoding (`None` when it raises), SHA-1 and UTF-8 encoding. */
  datatype Primitives = Primitives(
    b64decode: string -> Option<Bytes>,
    sha1: Bytes -> Digest,
    utf8: string -> Bytes)

  /** The record's body, once the `{SSHA}` marker is stripped and the rest
      decoded. */
  function SshaBody(p: Primitives, record: string): Option<Bytes>
    requires StartsWith(record, SshaPrefix)
  {
    p.b64decode(record[|SshaPrefix|..])
  }

  /** `pwcheck(record, pw)`: `Ok(true)` when `pw` matches the stored record,
      `Raised(Base64Error)` when an `{SSHA}` body cannot be decoded. */
  function PwCheck(p: Primitives, record: string, pw: string): (r: Result<bool>)
    ensures r.Raised? <==> StartsWith(record, SshaPrefix) && SshaBody(p, record).None?
    ensures r.Raised? ==> r.error == Base64Error
  {
    if !StartsWith(record, SshaPrefix) then
      Ok(record == pw)
    else
      match SshaBody(p, record)
      case None => Raised(Base64Error)
      case Some(body) =>
        var (hashv, salt) := SplitAt(body, DigestLength);
        Ok(hashv == p.sha1(p.utf8(pw) + salt))
  }

  /** A record without the `{SSHA}` marker is compared with the password
      by plain equality. */
  lemma PlainRecordIsEquality(p: Primitives, record: string, pw: string)
    requires !StartsWith(record, SshaPrefix)
    ensures PwCheck(p, record, pw) == Ok(record == pw)
  {
  }

  /** An `{SSHA}` body splits at byte 20 into a digest and a salt, which put
      back together give the body; and the check passes exactly when the
      SHA-1 of the UTF-8 password followed by the salt is that digest. */
  lemma SshaCheckIsDigestComparison(p: Primitives, record: string, pw: string, body: Bytes)
    requires StartsWith(record, SshaPrefix) && SshaBody(p, record) == Some(body)
    ensures var (digest, salt) := SplitAt(body, DigestLength);
      && digest + salt == body
      && |digest| == Min(DigestLength, |body|)
      && PwCheck(p, record, pw) == Ok(p.sha1(p.utf8(pw) + salt) == digest)
  {
  }

  /** A body shorter than a digest never matches: its digest part is too
      short to equal any SHA-1 output. */
  lemma ShortBodyNeverMatches(p: Primitives, record: string, pw: string, body: Bytes)
    requires StartsWith(record, SshaPrefix) && SshaBody(p, record) == Some(body)
    requires |body| < DigestLength
    ensures PwCheck(p, record, pw) == Ok(false)
  {
  }

  /** A record built honestly, whose body is SHA-1(UTF-8(secret) ++ salt)
      followed by the salt, accepts `pw` exactly when `pw` hashes with that
      salt to the same digest; in particular it accepts `secret` itself. */
  lemma SshaRecordAcceptsItsSecret(p: Primitives, record: string, secret: string, salt: Bytes, pw: string)
    requires StartsWith(record, SshaPrefix)
    requires SshaBody(p, record) == Some(p.sha1(p.utf8(secret) + salt) + salt)
    ensures PwCheck(p, record, pw) == Ok(p.sha1(p.utf8(pw) + salt) == p.sha1(p.utf8(secret) + salt))
    ensures PwCheck(p, record, secret) == Ok(true)
  {
  }
}
