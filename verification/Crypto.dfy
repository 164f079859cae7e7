/** Hashing and signing as the evidence ledger uses them.

    SHA-256 (section 6.2 of FIPS 180-4) and Ed25519 (section 5.1 of RFC 8032) are
    function values. No function is assumed to be collision free; results that need it
    return the colliding pair instead.
 */
module Crypto {

  datatype Option<+T> = None | Some(value: T)

  const LEDGER_DOMAIN := "tailstate-evidence-ledger-v1\n"
  const HASH_LENGTH := 64

  predicate IsHexChar(c: char) {
    '0' <= c <= '9' || 'a' <= c <= 'f' || 'A' <= c <= 'F'
  }

  /** 32 bytes in hexadecimal text. */
  predicate IsHash(h: string) {
    |h| == HASH_LENGTH && forall i | 0 <= i < |h| :: IsHexChar(h[i])
  }

  /** The predecessor hash of an entry: empty at genesis, a hash everywhere else. */
  predicate IsHashOrEmpty(h: string) {
    h == "" || IsHash(h)
  }

  /** A public key as a verifier sees it: its fingerprint and its signature test. */
  datatype PublicKey = PublicKey(id: string, verify: (string, string) -> bool)

  /** The exact text whose digest is an entry hash. */
  function Framed(previous: string, payload: string): string {
    LEDGER_DOMAIN + previous + "\n" + payload
  }

  function LedgerDigest(sha: string -> string, previous: string, payload: string): string {
    sha(Framed(previous, payload))
  }

  /** Two different texts with one digest. */
  ghost predicate Collision(sha: string -> string, a: string, b: string) {
    a != b && sha(a) == sha(b)
  }

  /** A text without line breaks is recovered from what follows it after one. */
  lemma FirstLineUnique(first1: string, rest1: string, first2: string, rest2: string)
    requires '\n' !in first1 && '\n' !in first2
    requires first1 + "\n" + rest1 == first2 + "\n" + rest2
    ensures first1 == first2 && rest1 == rest2
  {
    var s := first1 + "\n" + rest1;
    assert s[|first1|] == '\n' && forall i | 0 <= i < |first1| :: s[i] == first1[i] != '\n';
    assert s[|first2|] == '\n' && forall i | 0 <= i < |first2| :: s[i] == first2[i] != '\n';
    assert first1 == s[..|first1|] == first2;
    assert rest1 == s[|first1| + 1..] == rest2;
  }

  /** The framing keeps predecessor and payload apart: the separator cannot move,
      because a predecessor is empty or hexadecimal. */
  lemma FramingInjective(previous1: string, payload1: string, previous2: string, payload2: string)
    requires IsHashOrEmpty(previous1) && IsHashOrEmpty(previous2)
    requires Framed(previous1, payload1) == Framed(previous2, payload2)
    ensures previous1 == previous2 && payload1 == payload2
  {
    assert Framed(previous1, payload1)[|LEDGER_DOMAIN|..] == previous1 + "\n" + payload1;
    assert Framed(previous2, payload2)[|LEDGER_DOMAIN|..] == previous2 + "\n" + payload2;
    FirstLineUnique(previous1, payload1, previous2, payload2);
  }

  /** Equal entry hashes come from equal predecessors and payloads, or exhibit a collision. */
  lemma DigestPinsBoth(sha: string -> string, previous1: string, payload1: string, previous2: string, payload2: string)
    requires IsHashOrEmpty(previous1) && IsHashOrEmpty(previous2)
    requires LedgerDigest(sha, previous1, payload1) == LedgerDigest(sha, previous2, payload2)
    ensures (previous1 == previous2 && payload1 == payload2)
         || Collision(sha, Framed(previous1, payload1), Framed(previous2, payload2))
  {
    if Framed(previous1, payload1) == Framed(previous2, payload2) {
      FramingInjective(previous1, payload1, previous2, payload2);
    }
  }
}
