/** The checksum service (app/services/checksum_service.py): the SHA-256
    hex digest of a payload's canonical JSON text. */
module Checksum {
  import opened Json
  import JsonParse

  newtype byte = x: int | 0 <= x < 256

  /** A SHA-256 digest: 32 bytes. */
  type Digest = d: seq<byte> | |d| == 32 witness seq(32, _ => 0 as byte)

  /** UTF-8 encoding followed by SHA-256. The hash's internals are not part of
      this model: every operation that hashes takes it as a parameter. */
  type Sha256 = string -> Digest

  /** The hash gives two different texts the same digest. Nothing here
      assumes a hash free of collisions: the lemmas that relate digests to
      contents name the one pair of texts whose collision would break them. */
  predicate Collides(sha256: Sha256, s: string, t: string) {
    s != t && sha256(s) == sha256(t)
  }

  predicate IsLowerHex(c: char) {
    '0' <= c <= '9' || 'a' <= c <= 'f'
  }

  function HexDigit(n: nat): (c: char)
    requires n < 16
    ensures IsLowerHex(c)
  {
    "0123456789abcdef"[n]
  }

  /** The value of a lower-case hexadecimal digit. */
  function HexValue(c: char): nat
    requires IsLowerHex(c)
  {
    if c <= '9' then c as int - '0' as int else c as int - 'a' as int + 10
  }

  lemma HexDigitValue(n: nat)
    requires n < 16
    ensures HexValue(HexDigit(n)) == n
  {
    var digits := "0123456789abcdef";
    assert digits[n] == HexDigit(n);
    if n < 10 {
      assert digits[n] as int == '0' as int + n;
    } else {
      assert digits[n] as int == 'a' as int + n - 10;
    }
  }

  /** `bytes.hexdigest()`: two lower-case hexadecimal digits per byte, high
      half first. */
  function HexDigest(d: seq<byte>): (r: string)
    ensures |r| == 2 * |d|
    ensures forall k | 0 <= k < |r| :: IsLowerHex(r[k])
  {
    if d == [] then []
    else [HexDigit(d[0] as int / 16), HexDigit(d[0] as int % 16)] + HexDigest(d[1..])
  }

  /** Reads a digest back from its hexadecimal text. */
  function UnHex(t: string): (d: seq<byte>)
    requires |t| % 2 == 0
    requires forall k | 0 <= k < |t| :: IsLowerHex(t[k])
    ensures |d| == |t| / 2
  {
    if t == [] then []
    else [(HexValue(t[0]) * 16 + HexValue(t[1])) as byte] + UnHex(t[2..])
  }

  /** The hexadecimal text loses nothing. */
  lemma {:induction false} UnHexHexDigest(d: seq<byte>)
    ensures UnHex(HexDigest(d)) == d
  {
    if d != [] {
      var t := HexDigest(d);
      var hi, lo := d[0] as int / 16, d[0] as int % 16;
      HexDigitValue(hi);
      HexDigitValue(lo);
      assert t[0] == HexDigit(hi) && t[1] == HexDigit(lo);
      assert t[2..] == HexDigest(d[1..]);
      UnHexHexDigest(d[1..]);
    }
  }

  /** Distinct digests have distinct hexadecimal texts. */
  lemma HexDigestInjective(a: seq<byte>, b: seq<byte>)
    ensures HexDigest(a) == HexDigest(b) <==> a == b
  {
    if HexDigest(a) == HexDigest(b) {
      UnHexHexDigest(a);
      UnHexHexDigest(b);
    }
  }

  /** `generate_checksum(payload)`: hash of `json.dumps(payload,
      sort_keys=True, default=str)`, as 64 lower-case hexadecimal digits. */
  function GenerateChecksum(payload: Json, sha256: Sha256): (r: string)
    ensures |r| == 64
    ensures forall k | 0 <= k < |r| :: IsLowerHex(r[k])
  {
    HexDigest(sha256(CanonicalText(payload)))
  }

  /** Two payloads whose dicts differ only in insertion order have the same
      checksum, at every nesting level. */
  lemma ChecksumIgnoresInsertionOrder(f1: seq<Field>, f2: seq<Field>, sha256: Sha256)
    requires UniqueKeys(f1)
    requires multiset(f1) == multiset(f2)
    ensures GenerateChecksum(JObj(f1), sha256) == GenerateChecksum(JObj(f2), sha256)
  {
    InsertionOrderIrrelevant(f1, f2);
  }

  /** Two payloads get the same checksum exactly when they have the same
      canonical content, or when the hash collides on their two canonical
      texts. */
  lemma ChecksumDetectsChange(a: Json, b: Json, sha256: Sha256)
    ensures GenerateChecksum(a, sha256) == GenerateChecksum(b, sha256)
        <==> Canon(a) == Canon(b) || Collides(sha256, CanonicalText(a), CanonicalText(b))
  {
    JsonParse.CanonicalTextIff(a, b);
    HexDigestInjective(sha256(CanonicalText(a)), sha256(CanonicalText(b)));
  }

  /** Swapping two list items with different content changes the checksum
      unless the hash collides on the two texts: list order is part of what
      is hashed. */
  lemma ChecksumKeepsListOrder(a: Json, b: Json, sha256: Sha256)
    requires Canon(a) != Canon(b)
    ensures GenerateChecksum(JArr([a, b]), sha256) != GenerateChecksum(JArr([b, a]), sha256)
         || Collides(sha256, CanonicalText(JArr([a, b])), CanonicalText(JArr([b, a])))
  {
    JsonParse.ListOrderMatters(a, b);
    HexDigestInjective(sha256(CanonicalText(JArr([a, b]))), sha256(CanonicalText(JArr([b, a]))));
  }

  /** For any two different texts some hash keeps them apart, so the
      no-collision alternative above is never vacuous. */
  lemma CollisionAvoidable(s: string, t: string)
    requires s != t
    ensures exists sha256: Sha256 :: !Collides(sha256, s, t)
  {
    var one: Digest := seq(32, _ => 1 as byte);
    var zero: Digest := seq(32, _ => 0 as byte);
    var h: Sha256 := x => if x == s then one else zero;
    assert h(s)[0] != h(t)[0];
    assert !Collides(h, s, t);
  }

  /** A non-JSON value is hashed as the string `str()` gives for it. */
  lemma ChecksumOfOther(f: seq<Field>, k: nat, t: string, sha256: Sha256)
    requires k < |f| && f[k].value == JOther(t)
    ensures GenerateChecksum(JObj(f), sha256)
         == GenerateChecksum(JObj(f[k := Field(f[k].key, JStr(t))]), sha256)
  {
    var g := f[k := Field(f[k].key, JStr(t))];
    assert CanonFields(f) == CanonFields(g);
  }
}
