/**
 Octets with symbolic cryptography.

 Every byte string of the protocol is a sequence of octets. An octet is either a
 literal byte or one octet of the output of a primitive (a digest, a MAC, a derived
 key, a ciphertext, a signature, a public key). An output octet records the whole
 application that produced it, so a primitive is injective by construction, two
 primitives never collide, and outputs still have their real lengths, can be sliced
 and can be concatenated with other octets.
 */
module Octets {

  type Byte = b: int | 0 <= b < 256

  datatype Octet = Lit(b: Byte) | Derived(of: Term, at: nat)

  type Bytes = seq<Octet>

  /** An application of a primitive to its inputs. */
  datatype Term =
    | Blake3(input: Bytes)
    | Blake3Key(context: Bytes, material: Bytes)
    | Sha384(input: Bytes)
    | Hmac(key: Bytes, data: Bytes)
    | Extract(salt: Bytes, ikm: Bytes)
    | Expand(prk: Bytes, info: Bytes)
    | Sealed(key: Bytes, nonce: Bytes, aad: Bytes, plaintext: Bytes)
    | EdSignature(signer: Bytes, message: Bytes)
    | MlDsaSignature(signer: Bytes, message: Bytes, coin: nat)
    | XPublic(scalar: nat)
    | XShared(scalars: set<nat>)
    | XForeign(scalar: nat, point: Bytes)
    | KemPublic(seed: nat)
    | KemCiphertext(public: Bytes, coin: nat)
    | KemShared(public: Bytes, coin: nat)
    | KemReject(seed: nat, ciphertext: Bytes)
    | DeviceKey(seed: nat, purpose: nat)

  datatype Option<+T> = None | Some(value: T)

  datatype Result<+T, +E> = Ok(value: T) | Err(error: E) {
    predicate IsFailure() { Err? }

    function PropagateFailure<U>(): (r: Result<U, E>)
      requires Err?
    {
      Err(error)
    }

    function Extract(): T
      requires Ok?
    {
      value
    }
  }

  /** The first `n` octets of the output of `t`. */
  function Output(t: Term, n: nat): (s: Bytes)
    ensures |s| == n
  {
    seq(n, (i: nat) => Derived(t, i))
  }

  /** An output of at least one octet determines the application it came from. */
  lemma OutputInjective(t: Term, u: Term, n: nat)
    requires n > 0
    requires Output(t, n) == Output(u, n)
    ensures t == u
  {
    assert Output(t, n)[0] == Output(u, n)[0];
  }

  /** Splitting a concatenation at equal lengths. */
  lemma SplitAt<T>(a: seq<T>, x: seq<T>, b: seq<T>, y: seq<T>)
    requires a + x == b + y
    requires |a| == |b|
    ensures a == b && x == y
  {
    assert a == (a + x)[..|a|];
    assert x == (a + x)[|a|..];
  }

  // --- Big-endian integers ---

  function Pow256(n: nat): (p: nat)
    ensures p > 0
  {
    if n == 0 then 1 else 256 * Pow256(n - 1)
  }

  /** The low `n` bytes of `v`, most significant first. */
  function BigEndian(v: nat, n: nat): (s: Bytes)
    ensures |s| == n
  {
    if n == 0 then [] else BigEndian(v / 256, n - 1) + [Lit(v % 256)]
  }

  /** Reads an integer back; an octet of a primitive's output is not a number. */
  function FromBigEndian(s: Bytes): (r: Option<nat>)
    ensures r.Some? ==> r.value < Pow256(|s|)
  {
    if s == [] then Some(0)
    else
      var front := FromBigEndian(s[..|s| - 1]);
      var last := s[|s| - 1];
      if front.None? || last.Derived? then None else Some(front.value * 256 + last.b)
  }

  lemma {:induction false} BigEndianReads(v: nat, n: nat)
    requires v < Pow256(n)
    ensures FromBigEndian(BigEndian(v, n)) == Some(v)
  {
    if n > 0 {
      var s := BigEndian(v, n);
      assert s[..n - 1] == BigEndian(v / 256, n - 1);
      BigEndianReads(v / 256, n - 1);
    }
  }

  lemma {:induction false} BigEndianCanonical(s: Bytes)
    requires FromBigEndian(s).Some?
    ensures BigEndian(FromBigEndian(s).value, |s|) == s
  {
    if s != [] {
      BigEndianCanonical(s[..|s| - 1]);
      assert s == s[..|s| - 1] + [s[|s| - 1]];
    }
  }

  lemma BigEndianInjective(v: nat, w: nat, n: nat)
    requires v < Pow256(n) && w < Pow256(n)
    requires BigEndian(v, n) == BigEndian(w, n)
    ensures v == w
  {
    BigEndianReads(v, n);
    BigEndianReads(w, n);
  }

  const U8_LIMIT := 0x100
  const U16_LIMIT := 0x1_0000
  const U32_LIMIT := 0x1_0000_0000
  const U64_LIMIT := 0x1_0000_0000_0000_0000

  type U64 = n: int | 0 <= n < U64_LIMIT

  const PROTOCOL_MAJOR: U64 := 2
  const PROTOCOL_MINOR: U64 := 0
  const SUITE_ID: U64 := 1

  /** Octets in a transfer, object or device identifier, a commitment and a digest. */
  const ID_LEN := 32

  lemma Pow256Values()
    ensures Pow256(1) == U8_LIMIT
    ensures Pow256(2) == U16_LIMIT
    ensures Pow256(4) == U32_LIMIT
    ensures Pow256(8) == U64_LIMIT
  {
    assert Pow256(3) == 256 * Pow256(2);
    assert Pow256(5) == 256 * Pow256(4);
    assert Pow256(6) == 256 * Pow256(5);
    assert Pow256(7) == 256 * Pow256(6);
  }

  // --- ASCII labels ---

  /** The literal bytes of an ASCII label. */
  function Ascii(s: string): (r: Bytes)
    ensures |r| == |s|
  {
    seq(|s|, i requires 0 <= i < |s| => Lit(if s[i] as int < 256 then s[i] as int else 0))
  }

  /** Labels that differ at some position give different octets. */
  lemma AsciiDiffer(s: string, t: string, i: nat)
    requires i < |s| && i < |t|
    requires s[i] != t[i] && s[i] as int < 256 && t[i] as int < 256
    ensures Ascii(s)[i] != Ascii(t)[i]
  {
  }

  /** A digest under a domain label. */
  function Tagged(domain: string, input: Bytes): (h: Bytes)
    ensures |h| == ID_LEN
  {
    Output(Blake3(Ascii(domain) + input), ID_LEN)
  }

  lemma TaggedSplits(domain: string, x: Bytes, y: Bytes)
    requires Tagged(domain, x) == Tagged(domain, y)
    ensures x == y
  {
    OutputInjective(Blake3(Ascii(domain) + x), Blake3(Ascii(domain) + y), ID_LEN);
    SplitAt(Ascii(domain), x, Ascii(domain), y);
  }

  // --- Authenticated encryption ---

  const TAG_LEN := 16

  /** AEAD sealing: the plaintext's length plus a tag. */
  function Seal(key: Bytes, nonce: Bytes, aad: Bytes, plaintext: Bytes): (c: Bytes)
    ensures |c| == |plaintext| + TAG_LEN
  {
    Output(Sealed(key, nonce, aad, plaintext), |plaintext| + TAG_LEN)
  }

  /** AEAD opening: succeeds on exactly what was sealed under the same key, nonce and data. */
  function Open(key: Bytes, nonce: Bytes, aad: Bytes, ciphertext: Bytes): (r: Option<Bytes>)
    ensures r.Some? ==> ciphertext == Seal(key, nonce, aad, r.value)
  {
    if ciphertext != [] && ciphertext[0].Derived? && ciphertext[0].of.Sealed? &&
       ciphertext == Seal(key, nonce, aad, ciphertext[0].of.plaintext)
    then Some(ciphertext[0].of.plaintext)
    else None
  }

  lemma OpenSealed(key: Bytes, nonce: Bytes, aad: Bytes, plaintext: Bytes)
    ensures Open(key, nonce, aad, Seal(key, nonce, aad, plaintext)) == Some(plaintext)
  {
    var c := Seal(key, nonce, aad, plaintext);
    assert c[0] == Derived(Sealed(key, nonce, aad, plaintext), 0);
  }

  /** A ciphertext determines everything that went into it. */
  lemma SealInjective(k1: Bytes, n1: Bytes, a1: Bytes, p1: Bytes, k2: Bytes, n2: Bytes, a2: Bytes, p2: Bytes)
    requires Seal(k1, n1, a1, p1) == Seal(k2, n2, a2, p2)
    ensures k1 == k2 && n1 == n2 && a1 == a2 && p1 == p2
  {
    assert Seal(k1, n1, a1, p1)[0] == Seal(k2, n2, a2, p2)[0];
  }
}
