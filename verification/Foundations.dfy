/** Byte strings, UTF-8 and the hash the Merkle code is built on. */
module Foundations {

  newtype byte = x: int | 0 <= x < 256

  type Bytes = seq<byte>

  /** A SHA-256 digest: 32 raw bytes. */
  type Digest = d: Bytes | |d| == 32 witness seq(32, _ => 0)

  /** The hash function is a parameter everywhere. Nothing is assumed about it but the digest size. */
  type Hash = Bytes -> Digest

  datatype Option<+T> = None | Some(value: T)

  /** Python exceptions that the modelled code raises. */
  datatype Error =
    | ValueError
    | IndexError
    | NotFound
    | InsufficientCredits(requested: int, available: int)
    | ServiceUnavailable

  datatype Result<+T> = Ok(value: T) | Err(error: Error)

  /**
   * Two different strings with one digest, the first hashed in one computation and the second in another.
   * Collisions of a 32-byte hash always exist somewhere; this predicate asks for one among the strings
   * that the two computations really hashed.
   */
  ghost predicate Collision<X, Y>(h: X -> Y, s: set<X>, t: set<X>) {
    exists x, y :: x in s && y in t && x != y && h(x) == h(y)
  }

  lemma FoundCollision<X, Y>(h: X -> Y, x: X, y: X, s: set<X>, t: set<X>)
    requires x in s && y in t && x != y && h(x) == h(y)
    ensures Collision(h, s, t)
  {
  }

  lemma CollisionMonotone<X, Y>(h: X -> Y, s: set<X>, t: set<X>, s': set<X>, t': set<X>)
    requires Collision(h, s, t)
    requires s <= s' && t <= t'
    ensures Collision(h, s', t')
  {
  }

  /** Halves of a concatenation are determined once the length of one of them is. */
  lemma SplitConcat<T>(a: seq<T>, b: seq<T>, c: seq<T>, d: seq<T>)
    requires a + b == c + d
    requires |a| == |c| || |b| == |d|
    ensures a == c && b == d
  {
    assert |a + b| == |a| + |b| && |c + d| == |c| + |d|;
    assert a == (a + b)[..|a|] && c == (c + d)[..|c|];
    assert b == (a + b)[|a|..] && d == (c + d)[|c|..];
  }

  // ---------------------------------------------------------------------------------------------
  // UTF-8
  // ---------------------------------------------------------------------------------------------

  /** UTF-8 of one Unicode scalar value (section 3 of RFC 3629). */
  function EncodeChar(c: char): Bytes {
    var n := c as int;
    if n < 0x80 then
      [n as byte]
    else if n < 0x800 then
      [(0xC0 + n / 0x40) as byte, Tail(n)]
    else if n < 0x1_0000 then
      [(0xE0 + n / 0x40 / 0x40) as byte, Tail(n / 0x40), Tail(n)]
    else
      [(0xF0 + n / 0x40 / 0x40 / 0x40) as byte, Tail(n / 0x40 / 0x40), Tail(n / 0x40), Tail(n)]
  }

  /** A continuation byte carries the low six bits. */
  function Tail(n: nat): byte {
    (0x80 + n % 0x40) as byte
  }

  function Utf8(s: string): Bytes {
    if s == [] then [] else EncodeChar(s[0]) + Utf8(s[1..])
  }

  /** The lead byte of a character fixes how many bytes belong to it. */
  function LeadLength(b: byte): nat {
    if b < 0xC0 then 1 else if b < 0xE0 then 2 else if b < 0xF0 then 3 else 4
  }

  lemma EncodeCharLength(c: char)
    ensures |EncodeChar(c)| == LeadLength(EncodeChar(c)[0])
  {
  }

  lemma EncodeCharInjective(c: char, d: char)
    requires EncodeChar(c) == EncodeChar(d)
    ensures c == d
  {
  }

  /** Encoded strings are equal only if the strings are: no two leaves share their hashed bytes. */
  lemma {:induction false} Utf8Injective(s: string, t: string)
    requires Utf8(s) == Utf8(t)
    ensures s == t
  {
    if s != [] && t != [] {
      var a, b := EncodeChar(s[0]), EncodeChar(t[0]);
      EncodeCharLength(s[0]);
      EncodeCharLength(t[0]);
      assert Utf8(s)[0] == a[0] && Utf8(t)[0] == b[0];
      assert a == Utf8(s)[..|a|] && b == Utf8(t)[..|b|];
      assert Utf8(s[1..]) == Utf8(s)[|a|..] && Utf8(t[1..]) == Utf8(t)[|b|..];
      EncodeCharInjective(s[0], t[0]);
      Utf8Injective(s[1..], t[1..]);
      assert s == [s[0]] + s[1..] && t == [t[0]] + t[1..];
    }
  }
}
