/** Slug generation: the generator capability and its default implementation,
    which keeps the first six characters of a random UUID's text form. */
module Slug {
  import opened Wrappers

  newtype byte = b: int | 0 <= b < 256

  /** The sixteen bytes of a UUID, most significant first. */
  type Uuid = s: seq<byte> | |s| == 16 witness seq(16, _ => 0)

  /** Length of the slugs the default generator produces. */
  const SlugLength: nat := 6

  /** The answer to one `Random()` call: a candidate slug and an optional error,
      as in the Go signature `Random() (string, error)`. */
  datatype Generated = Generated(slug: string, err: Option<string>)

  /** A slug generator seen from outside: the answer to its i-th call.
      Any implementation, random or deterministic, is one such stream. */
  type Generator = nat -> Generated

  /** The outcome of drawing a random UUID from the entropy source. */
  datatype UuidDraw = Drawn(id: Uuid) | DrawFailed(cause: string)

  // ---------------------------------------------------------------------
  // Lower-case hexadecimal text, as used by the canonical UUID layout.
  // ---------------------------------------------------------------------

  /** A lower-case hexadecimal digit, `0`-`9` or `a`-`f`. */
  predicate IsHexDigit(c: char)
  {
    '0' <= c <= '9' || 'a' <= c <= 'f'
  }

  predicate IsHex(s: string)
  {
    forall i :: 0 <= i < |s| ==> IsHexDigit(s[i])
  }

  function HexDigit(n: int): (c: char)
    requires 0 <= n < 16
    ensures IsHexDigit(c)
  {
    if n < 10 then ('0' as int + n) as char else ('a' as int + n - 10) as char
  }

  /** The value of a lower-case hex digit; the inverse of `HexDigit`. */
  function DigitValue(c: char): (n: int)
    requires IsHexDigit(c)
    ensures 0 <= n < 16 && HexDigit(n) == c
  {
    if '0' <= c <= '9' then c as int - '0' as int else c as int - 'a' as int + 10
  }

  /** Two hex digits per byte, high nibble first. */
  function Hex(bs: seq<byte>): (s: string)
    ensures |s| == 2 * |bs|
    ensures IsHex(s)
  {
    if |bs| == 0 then ""
    else [HexDigit(bs[0] as int / 16), HexDigit(bs[0] as int % 16)] + Hex(bs[1..])
  }

  /** Reads back an even-length hex text as bytes. */
  function Unhex(s: string): (bs: seq<byte>)
    requires |s| % 2 == 0 && IsHex(s)
    ensures 2 * |bs| == |s|
  {
    if |s| == 0 then []
    else [(16 * DigitValue(s[0]) + DigitValue(s[1])) as byte] + Unhex(s[2..])
  }

  /** A byte survives being split into its two hex digits and read back. */
  lemma ByteRoundTrip(b: byte)
    ensures (16 * DigitValue(HexDigit(b as int / 16)) + DigitValue(HexDigit(b as int % 16))) as byte == b
  {
  }

  lemma {:induction false} UnhexHex(bs: seq<byte>)
    ensures Unhex(Hex(bs)) == bs
  {
    if |bs| != 0 {
      var s := Hex(bs);
      var tail := Hex(bs[1..]);
      assert s == [HexDigit(bs[0] as int / 16), HexDigit(bs[0] as int % 16)] + tail;
      assert s[2..] == tail;
      ByteRoundTrip(bs[0]);
      UnhexHex(bs[1..]);
      assert Unhex(s) == [bs[0]] + bs[1..];
    }
  }

  /** Two hex digits survive being read as a byte and written back. */
  lemma DigitsRoundTrip(c: char, d: char)
    requires IsHexDigit(c) && IsHexDigit(d)
    ensures var b := (16 * DigitValue(c) + DigitValue(d)) as byte;
            HexDigit(b as int / 16) == c && HexDigit(b as int % 16) == d
  {
  }

  lemma {:induction false} HexUnhex(s: string)
    requires |s| % 2 == 0 && IsHex(s)
    ensures Hex(Unhex(s)) == s
  {
    if |s| != 0 {
      var b := (16 * DigitValue(s[0]) + DigitValue(s[1])) as byte;
      var rest := Unhex(s[2..]);
      assert Unhex(s) == [b] + rest;
      assert ([b] + rest)[1..] == rest;
      DigitsRoundTrip(s[0], s[1]);
      HexUnhex(s[2..]);
      assert s == [s[0], s[1]] + s[2..];
    }
  }

  /** Hex text of a concatenation is the concatenation of the hex texts. */
  lemma {:induction false} HexAppend(a: seq<byte>, b: seq<byte>)
    ensures Hex(a + b) == Hex(a) + Hex(b)
  {
    if |a| != 0 {
      assert (a + b)[0] == a[0];
      assert (a + b)[1..] == a[1..] + b;
      HexAppend(a[1..], b);
    } else {
      assert a + b == b;
    }
  }

  // ---------------------------------------------------------------------
  // The UUID text form and the default generator.
  // ---------------------------------------------------------------------

  /** The canonical text of a UUID (section 3 of RFC 4122): the fields time_low,
      time_mid, time_hi_and_version, clock_seq and node in lower-case hex,
      8-4-4-4-12 digits separated by hyphens. */
  function UuidString(id: Uuid): (s: string)
    ensures |s| == 36
    ensures s[8] == '-' && s[13] == '-' && s[18] == '-' && s[23] == '-'
    ensures s[..8] == Hex(id[..4])
  {
    Hex(id[..4]) + "-" + Hex(id[4..6]) + "-" + Hex(id[6..8]) + "-"
      + Hex(id[8..10]) + "-" + Hex(id[10..])
  }

  /** `UUIDSlugGenerator.Random`: draw a UUID and keep the first six characters
      of its text, or give back the empty slug with the draw's error. */
  function UuidRandom(draw: UuidDraw): (r: Generated)
    ensures draw.DrawFailed? ==> r == Generated("", Some(draw.cause))
    ensures draw.Drawn? ==> && r.err == None
                            && |r.slug| == SlugLength
                            && r.slug <= UuidString(draw.id)
                            && IsHex(r.slug)
  {
    match draw
    case DrawFailed(cause) => Generated("", Some(cause))
    case Drawn(id) => Generated(UuidString(id)[..SlugLength], None)
  }

  /** The default generator: its i-th call draws the i-th UUID. */
  function UuidGenerator(draws: nat -> UuidDraw): Generator
  {
    (n: nat) => UuidRandom(draws(n))
  }

  /** A generated slug is the hex text of the first three bytes of time_low. */
  lemma SlugIsTimeLowPrefix(id: Uuid)
    ensures UuidRandom(Drawn(id)).slug == Hex(id[..3])
  {
    HexAppend(id[..3], id[3..4]);
    assert id[..4] == id[..3] + id[3..4];
  }

  /** The slug determines the first three bytes of the UUID: reading it back as
      hex gives exactly those bytes. */
  lemma SlugDeterminesPrefix(id: Uuid)
    ensures Unhex(UuidRandom(Drawn(id)).slug) == id[..3]
  {
    SlugIsTimeLowPrefix(id);
    UnhexHex(id[..3]);
  }

  /** Every six-digit lower-case hex text is the slug of some UUID. Together with
      `SlugDeterminesPrefix` this makes slugs correspond one to one with the
      3-byte prefixes of a UUID. */
  lemma EverySlugReachable(s: string)
    requires |s| == SlugLength && IsHex(s)
    ensures exists id: Uuid :: UuidRandom(Drawn(id)).slug == s
  {
    var prefix := Unhex(s);
    var id: Uuid := prefix + seq(13, _ => 0);
    assert id[..3] == prefix;
    SlugIsTimeLowPrefix(id);
    HexUnhex(s);
  }
}
