/** Byte strings (`ngx_str_t`) and the few nginx string helpers the module relies on. */
module Bytes {
  newtype Byte = x: int | 0 <= x < 0x100

  type Text = seq<Byte>

  const NUL: Byte := 0x00
  const TAB: Byte := 0x09
  const NEWLINE: Byte := 0x0A
  const RETURN: Byte := 0x0D
  const SPACE: Byte := 0x20
  const QUOTE: Byte := 0x22
  const HASH: Byte := 0x23
  const DOLLAR: Byte := 0x24
  const PERCENT: Byte := 0x25
  const AMPERSAND: Byte := 0x26
  const COMMA: Byte := 0x2C
  const DASH: Byte := 0x2D
  const SLASH: Byte := 0x2F
  const DIGIT_0: Byte := 0x30
  const DIGIT_9: Byte := 0x39
  const COLON: Byte := 0x3A
  const LESS: Byte := 0x3C
  const EQUALS: Byte := 0x3D
  const GREATER: Byte := 0x3E
  const QUESTION: Byte := 0x3F
  const UPPER_A: Byte := 0x41
  const UPPER_C: Byte := 0x43
  const UPPER_E: Byte := 0x45
  const UPPER_L: Byte := 0x4C
  const UPPER_R: Byte := 0x52
  const UPPER_Z: Byte := 0x5A
  const OPEN_BRACKET: Byte := 0x5B
  const BACKSLASH: Byte := 0x5C
  const CLOSE_BRACKET: Byte := 0x5D
  const LOWER_H: Byte := 0x68
  const OPEN_BRACE: Byte := 0x7B
  const CLOSE_BRACE: Byte := 0x7D

  /** The bytes of an ASCII literal. */
  function Ascii(s: string): (t: Text)
    ensures |t| == |s|
  {
    seq(|s|, i requires 0 <= i < |s| => ((s[i] as int) % 0x100) as Byte)
  }

  predicate IsDigit(b: Byte) {
    DIGIT_0 <= b <= DIGIT_9
  }

  /** `ngx_tolower`. */
  function Lower(b: Byte): Byte {
    if UPPER_A <= b <= UPPER_Z then b + 0x20 else b
  }

  function Fold(s: Text): (t: Text)
    ensures |t| == |s|
  {
    seq(|s|, i requires 0 <= i < |s| => Lower(s[i]))
  }

  /** `ngx_strlchr` over `s[from..]`: the first index holding `c`, or `|s|`. */
  function IndexFrom(s: Text, from: nat, c: Byte): (i: nat)
    requires from <= |s|
    ensures from <= i <= |s|
    ensures forall k :: from <= k < i ==> s[k] != c
    ensures i < |s| ==> s[i] == c
    decreases |s| - from
  {
    if from == |s| || s[from] == c then from else IndexFrom(s, from + 1, c)
  }

  /** `strncmp` over two strings of one length: they agree up to and including the first NUL of `a`. */
  predicate SameString(a: Text, b: Text) {
    |a| == |b| &&
    var n := IndexFrom(a, 0, NUL);
    a[..n] == b[..n] && (n < |a| ==> b[n] == NUL)
  }

  /** `ngx_strncasecmp` over two strings of one length. */
  predicate SameStringNoCase(a: Text, b: Text) {
    SameString(Fold(a), Fold(b))
  }

  /** `len >= n && ngx_strncasecmp(s, literal, n) == 0` for a literal of length n. */
  predicate StartsWithNoCase(s: Text, literal: Text) {
    |literal| <= |s| && Fold(s[..|literal|]) == Fold(literal)
  }

  /** The C string held by a buffer: everything before its first NUL. */
  function CString(s: Text): Text {
    s[..IndexFrom(s, 0, NUL)]
  }

  lemma IndexFromIs(s: Text, from: nat, c: Byte, i: nat)
    requires from <= i <= |s|
    requires forall k :: from <= k < i ==> s[k] != c
    requires i < |s| ==> s[i] == c
    ensures IndexFrom(s, from, c) == i
  {
  }

  /** `ngx_cpymem`: write `src` at position `at` of a buffer it fits; the rest of the buffer is not spoken of. */
  method CopyTo(buf: array<Byte>, at: nat, src: Text) returns (end: nat)
    requires at + |src| <= buf.Length
    modifies buf
    ensures end == at + |src| && buf[..end] == old(buf[..at]) + src
  {
    for i := 0 to |src|
      invariant buf[..at] == old(buf[..at])
      invariant buf[at..at + i] == src[..i]
    {
      buf[at + i] := src[i];
      assert buf[at..at + i + 1] == buf[at..at + i] + [src[i]];
    }
    assert buf[at..at + |src|] == src[..|src|] == src;
    assert buf[..at + |src|] == buf[..at] + buf[at..at + |src|];
    return at + |src|;
  }
}
