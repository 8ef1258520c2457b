/** Byte strings and the C view of them. */
module Bytes {

  newtype byte = x: int | 0 <= x < 256

  type bytes = seq<byte>

  const NUL: byte := 0x00
  const QUOTE: byte := 0x22
  const BACKSLASH: byte := 0x5C
  const SLASH: byte := 0x2F
  const COMMA: byte := 0x2C
  const COLON: byte := 0x3A
  const LBRACE: byte := 0x7B
  const RBRACE: byte := 0x7D
  const LBRACKET: byte := 0x5B
  const RBRACKET: byte := 0x5D

  /** The bytes of a C string literal; only ASCII literals occur. */
  function Ascii(s: string): (b: bytes)
    ensures |b| == |s|
    ensures forall i :: 0 <= i < |s| && (s[i] as int) < 128 ==> b[i] as int == s[i] as int
  {
    seq(|s|, i requires 0 <= i < |s| => if (s[i] as int) < 128 then (s[i] as int) as byte else 0x3F)
  }

  /** What `strlen`, `strcmp`, `strdup` and `%s` see: everything before the first NUL. */
  function CStr(s: bytes): (c: bytes)
    ensures c <= s
    ensures NUL !in c
    ensures |c| < |s| ==> s[|c|] == NUL
  {
    if s == [] || s[0] == NUL then [] else
      var c := [s[0]] + CStr(s[1..]);
      c
  }

  /** A string without NUL is seen whole, and only such a string is. */
  lemma CStrWhole(s: bytes)
    ensures CStr(s) == s <==> NUL !in s
  {
    var c := CStr(s);
    if |c| < |s| {
      assert s[|c|] in s;
    } else {
      assert c == s[..|s|];
    }
  }

  lemma Assoc(a: bytes, b: bytes, c: bytes)
    ensures (a + b) + c == a + (b + c)
  {
  }
}
