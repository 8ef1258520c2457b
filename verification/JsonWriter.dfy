/** The escaper: `json_write_string`. */
module JsonWriter {
  import opened Bytes
  import opened Buffers
  import Utf8

  function HexDigit(n: nat): (b: byte)
    requires n < 16
  {
    if n < 10 then (0x30 + n) as byte else (0x61 + n - 10) as byte
  }

  /** `\u%04x`. */
  function UnicodeEscape(unit: nat): (e: bytes)
    requires unit < 0x10000
    ensures |e| == 6
  {
    [BACKSLASH, 0x75, HexDigit(unit / 0x1000), HexDigit(unit / 0x100 % 16), HexDigit(unit / 0x10 % 16), HexDigit(unit % 16)]
  }

  /** The letter of a two-character escape, or NUL when the byte has none. */
  function ShortcutLetter(c: byte): (l: byte)
  {
    match c
    case 0x22 => QUOTE
    case 0x5C => BACKSLASH
    case 0x0A => 0x6E
    case 0x0D => 0x72
    case 0x09 => 0x74
    case 0x08 => 0x62
    case 0x0C => 0x66
    case _ => NUL
  }

  /** How many input bytes one step of the writer consumes. */
  function StepLen(s: bytes): (n: nat)
    requires s != []
    ensures 1 <= n <= |s|
  {
    if ShortcutLetter(s[0]) != NUL || s[0] < 0x20 || Utf8.SequenceLen(s) == 0 then 1
    else Utf8.SequenceLen(s)
  }

  /** What one step of the writer emits. */
  function StepText(s: bytes): (e: bytes)
    requires s != []
    ensures e != []
  {
    if ShortcutLetter(s[0]) != NUL then [BACKSLASH, ShortcutLetter(s[0])]
    else if s[0] < 0x20 then UnicodeEscape(s[0] as nat)
    else if Utf8.SequenceLen(s) == 0 then UnicodeEscape(0xFFFD)
    else s[..Utf8.SequenceLen(s)]
  }

  function Escape(s: bytes): (e: bytes)
  {
    if s == [] then [] else StepText(s) + Escape(s[StepLen(s)..])
  }

  /** The JSON string literal written for `s`. */
  function Quoted(s: bytes): (q: bytes)
  {
    [QUOTE] + Escape(s) + [QUOTE]
  }

  predicate Printable(t: bytes) { forall i :: 0 <= i < |t| ==> t[i] >= 0x20 }

  /** The written text holds no control byte, whatever the input held; so C string handling sees all of it. */
  lemma {:induction false} EscapePrintable(s: bytes)
    ensures Printable(Escape(s))
  {
    if s != [] {
      EscapePrintable(s[StepLen(s)..]);
      assert Printable(StepText(s));
    }
  }

  lemma QuotedIsCString(s: bytes)
    ensures Printable(Quoted(s))
    ensures CStr(Quoted(s)) == Quoted(s)
  {
    EscapePrintable(s);
    CStrWhole(Quoted(s));
  }

  /** One turn of the writer's loop: the bytes at `i` are copied, abbreviated or escaped. */
  method WriteStep(out: Buffer, text: bytes, i: nat) returns (ok: bool, next: nat)
    requires out.Valid() && i < |text|
    modifies out, out.data, out.heap
    ensures out.Valid()
    ensures out.data == old(out.data) || fresh(out.data)
    ensures next == i + StepLen(text[i..])
    ensures out.heap.requests >= old(out.heap.requests)
    ensures !ok ==> !out.heap.Granted(old(out.heap.requests)) || Huge(old(out.len) + |StepText(text[i..])|)
    ensures ok ==> out.data != null && out.Contents() == old(out.Contents()) + StepText(text[i..])
    ensures !ok ==> out.Contents() == old(out.Contents())
  {
    var c := text[i];
    next := i + 1;
    var shortcut := ShortcutLetter(c);
    if shortcut != NUL {
      ok := out.Append([BACKSLASH, shortcut]);
      return;
    }
    if c < 0x20 {
      ok := out.Append(UnicodeEscape(c as nat));
      return;
    }
    var n := Utf8.SequenceLen(text[i..]);
    if n == 0 {
      ok := out.Append(UnicodeEscape(0xFFFD));
      return;
    }
    assert text[i..i + n] == text[i..][..n];
    ok := out.Append(text[i..i + n]);
    next := i + n;
  }

  lemma EscapeStep(text: bytes, i: nat)
    requires i < |text|
    ensures Escape(text[i..]) == StepText(text[i..]) + Escape(text[i + StepLen(text[i..])..])
  {
    assert text[i..][StepLen(text[i..])..] == text[i + StepLen(text[i..])..];
  }

  /** `json_write_string`. When the allocator refuses, what was already in the buffer is still its beginning. */
  method WriteString(out: Buffer, text: bytes) returns (ok: bool)
    requires out.Valid()
    modifies out, out.data, out.heap
    ensures out.Valid()
    ensures out.data == old(out.data) || fresh(out.data)
    ensures out.heap.requests >= old(out.heap.requests)
    ensures !ok ==> !out.heap.Granted(old(out.heap.requests)) || Huge(old(out.len) + |Quoted(text)|)
    ensures ok ==> out.data != null && out.Contents() == old(out.Contents()) + Quoted(text)
    ensures old(out.Contents()) <= out.Contents()
  {
    ghost var before := out.Contents();
    ok := out.Append([QUOTE]);
    if !ok {
      return;
    }
    var i := 0;
    ghost var target := out.Contents() + Escape(text);
    while i < |text|
      invariant 0 <= i <= |text|
      invariant out.Valid() && out.data != null && out.heap.requests >= old(out.heap.requests)
      invariant out.data == old(out.data) || fresh(out.data)
      invariant before <= out.Contents()
      invariant out.Contents() + Escape(text[i..]) == target
    {
      EscapeStep(text, i);
      ghost var written, step := out.Contents(), StepText(text[i..]);
      ghost var tail := Escape(text[i + StepLen(text[i..])..]);
      assert (written + step) + tail == target by {
        Assoc(written, step, tail);
      }
      ok, i := WriteStep(out, text, i);
      if !ok {
        return;
      }
      assert out.Contents() == written + step && Escape(text[i..]) == tail;
    }
    Assoc(before, [QUOTE], Escape(text));
    Assoc(before, [QUOTE] + Escape(text), [QUOTE]);
    assert target == out.Contents();
    ok := out.Append([QUOTE]);
  }
}
