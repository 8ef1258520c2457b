/** The recursive-descent parser of `json.c`: a cursor moved by loops, proved against `Grammar`. */
module JsonParser {
  import opened Bytes
  import opened Buffers
  import opened Json
  import Utf8
  import G = Grammar

  /** Half the largest size: no size computation that stays below it overflows. */
  const LIMIT: nat := SIZE_MAX / 2

  class Parser {
    const text: bytes
    const heap: Allocator
    var pos: nat
    var failed: bool

    ghost predicate Valid() reads this { pos <= |text| }

    constructor (text: bytes, heap: Allocator)
      ensures Valid() && this.text == text && this.heap == heap && pos == 0 && !failed
    {
      this.text := text;
      this.heap := heap;
      pos, failed := 0, false;
    }

    /** The allocator has refused nothing since the request, and strings of the text left fit a buffer of that length. */
    ghost predicate Room(from: nat, len: nat, p: nat)
      reads heap
    {
      heap.Granted(from) && len + 4 * (|text| - p) < LIMIT
    }

    /** The same for a whole value. */
    ghost predicate Calm(from: nat)
      reads heap
    {
      heap.Granted(from) && 4 * |text| < LIMIT
    }

    method SkipWhitespace()
      requires Valid()
      modifies `pos
      ensures Valid() && pos == G.SkipSpace(text, old(pos))
    {
      while pos < |text|
        invariant old(pos) <= pos <= |text|
        invariant G.SkipSpace(text, pos) == G.SkipSpace(text, old(pos))
      {
        var c := text[pos];
        if c != 0x20 && c != 0x09 && c != 0x0A && c != 0x0D {
          break;
        }
        pos := pos + 1;
      }
    }

    method Consume(expected: byte) returns (ok: bool)
      requires Valid()
      modifies `pos, `failed
      ensures Valid()
      ensures ok == G.Sees(text, old(pos), expected)
      ensures ok ==> pos == old(pos) + 1 && failed == old(failed)
      ensures !ok ==> pos == old(pos) && failed
    {
      if pos < |text| && text[pos] == expected {
        pos := pos + 1;
        return true;
      }
      failed := true;
      return false;
    }

    method ParseHex4() returns (ok: bool, value: nat)
      requires Valid()
      modifies `pos
      ensures Valid()
      ensures ok ==> G.Hex4(text, old(pos)) == G.Ok(value, pos)
      ensures !ok ==> G.Hex4(text, old(pos)).Fail? && pos == old(pos)
    {
      value := 0;
      if pos + 4 > |text| {
        return false, 0;
      }
      var i := 0;
      while i < 4
        invariant 0 <= i <= 4 && pos == old(pos) && pos + 4 <= |text|
        invariant forall j :: pos <= j < pos + i ==> G.HexValue(text[j]) >= 0
        invariant value == HexSum(text, pos, i)
      {
        var digit := G.HexValue(text[pos + i]);
        if digit < 0 {
          return false, 0;
        }
        assert HexSum(text, pos, i + 1) == HexSum(text, pos, i) * 16 + digit;
        value := value * 16 + digit;
        i := i + 1;
      }
      HexSumFour(text, pos);
      pos := pos + 4;
      ok := true;
    }

    /** The part of `parse_escape` after the first four digits: pair, or back up. */
    method ParseSurrogate(codeUnit: nat, out: Buffer) returns (ok: bool)
      requires Valid() && out.Valid() && out.heap == heap && codeUnit < 0x10000 && (G.IsHigh(codeUnit) || G.IsLow(codeUnit))
      modifies `pos, out, out.data, heap
      ensures Valid() && out.Valid() && (out.data == old(out.data) || fresh(out.data))
      ensures heap.requests >= old(heap.requests)
      ensures pos >= old(pos)
      ensures heap.Granted(old(heap.requests)) && old(out.len) + 4 < LIMIT ==> ok
      ensures ok ==> out.Contents() == old(out.Contents()) + G.Surrogate(text, codeUnit, old(pos)).value && out.len <= old(out.len) + 4
      ensures ok ==> pos == G.Surrogate(text, codeUnit, old(pos)).pos
    {
      hide Utf8.Encode, G.Hex4;
      if G.IsHigh(codeUnit) {
        if pos + 1 < |text| && text[pos] == BACKSLASH && text[pos + 1] == 0x75 {
          var saved := pos;
          pos := pos + 2;
          var got, low := ParseHex4();
          if got && 0xDC00 <= low <= 0xDFFF {
            ok := out.Append(Utf8.Encode(G.Combine(codeUnit, low)));
            return;
          }
          pos := saved;
        }
      }
      ok := out.Append(Utf8.Encode(0xFFFD));
    }

    method ParseEscape(out: Buffer) returns (ok: bool)
      requires Valid() && out.Valid() && out.heap == heap
      modifies `pos, out, out.data, heap
      ensures Valid() && out.Valid() && (out.data == old(out.data) || fresh(out.data))
      ensures heap.requests >= old(heap.requests)
      ensures ok ==> pos > old(pos)
      ensures Room(old(heap.requests), old(out.len), old(pos)) ==> ok == G.Escape(text, old(pos)).Ok?
      ensures ok ==>
        G.Escape(text, old(pos)).Ok? && G.Escape(text, old(pos)).pos == pos &&
        out.Contents() == old(out.Contents()) + G.Escape(text, old(pos)).value && out.len <= old(out.len) + 4
    {
      hide Utf8.Encode, G.Hex4;
      if pos >= |text| {
        return false;
      }
      var c := text[pos];
      pos := pos + 1;
      var simple := G.SimpleEscape(c);
      if simple.Some? {
        ok := out.Append([simple.value]);
        return;
      }
      if c != 0x75 {
        return false;
      }
      var got, codeUnit := ParseHex4();
      if !got {
        return false;
      }
      if G.IsHigh(codeUnit) || G.IsLow(codeUnit) {
        ok := ParseSurrogate(codeUnit, out);
        return;
      }
      ok := out.Append(Utf8.Encode(codeUnit));
    }

    /** One turn of the string loop: a byte copied through, or an escape decoded. */
    method ParsePiece(out: Buffer) returns (ok: bool)
      requires Valid() && out.Valid() && out.heap == heap && pos < |text|
      modifies `pos, out, out.data, heap
      ensures Valid() && out.Valid() && (out.data == old(out.data) || fresh(out.data))
      ensures heap.requests >= old(heap.requests)
      ensures ok ==> pos > old(pos)
      ensures Room(old(heap.requests), old(out.len), old(pos)) ==> ok == G.Piece(text, old(pos)).Ok?
      ensures ok ==>
        G.Piece(text, old(pos)).Ok? && G.Piece(text, old(pos)).pos == pos &&
        out.Contents() == old(out.Contents()) + G.Piece(text, old(pos)).value && out.len <= old(out.len) + 4
    {
      var c := text[pos];
      if c == BACKSLASH {
        pos := pos + 1;
        ok := ParseEscape(out);
        return;
      }
      ok := out.Append([c]);
      if !ok {
        return;
      }
      pos := pos + 1;
    }

    method ParseStringInto(out: Buffer) returns (ok: bool)
      requires Valid() && out.Valid() && out.heap == heap
      modifies this, out, out.data, heap
      ensures Valid() && out.Valid() && (out.data == old(out.data) || fresh(out.data))
      ensures heap.requests >= old(heap.requests)
      ensures old(failed) ==> failed
      ensures ok ==> pos > old(pos) && failed == old(failed)
      ensures Room(old(heap.requests), old(out.len), old(pos)) ==> ok == G.Str(text, old(pos)).Ok?
      ensures ok ==>
        G.Str(text, old(pos)).Ok? && G.Str(text, old(pos)).pos == pos &&
        out.Contents() == old(out.Contents()) + G.Str(text, old(pos)).value
    {
      hide G.Body;
      ok := Consume(QUOTE);
      if ok {
        ok := ParseBody(out);
      }
    }

    /** The loop of `parse_string_into`, after the opening quote. */
    method ParseBody(out: Buffer) returns (ok: bool)
      requires Valid() && out.Valid() && out.heap == heap
      modifies `pos, out, out.data, heap
      ensures Valid() && out.Valid() && (out.data == old(out.data) || fresh(out.data))
      ensures heap.requests >= old(heap.requests)
      ensures ok ==> pos > old(pos)
      ensures Room(old(heap.requests), old(out.len), old(pos)) ==> ok == G.Body(text, old(pos)).Ok?
      ensures ok ==>
        G.Body(text, old(pos)).Ok? && G.Body(text, old(pos)).pos == pos &&
        out.Contents() == old(out.Contents()) + G.Body(text, old(pos)).value
    {
      hide G.Body, G.Piece;
      ghost var body := G.Body(text, pos);
      ghost var before := out.Contents();
      ghost var read: bytes := [];
      PrependNone(body);
      while pos < |text|
        invariant old(pos) <= pos <= |text|
        invariant out.Valid() && (out.data == old(out.data) || fresh(out.data))
        invariant heap.requests >= old(heap.requests)
        invariant out.Contents() == before + read && out.len + 4 * (|text| - pos) <= old(out.len) + 4 * (|text| - old(pos))
        invariant body == G.Prepend(read, G.Body(text, pos))
        decreases |text| - pos
      {
        G.BodyUnfold(text, pos);
        var c := text[pos];
        if c == QUOTE {
          pos := pos + 1;
          return true;
        }
        ghost var piece := G.Piece(text, pos);
        ok := ParsePiece(out);
        if !ok {
          return;
        }
        PrependTwice(read, piece.value, G.Body(text, pos));
        Assoc(before, read, piece.value);
        read := read + piece.value;
      }
      G.BodyUnfold(text, pos);
      return false;
    }

    method ParseString() returns (r: Option<Value>)
      requires Valid() && !failed
      modifies this, heap
      ensures Valid() && heap.requests >= old(heap.requests)
      ensures failed <==> r.None?
      ensures r.Some? ==> pos > old(pos)
      ensures Calm(old(heap.requests)) ==> r.Some? == G.Str(text, old(pos)).Ok?
      ensures r.Some? ==> G.Str(text, old(pos)).Ok? && G.Str(text, old(pos)).pos == pos && r.value == String(G.Str(text, old(pos)).value)
    {
      var buffer := new Buffer(heap);
      var ok := ParseStringInto(buffer);
      if !ok {
        failed := true;
        return None;
      }
      var granted := heap.Request();
      if !granted {
        failed := true;
        return None;
      }
      if buffer.data == null {
        var terminator := heap.Request();
        if !terminator {
          failed := true;
          return None;
        }
        return Some(String([]));
      }
      return Some(String(buffer.data[..buffer.len]));
    }

    /** Sign and number bytes; says whether a digit was among them. */
    method ScanNumber() returns (digits: bool)
      requires Valid()
      modifies `pos
      ensures Valid() && pos == G.NumberEnd(text, old(pos))
      ensures digits == G.HasDigit(text, old(pos), pos) && (digits ==> pos > old(pos))
    {
      var start := pos;
      digits := false;
      if pos < |text| && (text[pos] == 0x2D || text[pos] == 0x2B) {
        pos := pos + 1;
      }
      while pos < |text|
        invariant start <= pos <= |text|
        invariant G.NumberEnd(text, start) == G.NumberEnd(text, pos)
        invariant digits == G.HasDigit(text, start, pos)
      {
        var c := text[pos];
        HasDigitStep(text, start, pos);
        if 0x30 <= c <= 0x39 {
          digits := true;
          pos := pos + 1;
        } else if c == 0x2E || c == 0x65 || c == 0x45 || c == 0x2B || c == 0x2D {
          pos := pos + 1;
        } else {
          break;
        }
      }
    }

    method ParseNumber() returns (r: Option<Value>)
      requires Valid() && !failed
      modifies this, heap
      ensures Valid() && heap.requests >= old(heap.requests)
      ensures failed <==> r.None?
      ensures r.Some? ==> pos > old(pos)
      ensures Calm(old(heap.requests)) ==> r.Some? == G.Num(text, old(pos)).Ok?
      ensures r.Some? ==> G.Num(text, old(pos)) == G.Ok(r.value, pos)
    {
      var start := pos;
      hide G.HasDigit, G.NumberEnd;
      var digits := ScanNumber();
      if !digits {
        failed := true;
        return None;
      }
      assert pos > start;
      var len := pos - start;
      if len >= G.NUMBER_TEXT_MAX {
        failed := true;
        return None;
      }
      var granted := heap.Request();
      if !granted {
        failed := true;
        return None;
      }
      return Some(Number(text[start..start + len]));
    }

    method ParseLiteral(word: bytes, v: Value) returns (r: Option<Value>)
      requires Valid() && !failed && word != []
      modifies this, heap
      ensures Valid() && heap.requests >= old(heap.requests)
      ensures failed <==> r.None?
      ensures r.Some? ==> pos > old(pos)
      ensures Calm(old(heap.requests)) ==> r.Some? == G.Literal(text, old(pos), word, v).Ok?
      ensures r.Some? ==> G.Literal(text, old(pos), word, v) == G.Ok(r.value, pos)
    {
      if pos + |word| > |text| || text[pos..pos + |word|] != word {
        failed := true;
        return None;
      }
      pos := pos + |word|;
      var granted := heap.Request();
      if !granted {
        failed := true;
        return None;
      }
      return Some(v);
    }

    method ParseArray() returns (r: Option<Value>)
      requires Valid() && !failed && G.Sees(text, pos, LBRACKET)
      modifies this, heap
      ensures Valid() && heap.requests >= old(heap.requests)
      ensures failed <==> r.None?
      ensures r.Some? ==> pos > old(pos)
      ensures Calm(old(heap.requests)) ==> r.Some? == G.ArrayAt(text, old(pos)).Ok?
      ensures r.Some? ==> G.ArrayAt(text, old(pos)) == G.Ok(r.value, pos)
      decreases |text| - pos, 0
    {
      var ok := Consume(LBRACKET);
      var granted := heap.Request();
      if !granted {
        failed := true;
        return None;
      }
      SkipWhitespace();
      if pos < |text| && text[pos] == RBRACKET {
        pos := pos + 1;
        return Some(Array([]));
      }
      var items := ParseItems();
      if items.None? {
        return None;
      }
      return Some(Array(items.value));
    }

    /** One turn of the array loop: item, then a comma (`more`) or the closing bracket. */
    method ParseItem() returns (r: Option<Value>, more: bool)
      requires Valid() && !failed
      modifies this, heap
      ensures Valid() && heap.requests >= old(heap.requests)
      ensures failed <==> r.None?
      ensures r.Some? ==> pos > old(pos)
      ensures r.None? && Calm(old(heap.requests)) ==> G.Items(text, old(pos)).Fail?
      ensures r.Some? ==>
        G.Items(text, old(pos)) == (if more then G.Prepend([r.value], G.Items(text, pos)) else G.Ok([r.value], pos))
      decreases |text| - pos, 2
    {
      hide G.Val, G.Items;
      G.ItemsUnfold(text, pos);
      more := false;
      r := ParseValue();
      if r.None? {
        return;
      }
      SkipWhitespace();
      if pos < |text| && text[pos] == COMMA {
        pos := pos + 1;
        more := true;
        return;
      }
      if pos < |text| && text[pos] == RBRACKET {
        pos := pos + 1;
        return;
      }
      failed := true;
      r := None;
    }

    /** The loop of the array parser, through the closing bracket. */
    method ParseItems() returns (r: Option<seq<Value>>)
      requires Valid() && !failed
      modifies this, heap
      ensures Valid() && heap.requests >= old(heap.requests)
      ensures failed <==> r.None?
      ensures r.Some? ==> pos > old(pos)
      ensures Calm(old(heap.requests)) ==> r.Some? == G.Items(text, old(pos)).Ok?
      ensures r.Some? ==> G.Items(text, old(pos)) == G.Ok(r.value, pos)
      decreases |text| - pos, 3
    {
      ghost var whole := G.Items(text, pos);
      var items: seq<Value> := [];
      PrependNone(whole);
      while true
        invariant old(pos) <= pos <= |text| && !failed && heap.requests >= old(heap.requests)
        invariant whole == G.Prepend(items, G.Items(text, pos))
        decreases |text| - pos
      {
        var item, more := ParseItem();
        if item.None? {
          return None;
        }
        ghost var rest := if more then G.Items(text, pos) else G.Ok([], pos);
        PrependTwice(items, [item.value], rest);
        items := items + [item.value];
        if !more {
          return Some(items);
        }
      }
    }

    /** A key and its colon. */
    method ParseKey() returns (r: Option<bytes>)
      requires Valid() && !failed
      modifies this, heap
      ensures Valid() && heap.requests >= old(heap.requests)
      ensures failed <==> r.None?
      ensures r.Some? ==> pos > old(pos)
      ensures Calm(old(heap.requests)) ==> r.Some? == G.Key(text, old(pos)).Ok?
      ensures r.Some? ==> G.Key(text, old(pos)) == G.Ok(r.value, pos)
    {
      hide G.Str, G.SkipSpace;
      SkipWhitespace();
      var key := new Buffer(heap);
      var ok := ParseStringInto(key);
      if !ok {
        failed := true;
        return None;
      }
      ghost var parsed := G.Str(text, G.SkipSpace(text, old(pos)));
      assert key.Contents() == parsed.value && parsed.pos == pos;
      SkipWhitespace();
      ok := Consume(COLON);
      if !ok {
        return None;
      }
      if key.data == null {
        var granted := heap.Request();
        return Some([]);
      }
      return Some(key.data[..key.len]);
    }

    /** `"key": value`; None when the object has to be given up. */
    method ParsePair() returns (r: Option<Member>)
      requires Valid() && !failed
      modifies this, heap
      ensures Valid() && heap.requests >= old(heap.requests)
      ensures failed <==> r.None?
      ensures r.Some? ==> pos > old(pos)
      ensures Calm(old(heap.requests)) ==> r.Some? == G.Pair(text, old(pos)).Ok?
      ensures r.Some? ==> G.Pair(text, old(pos)) == G.Ok(r.value, pos)
      decreases |text| - pos, 2
    {
      hide G.Val, G.Pair, G.Key;
      G.PairUnfold(text, pos);
      var key := ParseKey();
      if key.None? {
        return None;
      }
      var member := ParseValue();
      if member.None? {
        return None;
      }
      return Some(Member(key.value, member.value));
    }

    method ParseObject() returns (r: Option<Value>)
      requires Valid() && !failed && G.Sees(text, pos, LBRACE)
      modifies this, heap
      ensures Valid() && heap.requests >= old(heap.requests)
      ensures failed <==> r.None?
      ensures r.Some? ==> pos > old(pos)
      ensures Calm(old(heap.requests)) ==> r.Some? == G.ObjectAt(text, old(pos)).Ok?
      ensures r.Some? ==> G.ObjectAt(text, old(pos)) == G.Ok(r.value, pos)
      decreases |text| - pos, 0
    {
      var ok := Consume(LBRACE);
      var granted := heap.Request();
      if !granted {
        failed := true;
        return None;
      }
      SkipWhitespace();
      if pos < |text| && text[pos] == RBRACE {
        pos := pos + 1;
        return Some(Object([]));
      }
      var members := ParseMembers();
      if members.None? {
        return None;
      }
      return Some(Object(members.value));
    }

    /** One turn of the object loop: member, then a comma (`more`) or the closing bracket. */
    method ParseMember() returns (r: Option<Member>, more: bool)
      requires Valid() && !failed
      modifies this, heap
      ensures Valid() && heap.requests >= old(heap.requests)
      ensures failed <==> r.None?
      ensures r.Some? ==> pos > old(pos)
      ensures r.None? && Calm(old(heap.requests)) ==> G.Members(text, old(pos)).Fail?
      ensures r.Some? ==>
        G.Members(text, old(pos)) == (if more then G.Prepend([r.value], G.Members(text, pos)) else G.Ok([r.value], pos))
      decreases |text| - pos, 3
    {
      hide G.Pair, G.Members;
      G.MembersUnfold(text, pos);
      more := false;
      r := ParsePair();
      if r.None? {
        return;
      }
      SkipWhitespace();
      if pos < |text| && text[pos] == COMMA {
        pos := pos + 1;
        more := true;
        return;
      }
      if pos < |text| && text[pos] == RBRACE {
        pos := pos + 1;
        return;
      }
      failed := true;
      r := None;
    }

    /** The loop of the object parser, through the closing bracket. */
    method ParseMembers() returns (r: Option<seq<Member>>)
      requires Valid() && !failed
      modifies this, heap
      ensures Valid() && heap.requests >= old(heap.requests)
      ensures failed <==> r.None?
      ensures r.Some? ==> pos > old(pos)
      ensures Calm(old(heap.requests)) ==> r.Some? == G.Members(text, old(pos)).Ok?
      ensures r.Some? ==> G.Members(text, old(pos)) == G.Ok(r.value, pos)
      decreases |text| - pos, 4
    {
      ghost var whole := G.Members(text, pos);
      var members: seq<Member> := [];
      PrependNone(whole);
      while true
        invariant old(pos) <= pos <= |text| && !failed && heap.requests >= old(heap.requests)
        invariant whole == G.Prepend(members, G.Members(text, pos))
        decreases |text| - pos
      {
        var member, more := ParseMember();
        if member.None? {
          return None;
        }
        ghost var rest := if more then G.Members(text, pos) else G.Ok([], pos);
        PrependTwice(members, [member.value], rest);
        members := members + [member.value];
        if !more {
          return Some(members);
        }
      }
    }

    method ParseValue() returns (r: Option<Value>)
      requires Valid() && !failed
      modifies this, heap
      ensures Valid() && heap.requests >= old(heap.requests)
      ensures failed <==> r.None?
      ensures r.Some? ==> pos > old(pos)
      ensures Calm(old(heap.requests)) ==> r.Some? == G.Val(text, old(pos)).Ok?
      ensures r.Some? ==> G.Val(text, old(pos)) == G.Ok(r.value, pos)
      decreases |text| - pos, 1
    {
      SkipWhitespace();
      if pos >= |text| {
        failed := true;
        return None;
      }
      match text[pos]
      case 0x7B => r := ParseObject();
      case 0x5B => r := ParseArray();
      case 0x22 => r := ParseString();
      case 0x74 => r := ParseLiteral(G.TRUE_WORD, Bool(true));
      case 0x66 => r := ParseLiteral(G.FALSE_WORD, Bool(false));
      case 0x6E => r := ParseLiteral(G.NULL_WORD, Null);
      case _ => r := ParseNumber();
    }
  }

  ghost function HexSum(t: bytes, p: nat, n: nat): int
    requires p + n <= |t|
  {
    if n == 0 then 0 else HexSum(t, p, n - 1) * 16 + G.HexValue(t[p + n - 1])
  }

  lemma HexSumFour(t: bytes, p: nat)
    requires p + 4 <= |t|
    ensures HexSum(t, p, 4) == G.HexValue(t[p]) * 0x1000 + G.HexValue(t[p + 1]) * 0x100 + G.HexValue(t[p + 2]) * 0x10 + G.HexValue(t[p + 3])
  {
    assert HexSum(t, p, 1) == G.HexValue(t[p]);
    assert HexSum(t, p, 2) == HexSum(t, p, 1) * 16 + G.HexValue(t[p + 1]);
    assert HexSum(t, p, 3) == HexSum(t, p, 2) * 16 + G.HexValue(t[p + 2]);
  }

  lemma PrependNone<T>(r: G.Parsed<seq<T>>)
    ensures G.Prepend([], r) == r
  {
    if r.Ok? {
      assert [] + r.value == r.value;
    }
  }

  lemma PrependTwice<T>(a: seq<T>, b: seq<T>, r: G.Parsed<seq<T>>)
    ensures G.Prepend(a, G.Prepend(b, r)) == G.Prepend(a + b, r)
  {
    if r.Ok? {
      assert a + (b + r.value) == (a + b) + r.value;
    }
  }

  lemma HasDigitStep(t: bytes, p: nat, q: nat)
    requires p <= q < |t|
    ensures G.HasDigit(t, p, q + 1) == (G.HasDigit(t, p, q) || G.IsDigit(t[q]))
  {
  }

  /**
   * `json_parse_len`: what it returns is the document, and unless the allocator refuses a request or the text is too large for a
   * size computation, it returns the document whenever there is one.
   */
  method ParseLen(text: bytes, heap: Allocator) returns (r: Option<Value>)
    modifies heap
    ensures heap.requests >= old(heap.requests)
    ensures r.Some? ==> r == G.Document(text)
    ensures heap.Granted(old(heap.requests)) && 4 * |text| < LIMIT ==> r == G.Document(text)
  {
    var p := new Parser(text, heap);
    r := p.ParseValue();
    if p.failed {
      r := None;
    }
  }
}
