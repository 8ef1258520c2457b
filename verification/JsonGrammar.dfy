/** The tree the parser builds. */
module Json {
  import opened Bytes

  /** Numbers keep their text: what `strtod` makes of it is not modelled. */
  datatype Value =
    | Null
    | Bool(b: bool)
    | Number(text: bytes)
    | String(s: bytes)
    | Array(items: seq<Value>)
    | Object(members: seq<Member>)

  datatype Member = Member(key: bytes, value: Value)

  datatype Option<+T> = None | Some(value: T)
}

/** What parsing means: a function from a text and a position to a value and the position after it. */
module Grammar {
  import opened Bytes
  import opened Json
  import Utf8

  const NUMBER_TEXT_MAX: nat := 40

  datatype Parsed<+T> = Fail | Ok(value: T, pos: nat)

  predicate IsSpace(c: byte) { c == 0x20 || c == 0x09 || c == 0x0A || c == 0x0D }

  function SkipSpace(t: bytes, p: nat): (q: nat)
    requires p <= |t|
    ensures p <= q <= |t|
    ensures q < |t| ==> !IsSpace(t[q])
    decreases |t| - p
  {
    if p < |t| && IsSpace(t[p]) then SkipSpace(t, p + 1) else p
  }

  predicate Sees(t: bytes, p: nat, c: byte) { p < |t| && t[p] == c }

  function HexValue(c: byte): (n: int)
    ensures -1 <= n < 16
  {
    if 0x30 <= c <= 0x39 then c as int - 0x30
    else if 0x61 <= c <= 0x66 then c as int - 0x61 + 10
    else if 0x41 <= c <= 0x46 then c as int - 0x41 + 10
    else -1
  }

  function Hex4(t: bytes, p: nat): (r: Parsed<nat>)
    requires p <= |t|
    ensures r.Ok? ==> r.pos == p + 4 <= |t| && r.value < 0x10000
  {
    if p + 4 > |t| then Fail
    else if HexValue(t[p]) < 0 || HexValue(t[p + 1]) < 0 || HexValue(t[p + 2]) < 0 || HexValue(t[p + 3]) < 0 then Fail
    else Ok(HexValue(t[p]) * 0x1000 + HexValue(t[p + 1]) * 0x100 + HexValue(t[p + 2]) * 0x10 + HexValue(t[p + 3]), p + 4)
  }

  predicate IsHigh(u: nat) { 0xD800 <= u <= 0xDBFF }
  predicate IsLow(u: nat) { 0xDC00 <= u <= 0xDFFF }

  function Combine(high: nat, low: nat): (cp: nat)
    requires IsHigh(high) && IsLow(low)
    ensures 0x10000 <= cp < 0x110000
  {
    0x10000 + (high - 0xD800) * 0x400 + (low - 0xDC00)
  }

  /** The byte a one-letter escape stands for, or None. */
  function SimpleEscape(c: byte): (o: Option<byte>)
  {
    match c
    case 0x22 => Some(QUOTE)
    case 0x5C => Some(BACKSLASH)
    case 0x2F => Some(SLASH)
    case 0x62 => Some(0x08)
    case 0x66 => Some(0x0C)
    case 0x6E => Some(0x0A)
    case 0x72 => Some(0x0D)
    case 0x74 => Some(0x09)
    case _ => None
  }

  /** The low half that pairs with a high surrogate whose escape ended at `p`, if one follows. */
  function LowHalf(t: bytes, p: nat): (r: Parsed<nat>)
    requires p <= |t|
    ensures r.Ok? ==> IsLow(r.value) && r.pos == p + 6 <= |t|
  {
    if p + 1 < |t| && t[p] == BACKSLASH && t[p + 1] == 0x75 then
      var low := Hex4(t, p + 2);
      if low.Ok? && IsLow(low.value) then low else Fail
    else Fail
  }

  /** A surrogate whose escape ended at `p`: paired when it can be, U+FFFD otherwise. */
  function Surrogate(t: bytes, unit: nat, p: nat): (r: Parsed<bytes>)
    requires p <= |t| && (IsHigh(unit) || IsLow(unit))
    ensures r.Ok? && p <= r.pos <= |t| && r.value != []
  {
    if IsHigh(unit) && LowHalf(t, p).Ok? then Ok(Utf8.Encode(Combine(unit, LowHalf(t, p).value)), p + 6)
    else Ok(Utf8.Encode(0xFFFD), p)
  }

  /** One escape; `p` is just after the backslash. */
  function Escape(t: bytes, p: nat): (r: Parsed<bytes>)
    requires p <= |t|
    ensures r.Ok? ==> p < r.pos <= |t| && r.value != []
  {
    if p == |t| then Fail
    else if SimpleEscape(t[p]).Some? then Ok([SimpleEscape(t[p]).value], p + 1)
    else if t[p] != 0x75 then Fail
    else
      var unit := Hex4(t, p + 1);
      if unit.Fail? then Fail
      else if IsHigh(unit.value) || IsLow(unit.value) then Surrogate(t, unit.value, unit.pos)
      else Ok(Utf8.Encode(unit.value), unit.pos)
  }

  function Prepend<T>(front: seq<T>, r: Parsed<seq<T>>): (r': Parsed<seq<T>>)
  {
    if r.Ok? then Ok(front + r.value, r.pos) else Fail
  }

  /** What one byte of string text, or the escape it starts, stands for. */
  function Piece(t: bytes, p: nat): (r: Parsed<bytes>)
    requires p < |t|
    ensures r.Ok? ==> p < r.pos <= |t| && r.value != []
  {
    if t[p] == BACKSLASH then Escape(t, p + 1) else Ok([t[p]], p + 1)
  }

  /** The rest of a string; `p` is after the opening quote. */
  function Body(t: bytes, p: nat): (r: Parsed<bytes>)
    requires p <= |t|
    ensures r.Ok? ==> p < r.pos <= |t| && t[r.pos - 1] == QUOTE
    decreases |t| - p
  {
    if p == |t| then Fail
    else if t[p] == QUOTE then Ok([], p + 1)
    else
      var piece := Piece(t, p);
      if piece.Fail? then Fail else Prepend(piece.value, Body(t, piece.pos))
  }

  function Str(t: bytes, p: nat): (r: Parsed<bytes>)
    requires p <= |t|
    ensures r.Ok? ==> p < r.pos <= |t|
  {
    if Sees(t, p, QUOTE) then Body(t, p + 1) else Fail
  }

  predicate IsDigit(c: byte) { 0x30 <= c <= 0x39 }
  predicate IsSign(c: byte) { c == 0x2B || c == 0x2D }
  predicate IsNumberByte(c: byte) { IsDigit(c) || IsSign(c) || c == 0x2E || c == 0x65 || c == 0x45 }

  function NumberEnd(t: bytes, p: nat): (q: nat)
    requires p <= |t|
    ensures p <= q <= |t|
    ensures q < |t| ==> !IsNumberByte(t[q])
    ensures forall i :: p <= i < q ==> IsNumberByte(t[i])
    decreases |t| - p
  {
    if p < |t| && IsNumberByte(t[p]) then NumberEnd(t, p + 1) else p
  }

  predicate HasDigit(t: bytes, p: nat, q: nat)
    requires q <= |t|
  {
    exists i :: p <= i < q && IsDigit(t[i])
  }

  /** Any run of number bytes holding a digit and shorter than the text buffer; the grammar of RFC 8259 is not enforced. */
  function Num(t: bytes, p: nat): (r: Parsed<Value>)
    requires p <= |t|
    ensures r.Ok? ==> p < r.pos <= |t|
  {
    var q := NumberEnd(t, p);
    if HasDigit(t, p, q) && q - p < NUMBER_TEXT_MAX then Ok(Number(t[p..q]), q) else Fail
  }

  const TRUE_WORD: bytes := [0x74, 0x72, 0x75, 0x65]
  const FALSE_WORD: bytes := [0x66, 0x61, 0x6C, 0x73, 0x65]
  const NULL_WORD: bytes := [0x6E, 0x75, 0x6C, 0x6C]

  function Literal(t: bytes, p: nat, word: bytes, v: Value): (r: Parsed<Value>)
    requires p <= |t| && word != []
    ensures r.Ok? ==> p < r.pos <= |t|
  {
    if p + |word| <= |t| && t[p..p + |word|] == word then Ok(v, p + |word|) else Fail
  }

  /** One value, with the white space before it. */
  function Val(t: bytes, p: nat): (r: Parsed<Value>)
    requires p <= |t|
    ensures r.Ok? ==> p < r.pos <= |t|
    decreases |t| - p, 2
  {
    var q := SkipSpace(t, p);
    if q == |t| then Fail
    else if t[q] == LBRACE then ObjectAt(t, q)
    else if t[q] == LBRACKET then ArrayAt(t, q)
    else if t[q] == QUOTE then
      var r := Str(t, q);
      if r.Ok? then Ok(String(r.value), r.pos) else Fail
    else if t[q] == 0x74 then Literal(t, q, TRUE_WORD, Bool(true))
    else if t[q] == 0x66 then Literal(t, q, FALSE_WORD, Bool(false))
    else if t[q] == 0x6E then Literal(t, q, NULL_WORD, Null)
    else Num(t, q)
  }

  /** An object or an array; `p` is at its opening bracket. */
  function ObjectAt(t: bytes, p: nat): (r: Parsed<Value>)
    requires p < |t|
    ensures r.Ok? ==> p < r.pos <= |t|
    decreases |t| - p, 1
  {
    var q := SkipSpace(t, p + 1);
    if Sees(t, q, RBRACE) then Ok(Object([]), q + 1)
    else
      var r := Members(t, q);
      if r.Ok? then Ok(Object(r.value), r.pos) else Fail
  }

  function ArrayAt(t: bytes, p: nat): (r: Parsed<Value>)
    requires p < |t|
    ensures r.Ok? ==> p < r.pos <= |t|
    decreases |t| - p, 1
  {
    var q := SkipSpace(t, p + 1);
    if Sees(t, q, RBRACKET) then Ok(Array([]), q + 1)
    else
      var r := Items(t, q);
      if r.Ok? then Ok(Array(r.value), r.pos) else Fail
  }

  /** One or more array items and the closing bracket. */
  function Items(t: bytes, p: nat): (r: Parsed<seq<Value>>)
    requires p <= |t|
    ensures r.Ok? ==> p < r.pos <= |t|
    decreases |t| - p, 3
  {
    var item := Val(t, p);
    if item.Fail? then Fail
    else
      var q := SkipSpace(t, item.pos);
      if Sees(t, q, COMMA) then Prepend([item.value], Items(t, q + 1))
      else if Sees(t, q, RBRACKET) then Ok([item.value], q + 1)
      else Fail
  }

  /** A key and its colon. */
  function Key(t: bytes, p: nat): (r: Parsed<bytes>)
    requires p <= |t|
    ensures r.Ok? ==> p < r.pos <= |t|
  {
    var key := Str(t, SkipSpace(t, p));
    if key.Ok? && Sees(t, SkipSpace(t, key.pos), COLON) then Ok(key.value, SkipSpace(t, key.pos) + 1) else Fail
  }

  /** One `"key": value`. */
  function Pair(t: bytes, p: nat): (r: Parsed<Member>)
    requires p <= |t|
    ensures r.Ok? ==> p < r.pos <= |t|
    decreases |t| - p, 3
  {
    var key := Key(t, p);
    if key.Fail? then Fail
    else
      var v := Val(t, key.pos);
      if v.Ok? then Ok(Member(key.value, v.value), v.pos) else Fail
  }

  /** One or more members and the closing brace. */
  function Members(t: bytes, p: nat): (r: Parsed<seq<Member>>)
    requires p <= |t|
    ensures r.Ok? ==> p < r.pos <= |t|
    decreases |t| - p, 4
  {
    var member := Pair(t, p);
    if member.Fail? then Fail
    else
      var q := SkipSpace(t, member.pos);
      if Sees(t, q, COMMA) then Prepend([member.value], Members(t, q + 1))
      else if Sees(t, q, RBRACE) then Ok([member.value], q + 1)
      else Fail
  }

  /** `json_parse_len`: bytes after the first value are ignored. */
  function Document(t: bytes): (r: Option<Value>)
  {
    var v := Val(t, 0);
    if v.Ok? then Some(v.value) else None
  }

  lemma ItemsUnfold(t: bytes, p: nat)
    requires p <= |t|
    ensures Items(t, p).Ok? ==> Val(t, p).Ok?
    ensures Val(t, p).Ok? ==>
      var item := Val(t, p);
      var q := SkipSpace(t, item.pos);
      Items(t, p) ==
        (if Sees(t, q, COMMA) then Prepend([item.value], Items(t, q + 1))
         else if Sees(t, q, RBRACKET) then Ok([item.value], q + 1) else Fail)
  {
  }

  lemma PairUnfold(t: bytes, p: nat)
    requires p <= |t|
    ensures Pair(t, p).Ok? <==> Key(t, p).Ok? && Val(t, Key(t, p).pos).Ok?
    ensures Pair(t, p).Ok? ==>
      Pair(t, p) == Ok(Member(Key(t, p).value, Val(t, Key(t, p).pos).value), Val(t, Key(t, p).pos).pos)
  {
  }

  lemma MembersUnfold(t: bytes, p: nat)
    requires p <= |t|
    ensures Members(t, p).Ok? ==> Pair(t, p).Ok?
    ensures Pair(t, p).Ok? ==>
      var member := Pair(t, p);
      var q := SkipSpace(t, member.pos);
      Members(t, p) ==
        (if Sees(t, q, COMMA) then Prepend([member.value], Members(t, q + 1))
         else if Sees(t, q, RBRACE) then Ok([member.value], q + 1) else Fail)
  {
  }

  lemma BodyUnfold(t: bytes, p: nat)
    requires p <= |t|
    ensures Body(t, p) ==
      (if p == |t| then Fail
       else if t[p] == QUOTE then Ok([], p + 1)
       else if Piece(t, p).Fail? then Fail
       else Prepend(Piece(t, p).value, Body(t, Piece(t, p).pos)))
  {
  }

  lemma ValUnfold(t: bytes, p: nat)
    requires p <= |t|
    ensures Val(t, p).Ok? ==> SkipSpace(t, p) < |t|
    ensures
      var q := SkipSpace(t, p);
      q < |t| ==>
      Val(t, p) ==
        (if t[q] == LBRACE then ObjectAt(t, q)
         else if t[q] == LBRACKET then ArrayAt(t, q)
         else if t[q] == QUOTE then (if Str(t, q).Ok? then Ok(String(Str(t, q).value), Str(t, q).pos) else Fail)
         else if t[q] == 0x74 then Literal(t, q, TRUE_WORD, Bool(true))
         else if t[q] == 0x66 then Literal(t, q, FALSE_WORD, Bool(false))
         else if t[q] == 0x6E then Literal(t, q, NULL_WORD, Null)
         else Num(t, q))
  {
  }

  lemma ContainersUnfold(t: bytes, p: nat)
    requires p < |t|
    ensures
      var q := SkipSpace(t, p + 1);
      && ObjectAt(t, p) ==
        (if Sees(t, q, RBRACE) then Ok(Object([]), q + 1)
         else if Members(t, q).Ok? then Ok(Object(Members(t, q).value), Members(t, q).pos) else Fail)
      && ArrayAt(t, p) ==
        (if Sees(t, q, RBRACKET) then Ok(Array([]), q + 1)
         else if Items(t, q).Ok? then Ok(Array(Items(t, q).value), Items(t, q).pos) else Fail)
      && (q == |t| ==> Members(t, q).Fail? && Items(t, q).Fail?)
  {
  }
}
