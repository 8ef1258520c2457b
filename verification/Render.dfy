/**
 * Documents written out in the ways RFC 8259 allows, from literal texts, and what they read as: white space anywhere between
 * tokens, every short escape, hex digits of either case, and numbers.
 */
module Render {
  import opened Bytes
  import opened Json
  import opened Grammar
  import opened Embedding
  import opened StringRoundTrip
  import opened JsonText
  import opened MendedText
  import W = JsonWriter
  import G = Grammar
  import Utf8

  // ---------------------------------------------------------------- texts

  /** One character of a string: a byte that stands for itself, a short escape, or a code point in hex. */
  datatype Char = Bare(b: byte) | Short(k: nat) | Hex(cp: nat, caps: seq<bool>)

  /** A string token: characters one by one, or what the writer makes of a text. */
  datatype Text = Spelled(chars: seq<Char>) | Written(s: bytes)

  datatype Doc =
    | NullDoc
    | TrueDoc
    | FalseDoc
    | NumberDoc(text: bytes)
    | TextDoc(token: Text)
    | ArrayDoc(inside: bytes, items: seq<Item>)
    | ObjectDoc(inside: bytes, entries: seq<Entry>)

  /** A value with the white space around it. */
  datatype Item = Item(before: bytes, doc: Doc, after: bytes)

  datatype Entry = Entry(before: bytes, key: Text, colon: bytes, item: Item)

  /** The letters of the short escapes, and the bytes they stand for. */
  const LETTERS: string := "\"\\/bfnrt"
  const MEANT: bytes := [34, 92, 47, 8, 12, 10, 13, 9]

  function HexChar(n: nat, capital: bool): (c: byte)
    requires n < 16
  {
    Ascii(if capital then "0123456789ABCDEF" else "0123456789abcdef")[n]
  }

  /** `\uXXXX` */
  function HexText(unit: nat, caps: seq<bool>): (t: bytes)
    requires unit < 0x10000 && |caps| == 4
    ensures |t| == 6
  {
    Ascii("\\u") + [HexChar(unit / 4096, caps[0]), HexChar(unit / 256 % 16, caps[1]),
                    HexChar(unit / 16 % 16, caps[2]), HexChar(unit % 16, caps[3])]
  }

  /** A code point above 0xFFFF is written as two surrogates. */
  predicate CharFits(c: Char)
  {
    match c
    case Bare(b) => b != 34 && b != 92
    case Short(k) => k < 8
    case Hex(cp, caps) => (cp < 0xD800 || 0xE000 <= cp < 0x110000) && |caps| == if cp < 0x10000 then 4 else 8
  }

  function CharText(c: Char): (t: bytes)
    requires CharFits(c)
    ensures t != []
  {
    match c
    case Bare(b) => [b]
    case Short(k) => Ascii("\\") + [Ascii(LETTERS)[k]]
    case Hex(cp, caps) =>
      if cp < 0x10000 then HexText(cp, caps)
      else HexText(0xD800 + (cp - 0x10000) / 0x400, caps[..4]) + HexText(0xDC00 + (cp - 0x10000) % 0x400, caps[4..])
  }

  function CharMeaning(c: Char): (s: bytes)
    requires CharFits(c)
  {
    match c case Bare(b) => [b] case Short(k) => [MEANT[k]] case Hex(cp, _) => Utf8.Encode(cp)
  }

  predicate CharsFit(cs: seq<Char>) { cs == [] || (CharFits(cs[0]) && CharsFit(cs[1..])) }

  function CharsText(cs: seq<Char>): (t: bytes)
    requires CharsFit(cs)
  {
    if cs == [] then [] else CharText(cs[0]) + CharsText(cs[1..])
  }

  function CharsMeaning(cs: seq<Char>): (s: bytes)
    requires CharsFit(cs)
  {
    if cs == [] then [] else CharMeaning(cs[0]) + CharsMeaning(cs[1..])
  }

  predicate TextFits(t: Text) { t.Spelled? ==> CharsFit(t.chars) }

  function TextText(t: Text): (r: bytes)
    requires TextFits(t)
  {
    match t case Spelled(cs) => [34] + (CharsText(cs) + [34]) case Written(s) => W.Quoted(s)
  }

  function TextMeaning(t: Text): (s: bytes)
    requires TextFits(t)
  {
    match t case Spelled(cs) => CharsMeaning(cs) case Written(s) => Utf8.Repair(s)
  }

  /** Blank, tab, line feed, carriage return. */
  predicate Blank(s: bytes) { forall i :: 0 <= i < |s| ==> s[i] in {32, 9, 10, 13} }

  const NUMBER_BYTES: string := "0123456789+-.eE"

  /** A number text as the parser takes it: such bytes, a digit among them, and at most 39. */
  predicate NumberFits(t: bytes)
  {
    && |t| <= 39
    && (forall i :: 0 <= i < |t| ==> t[i] in Ascii(NUMBER_BYTES))
    && (exists i :: 0 <= i < |t| && 48 <= t[i] <= 57)
  }

  predicate Fits(d: Doc)
  {
    match d
    case NumberDoc(t) => NumberFits(t)
    case TextDoc(t) => TextFits(t)
    case ArrayDoc(inside, items) => Blank(inside) && ItemsFit(items)
    case ObjectDoc(inside, entries) => Blank(inside) && EntriesFit(entries)
    case _ => true
  }

  predicate ItemsFit(items: seq<Item>) { items == [] || (ItemFits(items[0]) && ItemsFit(items[1..])) }

  predicate EntriesFit(entries: seq<Entry>) { entries == [] || (EntryFits(entries[0]) && EntriesFit(entries[1..])) }

  predicate ItemFits(i: Item) { Blank(i.before) && Fits(i.doc) && Blank(i.after) }

  predicate EntryFits(e: Entry) { Blank(e.before) && TextFits(e.key) && Blank(e.colon) && ItemFits(e.item) }

  /** The document written out. */
  function Printed(d: Doc): (t: bytes)
    requires Fits(d)
  {
    match d
    case NullDoc => Ascii("null")
    case TrueDoc => Ascii("true")
    case FalseDoc => Ascii("false")
    case NumberDoc(t) => t
    case TextDoc(t) => TextText(t)
    case ArrayDoc(inside, items) => Ascii("[") + (if items == [] then inside + Ascii("]") else ItemsPrinted(items))
    case ObjectDoc(inside, entries) => Ascii("{") + (if entries == [] then inside + Ascii("}") else EntriesPrinted(entries))
  }

  function ItemPrinted(i: Item): (t: bytes)
    requires ItemFits(i)
  {
    i.before + (Printed(i.doc) + i.after)
  }

  /** Items with the commas between them and the closing bracket. */
  function ItemsPrinted(items: seq<Item>): (t: bytes)
    requires items != [] && ItemsFit(items)
  {
    ItemPrinted(items[0]) + (if |items| == 1 then Ascii("]") else Ascii(",") + ItemsPrinted(items[1..]))
  }

  function EntryPrinted(e: Entry): (t: bytes)
    requires EntryFits(e)
  {
    e.before + (TextText(e.key) + (e.colon + (Ascii(":") + ItemPrinted(e.item))))
  }

  function EntriesPrinted(entries: seq<Entry>): (t: bytes)
    requires entries != [] && EntriesFit(entries)
  {
    EntryPrinted(entries[0]) + (if |entries| == 1 then Ascii("}") else Ascii(",") + EntriesPrinted(entries[1..]))
  }

  /** The value the document stands for. */
  function Meaning(d: Doc): (v: Value)
    requires Fits(d)
  {
    match d
    case NullDoc => Null
    case TrueDoc => Bool(true)
    case FalseDoc => Bool(false)
    case NumberDoc(t) => Number(t)
    case TextDoc(t) => String(TextMeaning(t))
    case ArrayDoc(_, items) => Array(ItemsMeaning(items))
    case ObjectDoc(_, entries) => Object(EntriesMeaning(entries))
  }

  function ItemMeaning(i: Item): (v: Value)
    requires ItemFits(i)
  {
    Meaning(i.doc)
  }

  function EntryMeaning(e: Entry): (m: Member)
    requires EntryFits(e)
  {
    Member(TextMeaning(e.key), ItemMeaning(e.item))
  }

  function ItemsMeaning(items: seq<Item>): (vs: seq<Value>)
    requires ItemsFit(items)
  {
    if items == [] then [] else [ItemMeaning(items[0])] + ItemsMeaning(items[1..])
  }

  function EntriesMeaning(entries: seq<Entry>): (ms: seq<Member>)
    requires EntriesFit(entries)
  {
    if entries == [] then [] else [EntryMeaning(entries[0])] + EntriesMeaning(entries[1..])
  }

  // ---------------------------------------------------------------- white space and words

  lemma {:induction false} BlankRun(u: bytes, p: nat, s: bytes)
    requires At(u, p, s) && Blank(s) && (p + |s| < |u| ==> !IsSpace(u[p + |s|]))
    ensures SkipSpace(u, p) == p + |s|
    decreases |s|
  {
    if s != [] {
      AtByte(u, p, s, 0);
      assert s == [s[0]] + s[1..];
      AtSplit(u, p, [s[0]], s[1..]);
      BlankRun(u, p + 1, s[1..]);
    }
  }

  lemma NumberBytes(c: byte)
    ensures c in Ascii(NUMBER_BYTES) <==> IsNumberByte(c)
  {
    var a := Ascii(NUMBER_BYTES);
    assert a == [48, 49, 50, 51, 52, 53, 54, 55, 56, 57, 43, 45, 46, 101, 69];
  }

  lemma Words()
    ensures Ascii("true") == TRUE_WORD && Ascii("false") == FALSE_WORD && Ascii("null") == NULL_WORD
  {
  }

  lemma Signs()
    ensures Ascii("[") == [LBRACKET] && Ascii("]") == [RBRACKET] && Ascii("{") == [LBRACE] && Ascii("}") == [RBRACE]
    ensures Ascii(",") == [COMMA] && Ascii(":") == [COLON]
  {
  }

  // ---------------------------------------------------------------- strings

  lemma HexRead(n: nat, capital: bool)
    requires n < 16
    ensures HexValue(HexChar(n, capital)) == n
  {
    var a, b := Ascii("0123456789ABCDEF"), Ascii("0123456789abcdef");
    assert a == [48, 49, 50, 51, 52, 53, 54, 55, 56, 57, 65, 66, 67, 68, 69, 70];
    assert b == [48, 49, 50, 51, 52, 53, 54, 55, 56, 57, 97, 98, 99, 100, 101, 102];
  }

  lemma FourDigits(unit: nat)
    requires unit < 0x10000
    ensures unit == unit / 4096 * 0x1000 + unit / 256 % 16 * 0x100 + unit / 16 % 16 * 0x10 + unit % 16
  {
    assert unit / 256 / 16 == unit / 4096 && unit / 16 / 16 == unit / 256;
  }

  lemma HexUnit(u: bytes, p: nat, unit: nat, caps: seq<bool>)
    requires unit < 0x10000 && |caps| == 4 && At(u, p, HexText(unit, caps))
    ensures p + 6 <= |u| && u[p] == BACKSLASH && u[p + 1] == 0x75 && Hex4(u, p + 2) == Ok(unit, p + 6)
  {
    hide HexChar, HexValue, At;
    var t := HexText(unit, caps);
    AtByte(u, p, t, 0); AtByte(u, p, t, 1); AtByte(u, p, t, 2); AtByte(u, p, t, 3); AtByte(u, p, t, 4); AtByte(u, p, t, 5);
    HexRead(unit / 4096, caps[0]);
    HexRead(unit / 256 % 16, caps[1]);
    HexRead(unit / 16 % 16, caps[2]);
    HexRead(unit % 16, caps[3]);
    FourDigits(unit);
  }

  lemma ShortRead(k: nat)
    requires k < 8
    ensures SimpleEscape(Ascii(LETTERS)[k]) == Some(MEANT[k])
  {
    assert Ascii(LETTERS) == [0x22, 0x5C, 0x2F, 0x62, 0x66, 0x6E, 0x72, 0x74];
  }

  /** One character is read as what it means. */
  lemma CharRead(u: bytes, p: nat, c: Char)
    requires CharFits(c) && At(u, p, CharText(c))
    ensures p < |u| && u[p] != QUOTE && Piece(u, p) == Ok(CharMeaning(c), p + |CharText(c)|)
  {
    hide HexText, Hex4, At, SimpleEscape, Utf8.Encode;
    var t := CharText(c);
    match c {
      case Bare(b) =>
        AtByte(u, p, t, 0);
      case Short(k) =>
        AtByte(u, p, t, 0); AtByte(u, p, t, 1);
        ShortRead(k);
      case Hex(cp, caps) =>
        if cp < 0x10000 {
          HexUnit(u, p, cp, caps);
          NotShort();
        } else {
          var high, low := 0xD800 + (cp - 0x10000) / 0x400, 0xDC00 + (cp - 0x10000) % 0x400;
          AtSplit(u, p, HexText(high, caps[..4]), HexText(low, caps[4..]));
          HexUnit(u, p, high, caps[..4]);
          HexUnit(u, p + 6, low, caps[4..]);
          NotShort();
        }
    }
  }

  lemma NotShort()
    ensures SimpleEscape(0x75).None?
  {
  }

  lemma CharsUnfolded(cs: seq<Char>)
    requires cs != [] && CharsFit(cs)
    ensures CharFits(cs[0]) && CharsFit(cs[1..])
    ensures CharsText(cs) + [34] == CharText(cs[0]) + (CharsText(cs[1..]) + [34])
    ensures |CharsText(cs)| == |CharText(cs[0])| + |CharsText(cs[1..])|
    ensures CharsMeaning(cs) == CharMeaning(cs[0]) + CharsMeaning(cs[1..])
  {
    hide CharText, CharMeaning, CharFits;
    Assoc(CharText(cs[0]), CharsText(cs[1..]), [34]);
  }

  lemma {:induction false} CharsRead(u: bytes, p: nat, cs: seq<Char>)
    requires CharsFit(cs) && At(u, p, CharsText(cs) + [34])
    ensures Body(u, p) == Ok(CharsMeaning(cs), p + |CharsText(cs)| + 1)
    decreases |cs|
  {
    hide Body, Piece, CharText, CharsText, CharMeaning, CharsMeaning, CharFits, CharsFit;
    BodyUnfold(u, p);
    if cs == [] {
      NoChars();
      AtByte(u, p, CharsText(cs) + [34], 0);
    } else {
      CharsUnfolded(cs);
      AtSplit(u, p, CharText(cs[0]), CharsText(cs[1..]) + [34]);
      CharRead(u, p, cs[0]);
      CharsRead(u, p + |CharText(cs[0])|, cs[1..]);
    }
  }

  lemma NoChars()
    ensures CharsText([]) == [] && CharsMeaning([]) == []
  {
  }

  lemma TextRead(u: bytes, p: nat, t: Text)
    requires TextFits(t) && At(u, p, TextText(t))
    ensures p < |u| && u[p] == QUOTE && Str(u, p) == Ok(TextMeaning(t), p + |TextText(t)|)
  {
    hide Body, W.Quoted, CharsFit, CharsText, CharsMeaning;
    match t {
      case Spelled(cs) =>
        AtSplit(u, p, [34], CharsText(cs) + [34]);
        AtByte(u, p, [34], 0);
        CharsRead(u, p + 1, cs);
      case Written(s) =>
        StringReadsBack(u, p, s);
    }
  }

  // ---------------------------------------------------------------- values

  /** A number run ends where the text does. */
  lemma {:induction false} NumberRun(u: bytes, p: nat, t: bytes)
    requires At(u, p, t) && (forall i :: 0 <= i < |t| ==> t[i] in Ascii(NUMBER_BYTES))
    requires p + |t| < |u| ==> !IsNumberByte(u[p + |t|])
    ensures NumberEnd(u, p) == p + |t|
    decreases |t|
  {
    if t != [] {
      AtByte(u, p, t, 0);
      NumberBytes(t[0]);
      assert t == [t[0]] + t[1..];
      AtSplit(u, p, [t[0]], t[1..]);
      NumberRun(u, p + 1, t[1..]);
    }
  }

  lemma NumberRead(u: bytes, p: nat, t: bytes)
    requires NumberFits(t) && At(u, p, t) && (p + |t| < |u| ==> !IsNumberByte(u[p + |t|]))
    ensures Num(u, p) == Ok(Number(t), p + |t|)
  {
    NumberRun(u, p, t);
    var i :| 0 <= i < |t| && 48 <= t[i] <= 57;
    AtByte(u, p, t, i);
    assert HasDigit(u, p, p + |t|);
  }

  /** What follows a value inside a document and does not go on a number. */
  predicate Follows(u: bytes, q: nat) { q < |u| ==> !IsNumberByte(u[q]) }

  /** How a printed document starts. */
  predicate StartsAs(d: Doc, c: byte)
  {
    match d
    case NullDoc => c == 0x6E
    case TrueDoc => c == 0x74
    case FalseDoc => c == 0x66
    case NumberDoc(_) => IsNumberByte(c)
    case TextDoc(_) => c == QUOTE
    case ArrayDoc(_, _) => c == LBRACKET
    case ObjectDoc(_, _) => c == LBRACE
  }

  lemma Starts(d: Doc)
    requires Fits(d)
    ensures Printed(d) != [] && StartsAs(d, Printed(d)[0]) && !IsSpace(Printed(d)[0])
  {
    hide ItemsPrinted, EntriesPrinted, ItemsFit, EntriesFit, W.Escape, CharsText;
    Words();
    Signs();
    match d {
      case NumberDoc(t) =>
        NumberBytes(t[0]);
      case _ =>
    }
  }

  lemma DocStart(u: bytes, p: nat, d: Doc)
    requires Fits(d) && At(u, p, Printed(d))
    ensures p < |u| && StartsAs(d, u[p]) && SkipSpace(u, p) == p
  {
    hide Printed, Fits, StartsAs;
    Starts(d);
    AtByte(u, p, Printed(d), 0);
    SkipNothing(u, p);
  }

  lemma WordRead(u: bytes, p: nat, word: bytes, v: Value)
    requires word != [] && At(u, p, word)
    ensures Literal(u, p, word, v) == Ok(v, p + |word|)
  {
  }

  /** A printed document, wherever it stands, is read as what it means. */
  lemma {:induction false} DocRead(u: bytes, p: nat, d: Doc)
    requires Fits(d) && At(u, p, Printed(d)) && Follows(u, p + |Printed(d)|)
    ensures Val(u, p) == Ok(Meaning(d), p + |Printed(d)|)
    decreases d
  {
    hide Val, ObjectAt, ArrayAt, Num, Literal, Str, At, ItemsFit, EntriesFit, ItemsMeaning, EntriesMeaning, NumberFits, TextText,
      ItemsPrinted, EntriesPrinted;
    DocStart(u, p, d);
    ValUnfold(u, p);
    Words();
    Signs();
    match d {
      case NullDoc => WordRead(u, p, NULL_WORD, Null);
      case TrueDoc => WordRead(u, p, TRUE_WORD, Bool(true));
      case FalseDoc => WordRead(u, p, FALSE_WORD, Bool(false));
      case NumberDoc(t) => NumberRead(u, p, t);
      case TextDoc(t) => TextRead(u, p, t);
      case ArrayDoc(inside, items) => ArrayRead(u, p, inside, items);
      case ObjectDoc(inside, entries) => ObjectRead(u, p, inside, entries);
    }
  }

  lemma {:induction false} ArrayRead(u: bytes, p: nat, inside: bytes, items: seq<Item>)
    requires Blank(inside) && ItemsFit(items) && At(u, p, Printed(ArrayDoc(inside, items)))
    ensures p < |u| && ArrayAt(u, p) == Ok(Array(ItemsMeaning(items)), p + |Printed(ArrayDoc(inside, items))|)
    decreases items, 1
  {
    hide At, Items, ItemsFit, ItemsPrinted, Blank;
    Signs();
    AtByte(u, p, Printed(ArrayDoc(inside, items)), 0);
    ContainersUnfold(u, p);
    if items == [] {
      AtSplit(u, p, [LBRACKET], inside + [RBRACKET]);
      AtSplit(u, p + 1, inside, [RBRACKET]);
      AtByte(u, p + 1 + |inside|, [RBRACKET], 0);
      BlankRun(u, p + 1, inside);
    } else {
      AtSplit(u, p, [LBRACKET], ItemsPrinted(items));
      ItemsRead(u, p + 1, items);
      ListsSkipSpace(u, p + 1);
      ItemsUnfold(u, p + 1);
      NoValueAtBracket(u, p + 1);
    }
  }

  lemma BlankThen(u: bytes, p: nat, s: bytes)
    requires At(u, p, s) && Blank(s) && p + |s| < |u| && Closes(u[p + |s|])
    ensures Follows(u, p) && SkipSpace(u, p) == p + |s|
  {
    BlankRun(u, p, s);
    if s != [] {
      AtByte(u, p, s, 0);
    }
  }

  lemma {:induction false} ItemRead(u: bytes, p: nat, i: Item)
    requires ItemFits(i) && At(u, p, ItemPrinted(i))
    requires p + |ItemPrinted(i)| < |u| && Closes(u[p + |ItemPrinted(i)|])
    ensures var v := Val(u, p); v.Ok? && v.value == ItemMeaning(i) && SkipSpace(u, v.pos) == p + |ItemPrinted(i)|
    decreases i
  {
    hide Val, At, Printed, Fits, Meaning, Blank;
    AtSplit(u, p, i.before, Printed(i.doc) + i.after);
    var p1 := p + |i.before|;
    AtSplit(u, p1, Printed(i.doc), i.after);
    DocStart(u, p1, i.doc);
    SolidRun(u, p, i.before);
    ListsSkipSpace(u, p);
    BlankThen(u, p1 + |Printed(i.doc)|, i.after);
    DocRead(u, p1, i.doc);
  }

  /** White space up to a place where skipping it stops. */
  lemma SolidRun(u: bytes, p: nat, s: bytes)
    requires At(u, p, s) && Blank(s) && SkipSpace(u, p + |s|) == p + |s|
    ensures SkipSpace(u, p) == p + |s|
  {
    BlankRun(u, p, s);
  }

  /** What comes after the first item: the closing bracket, or a comma and the others. */
  function AfterItem(items: seq<Item>): (t: bytes)
    requires items != [] && ItemsFit(items)
  {
    if |items| == 1 then [RBRACKET] else [COMMA] + ItemsPrinted(items[1..])
  }

  lemma ItemsUnfolded(items: seq<Item>)
    requires items != [] && ItemsFit(items)
    ensures ItemFits(items[0]) && ItemsFit(items[1..]) && ItemsPrinted(items) == ItemPrinted(items[0]) + AfterItem(items)
    ensures ItemsMeaning(items) == [ItemMeaning(items[0])] + ItemsMeaning(items[1..])
    ensures |items| == 1 ==> ItemsMeaning(items) == [ItemMeaning(items[0])]
  {
    Signs();
    if |items| == 1 {
      assert ItemsMeaning(items[1..]) == [];
    }
  }

  function AfterEntry(entries: seq<Entry>): (t: bytes)
    requires entries != [] && EntriesFit(entries)
  {
    if |entries| == 1 then [RBRACE] else [COMMA] + EntriesPrinted(entries[1..])
  }

  lemma EntriesUnfolded(entries: seq<Entry>)
    requires entries != [] && EntriesFit(entries)
    ensures EntryFits(entries[0]) && EntriesFit(entries[1..]) && EntriesPrinted(entries) == EntryPrinted(entries[0]) + AfterEntry(entries)
    ensures EntriesMeaning(entries) == [EntryMeaning(entries[0])] + EntriesMeaning(entries[1..])
    ensures |entries| == 1 ==> EntriesMeaning(entries) == [EntryMeaning(entries[0])]
  {
    Signs();
    if |entries| == 1 {
      assert EntriesMeaning(entries[1..]) == [];
    }
  }

  lemma ItemsSplit(u: bytes, p: nat, items: seq<Item>)
    requires items != [] && ItemsFit(items) && At(u, p, ItemsPrinted(items))
    ensures var q := p + |ItemPrinted(items[0])|;
      && At(u, p, ItemPrinted(items[0])) && q < |u| && u[q] == (if |items| == 1 then RBRACKET else COMMA)
      && (|items| > 1 ==> At(u, q + 1, ItemsPrinted(items[1..])))
      && p + |ItemsPrinted(items)| == q + 1 + if |items| == 1 then 0 else |ItemsPrinted(items[1..])|
  {
    hide At, ItemFits, ItemsFit, ItemPrinted, ItemsPrinted;
    ItemsUnfolded(items);
    AtSplit(u, p, ItemPrinted(items[0]), AfterItem(items));
    AtByte(u, p + |ItemPrinted(items[0])|, AfterItem(items), 0);
    if |items| > 1 {
      AtSplit(u, p + |ItemPrinted(items[0])|, [COMMA], ItemsPrinted(items[1..]));
    }
  }

  lemma {:induction false} ItemsRead(u: bytes, p: nat, items: seq<Item>)
    requires items != [] && ItemsFit(items) && At(u, p, ItemsPrinted(items))
    ensures Items(u, p) == Ok(ItemsMeaning(items), p + |ItemsPrinted(items)|)
    decreases items, 0
  {
    hide Val, Items, At, ItemFits, ItemsFit, ItemMeaning, ItemsMeaning, ItemPrinted, ItemsPrinted;
    ItemsUnfolded(items);
    ItemsSplit(u, p, items);
    ItemRead(u, p, items[0]);
    ItemsUnfold(u, p);
    if |items| > 1 {
      ItemsRead(u, p + |ItemPrinted(items[0])| + 1, items[1..]);
    }
  }

  lemma {:induction false} ObjectRead(u: bytes, p: nat, inside: bytes, entries: seq<Entry>)
    requires Blank(inside) && EntriesFit(entries) && At(u, p, Printed(ObjectDoc(inside, entries)))
    ensures p < |u| && ObjectAt(u, p) == Ok(Object(EntriesMeaning(entries)), p + |Printed(ObjectDoc(inside, entries))|)
    decreases entries, 1
  {
    hide At, Members, EntriesFit, EntriesPrinted, Blank;
    Signs();
    AtByte(u, p, Printed(ObjectDoc(inside, entries)), 0);
    ContainersUnfold(u, p);
    if entries == [] {
      AtSplit(u, p, [LBRACE], inside + [RBRACE]);
      AtSplit(u, p + 1, inside, [RBRACE]);
      AtByte(u, p + 1 + |inside|, [RBRACE], 0);
      BlankRun(u, p + 1, inside);
    } else {
      AtSplit(u, p, [LBRACE], EntriesPrinted(entries));
      EntriesRead(u, p + 1, entries);
      EntryOpens(u, p + 1);
    }
  }

  /** White space before the members of an object changes nothing, and the first of them is no closing brace. */
  lemma EntryOpens(u: bytes, p: nat)
    requires p <= |u| && Members(u, p).Ok?
    ensures Members(u, SkipSpace(u, p)) == Members(u, p) && !Sees(u, SkipSpace(u, p), RBRACE)
  {
    hide Members, Pair, Str, Val;
    SkipTwice(u, p);
    MembersUnfold(u, p);
    MembersUnfold(u, SkipSpace(u, p));
    PairUnfold(u, p);
    PairUnfold(u, SkipSpace(u, p));
    NoStringAtBrace(u, SkipSpace(u, p));
  }

  lemma NoStringAtBrace(u: bytes, p: nat)
    requires p <= |u|
    ensures Sees(u, p, RBRACE) ==> Str(u, p).Fail?
  {
  }

  function KeyPrinted(e: Entry): (t: bytes)
    requires EntryFits(e)
  {
    e.before + (TextText(e.key) + (e.colon + Ascii(":")))
  }

  lemma EntrySplits(e: Entry)
    requires EntryFits(e)
    ensures EntryPrinted(e) == KeyPrinted(e) + ItemPrinted(e.item)
  {
    hide TextText, TextFits, ItemPrinted, ItemFits, Ascii;
  }

  lemma KeySplit(u: bytes, p: nat, e: Entry)
    requires EntryFits(e) && At(u, p, KeyPrinted(e))
    ensures var p1 := p + |e.before|; var p2 := p1 + |TextText(e.key)|; var p3 := p2 + |e.colon|;
      && At(u, p, e.before) && At(u, p1, TextText(e.key)) && At(u, p2, e.colon)
      && p3 < |u| && u[p3] == COLON && p + |KeyPrinted(e)| == p3 + 1
  {
    hide At, TextText, TextFits, Blank, ItemFits;
    Signs();
    var p1 := p + |e.before|;
    var p2 := p1 + |TextText(e.key)|;
    var p3 := p2 + |e.colon|;
    AtSplit(u, p, e.before, TextText(e.key) + (e.colon + [COLON]));
    AtSplit(u, p1, TextText(e.key), e.colon + [COLON]);
    AtSplit(u, p2, e.colon, [COLON]);
    AtByte(u, p3, [COLON], 0);
  }

  lemma KeyRead(u: bytes, p: nat, e: Entry)
    requires EntryFits(e) && At(u, p, KeyPrinted(e))
    ensures Key(u, p) == Ok(TextMeaning(e.key), p + |KeyPrinted(e)|)
  {
    hide Str, At, TextText, TextFits, TextMeaning, Blank, ItemFits, KeyPrinted, SkipSpace;
    KeySplit(u, p, e);
    var p1 := p + |e.before|;
    var p3 := p1 + |TextText(e.key)| + |e.colon|;
    TextRead(u, p1, e.key);
    SkipNothing(u, p1);
    SolidRun(u, p, e.before);
    SkipNothing(u, p3);
    SolidRun(u, p1 + |TextText(e.key)|, e.colon);
  }

  lemma {:induction false} EntryRead(u: bytes, p: nat, e: Entry)
    requires EntryFits(e) && At(u, p, EntryPrinted(e))
    requires p + |EntryPrinted(e)| < |u| && Closes(u[p + |EntryPrinted(e)|])
    ensures var m := Pair(u, p); m.Ok? && m.value == EntryMeaning(e) && SkipSpace(u, m.pos) == p + |EntryPrinted(e)|
    decreases e
  {
    hide Pair, Val, Key, At, TextText, TextFits, TextMeaning, Blank, ItemPrinted, KeyPrinted, EntryPrinted, ItemMeaning, ItemFits, Closes;
    EntrySplits(e);
    AtSplit(u, p, KeyPrinted(e), ItemPrinted(e.item));
    KeyRead(u, p, e);
    ItemRead(u, p + |KeyPrinted(e)|, e.item);
    PairUnfold(u, p);
  }

  lemma EntriesSplit(u: bytes, p: nat, entries: seq<Entry>)
    requires entries != [] && EntriesFit(entries) && At(u, p, EntriesPrinted(entries))
    ensures var q := p + |EntryPrinted(entries[0])|;
      && At(u, p, EntryPrinted(entries[0])) && q < |u| && u[q] == (if |entries| == 1 then RBRACE else COMMA)
      && (|entries| > 1 ==> At(u, q + 1, EntriesPrinted(entries[1..])))
      && p + |EntriesPrinted(entries)| == q + 1 + if |entries| == 1 then 0 else |EntriesPrinted(entries[1..])|
  {
    hide At, EntryFits, EntriesFit, EntryPrinted, EntriesPrinted;
    EntriesUnfolded(entries);
    AtSplit(u, p, EntryPrinted(entries[0]), AfterEntry(entries));
    AtByte(u, p + |EntryPrinted(entries[0])|, AfterEntry(entries), 0);
    if |entries| > 1 {
      AtSplit(u, p + |EntryPrinted(entries[0])|, [COMMA], EntriesPrinted(entries[1..]));
    }
  }

  lemma {:induction false} EntriesRead(u: bytes, p: nat, entries: seq<Entry>)
    requires entries != [] && EntriesFit(entries) && At(u, p, EntriesPrinted(entries))
    ensures Members(u, p) == Ok(EntriesMeaning(entries), p + |EntriesPrinted(entries)|)
    decreases entries, 0
  {
    hide Pair, Members, At, EntryFits, EntriesFit, EntryMeaning, EntriesMeaning, EntryPrinted, EntriesPrinted;
    EntriesUnfolded(entries);
    EntriesSplit(u, p, entries);
    EntryRead(u, p, entries[0]);
    MembersUnfold(u, p);
    if |entries| > 1 {
      EntriesRead(u, p + |EntryPrinted(entries[0])| + 1, entries[1..]);
    }
  }

  // ---------------------------------------------------------------- documents

  /** A printed document after white space is what the whole text means, whatever follows that goes on no number. */
  lemma DocumentReads(before: bytes, d: Doc, rest: bytes)
    requires Blank(before) && Fits(d) && (rest != [] ==> rest[0] !in Ascii(NUMBER_BYTES))
    ensures G.Document(before + Printed(d) + rest) == Some(Meaning(d))
  {
    hide Val, At, Printed, Fits, Meaning, Blank;
    var u := before + Printed(d) + rest;
    var p := |before|;
    assert At(u, 0, before) && At(u, p, Printed(d)) by {
      Placed(before, Printed(d), rest);
    }
    if rest != [] {
      NumberBytes(rest[0]);
    }
    DocStart(u, p, d);
    SolidRun(u, 0, before);
    ListsSkipSpace(u, 0);
    DocRead(u, p, d);
  }

  lemma Placed(a: bytes, b: bytes, c: bytes)
    ensures At(a + b + c, 0, a) && At(a + b + c, |a|, b)
  {
  }

  // ---------------------------------------------------------------- printing a value

  /** Every number in the tree has a text the parser takes. */
  predicate Writable(v: Value)
  {
    match v
    case Number(t) => NumberFits(t)
    case Array(items) => AllWritable(items)
    case Object(members) => MembersWritable(members)
    case _ => true
  }

  predicate AllWritable(vs: seq<Value>) { vs == [] || (Writable(vs[0]) && AllWritable(vs[1..])) }

  predicate MembersWritable(ms: seq<Member>) { ms == [] || (MemberWritable(ms[0]) && MembersWritable(ms[1..])) }

  predicate MemberWritable(m: Member) { Writable(m.value) }

  /** A value laid out without white space, its strings as the writer quotes them. */
  function Laid(v: Value): (d: Doc)
  {
    match v
    case Null => NullDoc
    case Bool(b) => if b then TrueDoc else FalseDoc
    case Number(t) => NumberDoc(t)
    case String(s) => TextDoc(Written(s))
    case Array(items) => ArrayDoc([], LaidItems(items))
    case Object(members) => ObjectDoc([], LaidMembers(members))
  }

  function LaidItems(vs: seq<Value>): (items: seq<Item>)
    ensures |items| == |vs|
  {
    if vs == [] then [] else [Item([], Laid(vs[0]), [])] + LaidItems(vs[1..])
  }

  function LaidMembers(ms: seq<Member>): (es: seq<Entry>)
    ensures |es| == |ms|
  {
    if ms == [] then [] else [LaidMember(ms[0])] + LaidMembers(ms[1..])
  }

  function LaidMember(m: Member): (e: Entry) { Entry([], Written(m.key), [], Item([], Laid(m.value), [])) }

  lemma {:induction false} LaidMeans(v: Value)
    requires Writable(v)
    ensures Fits(Laid(v)) && Meaning(Laid(v)) == Mended(v)
    decreases v
  {
    match v {
      case Array(items) => LaidItemsMean(items);
      case Object(members) => LaidMembersMean(members);
      case _ =>
    }
  }

  lemma {:induction false} LaidItemsMean(vs: seq<Value>)
    requires AllWritable(vs)
    ensures ItemsFit(LaidItems(vs)) && ItemsMeaning(LaidItems(vs)) == MendedItems(vs)
    decreases vs
  {
    if vs != [] {
      LaidMeans(vs[0]);
      LaidItemsMean(vs[1..]);
      assert LaidItems(vs)[1..] == LaidItems(vs[1..]);
      assert ItemFits(LaidItems(vs)[0]);
    }
  }

  lemma LaidMemberMeans(m: Member)
    requires Fits(Laid(m.value)) && Meaning(Laid(m.value)) == Mended(m.value)
    ensures EntryFits(LaidMember(m)) && EntryMeaning(LaidMember(m)) == MendedMember(m)
  {
    var i := LaidMember(m).item;
    assert ItemFits(i) && ItemMeaning(i) == Meaning(i.doc);
  }

  lemma {:induction false} LaidMembersMean(ms: seq<Member>)
    requires MembersWritable(ms)
    ensures EntriesFit(LaidMembers(ms)) && EntriesMeaning(LaidMembers(ms)) == MendedMembers(ms)
    decreases ms
  {
    if ms != [] {
      LaidMeans(ms[0].value);
      LaidMembersMean(ms[1..]);
      assert LaidMembers(ms)[1..] == LaidMembers(ms[1..]);
      LaidMemberMeans(ms[0]);
    }
  }

  /** The text of a value. */
  function Render(v: Value): (t: bytes)
    requires Writable(v)
  {
    LaidMeans(v);
    Printed(Laid(v))
  }

  /** Every tree written out reads back as itself with its strings repaired: the whole text, and at the head of any other. */
  lemma RenderReads(v: Value, rest: bytes)
    requires Writable(v) && (rest != [] ==> rest[0] !in Ascii(NUMBER_BYTES))
    ensures Reads(Render(v), Mended(v))
    ensures G.Document(Render(v) + rest) == Some(Mended(v))
  {
    hide Val, Printed, Fits, Meaning, Laid, Mended, Writable;
    LaidMeans(v);
    var d := Laid(v);
    assert At(Printed(d), 0, Printed(d));
    DocRead(Printed(d), 0, d);
    DocumentReads([], d, rest);
    assert [] + Printed(d) + rest == Render(v) + rest;
  }

  // ---------------------------------------------------------------- what is no value

  /** A text that starts like a word is a value exactly when the word is there. */
  lemma WordsExact(t: bytes)
    requires t != []
    ensures t[0] == 't' as int as byte ==> (G.Document(t) == if Ascii("true") <= t then Some(Bool(true)) else None)
    ensures t[0] == 'f' as int as byte ==> (G.Document(t) == if Ascii("false") <= t then Some(Bool(false)) else None)
    ensures t[0] == 'n' as int as byte ==> (G.Document(t) == if Ascii("null") <= t then Some(Null) else None)
  {
    hide ObjectAt, ArrayAt, Num, Str;
    Words();
    if !IsSpace(t[0]) {
      SkipNothing(t, 0);
    }
    ValUnfold(t, 0);
  }

  /** A text of number bytes alone is a number exactly when it holds a digit and has at most 39 bytes. */
  lemma NumbersExact(t: bytes)
    requires t != [] && forall i :: 0 <= i < |t| ==> t[i] in Ascii(NUMBER_BYTES)
    ensures G.Document(t) == if NumberFits(t) then Some(Number(t)) else None
  {
    hide ObjectAt, ArrayAt, Literal, Str;
    NumberBytes(t[0]);
    assert At(t, 0, t);
    NumberRun(t, 0, t);
    SkipNothing(t, 0);
    ValUnfold(t, 0);
    assert t[0..|t|] == t;
  }

  /** What a document starts with: white space, a bracket, a quote, a word's first letter, or a number byte. */
  lemma StartsExact(t: bytes)
    requires G.Document(t).Some?
    ensures t != [] && (t[0] in {32, 9, 10, 13} || t[0] in Ascii("{[\"tfn") || t[0] in Ascii(NUMBER_BYTES))
  {
    hide ObjectAt, ArrayAt, Literal, Str;
    ValUnfold(t, 0);
    if !IsSpace(t[0]) {
      SkipNothing(t, 0);
      NumberBytes(t[0]);
      assert Ascii("{[\"tfn") == [0x7B, 0x5B, 0x22, 0x74, 0x66, 0x6E];
    }
  }

  const HEX_BYTES: string := "0123456789abcdefABCDEF"

  /** After a backslash comes one of the eight letters, or `u` and four hex digits; nothing else is an escape. */
  lemma EscapesExact(t: bytes, p: nat)
    requires p < |t| && t[p] == 92 && Piece(t, p).Ok?
    ensures p + 1 < |t| && (t[p + 1] in Ascii(LETTERS) || (t[p + 1] == 117 && p + 6 <= |t|
      && forall i :: p + 2 <= i < p + 6 ==> t[i] in Ascii(HEX_BYTES)))
  {
    hide Utf8.Encode, LowHalf, Surrogate;
    assert Ascii(LETTERS) == [0x22, 0x5C, 0x2F, 0x62, 0x66, 0x6E, 0x72, 0x74];
    if SimpleEscape(t[p + 1]).None? {
      HexBytes(t[p + 2]);
      HexBytes(t[p + 3]);
      HexBytes(t[p + 4]);
      HexBytes(t[p + 5]);
    }
  }

  lemma HexBytes(c: byte)
    ensures c in Ascii(HEX_BYTES) <==> HexValue(c) >= 0
  {
    assert Ascii(HEX_BYTES) == [48, 49, 50, 51, 52, 53, 54, 55, 56, 57, 97, 98, 99, 100, 101, 102, 65, 66, 67, 68, 69, 70];
  }

  /**
   * What the writer makes of the head of a text: a backslash and a letter for a quote, a backslash, a line feed, a carriage return,
   * a tab, a backspace or a form feed; hex for any other control byte; U+FFFD for a byte that starts no sequence; and the
   * sequence itself otherwise.
   */
  lemma WriterSteps(s: bytes)
    requires s != []
    ensures var c, n := s[0], Utf8.SequenceLen(s);
      W.StepText(s) ==
        if c in {34, 92, 10, 13, 9, 8, 12} then ShortText(c)
        else if c < 32 then Ascii("\\u00") + [HexChar(c as nat / 16, false), HexChar(c as nat % 16, false)]
        else if n == 0 then Ascii("\\ufffd") else s[..n]
    ensures W.StepLen(s) == if s[0] < 128 || Utf8.SequenceLen(s) == 0 then 1 else Utf8.SequenceLen(s)
  {
    hide Utf8.SequenceLen, Ascii, HexChar, W.ShortcutLetter, W.UnicodeEscape;
    ShortWritten(s[0]);
    if s[0] < 32 {
      ControlWritten(s[0] as nat);
    }
    StrayWritten();
    SequenceOfOne(s);
  }

  function ShortText(c: byte): (t: bytes)
  {
    if c == 34 then Ascii("\\\"") else if c == 92 then Ascii("\\\\") else if c == 10 then Ascii("\\n")
    else if c == 13 then Ascii("\\r") else if c == 9 then Ascii("\\t") else if c == 8 then Ascii("\\b") else Ascii("\\f")
  }

  /** The letters of the writer's short escapes. */
  lemma ShortWritten(c: byte)
    ensures W.ShortcutLetter(c) != 0 <==> c in {34, 92, 10, 13, 9, 8, 12}
    ensures W.ShortcutLetter(c) != 0 ==> c < 128 && [92, W.ShortcutLetter(c)] == ShortText(c)
  {
  }

  lemma ControlWritten(c: nat)
    requires c < 32
    ensures W.UnicodeEscape(c) == Ascii("\\u00") + [HexChar(c / 16, false), HexChar(c % 16, false)]
  {
    hide HexChar, W.HexDigit;
    HexWritten(c / 16);
    HexWritten(c % 16);
  }

  lemma StrayWritten()
    ensures W.UnicodeEscape(0xFFFD) == Ascii("\\ufffd")
  {
    hide HexChar, W.HexDigit;
    HexWritten(0);
  }

  lemma HexWritten(n: nat)
    requires n < 16
    ensures W.HexDigit(n) == HexChar(n, false)
    ensures W.HexDigit(0) == 48 && W.HexDigit(15) == 102 && W.HexDigit(13) == 100
  {
    assert Ascii("0123456789abcdef") == [48, 49, 50, 51, 52, 53, 54, 55, 56, 57, 97, 98, 99, 100, 101, 102];
  }

  lemma SequenceOfOne(s: bytes)
    requires s != []
    ensures s[0] < 128 <==> Utf8.SequenceLen(s) == 1
  {
  }
}
