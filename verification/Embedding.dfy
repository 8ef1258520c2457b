/** Parsing is local: text that parses by itself parses the same wherever it is pasted. */
module Embedding {
  import opened Bytes
  import opened Json
  import opened Grammar
  import opened StringRoundTrip
  import Utf8

  function Shift<T>(r: Parsed<T>, k: nat): Parsed<T>
  {
    if r.Ok? then Ok(r.value, r.pos + k) else Fail
  }

  lemma AtIndex(u: bytes, k: nat, t: bytes)
    requires At(u, k, t)
    ensures k + |t| <= |u| && forall i :: 0 <= i < |t| ==> u[k + i] == t[i]
  {
    forall i | 0 <= i < |t| ensures u[k + i] == t[i] {
      AtByte(u, k, t, i);
    }
  }

  /** `t` occupies `u` from `k` on, byte by byte. */
  predicate Pasted(u: bytes, k: nat, t: bytes)
  {
    k + |t| <= |u| && forall i :: k <= i < k + |t| ==> u[i] == t[i - k]
  }

  lemma {:induction false} SpaceEmbeds(u: bytes, k: nat, t: bytes, p: nat)
    requires Pasted(u, k, t) && p <= |t| && SkipSpace(t, p) < |t|
    ensures SkipSpace(u, k + p) == k + SkipSpace(t, p)
    decreases |t| - p
  {
    assert u[k + p] == t[p];
    if IsSpace(t[p]) {
      SpaceEmbeds(u, k, t, p + 1);
    }
  }

  lemma Hex4Embeds(u: bytes, k: nat, t: bytes, p: nat)
    requires Pasted(u, k, t) && p + 4 <= |t|
    ensures Hex4(u, k + p) == Shift(Hex4(t, p), k)
  {
    assert u[k + p] == t[p] && u[k + p + 1] == t[p + 1] && u[k + p + 2] == t[p + 2] && u[k + p + 3] == t[p + 3];
  }

  /** The look-ahead for a low surrogate never depends on what comes after a string's closing quote. */
  lemma LowHalfEmbeds(u: bytes, k: nat, t: bytes, p: nat)
    requires Pasted(u, k, t) && p <= |t| && Body(t, p).Ok?
    ensures LowHalf(u, k + p) == Shift(LowHalf(t, p), k)
  {
    assert p < |t| && u[k + p] == t[p];
    if t[p] == BACKSLASH {
      assert Escape(t, p + 1).Ok?;
      assert p + 1 < |t| && u[k + p + 1] == t[p + 1];
      if t[p + 1] == 0x75 {
        assert Hex4(t, p + 2).Ok?;
        Hex4Embeds(u, k, t, p + 2);
      }
    }
  }

  lemma PieceEmbeds(u: bytes, k: nat, t: bytes, p: nat)
    requires Pasted(u, k, t) && p < |t|
    requires Piece(t, p).Ok? && Body(t, Piece(t, p).pos).Ok?
    ensures Piece(u, k + p) == Shift(Piece(t, p), k)
  {
    hide Hex4, Utf8.Encode, Body, LowHalf;
    assert u[k + p] == t[p];
    if t[p] == BACKSLASH {
      assert u[k + p + 1] == t[p + 1];
      if SimpleEscape(t[p + 1]).None? {
        Hex4Embeds(u, k, t, p + 2);
        var unit := Hex4(t, p + 2).value;
        if IsHigh(unit) {
          if LowHalf(t, p + 6).Ok? {
            LowHalfFoundEmbeds(u, k, t, p + 6);
          } else {
            LowHalfEmbeds(u, k, t, p + 6);
          }
        }
      }
    }
  }

  lemma LowHalfFoundEmbeds(u: bytes, k: nat, t: bytes, p: nat)
    requires Pasted(u, k, t) && p <= |t| && LowHalf(t, p).Ok?
    ensures LowHalf(u, k + p) == Shift(LowHalf(t, p), k)
  {
    assert u[k + p] == t[p] && u[k + p + 1] == t[p + 1];
    Hex4Embeds(u, k, t, p + 2);
  }

  lemma {:induction false} BodyEmbeds(u: bytes, k: nat, t: bytes, p: nat)
    requires Pasted(u, k, t) && p <= |t| && Body(t, p).Ok?
    ensures Body(u, k + p) == Shift(Body(t, p), k)
    decreases |t| - p
  {
    hide Body, Piece;
    BodyUnfold(t, p);
    BodyUnfold(u, k + p);
    assert u[k + p] == t[p];
    if t[p] != QUOTE {
      PieceEmbeds(u, k, t, p);
      BodyEmbeds(u, k, t, Piece(t, p).pos);
    }
  }

  lemma StrNeedsText(t: bytes, p: nat)
    requires p <= |t| && Str(t, p).Ok?
    ensures p < |t|
  {
  }

  lemma StrEmbeds(u: bytes, k: nat, t: bytes, p: nat)
    requires Pasted(u, k, t) && p <= |t| && Str(t, p).Ok?
    ensures Str(u, k + p) == Shift(Str(t, p), k)
  {
    assert u[k + p] == t[p];
    BodyEmbeds(u, k, t, p + 1);
  }

  lemma {:induction false} NumberEndEmbeds(u: bytes, k: nat, t: bytes, p: nat)
    requires Pasted(u, k, t) && p <= |t|
    requires NumberEnd(t, p) == |t| ==> k + |t| == |u| || !IsNumberByte(u[k + |t|])
    ensures NumberEnd(u, k + p) == k + NumberEnd(t, p)
    decreases |t| - p
  {
    if p < |t| {
      assert u[k + p] == t[p];
      if IsNumberByte(t[p]) {
        NumberEndEmbeds(u, k, t, p + 1);
      }
    }
  }

  /** A number at the very end of `t` could go on in `u`; nothing else can. */
  predicate Ends(u: bytes, k: nat, t: bytes, r: Parsed<Value>)
    requires Pasted(u, k, t)
  {
    r.Ok? && (r.value.Number? && r.pos == |t| ==> k + |t| == |u| || !IsNumberByte(u[k + |t|]))
  }

  lemma NumEmbeds(u: bytes, k: nat, t: bytes, p: nat)
    requires Pasted(u, k, t) && p <= |t| && Ends(u, k, t, Num(t, p))
    ensures Num(u, k + p) == Shift(Num(t, p), k)
  {
    NumberEndEmbeds(u, k, t, p);
    var q := NumberEnd(t, p);
    assert u[k + p..k + q] == t[p..q];
    assert HasDigit(u, k + p, k + q) by {
      var i :| p <= i < q && IsDigit(t[i]);
      assert u[k + i] == t[i];
    }
  }

  lemma LiteralEmbeds(u: bytes, k: nat, t: bytes, p: nat, word: bytes, v: Value)
    requires Pasted(u, k, t) && p <= |t| && word != [] && Literal(t, p, word, v).Ok?
    ensures Literal(u, k + p, word, v) == Shift(Literal(t, p, word, v), k)
  {
    assert u[k + p..k + p + |word|] == t[p..p + |word|];
  }

  lemma {:induction false} ValEmbeds(u: bytes, k: nat, t: bytes, p: nat)
    requires Pasted(u, k, t) && p <= |t| && Ends(u, k, t, Val(t, p))
    ensures Val(u, k + p) == Shift(Val(t, p), k)
    decreases |t| - p, 2
  {
    hide Val, ObjectAt, ArrayAt, Num, Literal, Str;
    ValUnfold(t, p);
    ValUnfold(u, k + p);
    var q := SkipSpace(t, p);
    SpaceEmbeds(u, k, t, p);
    assert u[k + q] == t[q];
    if t[q] == LBRACE {
      ObjectEmbeds(u, k, t, q);
    } else if t[q] == LBRACKET {
      ArrayEmbeds(u, k, t, q);
    } else if t[q] == QUOTE {
      StrEmbeds(u, k, t, q);
    } else if t[q] == 0x74 {
      LiteralEmbeds(u, k, t, q, TRUE_WORD, Bool(true));
    } else if t[q] == 0x66 {
      LiteralEmbeds(u, k, t, q, FALSE_WORD, Bool(false));
    } else if t[q] == 0x6E {
      LiteralEmbeds(u, k, t, q, NULL_WORD, Null);
    } else {
      NumEmbeds(u, k, t, q);
    }
  }

  lemma {:induction false} ObjectEmbeds(u: bytes, k: nat, t: bytes, p: nat)
    requires Pasted(u, k, t) && p < |t| && ObjectAt(t, p).Ok?
    ensures ObjectAt(u, k + p) == Shift(ObjectAt(t, p), k)
    decreases |t| - p, 1
  {
    hide Members, Items, ObjectAt, ArrayAt;
    ContainersUnfold(t, p);
    ContainersUnfold(u, k + p);
    var q := SkipSpace(t, p + 1);
    if q < |t| {
      SpaceEmbeds(u, k, t, p + 1);
      assert u[k + q] == t[q];
      if t[q] != RBRACE {
        MembersEmbed(u, k, t, q);
      }
    }
  }

  lemma {:induction false} ArrayEmbeds(u: bytes, k: nat, t: bytes, p: nat)
    requires Pasted(u, k, t) && p < |t| && ArrayAt(t, p).Ok?
    ensures ArrayAt(u, k + p) == Shift(ArrayAt(t, p), k)
    decreases |t| - p, 1
  {
    hide Members, Items, ObjectAt, ArrayAt;
    ContainersUnfold(t, p);
    ContainersUnfold(u, k + p);
    var q := SkipSpace(t, p + 1);
    if q < |t| {
      SpaceEmbeds(u, k, t, p + 1);
      assert u[k + q] == t[q];
      if t[q] != RBRACKET {
        ItemsEmbed(u, k, t, q);
      }
    }
  }

  lemma {:induction false} ItemsEmbed(u: bytes, k: nat, t: bytes, p: nat)
    requires Pasted(u, k, t) && p <= |t| && Items(t, p).Ok?
    ensures Items(u, k + p) == Shift(Items(t, p), k)
    decreases |t| - p, 3
  {
    hide Val, Items;
    ItemsUnfold(t, p);
    var item := Val(t, p);
    var q := SkipSpace(t, item.pos);
    SpaceEmbeds(u, k, t, item.pos);
    ValEmbeds(u, k, t, p);
    assert u[k + q] == t[q];
    if t[q] == COMMA {
      ItemsEmbed(u, k, t, q + 1);
    }
    ItemsUnfold(u, k + p);
  }

  lemma KeyEmbeds(u: bytes, k: nat, t: bytes, p: nat)
    requires Pasted(u, k, t) && p <= |t| && Key(t, p).Ok?
    ensures Key(u, k + p) == Shift(Key(t, p), k)
  {
    hide Str;
    var s := SkipSpace(t, p);
    var key := Str(t, s);
    var q := SkipSpace(t, key.pos);
    StrNeedsText(t, s);
    SpaceEmbeds(u, k, t, p);
    StrEmbeds(u, k, t, s);
    SpaceEmbeds(u, k, t, key.pos);
    assert u[k + q] == t[q];
  }

  lemma {:induction false} PairEmbeds(u: bytes, k: nat, t: bytes, p: nat)
    requires Pasted(u, k, t) && p <= |t| && Pair(t, p).Ok? && Pair(t, p).pos < |t|
    ensures Pair(u, k + p) == Shift(Pair(t, p), k)
    decreases |t| - p, 3
  {
    hide Val, Pair, Key;
    PairUnfold(t, p);
    KeyEmbeds(u, k, t, p);
    ValEmbeds(u, k, t, Key(t, p).pos);
    PairUnfold(u, k + p);
  }

  lemma {:induction false} MembersEmbed(u: bytes, k: nat, t: bytes, p: nat)
    requires Pasted(u, k, t) && p <= |t| && Members(t, p).Ok?
    ensures Members(u, k + p) == Shift(Members(t, p), k)
    decreases |t| - p, 4
  {
    hide Pair, Members;
    MembersUnfold(t, p);
    var member := Pair(t, p);
    var q := SkipSpace(t, member.pos);
    SpaceEmbeds(u, k, t, member.pos);
    PairEmbeds(u, k, t, p);
    assert u[k + q] == t[q];
    if t[q] == COMMA {
      MembersEmbed(u, k, t, q + 1);
    }
    MembersUnfold(u, k + p);
  }

  /** A text whose whole length is one value. */
  predicate Reads(t: bytes, v: Value)
  {
    Val(t, 0) == Ok(v, |t|)
  }

  /** A text that reads as a value by itself reads as that value inside any document that does not extend a number. */
  lemma ReadsAnywhere(u: bytes, k: nat, t: bytes, v: Value)
    requires Reads(t, v) && At(u, k, t)
    requires v.Number? ==> k + |t| == |u| || !IsNumberByte(u[k + |t|])
    ensures Val(u, k) == Ok(v, k + |t|)
  {
    AtIndex(u, k, t);
    assert Pasted(u, k, t) by {
      forall i | k <= i < k + |t| ensures u[i] == t[i - k] {
        assert u[k + (i - k)] == t[i - k];
      }
    }
    ValEmbeds(u, k, t, 0);
  }
}
