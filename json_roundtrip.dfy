/**
 * `json.loads(json.dumps(v)) == v`: every value `json.loads` can produce is
 * read back from its `json.dumps` text as itself, so a rewritten body that
 * the proxy re-encodes reaches the upstream server as the document it built.
 */
module JsonRoundTrip {
  import opened Wrappers
  import opened Texts
  import Utf8
  import opened JsonNumbers
  import opened JsonNumberFacts
  import opened Json
  import opened JsonDecoder
  import opened JsonEncoder
  import opened JsonStringRoundTrip
  import opened JsonNumberRoundTrip

  /** What follows a value in a written document: nothing, or `,`, `]` or `}`. */
  predicate Closes(rest: Text) {
    rest == [] || rest[0] == 0x2C || rest[0] == 0x5D || rest[0] == 0x7D
  }

  lemma ConsSplit<X>(s: seq<X>)
    requires s != []
    ensures [s[0]] + s[1..] == s
  {
  }

  /** A written value starts with neither whitespace nor a closing bracket. */
  lemma DumpStart(v: Value)
    ensures !IsWhitespace(Dump(v)[0]) && Dump(v)[0] != 0x5D
  {
    match v
    case Float(lexeme) =>
      if lexeme != NAN && lexeme != INFINITY && lexeme != NEG_INFINITY {
        NumberLexemeStart(lexeme);
      }
    case Int(n) =>
      assert NatToDecimal(if n < 0 then -n else n)[0] != 0x20;
    case _ =>
  }

  lemma {:induction false} DumpItemsStart(xs: seq<Value>)
    requires xs != []
    ensures DumpItems(xs)[0] == Dump(xs[0])[0]
  {
  }

  /** Whitespace skipping stops at once before a non-whitespace code point. */
  lemma SkipNothing(t: Text)
    requires t == [] || !IsWhitespace(t[0])
    ensures SkipWhitespace(t) == t
  {
  }

  /** The space of a written separator is skipped. */
  lemma {:induction false} SkipSeparatorSpace(sep: Text, w: Text)
    requires |sep| == 2 && sep[1] == 0x20
    requires w != [] && !IsWhitespace(w[0])
    ensures SkipWhitespace((sep + w)[1..]) == w
  {
    assert (sep + w)[1..] == [0x20] + w;
    assert ([0x20] + w)[1..] == w;
  }

  // One step of the reader at a time, each on its own.

  lemma {:induction false} ReadArray(t: Text, xs: seq<Value>, rest: Text)
    requires t != [] && t[0] == 0x5B && t[1..] != [] && !IsWhitespace(t[1]) && t[1] != 0x5D
    requires ParseItems(t[1..]) == Some(Parsed(xs, rest))
    ensures ParseValue(t) == Some(Parsed(Array(xs), rest))
  {
    SkipNothing(t[1..]);
  }

  lemma {:induction false} ReadEmpty(t: Text, rest: Text)
    requires t == [0x5B, 0x5D] + rest || t == [0x7B, 0x7D] + rest
    ensures ParseValue(t) == Some(Parsed(if t[0] == 0x5B then Array([]) else Object([]), rest))
  {
    assert t[1..] == [t[1]] + rest;
    SkipNothing(t[1..]);
  }

  lemma {:induction false} ReadObject(t: Text, ms: seq<Member>, rest: Text)
    requires t != [] && t[0] == 0x7B && t[1..] != [] && t[1] == 0x22
    requires ParseMembers(t[1..]) == Some(Parsed(ms, rest))
    ensures ParseValue(t) == Some(Parsed(Object(FromPairs(ms)), rest))
  {
    SkipNothing(t[1..]);
    assert ParseObject(t[1..]) == Some(Parsed(Object(FromPairs(ms)), rest));
    assert ParseValue(t) == ParseObject(t[1..]);
  }

  lemma {:induction false} ReadString(t: Text, s: Text, rest: Text)
    requires t != [] && t[0] == 0x22 && ParseStringBody(t[1..]) == Some(Parsed(s, rest))
    ensures ParseValue(t) == Some(Parsed(String(s), rest))
  {
  }

  lemma {:induction false} ReadLastItem(t: Text, v: Value, after: Text)
    requires ParseValue(t) == Some(Parsed(v, after)) && after != [] && after[0] == 0x5D
    ensures ParseItems(t) == Some(Parsed([v], after[1..]))
  {
    assert SkipWhitespace(after) == after by {
      SkipNothing(after);
    }
  }

  lemma {:induction false} ReadNextItem(t: Text, v: Value, after: Text, vs: seq<Value>, rest: Text)
    requires ParseValue(t) == Some(Parsed(v, after)) && after != [] && after[0] == 0x2C
    requires ParseItems(SkipWhitespace(after[1..])) == Some(Parsed(vs, rest))
    ensures ParseItems(t) == Some(Parsed([v] + vs, rest))
  {
    assert SkipWhitespace(after) == after by {
      SkipNothing(after);
    }
  }

  /** One `"key": value` pair read in full. */
  lemma {:induction false} ReadMember(t: Text, k: Text, afterKey: Text, v: Value, after: Text)
    requires t != [] && t[0] == 0x22 && ParseStringBody(t[1..]) == Some(Parsed(k, afterKey))
    requires afterKey != [] && afterKey[0] == 0x3A
    requires ParseValue(SkipWhitespace(afterKey[1..])) == Some(Parsed(v, after))
    ensures ParseMember(t) == Some(Parsed(Member(k, v), after))
  {
    assert SkipWhitespace(afterKey) == afterKey by {
      SkipNothing(afterKey);
    }
  }

  /** The members reader after one pair: `}` ends the object. */
  lemma {:induction false} ReadLastMember(t: Text, m: Member, after: Text)
    requires ParseMember(t) == Some(Parsed(m, after)) && after != [] && after[0] == 0x7D
    ensures ParseMembers(t) == Some(Parsed([m], after[1..]))
  {
    assert SkipWhitespace(after) == after by {
      SkipNothing(after);
    }
  }

  /** The members reader after one pair: `,` goes on to the next. */
  lemma {:induction false} ReadNextMember(t: Text, m: Member, after: Text, ms: seq<Member>, rest: Text)
    requires ParseMember(t) == Some(Parsed(m, after)) && after != [] && after[0] == 0x2C
    requires ParseMembers(SkipWhitespace(after[1..])) == Some(Parsed(ms, rest))
    ensures ParseMembers(t) == Some(Parsed([m] + ms, rest))
  {
    assert SkipWhitespace(after) == after by {
      SkipNothing(after);
    }
  }

  // How `json.dumps` lays out a container, as sequence facts.

  lemma Regroup3(a: Text, b: Text, c: Text)
    ensures a + b + c == a + (b + c)
  {
  }

  lemma Regroup4(a: Text, b: Text, c: Text, d: Text)
    ensures a + b + c + d == a + ((b + c) + d)
  {
  }

  lemma Regroup5(a: Text, b: Text, c: Text, d: Text, e: Text)
    ensures a + b + c + d + e == a + (b + (c + d + e))
  {
  }

  lemma {:induction false} ContainerLayout(v: Value, rest: Text)
    requires v.Array? || v.Object?
    ensures v.Array? ==> Dump(v) + rest == [0x5B] + (DumpItems(v.items) + [0x5D] + rest)
    ensures v.Object? ==> Dump(v) + rest == [0x7B] + (DumpMembers(v.members) + [0x7D] + rest)
  {
    if v.Array? {
      assert T("[") == [0x5B] && T("]") == [0x5D];
      Regroup4([0x5B], DumpItems(v.items), [0x5D], rest);
    } else {
      assert T("{") == [0x7B] && T("}") == [0x7D];
      Regroup4([0x7B], DumpMembers(v.members), [0x7D], rest);
    }
  }

  lemma {:induction false} ItemsLayout(xs: seq<Value>, rest: Text)
    requires xs != []
    ensures |xs| == 1 ==> DumpItems(xs) + [0x5D] + rest == Dump(xs[0]) + ([0x5D] + rest)
    ensures |xs| > 1 ==> DumpItems(xs) + [0x5D] + rest == Dump(xs[0]) + (ITEM_SEPARATOR + (DumpItems(xs[1..]) + [0x5D] + rest))
  {
    if |xs| == 1 {
      Regroup3(Dump(xs[0]), [0x5D], rest);
    } else {
      Regroup5(Dump(xs[0]), ITEM_SEPARATOR, DumpItems(xs[1..]), [0x5D], rest);
    }
  }

  lemma {:induction false} MembersLayout(ms: seq<Member>, rest: Text)
    requires ms != []
    ensures |ms| == 1 ==> DumpMembers(ms) + [0x7D] + rest == DumpMember(ms[0]) + ([0x7D] + rest)
    ensures |ms| > 1 ==> DumpMembers(ms) + [0x7D] + rest == DumpMember(ms[0]) + (ITEM_SEPARATOR + (DumpMembers(ms[1..]) + [0x7D] + rest))
  {
    if |ms| == 1 {
      Regroup3(DumpMember(ms[0]), [0x7D], rest);
    } else {
      Regroup5(DumpMember(ms[0]), ITEM_SEPARATOR, DumpMembers(ms[1..]), [0x7D], rest);
    }
  }

  lemma {:induction false} MembersStart(ms: seq<Member>)
    requires ms != []
    ensures DumpMembers(ms) != [] && DumpMembers(ms)[0] == 0x22
  {
    assert DumpMember(ms[0])[0] == 0x22;
  }

  /** Every well-formed value, written by `json.dumps` and followed by
      anything that may follow a value, reads back as itself. */
  lemma {:induction false} ValueRoundTrip(v: Value, rest: Text)
    requires WellFormed(v) && Closes(rest)
    ensures ParseValue(Dump(v) + rest) == Some(Parsed(v, rest))
    decreases v, 1
  {
    match v
    case Null =>
      var t := Dump(v) + rest;
      assert t[..4] == Dump(v) && t[4..] == rest;
    case Bool(b) =>
      var t := Dump(v) + rest;
      assert t[..|Dump(v)|] == Dump(v) && t[|Dump(v)|..] == rest;
    case Int(n) =>
      IntRoundTrip(n, rest);
    case Float(lexeme) =>
      FloatRoundTrip(lexeme, rest);
    case String(s) =>
      QuoteRoundTrip(s, rest);
      ReadString(Dump(v) + rest, s, rest);
    case Array(xs) =>
      ArrayRoundTrip(v, rest);
    case Object(ms) =>
      ObjectRoundTrip(v, rest);
  }

  lemma {:induction false} ArrayRoundTrip(v: Value, rest: Text)
    requires v.Array? && WellFormed(v)
    ensures ParseValue(Dump(v) + rest) == Some(Parsed(v, rest))
    decreases v, 0
  {
    var xs := v.items;
    var t := Dump(v) + rest;
    ContainerLayout(v, rest);
    if xs == [] {
      assert t == [0x5B, 0x5D] + rest;
      ReadEmpty(t, rest);
    } else {
      assert t[1..] == DumpItems(xs) + [0x5D] + rest;
      assert t[1] == Dump(xs[0])[0] by {
        DumpItemsStart(xs);
      }
      DumpStart(xs[0]);
      assert AllWellFormed(xs);
      ItemsRoundTrip(xs, rest);
      ReadArray(t, xs, rest);
    }
  }

  lemma {:induction false} ObjectRoundTrip(v: Value, rest: Text)
    requires v.Object? && WellFormed(v)
    ensures ParseValue(Dump(v) + rest) == Some(Parsed(v, rest))
    decreases v, 0
  {
    var ms := v.members;
    var t := Dump(v) + rest;
    ContainerLayout(v, rest);
    if ms == [] {
      assert t == [0x7B, 0x7D] + rest;
      ReadEmpty(t, rest);
    } else {
      assert t[1..] == DumpMembers(ms) + [0x7D] + rest;
      MembersStart(ms);
      assert AllPairsWellFormed(ms);
      MembersRoundTrip(ms, rest);
      ReadObject(t, ms, rest);
      FromDistinctPairs(ms);
    }
  }

  /** The items of a non-empty array, written with their separators and the
      closing `]`, read back as the items. */
  lemma {:induction false} ItemsRoundTrip(xs: seq<Value>, rest: Text)
    requires xs != [] && AllWellFormed(xs)
    ensures ParseItems(DumpItems(xs) + [0x5D] + rest) == Some(Parsed(xs, rest))
    decreases xs, 2
  {
    if |xs| == 1 {
      LastItemRoundTrip(xs, rest);
    } else {
      NextItemRoundTrip(xs, rest);
    }
  }

  /** One item followed by `]`: the items end there. */
  lemma {:induction false} LastItemStep(x: Value, rest: Text)
    requires WellFormed(x)
    ensures ParseItems(Dump(x) + ([0x5D] + rest)) == Some(Parsed([x], rest))
    decreases x, 2
  {
    var w := [0x5D] + rest;
    ValueRoundTrip(x, w);
    assert w[1..] == rest;
    ReadLastItem(Dump(x) + w, x, w);
  }

  /** One item followed by `", "` and more items. */
  lemma {:induction false} NextItemStep(x: Value, next: Text, vs: seq<Value>, rest: Text)
    requires WellFormed(x) && next != [] && !IsWhitespace(next[0])
    requires ParseItems(next) == Some(Parsed(vs, rest))
    ensures ParseItems(Dump(x) + (ITEM_SEPARATOR + next)) == Some(Parsed([x] + vs, rest))
    decreases x, 2
  {
    var w := ITEM_SEPARATOR + next;
    ValueRoundTrip(x, w);
    SkipSeparatorSpace(ITEM_SEPARATOR, next);
    ReadNextItem(Dump(x) + w, x, w, vs, rest);
  }

  lemma {:induction false} LastItemRoundTrip(xs: seq<Value>, rest: Text)
    requires |xs| == 1 && AllWellFormed(xs)
    ensures ParseItems(DumpItems(xs) + [0x5D] + rest) == Some(Parsed(xs, rest))
    decreases xs, 1
  {
    var h := xs[0];
    assert xs == [h];
    ItemsTail(xs);
    calc {
      ParseItems(DumpItems(xs) + [0x5D] + rest);
    == { ItemsLayout(xs, rest); }
      ParseItems(Dump(h) + ([0x5D] + rest));
    == { LastItemStep(h, rest); }
      Some(Parsed([h], rest));
    }
  }

  /** The items after the first start with neither whitespace nor `]`. */
  lemma {:induction false} ItemsTailStart(xs: seq<Value>, rest: Text)
    requires |xs| > 1
    ensures DumpItems(xs[1..]) + [0x5D] + rest != []
    ensures !IsWhitespace((DumpItems(xs[1..]) + [0x5D] + rest)[0])
  {
    DumpItemsStart(xs[1..]);
    DumpStart(xs[1]);
  }

  lemma {:induction false} NextItemRoundTrip(xs: seq<Value>, rest: Text)
    requires |xs| > 1 && AllWellFormed(xs)
    ensures ParseItems(DumpItems(xs) + [0x5D] + rest) == Some(Parsed(xs, rest))
    decreases xs, 1
  {
    var next := DumpItems(xs[1..]) + [0x5D] + rest;
    ItemsTail(xs);
    ItemsLayout(xs, rest);
    ItemsTailStart(xs, rest);
    ItemsRoundTrip(xs[1..], rest);
    NextItemStep(xs[0], next, xs[1..], rest);
    ConsSplit(xs);
  }

  /** How a written member followed by `w` is laid out: the key's string
      literal, then `": "` and the value. */
  lemma {:induction false} MemberLayout(m: Member, w: Text)
    ensures (DumpMember(m) + w)[0] == 0x22
    ensures (DumpMember(m) + w)[1..] == EscapeChars(m.key) + [0x22] + (KEY_SEPARATOR + (Dump(m.value) + w))
  {
    assert DumpMember(m) + w == [0x22] + (EscapeChars(m.key) + [0x22] + (KEY_SEPARATOR + (Dump(m.value) + w)));
  }

  /** One member followed by `w` (a `,` or a `}` and the rest) reads as the
      key and the value, leaving `w`. */
  lemma {:induction false} MemberRoundTrip(m: Member, w: Text)
    requires NoSurrogatePair(m.key) && WellFormed(m.value)
    requires w != [] && (w[0] == 0x2C || w[0] == 0x7D)
    ensures ParseMember(DumpMember(m) + w) == Some(Parsed(m, w))
    decreases m, 0
  {
    var t := DumpMember(m) + w;
    var afterKey := KEY_SEPARATOR + (Dump(m.value) + w);
    MemberLayout(m, w);
    assert ParseStringBody(t[1..]) == Some(Parsed(m.key, afterKey)) by {
      StringRoundTrip(m.key, afterKey);
    }
    assert SkipWhitespace(afterKey[1..]) == Dump(m.value) + w by {
      DumpStart(m.value);
      SkipSeparatorSpace(KEY_SEPARATOR, Dump(m.value) + w);
    }
    assert ParseValue(Dump(m.value) + w) == Some(Parsed(m.value, w)) by {
      ValueRoundTrip(m.value, w);
    }
    ReadMember(t, m.key, afterKey, m.value, w);
  }

  /** The members of a non-empty object, written with their separators and
      the closing `}`, read back as the same pairs in the same order. */
  lemma {:induction false} MembersRoundTrip(ms: seq<Member>, rest: Text)
    requires ms != [] && AllPairsWellFormed(ms)
    ensures ParseMembers(DumpMembers(ms) + [0x7D] + rest) == Some(Parsed(ms, rest))
    decreases ms, 2
  {
    if |ms| == 1 {
      LastMemberRoundTrip(ms, rest);
    } else {
      NextMemberRoundTrip(ms, rest);
    }
  }

  /** One pair followed by `}`: the pairs end there. */
  lemma {:induction false} LastMemberStep(m: Member, rest: Text)
    requires NoSurrogatePair(m.key) && WellFormed(m.value)
    ensures ParseMembers(DumpMember(m) + ([0x7D] + rest)) == Some(Parsed([m], rest))
    decreases m, 1
  {
    var w := [0x7D] + rest;
    MemberRoundTrip(m, w);
    assert w[1..] == rest;
    ReadLastMember(DumpMember(m) + w, m, w);
  }

  /** One pair followed by `", "` and more pairs. */
  lemma {:induction false} NextMemberStep(m: Member, next: Text, ms: seq<Member>, rest: Text)
    requires NoSurrogatePair(m.key) && WellFormed(m.value) && next != [] && !IsWhitespace(next[0])
    requires ParseMembers(next) == Some(Parsed(ms, rest))
    ensures ParseMembers(DumpMember(m) + (ITEM_SEPARATOR + next)) == Some(Parsed([m] + ms, rest))
    decreases m, 1
  {
    var w := ITEM_SEPARATOR + next;
    MemberRoundTrip(m, w);
    SkipSeparatorSpace(ITEM_SEPARATOR, next);
    ReadNextMember(DumpMember(m) + w, m, w, ms, rest);
  }

  lemma {:induction false} LastMemberRoundTrip(ms: seq<Member>, rest: Text)
    requires |ms| == 1 && AllPairsWellFormed(ms)
    ensures ParseMembers(DumpMembers(ms) + [0x7D] + rest) == Some(Parsed(ms, rest))
    decreases ms, 1
  {
    var h := ms[0];
    assert ms == [h];
    PairsTail(ms);
    calc {
      ParseMembers(DumpMembers(ms) + [0x7D] + rest);
    == { MembersLayout(ms, rest); }
      ParseMembers(DumpMember(h) + ([0x7D] + rest));
    == { LastMemberStep(h, rest); }
      Some(Parsed([h], rest));
    }
  }

  /** The pairs after the first start with the `"` of a key. */
  lemma {:induction false} MembersTailStart(ms: seq<Member>, rest: Text)
    requires |ms| > 1
    ensures DumpMembers(ms[1..]) + [0x7D] + rest != []
    ensures !IsWhitespace((DumpMembers(ms[1..]) + [0x7D] + rest)[0])
  {
    MembersStart(ms[1..]);
  }

  lemma {:induction false} NextMemberRoundTrip(ms: seq<Member>, rest: Text)
    requires |ms| > 1 && AllPairsWellFormed(ms)
    ensures ParseMembers(DumpMembers(ms) + [0x7D] + rest) == Some(Parsed(ms, rest))
    decreases ms, 1
  {
    var next := DumpMembers(ms[1..]) + [0x7D] + rest;
    PairsTail(ms);
    MembersLayout(ms, rest);
    MembersTailStart(ms, rest);
    MembersRoundTrip(ms[1..], rest);
    NextMemberStep(ms[0], next, ms[1..], rest);
    ConsSplit(ms);
  }

  /** `json.loads(json.dumps(v)) == v` for every value `json.loads` can build. */
  lemma DumpThenLoad(v: Value)
    requires WellFormed(v)
    ensures Loads(Dump(v)) == Ok(v)
  {
    var d := Dump(v);
    ValueRoundTrip(v, []);
    assert d + [] == d;
    DumpStart(v);
    SkipNothing(d);
    DumpIsAscii(v);
  }
}
