/**
 * What `json.loads` builds from a str without surrogates (every str that
 * strict UTF-8 decoding produces) is well-formed: its dicts have distinct
 * keys, and no str in it holds a high surrogate directly followed by a low
 * one, since the reader joins every escaped pair of that shape.
 */
module JsonWellFormed {
  import opened Wrappers
  import opened Texts
  import Utf8
  import opened JsonNumbers
  import opened JsonNumberFacts
  import opened Json
  import opened JsonDecoder
  import opened JsonStringRoundTrip

  lemma {:induction false} SuffixNoSurrogates(t: Text, k: nat)
    requires NoSurrogates(t) && k <= |t|
    ensures NoSurrogates(t[k..])
  {
    forall i | 0 <= i < |t[k..]|
      ensures !IsSurrogate(t[k..][i])
    {
      assert t[k..][i] == t[k + i];
    }
  }

  lemma {:induction false} SkipNoSurrogates(t: Text)
    requires NoSurrogates(t)
    ensures NoSurrogates(SkipWhitespace(t))
  {
    SuffixNoSurrogates(t, |t| - |SkipWhitespace(t)|);
  }

  /** An escape that reads as a low surrogate is a `\u` escape of it. */
  lemma {:induction false} LowFromEscape(t: Text)
    requires t != [] && t[0] == 0x5C && Unescape(t).Some? && IsLowSurrogate(Unescape(t).value.0)
    ensures StartsWithLowEscape(t) && Unescape(t).value.1 == 6
  {
  }

  /** A high surrogate read from an escape is one that no low-surrogate
      escape follows. */
  lemma {:induction false} HighFromEscape(t: Text)
    requires t != [] && t[0] == 0x5C && Unescape(t).Some? && IsHighSurrogate(Unescape(t).value.0)
    ensures Unescape(t).value.1 == 6 && !StartsWithLowEscape(t[6..])
  {
    var u := Hex4(t[2..]).value;
    assert Unescape(t) == Some((u, 6));
    if |t| >= 12 {
      assert t[6..][2..] == t[8..];
    }
  }

  lemma {:induction false} PairCons(c: CodePoint, s: Text)
    requires NoSurrogatePair(s)
    requires IsHighSurrogate(c) ==> s == [] || !IsLowSurrogate(s[0])
    ensures NoSurrogatePair([c] + s)
  {
    var r := [c] + s;
    forall i | 0 <= i < |r| - 1
      ensures !(IsHighSurrogate(r[i]) && IsLowSurrogate(r[i + 1]))
    {
      if i > 0 {
        assert r[i] == s[i - 1] && r[i + 1] == s[i];
      }
    }
  }

  /** A str read from text without surrogates holds no surrogate pair, and
      it starts with a low surrogate only if the text starts with its escape. */
  lemma {:induction false} StringBodyWellFormed(t: Text)
    requires NoSurrogates(t) && ParseStringBody(t).Some?
    ensures NoSurrogatePair(ParseStringBody(t).value.value)
    ensures NoSurrogates(ParseStringBody(t).value.rest)
    ensures var s := ParseStringBody(t).value.value; s != [] && IsLowSurrogate(s[0]) ==> StartsWithLowEscape(t)
    decreases |t|
  {
    var s := ParseStringBody(t).value.value;
    if t[0] == 0x22 {
      SuffixNoSurrogates(t, 1);
    } else if t[0] == 0x5C {
      var (c, n) := Unescape(t).value;
      SuffixNoSurrogates(t, n);
      StringBodyWellFormed(t[n..]);
      var tail := ParseStringBody(t[n..]).value.value;
      assert s == [c] + tail;
      if IsLowSurrogate(c) {
        LowFromEscape(t);
      }
      if IsHighSurrogate(c) {
        HighFromEscape(t);
      }
      PairCons(c, tail);
    } else {
      SuffixNoSurrogates(t, 1);
      StringBodyWellFormed(t[1..]);
      var tail := ParseStringBody(t[1..]).value.value;
      assert s == [t[0]] + tail;
      PairCons(t[0], tail);
    }
  }

  /** Every member of `dict(pairs)` is one of the pairs. */
  lemma {:induction false} FromPairsMembers(ps: seq<Member>)
    ensures forall m :: m in FromPairs(ps) ==> m in ps
  {
    if ps != [] {
      var init := ps[..|ps| - 1];
      var last := ps[|ps| - 1];
      FromPairsMembers(init);
      PutMembers(FromPairs(init), last.key, last.value);
    }
  }

  /** Every member after `d[k] = v` was there before or is the new one. */
  lemma {:induction false} PutMembers(ms: seq<Member>, k: Text, v: Value)
    ensures forall m :: m in Put(ms, k, v) ==> m in ms || m == Member(k, v)
  {
    if ms != [] && ms[0].key != k {
      PutMembers(ms[1..], k, v);
    }
  }

  /** A value read from text without surrogates is well-formed, and so is
      what is left after it. */
  /** What follows a literal is the rest of `t`. */
  lemma LiteralRest(t: Text, literal: Text, v: Value)
    requires |literal| > 0 && ParseLiteral(t, literal, v).Some?
    ensures var r := ParseLiteral(t, literal, v).value;
      |r.rest| <= |t| && r.rest == t[|t| - |r.rest|..] && r.value == v
  {
  }

  /** What follows a number is the rest of `t`. */
  lemma NumberRest(t: Text)
    requires ParseNumber(t).Some?
    ensures var r := ParseNumber(t).value;
      |r.rest| <= |t| && r.rest == t[|t| - |r.rest|..] && (r.value.Int? || r.value.Float?)
  {
  }

  /** A value that is not a string, an array or an object is a literal or a
      number, and what follows it is the rest of `t`. */
  lemma ScalarRead(t: Text)
    requires ParseValue(t).Some? && t[0] != 0x22 && t[0] != 0x7B && t[0] != 0x5B
    ensures var r := ParseValue(t).value;
      |r.rest| <= |t| && r.rest == t[|t| - |r.rest|..] && !r.value.String? && !r.value.Array? && !r.value.Object?
  {
    if t[0] == 0x6E {
      LiteralRest(t, T("null"), Null);
    } else if t[0] == 0x74 {
      LiteralRest(t, T("true"), Bool(true));
    } else if t[0] == 0x66 {
      LiteralRest(t, T("false"), Bool(false));
    } else if t[0] == 0x4E {
      LiteralRest(t, NAN, Float(NAN));
    } else if t[0] == 0x49 {
      LiteralRest(t, INFINITY, Float(INFINITY));
    } else if |NEG_INFINITY| <= |t| && t[..|NEG_INFINITY|] == NEG_INFINITY {
    } else {
      NumberRest(t);
    }
  }

  /** A value starting with `"` is a string read by the string reader. */
  lemma StringRead(t: Text)
    requires ParseValue(t).Some? && t[0] == 0x22
    ensures ParseStringBody(t[1..]).Some?
    ensures ParseValue(t) == Some(Parsed(String(ParseStringBody(t[1..]).value.value), ParseStringBody(t[1..]).value.rest))
  {
  }

  lemma {:induction false} ValueWellFormed(t: Text)
    requires NoSurrogates(t) && ParseValue(t).Some?
    ensures WellFormed(ParseValue(t).value.value) && NoSurrogates(ParseValue(t).value.rest)
    decreases |t|, 0
  {
    if t[0] == 0x22 {
      SuffixNoSurrogates(t, 1);
      StringRead(t);
      StringBodyWellFormed(t[1..]);
    } else if t[0] == 0x7B {
      SuffixNoSurrogates(t, 1);
      assert ParseValue(t) == ParseObject(t[1..]);
      ObjectWellFormed(t[1..]);
    } else if t[0] == 0x5B {
      SuffixNoSurrogates(t, 1);
      assert ParseValue(t) == ParseArray(t[1..]);
      ArrayWellFormed(t[1..]);
    } else {
      ScalarRead(t);
      SuffixNoSurrogates(t, |t| - |ParseValue(t).value.rest|);
    }
  }

  lemma {:induction false} ArrayWellFormed(t: Text)
    requires NoSurrogates(t) && ParseArray(t).Some?
    ensures WellFormed(ParseArray(t).value.value) && NoSurrogates(ParseArray(t).value.rest)
    decreases |t|, 2
  {
    var u := SkipWhitespace(t);
    SkipNoSurrogates(t);
    if u != [] && u[0] == 0x5D {
      SuffixNoSurrogates(u, 1);
    } else {
      ItemsWellFormed(u);
    }
  }

  /** A successful items read starts with a value. */
  lemma ItemsHead(t: Text)
    requires ParseItems(t).Some?
    ensures ParseValue(t).Some?
  {
  }

  /** A successful items read after its first value `v`: the `]` ends it, or
      a `,` leads to the items after it. */
  lemma ItemsShape(t: Text, v: Value, after: Text, u: Text)
    requires ParseItems(t).Some? && ParseValue(t) == Some(Parsed(v, after)) && u == SkipWhitespace(after)
    ensures u != [] && (u[0] == 0x5D || u[0] == 0x2C)
    ensures u[0] == 0x5D ==> ParseItems(t) == Some(Parsed([v], u[1..]))
    ensures u[0] == 0x2C ==> ParseItems(SkipWhitespace(u[1..])).Some?
    ensures u[0] == 0x2C ==> var next := ParseItems(SkipWhitespace(u[1..])).value;
      ParseItems(t) == Some(Parsed([v] + next.value, next.rest))
  {
  }

  lemma {:induction false} ItemsWellFormed(t: Text)
    requires NoSurrogates(t) && ParseItems(t).Some?
    ensures AllWellFormed(ParseItems(t).value.value)
    ensures NoSurrogates(ParseItems(t).value.rest)
    decreases |t|, 1
  {
    ItemsHead(t);
    var Parsed(v, after) := ParseValue(t).value;
    assert WellFormed(v) && NoSurrogates(after) by {
      ValueWellFormed(t);
    }
    var u := SkipWhitespace(after);
    ItemsShape(t, v, after, u);
    assert NoSurrogates(u[1..]) by {
      SkipNoSurrogates(after);
      SuffixNoSurrogates(u, 1);
    }
    if u[0] == 0x2C {
      var next := SkipWhitespace(u[1..]);
      assert NoSurrogates(next) by {
        SkipNoSurrogates(u[1..]);
      }
      ItemsWellFormed(next);
      ItemsCons(v, ParseItems(next).value.value);
    } else {
      ItemsCons(v, []);
    }
  }

  lemma {:induction false} ObjectWellFormed(t: Text)
    requires NoSurrogates(t) && ParseObject(t).Some?
    ensures WellFormed(ParseObject(t).value.value) && NoSurrogates(ParseObject(t).value.rest)
    decreases |t|, 3
  {
    var u := SkipWhitespace(t);
    SkipNoSurrogates(t);
    if u != [] && u[0] == 0x7D {
      SuffixNoSurrogates(u, 1);
    } else {
      MembersWellFormed(u);
      var ps := ParseMembers(u).value.value;
      var ms := FromPairs(ps);
      FromPairsMembers(ps);
      forall i | 0 <= i < |ms|
        ensures NoSurrogatePair(ms[i].key) && WellFormed(ms[i].value)
      {
        assert ms[i] in ps;
      }
    }
  }

  lemma {:induction false} MemberWellFormed(t: Text)
    requires NoSurrogates(t) && ParseMember(t).Some?
    ensures var m := ParseMember(t).value.value; NoSurrogatePair(m.key) && WellFormed(m.value)
    ensures NoSurrogates(ParseMember(t).value.rest)
    decreases |t|, 1
  {
    SuffixNoSurrogates(t, 1);
    StringBodyWellFormed(t[1..]);
    var afterKey := ParseStringBody(t[1..]).value.rest;
    var u := SkipWhitespace(afterKey);
    SkipNoSurrogates(afterKey);
    SuffixNoSurrogates(u, 1);
    SkipNoSurrogates(u[1..]);
    ValueWellFormed(SkipWhitespace(u[1..]));
  }

  /** A successful members read starts with a pair. */
  lemma MembersHead(t: Text)
    requires ParseMembers(t).Some?
    ensures ParseMember(t).Some?
  {
  }

  /** A successful members read after its first pair `m`: the `}` ends it,
      or a `,` leads to the pairs after it. */
  lemma MembersShape(t: Text, m: Member, after: Text, u: Text)
    requires ParseMembers(t).Some? && ParseMember(t) == Some(Parsed(m, after)) && u == SkipWhitespace(after)
    ensures u != [] && (u[0] == 0x7D || u[0] == 0x2C)
    ensures u[0] == 0x7D ==> ParseMembers(t) == Some(Parsed([m], u[1..]))
    ensures u[0] == 0x2C ==> ParseMembers(SkipWhitespace(u[1..])).Some?
    ensures u[0] == 0x2C ==> var next := ParseMembers(SkipWhitespace(u[1..])).value;
      ParseMembers(t) == Some(Parsed([m] + next.value, next.rest))
  {
  }

  lemma {:induction false} MembersWellFormed(t: Text)
    requires NoSurrogates(t) && ParseMembers(t).Some?
    ensures AllPairsWellFormed(ParseMembers(t).value.value)
    ensures NoSurrogates(ParseMembers(t).value.rest)
    decreases |t|, 2
  {
    MembersHead(t);
    var Parsed(m, after) := ParseMember(t).value;
    assert NoSurrogatePair(m.key) && WellFormed(m.value) && NoSurrogates(after) by {
      MemberWellFormed(t);
    }
    var u := SkipWhitespace(after);
    MembersShape(t, m, after, u);
    assert NoSurrogates(u[1..]) by {
      SkipNoSurrogates(after);
      SuffixNoSurrogates(u, 1);
    }
    if u[0] == 0x2C {
      var next := SkipWhitespace(u[1..]);
      assert NoSurrogates(next) by {
        SkipNoSurrogates(u[1..]);
      }
      MembersWellFormed(next);
      PairsCons(m, ParseMembers(next).value.value);
    } else {
      PairsCons(m, []);
    }
  }

  /** Text written in a Dafny string literal holds no surrogate. */
  lemma TextNoSurrogates(s: string)
    ensures NoSurrogates(T(s))
  {
  }

  /** Text without surrogates holds no surrogate pair. */
  lemma PairFree(t: Text)
    requires NoSurrogates(t)
    ensures NoSurrogatePair(t)
  {
  }

  /** Joining two strs creates no surrogate pair when the first does not end
      with a high surrogate. */
  lemma PairFreeConcat(a: Text, b: Text)
    requires NoSurrogatePair(a) && NoSurrogatePair(b)
    requires a == [] || !IsHighSurrogate(a[|a| - 1])
    ensures NoSurrogatePair(a + b)
  {
    var r := a + b;
    forall i | 0 <= i < |r| - 1
      ensures !(IsHighSurrogate(r[i]) && IsLowSurrogate(r[i + 1]))
    {
      if i >= |a| {
        assert r[i] == b[i - |a|] && r[i + 1] == b[i + 1 - |a|];
      } else if i + 1 < |a| {
        assert r[i] == a[i] && r[i + 1] == a[i + 1];
      }
    }
  }

  lemma NoSurrogatesConcat(a: Text, b: Text)
    requires NoSurrogates(a) && NoSurrogates(b)
    ensures NoSurrogates(a + b)
  {
  }

  /** `repr` writes every surrogate as an escape. */
  lemma ReprCharNoSurrogates(c: CodePoint, quote: CodePoint)
    requires quote == 0x27 || quote == 0x22
    ensures NoSurrogates(ReprChar(c, quote))
  {
  }

  lemma {:induction false} ReprCharsNoSurrogates(t: Text, quote: CodePoint)
    requires quote == 0x27 || quote == 0x22
    ensures NoSurrogates(ReprChars(t, quote))
  {
    if t != [] {
      ReprCharNoSurrogates(t[0], quote);
      ReprCharsNoSurrogates(t[1..], quote);
      NoSurrogatesConcat(ReprChar(t[0], quote), ReprChars(t[1..], quote));
    }
  }

  lemma PyReprNoSurrogates(t: Text)
    ensures NoSurrogates(PyRepr(t))
  {
    var quote := PyRepr(t)[0];
    ReprCharsNoSurrogates(t, quote);
  }

  /** `repr` of any decoded value has no surrogate in it. */
  lemma {:induction false} ReprValueNoSurrogates(v: Value)
    ensures NoSurrogates(PyReprValue(v))
    decreases v, 1
  {
    match v
    case Null => TextNoSurrogates("None");
    case Bool(b) => TextNoSurrogates("True"); TextNoSurrogates("False");
    case Int(n) =>
    case Float(lexeme) =>
      TextNoSurrogates("nan"); TextNoSurrogates("inf"); TextNoSurrogates("-inf");
      LexemeIsAscii(lexeme);
    case String(s) => PyReprNoSurrogates(s);
    case Array(xs) => ReprItemsNoSurrogates(xs);
    case Object(ms) => ReprMembersNoSurrogates(ms);
  }

  lemma {:induction false} ReprItemsNoSurrogates(xs: seq<Value>)
    ensures NoSurrogates(ReprItems(xs))
    decreases xs, 0
  {
    if xs != [] {
      ReprValueNoSurrogates(xs[0]);
      ReprItemsNoSurrogates(xs[1..]);
    }
  }

  lemma {:induction false} ReprMembersNoSurrogates(ms: seq<Member>)
    ensures NoSurrogates(ReprMembers(ms))
    decreases ms, 0
  {
    if ms != [] {
      PyReprNoSurrogates(ms[0].key);
      ReprValueNoSurrogates(ms[0].value);
      ReprMembersNoSurrogates(ms[1..]);
    }
  }

  /** `d[k] = v` on a well-formed dict with a well-formed key and value
      leaves it well-formed. */
  lemma PutWellFormed(ms: seq<Member>, k: Text, v: Value)
    requires WellFormed(Object(ms)) && NoSurrogatePair(k) && WellFormed(v)
    ensures WellFormed(Object(Put(ms, k, v)))
  {
    var r := Put(ms, k, v);
    PutDistinct(ms, k, v);
    PutMembers(ms, k, v);
    forall i | 0 <= i < |r|
      ensures NoSurrogatePair(r[i].key) && WellFormed(r[i].value)
    {
      assert r[i] in ms || r[i] == Member(k, v);
    }
  }

  /** Every document the proxy decodes from a request body is well-formed. */
  lemma DecodedIsWellFormed(body: Utf8.Bytes)
    requires DecodeRequest(body).Ok?
    ensures WellFormed(DecodeRequest(body).value)
  {
    var s := Utf8.Decode(body, false).value;
    SkipNoSurrogates(s);
    ValueWellFormed(SkipWhitespace(s));
  }
}
