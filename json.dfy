/**
 * The JSON documents the proxy handles, as the Python objects `json.loads`
 * builds: objects are dicts, kept as ordered member lists so that "the other
 * keys and their order are unchanged" can be stated; plus the Python
 * operations the core applies to such objects (`in`, `d[k] = v`, iteration,
 * truthiness, `str()`).
 */
module Json {
  import opened Wrappers
  import opened Texts
  import opened JsonNumbers

  /** A decoded JSON value. A float keeps the text it was written as: the
      model does no floating-point arithmetic. */
  datatype Value =
    | Null
    | Bool(b: bool)
    | Int(n: int)
    | Float(lexeme: Lexeme)
    | String(s: Text)
    | Array(items: seq<Value>)
    | Object(members: seq<Member>)

  /** One key/value pair of an object, in insertion order. */
  datatype Member = Member(key: Text, value: Value)

  /** The Python exceptions the core can raise without catching them itself
      (FastAPI answers each with a 500), plus the one it does catch. */
  datatype PyError =
    | UnicodeDecodeError   // bytes.decode('utf-8') on malformed bytes
    | JSONDecodeError      // json.loads on text that is not JSON
    | TypeError            // `in`, iteration or subscript on the wrong type
    | AttributeError       // `.get` on something that is not a dict

  // ---------------------------------------------------------------------
  // Objects as Python dicts
  // ---------------------------------------------------------------------

  function Keys(ms: seq<Member>): (ks: seq<Text>)
    ensures |ks| == |ms|
  {
    if ms == [] then [] else [ms[0].key] + Keys(ms[1..])
  }

  lemma {:induction false} KeysConcat(a: seq<Member>, b: seq<Member>)
    ensures Keys(a + b) == Keys(a) + Keys(b)
  {
    if a == [] {
      assert a + b == b;
    } else {
      assert (a + b)[0] == a[0] && (a + b)[1..] == a[1..] + b;
      KeysConcat(a[1..], b);
    }
  }

  lemma {:induction false} KeysAt(ms: seq<Member>, i: nat)
    requires i < |ms|
    ensures Keys(ms)[i] == ms[i].key
  {
    if i > 0 {
      KeysAt(ms[1..], i - 1);
    }
  }

  /** No key occurs twice: what every Python dict satisfies. */
  predicate DistinctKeys(ms: seq<Member>) {
    Distinct(Keys(ms))
  }

  predicate Distinct(ks: seq<Text>) {
    forall i, j :: 0 <= i < j < |ks| ==> ks[i] != ks[j]
  }

  /** `d.get(k)`: the value under `k`, if any. */
  function Get(ms: seq<Member>, k: Text): (r: Option<Value>)
    ensures r.Some? <==> k in Keys(ms)
    ensures r.Some? ==> Member(k, r.value) in ms
    ensures r.None? ==> forall i :: 0 <= i < |ms| ==> ms[i].key != k
  {
    if ms == [] then None
    else if ms[0].key == k then Some(ms[0].value)
    else Get(ms[1..], k)
  }

  /** `d[k] = v`: an existing key keeps its position and takes the new value,
      a new key is appended (the lookup of every other key is unchanged:
      GetPutOther). */
  function Put(ms: seq<Member>, k: Text, v: Value): (r: seq<Member>)
    ensures Keys(r) == if k in Keys(ms) then Keys(ms) else Keys(ms) + [k]
    ensures Get(r, k) == Some(v)
  {
    if ms == [] then [Member(k, v)]
    else if ms[0].key == k then
      var r := [Member(k, v)] + ms[1..];
      assert Keys(r) == [k] + Keys(ms[1..]);
      r
    else
      var rest := Put(ms[1..], k, v);
      var r := [ms[0]] + rest;
      assert Keys(ms) == [ms[0].key] + Keys(ms[1..]);
      assert Keys(r) == [ms[0].key] + Keys(rest);
      r
  }

  /** Keys stay distinct under `d[k] = v`. */
  lemma PutDistinct(ms: seq<Member>, k: Text, v: Value)
    requires DistinctKeys(ms)
    ensures DistinctKeys(Put(ms, k, v))
  {
  }

  /** `dict(pairs)`, as `json.loads` builds an object: a repeated key keeps
      the position of its first occurrence and the value of its last. */
  function FromPairs(ps: seq<Member>): (r: seq<Member>)
    ensures DistinctKeys(r)
  {
    if ps == [] then []
    else
      var init := FromPairs(ps[..|ps| - 1]);
      PutDistinct(init, ps[|ps| - 1].key, ps[|ps| - 1].value);
      Put(init, ps[|ps| - 1].key, ps[|ps| - 1].value)
  }

  /** Building a dict from pairs whose keys are already distinct keeps them as they are. */
  lemma {:induction false} FromDistinctPairs(ps: seq<Member>)
    requires DistinctKeys(ps)
    ensures FromPairs(ps) == ps
  {
    if ps != [] {
      var init := ps[..|ps| - 1];
      KeysConcat(init, [ps[|ps| - 1]]);
      assert init + [ps[|ps| - 1]] == ps;
      var k := ps[|ps| - 1].key;
      assert Keys(ps) == Keys(init) + [k];
      var ks := Keys(ps);
      assert ks[|init|] == k;
      forall i | 0 <= i < |init| ensures Keys(init)[i] != k {
        assert Keys(init)[i] == ks[i] && ks[i] != ks[|init|];
      }
      assert Keys(init) == ks[..|init|];
      FromDistinctPairs(init);
      PutNew(init, ps[|ps| - 1].key, ps[|ps| - 1].value);
      assert init + [ps[|ps| - 1]] == ps;
    }
  }

  lemma {:induction false} PutNew(ms: seq<Member>, k: Text, v: Value)
    requires k !in Keys(ms)
    ensures Put(ms, k, v) == ms + [Member(k, v)]
  {
    if ms != [] {
      assert Keys(ms) == [ms[0].key] + Keys(ms[1..]);
      PutNew(ms[1..], k, v);
    }
  }

  /** The value under `k` after `dict(pairs)` is the value of the last pair with key `k`. */
  lemma {:induction false} FromPairsLastWins(ps: seq<Member>, k: Text, i: nat)
    requires i < |ps| && ps[i].key == k
    requires forall j :: i < j < |ps| ==> ps[j].key != k
    ensures Get(FromPairs(ps), k) == Some(ps[i].value)
  {
    var last := ps[|ps| - 1];
    if i < |ps| - 1 {
      FromPairsLastWins(ps[..|ps| - 1], k, i);
      GetPutOther(FromPairs(ps[..|ps| - 1]), last.key, last.value, k);
    }
  }

  /** Putting one key leaves the lookup of every other key as it was. */
  lemma {:induction false} GetPutOther(ms: seq<Member>, k: Text, v: Value, k': Text)
    requires k' != k
    ensures Get(Put(ms, k, v), k') == Get(ms, k')
  {
    if ms != [] && ms[0].key != k {
      GetPutOther(ms[1..], k, v, k');
    }
  }

  // ---------------------------------------------------------------------
  // Python operations on decoded values
  // ---------------------------------------------------------------------

  /** `key in container` for a str `key`: dict membership, list element
      equality, substring on str; a TypeError on every other type. */
  function Contains(container: Value, key: Text): (r: Result<bool, PyError>)
    ensures r.Err? <==> !(container.Object? || container.Array? || container.String?)
    ensures container.Object? ==> r == Ok(key in Keys(container.members))
  {
    match container
    case Object(ms) => Ok(key in Keys(ms))
    case Array(xs) => Ok(String(key) in xs)
    case String(s) => Ok(IsSubstring(key, s))
    case _ => Err(TypeError)
  }

  /** `for x in v`: a list gives its items, a dict its keys, a str its
      characters; anything else raises TypeError. */
  function Iterate(v: Value): (r: Result<seq<Value>, PyError>)
    ensures v.Array? ==> r == Ok(v.items)
    ensures r.Ok? && !v.Array? ==> forall i :: 0 <= i < |r.value| ==> r.value[i].String?
    ensures r.Err? <==> !(v.Array? || v.Object? || v.String?)
    ensures r.Err? ==> r.error == TypeError
    ensures v.Object? ==> |r.value| == |v.members|
    ensures v.String? ==> |r.value| == |v.s|
  {
    match v
    case Array(xs) => Ok(xs)
    case Object(ms) => Ok(seq(|ms|, i requires 0 <= i < |ms| => String(ms[i].key)))
    case String(s) => Ok(seq(|s|, i requires 0 <= i < |s| => String([s[i]])))
    case _ => Err(TypeError)
  }

  /** A float written as `lexeme` is zero: no digit before the exponent is non-zero. */
  predicate FloatIsZero(lexeme: Text) {
    lexeme != NAN && lexeme != INFINITY && lexeme != NEG_INFINITY && MantissaIsZero(lexeme)
  }

  predicate MantissaIsZero(t: Text) {
    t == [] || t[0] == 0x65 || t[0] == 0x45 || ((!IsDigit(t[0]) || t[0] == 0x30) && MantissaIsZero(t[1..]))
  }

  /** Python truthiness (`if x:`). */
  predicate Truthy(v: Value) {
    match v
    case Null => false
    case Bool(b) => b
    case Int(n) => n != 0
    case Float(lexeme) => !FloatIsZero(lexeme)
    case String(s) => s != []
    case Array(xs) => xs != []
    case Object(ms) => ms != []
  }
  /** The falsy values are exactly None, False, zero, and the empty str,
      list and dict. */
  lemma FalsyValues(v: Value)
    ensures !Truthy(v) <==>
      v == Null || v == Bool(false) || v == Int(0) || (v.Float? && FloatIsZero(v.lexeme))
      || v == String([]) || v == Array([]) || v == Object([])
  {
  }


  /** `str(v)`: a str is itself, everything else is its `repr`. */
  function PyStr(v: Value): (r: Text)
    ensures v.String? ==> r == v.s
  {
    if v.String? then v.s else PyReprValue(v)
  }

  /** `repr(v)` of the Python object `json.loads` built. A float is shown as
      it was written (Python would print its shortest round-trip form). */
  function PyReprValue(v: Value): Text {
    match v
    case Null => T("None")
    case Bool(b) => if b then T("True") else T("False")
    case Int(n) => IntToDecimal(n)
    case Float(lexeme) =>
      if lexeme == NAN then T("nan")
      else if lexeme == INFINITY then T("inf")
      else if lexeme == NEG_INFINITY then T("-inf")
      else lexeme
    case String(s) => PyRepr(s)
    case Array(xs) => T("[") + ReprItems(xs) + T("]")
    case Object(ms) => T("{") + ReprMembers(ms) + T("}")
  }

  function ReprItems(xs: seq<Value>): Text {
    if xs == [] then []
    else if |xs| == 1 then PyReprValue(xs[0])
    else PyReprValue(xs[0]) + T(", ") + ReprItems(xs[1..])
  }

  function ReprMembers(ms: seq<Member>): Text {
    if ms == [] then []
    else
      var first := PyRepr(ms[0].key) + T(": ") + PyReprValue(ms[0].value);
      if |ms| == 1 then first else first + T(", ") + ReprMembers(ms[1..])
  }

  // ---------------------------------------------------------------------
  // Well-formed values: the ones json.loads can produce
  // ---------------------------------------------------------------------

  /** No high surrogate is directly followed by a low one (json.loads joins
      such an escaped pair into one code point). */
  predicate NoSurrogatePair(s: Text) {
    forall i :: 0 <= i < |s| - 1 ==> !(IsHighSurrogate(s[i]) && IsLowSurrogate(s[i + 1]))
  }

  /** Keys are distinct in every object and no string holds a surrogate pair. */
  predicate WellFormed(v: Value) {
    match v
    case String(s) => NoSurrogatePair(s)
    case Array(xs) => forall i :: 0 <= i < |xs| ==> WellFormed(xs[i])
    case Object(ms) =>
      DistinctKeys(ms) && forall i :: 0 <= i < |ms| ==> NoSurrogatePair(ms[i].key) && WellFormed(ms[i].value)
    case _ => true
  }

  /** The items of a well-formed array. */
  predicate AllWellFormed(xs: seq<Value>) {
    forall i :: 0 <= i < |xs| ==> WellFormed(xs[i])
  }

  /** The pairs of a well-formed object: keys without surrogate pairs, well-formed values. */
  predicate AllPairsWellFormed(ms: seq<Member>) {
    forall i :: 0 <= i < |ms| ==> NoSurrogatePair(ms[i].key) && WellFormed(ms[i].value)
  }

  lemma ItemsTail(xs: seq<Value>)
    requires xs != [] && AllWellFormed(xs)
    ensures WellFormed(xs[0]) && AllWellFormed(xs[1..])
  {
    assert forall i :: 0 <= i < |xs| - 1 ==> xs[1..][i] == xs[i + 1];
  }

  lemma PairsTail(ms: seq<Member>)
    requires ms != [] && AllPairsWellFormed(ms)
    ensures NoSurrogatePair(ms[0].key) && WellFormed(ms[0].value) && AllPairsWellFormed(ms[1..])
  {
    assert forall i :: 0 <= i < |ms| - 1 ==> ms[1..][i] == ms[i + 1];
  }

  lemma ItemsCons(x: Value, xs: seq<Value>)
    requires WellFormed(x) && AllWellFormed(xs)
    ensures AllWellFormed([x] + xs)
  {
    forall i | 0 <= i < |xs| + 1
      ensures WellFormed(([x] + xs)[i])
    {
      if i > 0 {
        assert ([x] + xs)[i] == xs[i - 1];
      }
    }
  }

  lemma PairsCons(m: Member, ms: seq<Member>)
    requires NoSurrogatePair(m.key) && WellFormed(m.value) && AllPairsWellFormed(ms)
    ensures AllPairsWellFormed([m] + ms)
  {
    forall i | 0 <= i < |ms| + 1
      ensures NoSurrogatePair(([m] + ms)[i].key) && WellFormed(([m] + ms)[i].value)
    {
      if i > 0 {
        assert ([m] + ms)[i] == ms[i - 1];
      }
    }
  }
}
