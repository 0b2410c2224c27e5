/**
 * The Ollama-compatible proxy routes under `/api`: a fixed route table,
 * the injection of the system directive into `generate` prompts and `chat`
 * message lists, the passthrough fallback for bodies that are not JSON, and
 * the status/stream/JSON relay every route ends with.
 */
module Legacy {
  import opened Wrappers
  import opened Texts
  import Utf8
  import opened Json
  import JsonDecoder
  import JsonEncoder
  import opened JsonWellFormed
  import JsonRoundTrip
  import opened Http
  import opened Helpers

  // ---------------------------------------------------------------------
  // The route table
  // ---------------------------------------------------------------------

  datatype Route = Version | Tags | Generate | Chat | Pull | Push | Create | Delete | Copy | Show | Embeddings

  /** The upstream path each route forwards to; it is the route's own path. */
  function Path(route: Route): (p: Text)
    ensures |p| > 5 && p[..5] == T("/api/")
  {
    match route
    case Version => T("/api/version")
    case Tags => T("/api/tags")
    case Generate => T("/api/generate")
    case Chat => T("/api/chat")
    case Pull => T("/api/pull")
    case Push => T("/api/push")
    case Create => T("/api/create")
    case Delete => T("/api/delete")
    case Copy => T("/api/copy")
    case Show => T("/api/show")
    case Embeddings => T("/api/embeddings")
  }

  /** The HTTP method of each route's decorator, which is also the method
      of the upstream call. */
  function MethodOf(route: Route): (m: Method)
    ensures m == GET <==> route.Version? || route.Tags?
    ensures m == DELETE <==> route.Delete?
    ensures Injects(route) || ChecksStream(route) ==> m == POST
  {
    match route
    case Version | Tags => GET
    case Delete => DELETE
    case _ => POST
  }

  /** The routes that can last as long as a model runs have no timeout;
      the others are bounded at 30 seconds. */
  function TimeoutOf(route: Route): (t: Timeout)
    ensures t == NoTimeout || t == Seconds(30)
  {
    match route
    case Generate | Chat | Pull | Push | Create => NoTimeout
    case _ => Seconds(30)
  }

  /** The routes that look at the reply's content type and may stream. */
  predicate ChecksStream(route: Route) {
    route.Generate? || route.Chat? || route.Pull? || route.Push? || route.Create?
  }

  /** The routes that rewrite the request body before forwarding it. */
  predicate Injects(route: Route) {
    route.Generate? || route.Chat?
  }

  /** A route can stream exactly when it has no timeout; the rewriting
      routes are among them. */
  lemma StreamingRoutesAreUnbounded(route: Route)
    ensures TimeoutOf(route) == NoTimeout <==> ChecksStream(route)
    ensures Injects(route) ==> ChecksStream(route) && MethodOf(route) == POST
  {
  }

  /** Distinct routes reach distinct upstream paths. */
  lemma PathsDistinct(a: Route, b: Route)
    requires a != b
    ensures Path(a) != Path(b)
  {
    var i := 5;
    assert Path(a)[i] != Path(b)[i] || Path(a)[i + 1] != Path(b)[i + 1] || |Path(a)| != |Path(b)|
      || Path(a)[i + 2] != Path(b)[i + 2];
  }

  // ---------------------------------------------------------------------
  // The two injectors
  // ---------------------------------------------------------------------

  const BLANK_LINE: Text := [0x0A, 0x0A]
  const PROMPT: Text := T("prompt")
  const MESSAGES: Text := T("messages")
  const ROLE: Text := T("role")
  const CONTENT: Text := T("content")
  const SYSTEM: Text := T("system")

  /** `inject_base_system_to_prompt`: the directive, a blank line, then the prompt. */
  function InjectIntoPrompt(prompt: Text): (r: Text)
    ensures |r| == |BASE_SYSTEM| + 2 + |prompt|
    ensures r[..|BASE_SYSTEM|] == BASE_SYSTEM
    ensures r[|BASE_SYSTEM|..|BASE_SYSTEM| + 2] == BLANK_LINE
    ensures r[|BASE_SYSTEM| + 2..] == prompt
  {
    BASE_SYSTEM + BLANK_LINE + prompt
  }

  /** Injecting twice puts the directive in front twice: the prompt injector
      is not idempotent. */
  lemma PromptInjectionNotIdempotent(prompt: Text)
    ensures InjectIntoPrompt(InjectIntoPrompt(prompt)) != InjectIntoPrompt(prompt)
    ensures InjectIntoPrompt(InjectIntoPrompt(prompt))[|BASE_SYSTEM| + 2..] == InjectIntoPrompt(prompt)
  {
    assert |InjectIntoPrompt(InjectIntoPrompt(prompt))| != |InjectIntoPrompt(prompt)|;
  }

  /** The message put at the front of every chat: `{"role": "system", "content": BASE_SYSTEM}`. */
  const SYSTEM_MESSAGE: Value := Object([Member(ROLE, String(SYSTEM)), Member(CONTENT, String(BASE_SYSTEM))])

  /** A dict whose `role` is the string "system". A message without a role,
      or with a role of another type, is not one. */
  predicate IsSystemMessage(m: Value) {
    m.Object? && Get(m.members, ROLE) == Some(String(SYSTEM))
  }

  lemma SystemMessageIsSystem()
    ensures IsSystemMessage(SYSTEM_MESSAGE)
  {
    assert Get(SYSTEM_MESSAGE.members, ROLE) == Some(String(SYSTEM));
  }

  /** The messages that are not system messages, in their order. */
  function WithoutSystem(msgs: seq<Value>): (r: seq<Value>)
    ensures |r| <= |msgs|
  {
    if msgs == [] then []
    else if IsSystemMessage(msgs[0]) then WithoutSystem(msgs[1..])
    else [msgs[0]] + WithoutSystem(msgs[1..])
  }

  /** The kept messages are messages of the input, and none is a system message. */
  lemma {:induction false} WithoutSystemSound(msgs: seq<Value>)
    ensures forall i :: 0 <= i < |WithoutSystem(msgs)| ==>
      !IsSystemMessage(WithoutSystem(msgs)[i]) && WithoutSystem(msgs)[i] in msgs
  {
    if msgs != [] {
      WithoutSystemSound(msgs[1..]);
      var r := WithoutSystem(msgs);
      var tail := WithoutSystem(msgs[1..]);
      var h := if IsSystemMessage(msgs[0]) then [] else [msgs[0]];
      assert r == h + tail;
      forall i | 0 <= i < |r|
        ensures !IsSystemMessage(r[i]) && r[i] in msgs
      {
        if i < |h| {
          assert r[i] == msgs[0];
        } else {
          var x := tail[i - |h|];
          assert r[i] == x;
          assert x in msgs[1..];
          var j :| 0 <= j < |msgs[1..]| && msgs[1..][j] == x;
          assert msgs[j + 1] == x;
        }
      }
    }
  }

  /** Filtering a concatenation is concatenating the filtered parts: the
      relative order of the kept messages is that of the input. */
  lemma WithoutSystemStep(msgs: seq<Value>)
    requires msgs != []
    ensures WithoutSystem(msgs) == (if IsSystemMessage(msgs[0]) then [] else [msgs[0]]) + WithoutSystem(msgs[1..])
  {
  }

  lemma {:induction false} WithoutSystemConcat(a: seq<Value>, b: seq<Value>)
    ensures WithoutSystem(a + b) == WithoutSystem(a) + WithoutSystem(b)
  {
    if a == [] {
      assert a + b == b;
    } else {
      var ab := a + b;
      var h := if IsSystemMessage(a[0]) then [] else [a[0]];
      assert ab != [] && ab[0] == a[0] && ab[1..] == a[1..] + b;
      calc {
        WithoutSystem(ab);
      == { WithoutSystemStep(ab); }
        h + WithoutSystem(a[1..] + b);
      == { WithoutSystemConcat(a[1..], b); }
        h + (WithoutSystem(a[1..]) + WithoutSystem(b));
      ==
        (h + WithoutSystem(a[1..])) + WithoutSystem(b);
      == { WithoutSystemStep(a); }
        WithoutSystem(a) + WithoutSystem(b);
      }
    }
  }


  /** One message is dropped exactly when it is a system message. */
  lemma WithoutSystemSingle(m: Value)
    ensures WithoutSystem([m]) == if IsSystemMessage(m) then [] else [m]
  {
    assert [m][1..] == [];
  }

  /** A list without system messages is kept whole; this includes every
      message that has no `role` key. */
  lemma {:induction false} WithoutSystemKeepsAll(msgs: seq<Value>)
    requires forall i :: 0 <= i < |msgs| ==> !IsSystemMessage(msgs[i])
    ensures WithoutSystem(msgs) == msgs
  {
    if msgs != [] {
      WithoutSystemKeepsAll(msgs[1..]);
      assert msgs == [msgs[0]] + msgs[1..];
    }
  }

  lemma RoleLessKept(m: Value)
    requires m.Object? && ROLE !in Keys(m.members)
    ensures WithoutSystem([m]) == [m]
  {
    WithoutSystemSingle(m);
  }

  /** `inject_base_system_to_messages` on the items of a list: every item
      must be a dict (`msg.get` fails with AttributeError on anything else);
      then the system messages are dropped and the directive put first. */
  function InjectIntoMessages(msgs: seq<Value>): (r: Result<seq<Value>, PyError>)
    ensures r.Err? <==> exists i :: 0 <= i < |msgs| && !msgs[i].Object?
    ensures r.Err? ==> r.error == AttributeError
    ensures r.Ok? ==> |r.value| >= 1 && r.value[0] == SYSTEM_MESSAGE
    ensures r.Ok? ==> forall i :: 1 <= i < |r.value| ==> !IsSystemMessage(r.value[i])
    ensures r.Ok? ==> r.value[1..] == WithoutSystem(msgs)
  {
    if exists i :: 0 <= i < |msgs| && !msgs[i].Object? then Err(AttributeError)
    else
      var kept := WithoutSystem(msgs);
      var out := [SYSTEM_MESSAGE] + kept;
      WithoutSystemSound(msgs);
      assert out[1..] == kept;
      Ok(out)
  }

  /** Injecting into an injected list changes nothing. */
  lemma MessagesInjectionIdempotent(msgs: seq<Value>)
    requires InjectIntoMessages(msgs).Ok?
    ensures InjectIntoMessages(InjectIntoMessages(msgs).value) == InjectIntoMessages(msgs)
  {
    var out := InjectIntoMessages(msgs).value;
    var kept := WithoutSystem(msgs);
    assert out == [SYSTEM_MESSAGE] + kept;
    WithoutSystemSound(msgs);
    assert forall i :: 0 <= i < |kept| ==> kept[i] in msgs;
    assert forall i :: 0 <= i < |out| ==> out[i].Object?;
    SystemMessageIsSystem();
    WithoutSystemConcat([SYSTEM_MESSAGE], kept);
    WithoutSystemSingle(SYSTEM_MESSAGE);
    WithoutSystemKeepsAll(kept);
  }

  /** The injector applied to whatever `data["messages"]` holds: its items
      if it is a list, its keys if a dict, its characters if a str (each a
      str, so an AttributeError unless there are none), TypeError otherwise. */
  function InjectIntoMessagesValue(v: Value): (r: Result<Value, PyError>)
    ensures v.Array? && InjectIntoMessages(v.items).Ok? ==> r == Ok(Array(InjectIntoMessages(v.items).value))
    ensures v.Array? && InjectIntoMessages(v.items).Err? ==> r == Err(AttributeError)
    ensures r.Ok? ==> r.value.Array? && r.value.items != [] && r.value.items[0] == SYSTEM_MESSAGE
    ensures (v.Object? || v.String?) ==> (r.Ok? <==> Iterate(v) == Ok([]))
    ensures (v.Object? || v.String?) && r.Err? ==> r.error == AttributeError
    ensures !(v.Array? || v.Object? || v.String?) ==> r == Err(TypeError)
  {
    match Iterate(v)
    case Err(e) => Err(e)
    case Ok(items) =>
      match InjectIntoMessages(items)
      case Err(e) => Err(e)
      case Ok(out) => Ok(Array(out))
  }

  // ---------------------------------------------------------------------
  // Rewriting the decoded body
  // ---------------------------------------------------------------------

  /** Which key a rewriting route replaces and how. */
  datatype Injection = IntoPrompt | IntoMessages

  function KeyOf(injection: Injection): Text {
    match injection
    case IntoPrompt => PROMPT
    case IntoMessages => MESSAGES
  }

  function RouteOf(injection: Injection): (route: Route)
    ensures Injects(route)
  {
    match injection
    case IntoPrompt => Generate
    case IntoMessages => Chat
  }

  /** The new value for the key: the f-string formats any value with `str()`. */
  function InjectValue(injection: Injection, v: Value): Result<Value, PyError> {
    match injection
    case IntoPrompt => Ok(String(InjectIntoPrompt(PyStr(v))))
    case IntoMessages => InjectIntoMessagesValue(v)
  }

  /** `if key in data: data[key] = inject(data[key])`. `in` raises TypeError
      on a number, bool or null; the subscript raises TypeError on a list or
      str that passed the `in` test. A dict gets the new value in place. */
  function Rewrite(injection: Injection, data: Value): (r: Result<Value, PyError>)
    ensures data.Object? && KeyOf(injection) !in Keys(data.members) ==> r == Ok(data)
    ensures !data.Object? && r.Ok? ==> r == Ok(data)
    ensures r.Ok? ==> r.value.Object? == data.Object?
  {
    var key := KeyOf(injection);
    match Contains(data, key)
    case Err(e) => Err(e)
    case Ok(present) =>
      if !present then Ok(data)
      else if !data.Object? then Err(TypeError)
      else
        assert Get(data.members, key).Some?;
        match InjectValue(injection, Get(data.members, key).value)
        case Err(e) => Err(e)
        case Ok(v) => Ok(Object(Put(data.members, key, v)))
  }

  /** Only the injected key changes: every other key keeps its value, the
      keys keep their order, and the key gets the injected value. */
  lemma RewriteOnlyTouchesKey(injection: Injection, ms: seq<Member>, k: Text)
    requires Rewrite(injection, Object(ms)).Ok?
    ensures var out := Rewrite(injection, Object(ms)).value;
      && out.Object?
      && Keys(out.members) == Keys(ms)
      && (k != KeyOf(injection) ==> Get(out.members, k) == Get(ms, k))
  {
    var key := KeyOf(injection);
    if key in Keys(ms) {
      var v := InjectValue(injection, Get(ms, key).value).value;
      if k != key {
        GetPutOther(ms, key, v, k);
      }
    }
  }

  /** When the key is there, it gets what the injector makes of its value. */
  lemma RewriteSetsKey(injection: Injection, ms: seq<Member>)
    requires KeyOf(injection) in Keys(ms)
    ensures var key := KeyOf(injection);
      var injected := InjectValue(injection, Get(ms, key).value);
      && (injected.Ok? ==> Rewrite(injection, Object(ms)) == Ok(Object(Put(ms, key, injected.value))))
      && (injected.Err? ==> Rewrite(injection, Object(ms)) == Err(injected.error))
  {
  }

  /** The chat body `{"messages": [{"role": "user", "content": "hi"}]}` is
      forwarded with the directive in front of the user message. */
  lemma ChatScenario()
    ensures var user := Object([Member(ROLE, String(T("user"))), Member(CONTENT, String(T("hi")))]);
      Rewrite(IntoMessages, Object([Member(MESSAGES, Array([user]))]))
        == Ok(Object([Member(MESSAGES, Array([SYSTEM_MESSAGE, user]))]))
  {
    var user := Object([Member(ROLE, String(T("user"))), Member(CONTENT, String(T("hi")))]);
    assert Get(user.members, ROLE) == Some(String(T("user")));
    assert T("user") != SYSTEM;
    assert [user][1..] == [];
    assert WithoutSystem([user]) == [user];
    var ms := [Member(MESSAGES, Array([user]))];
    assert Keys(ms) == [MESSAGES] by { assert ms[1..] == []; }
    assert Get(ms, MESSAGES) == Some(Array([user]));
    assert !exists i :: 0 <= i < |[user]| && ![user][i].Object?;
    assert [SYSTEM_MESSAGE] + [user] == [SYSTEM_MESSAGE, user];
    assert InjectIntoMessages([user]) == Ok([SYSTEM_MESSAGE, user]);
    assert InjectValue(IntoMessages, Array([user])) == Ok(Array([SYSTEM_MESSAGE, user]));
    assert ms[1..] == [];
    assert Put(ms, MESSAGES, Array([SYSTEM_MESSAGE, user])) == [Member(MESSAGES, Array([SYSTEM_MESSAGE, user]))];
  }

  /** A str body that mentions the key passes `in` and then fails the
      subscript; a number body fails `in` itself. */
  lemma TopLevelNonObjects(injection: Injection, s: Text, n: int)
    requires IsSubstring(KeyOf(injection), s)
    ensures Rewrite(injection, String(s)) == Err(TypeError)
    ensures Rewrite(injection, Int(n)) == Err(TypeError)
  {
  }

  // ---------------------------------------------------------------------
  // generate and ollama_chat
  // ---------------------------------------------------------------------

  /** `json.dumps(data).encode('utf-8')`: the text is ASCII, so its bytes are its code points. */
  function EncodeDocument(d: Value): (bytes: Utf8.Bytes)
    ensures bytes == JsonEncoder.Dump(d)
  {
    var s := JsonEncoder.Dump(d);
    JsonEncoder.DumpIsAscii(d);
    Utf8.EncodeAscii(s);
    Utf8.Encode(s)
  }

  /** The body the `try` block sends, or the exception it stops with
      before sending anything. */
  function Forwarded(injection: Injection, body: Utf8.Bytes): (r: Result<Utf8.Bytes, PyError>)
    ensures r.Err? <==> JsonDecoder.DecodeRequest(body).Err? || Rewrite(injection, JsonDecoder.DecodeRequest(body).value).Err?
  {
    match JsonDecoder.DecodeRequest(body)
    case Err(e) => Err(e)
    case Ok(data) =>
      match Rewrite(injection, data)
      case Err(e) => Err(e)
      case Ok(d) => Ok(EncodeDocument(d))
  }

  /** The directive message is a well-formed document. */
  lemma SystemMessageWellFormed()
    ensures WellFormed(SYSTEM_MESSAGE)
  {
    TextNoSurrogates("role");
    TextNoSurrogates("content");
    TextNoSurrogates("system");
    BaseSystemNoSurrogates();
    PairFree(ROLE);
    PairFree(CONTENT);
    PairFree(SYSTEM);
    PairFree(BASE_SYSTEM);
    var ms := SYSTEM_MESSAGE.members;
    assert Keys(ms) == [ROLE, CONTENT] by {
      assert ms[1..][1..] == [];
    }
    assert ROLE != CONTENT by {
      assert |ROLE| != |CONTENT|;
    }
  }

  lemma BaseSystemNoSurrogates()
    ensures NoSurrogates(BASE_SYSTEM)
  {
    var a := T("Respondé de forma técnica, clara y concisa. ");
    var b := T("Si no sabés, decí 'No lo sé con certeza con el contexto dado'. ");
    var c := T("Evitá inventar datos. Contesta siempre en idioma español.");
    TextNoSurrogates("Respondé de forma técnica, clara y concisa. ");
    TextNoSurrogates("Si no sabés, decí 'No lo sé con certeza con el contexto dado'. ");
    TextNoSurrogates("Evitá inventar datos. Contesta siempre en idioma español.");
    NoSurrogatesConcat(a, b);
    NoSurrogatesConcat(a + b, c);
  }

  /** The injected prompt is a well-formed str, whatever value it formats. */
  lemma InjectedPromptWellFormed(v: Value)
    requires WellFormed(v)
    ensures WellFormed(String(InjectIntoPrompt(PyStr(v))))
  {
    var head := BASE_SYSTEM + BLANK_LINE;
    BaseSystemNoSurrogates();
    NoSurrogatesConcat(BASE_SYSTEM, BLANK_LINE);
    PairFree(head);
    if !v.String? {
      ReprValueNoSurrogates(v);
      PairFree(PyStr(v));
    }
    PairFreeConcat(head, PyStr(v));
    assert InjectIntoPrompt(PyStr(v)) == head + PyStr(v);
  }

  /** The injected list holds the directive and well-formed messages only. */
  lemma InjectedMessagesWellFormed(v: Value)
    requires WellFormed(v) && InjectIntoMessagesValue(v).Ok?
    ensures WellFormed(InjectIntoMessagesValue(v).value)
  {
    var items := Iterate(v).value;
    var out := InjectIntoMessages(items).value;
    assert InjectIntoMessagesValue(v).value == Array(out);
    var kept := WithoutSystem(items);
    assert out == [SYSTEM_MESSAGE] + kept;
    WithoutSystemSound(items);
    SystemMessageWellFormed();
    forall i | 0 <= i < |out|
      ensures WellFormed(out[i])
    {
      if i > 0 {
        assert out[i] == kept[i - 1] && kept[i - 1] in items;
      }
    }
  }

  /** Rewriting a well-formed document gives a well-formed document. */
  lemma RewriteWellFormed(injection: Injection, data: Value)
    requires WellFormed(data) && Rewrite(injection, data).Ok?
    ensures WellFormed(Rewrite(injection, data).value)
  {
    var key := KeyOf(injection);
    if data.Object? && key in Keys(data.members) {
      var ms := data.members;
      var v := Get(ms, key).value;
      var i :| 0 <= i < |ms| && ms[i] == Member(key, v);
      assert NoSurrogatePair(key) && WellFormed(v) by {
        assert ms[i].key == key && ms[i].value == v;
      }
      if injection.IntoPrompt? {
        InjectedPromptWellFormed(v);
      } else {
        InjectedMessagesWellFormed(v);
      }
      PutWellFormed(ms, key, InjectValue(injection, v).value);
    }
  }

  /** What the `try` block posts decodes to exactly the rewritten document:
      `json.loads(json.dumps(data))` gives `data` back, so the upstream
      server reads the document the proxy built. */
  lemma ForwardedDecodesToRewrite(injection: Injection, body: Utf8.Bytes)
    requires Forwarded(injection, body).Ok?
    ensures JsonDecoder.DecodeRequest(Forwarded(injection, body).value) == Rewrite(injection, JsonDecoder.DecodeRequest(body).value)
  {
    var data := JsonDecoder.DecodeRequest(body).value;
    DecodedIsWellFormed(body);
    RewriteWellFormed(injection, data);
    var d := Rewrite(injection, data).value;
    JsonRoundTrip.DumpThenLoad(d);
    JsonEncoder.DumpIsAscii(d);
    Utf8.EncodeAscii(JsonEncoder.Dump(d));
    Utf8.DecodeEncode(JsonEncoder.Dump(d));
  }

  function InjectingCall(cfg: Config, injection: Injection, payload: Utf8.Bytes): Call {
    Call(POST, cfg.ollamaBase + Path(RouteOf(injection)), Content(payload), NoTimeout)
  }

  /** What `generate` (IntoPrompt) or `ollama_chat` (IntoMessages) does with
      a request body, given the reply to the rewritten body (`first`) and
      the reply to the passthrough (`retry`). A JSONDecodeError anywhere in
      the `try` (decoding the request, or decoding a buffered 200 reply)
      re-posts the original bytes; any other exception propagates. */
  function InjectingExchange(cfg: Config, injection: Injection, body: Utf8.Bytes, first: Reply, retry: Reply): (ex: Exchange)
    ensures ex.calls == [] <==> Forwarded(injection, body).Err? && Forwarded(injection, body).error != JSONDecodeError
    ensures |ex.calls| == 2 <==> Forwarded(injection, body).Ok? && Relay(true, first) == Crashed(JSONDecodeError)
    ensures |ex.calls| <= 2
    ensures Forwarded(injection, body).Ok? ==> ex.calls[0] == InjectingCall(cfg, injection, Forwarded(injection, body).value)
  {
    var passthrough := InjectingCall(cfg, injection, body);
    match Forwarded(injection, body)
    case Err(e) =>
      if e == JSONDecodeError then Exchange([passthrough], Relay(true, retry))
      else Exchange([], Crashed(e))
    case Ok(bytes) => SentExchange(cfg, injection, body, bytes, first, retry)
  }

  /** The rest of the `try` once the rewritten body `bytes` is ready: it is
      posted, and a 200 reply that is not JSON sends the original `body`
      again. */
  function SentExchange(cfg: Config, injection: Injection, body: Utf8.Bytes, bytes: Utf8.Bytes, first: Reply, retry: Reply): (ex: Exchange)
    ensures ex.calls != [] && ex.calls[0] == InjectingCall(cfg, injection, bytes)
    ensures |ex.calls| == 2 <==> Relay(true, first) == Crashed(JSONDecodeError)
    ensures |ex.calls| == 2 ==> ex.calls[1] == InjectingCall(cfg, injection, body) && ex.response == Relay(true, retry)
    ensures |ex.calls| != 2 ==> |ex.calls| == 1 && ex.response == Relay(true, first)
  {
    var sent := InjectingCall(cfg, injection, bytes);
    var response := Relay(true, first);
    if response == Crashed(JSONDecodeError) then Exchange([sent, InjectingCall(cfg, injection, body)], Relay(true, retry))
    else Exchange([sent], response)
  }

  /** The first part of the `try` block, step by step: decode the body,
      replace the key in place when it is there, and encode the document. */
  method RewriteBody(injection: Injection, body: Utf8.Bytes) returns (r: Result<Utf8.Bytes, PyError>)
    ensures r == Forwarded(injection, body)
  {
    var decoded := JsonDecoder.DecodeRequest(body);
    if decoded.Err? {
      return Err(decoded.error);
    }
    var data := decoded.value;
    ghost var original := data;
    var key := KeyOf(injection);
    var present := Contains(data, key);
    if present.Err? {
      assert Rewrite(injection, original) == Err(present.error);
      return Err(present.error);
    }
    if present.value {
      if !data.Object? {
        assert Rewrite(injection, original) == Err(TypeError);
        return Err(TypeError);
      }
      var injected := InjectValue(injection, Get(data.members, key).value);
      if injected.Err? {
        assert Rewrite(injection, original) == Err(injected.error);
        return Err(injected.error);
      }
      data := Object(Put(data.members, key, injected.value));
    }
    assert Rewrite(injection, original) == Ok(data);
    r := Ok(EncodeDocument(data));
  }

  /** The handler, step by step: the `try` block, then the `except
      json.JSONDecodeError` block when it was entered. */
  method HandleInjecting(cfg: Config, injection: Injection, body: Utf8.Bytes, first: Reply, retry: Reply)
    returns (ex: Exchange)
    ensures ex == InjectingExchange(cfg, injection, body, first, retry)
  {
    var calls: seq<Call> := [];

    // try:
    var rewritten := RewriteBody(injection, body);
    if rewritten.Err? {
      if rewritten.error != JSONDecodeError {
        return Exchange(calls, Crashed(rewritten.error));
      }
      ex := Passthrough(cfg, injection, body, retry, calls);
      return;
    }
    ex := SendRewritten(cfg, injection, body, rewritten.value, first, retry);
  }

  /** The rest of the `try` block once the rewritten body is ready: post it,
      then relay the reply, falling back when it is not JSON. */
  method SendRewritten(cfg: Config, injection: Injection, body: Utf8.Bytes, modified: Utf8.Bytes, first: Reply, retry: Reply)
    returns (ex: Exchange)
    ensures ex == SentExchange(cfg, injection, body, modified, first, retry)
  {
    var url := cfg.ollamaBase + Path(RouteOf(injection));
    var calls := [Call(POST, url, Content(modified), NoTimeout)];
    assert calls == [InjectingCall(cfg, injection, modified)];
    if first.status != OK {
      return Exchange(calls, Raised(HttpException(first.status, first.text)));
    }
    if IsNdjson(first) {
      return Exchange(calls, Streamed(first.content));
    }
    var response := ReadJson(first);
    assert response == Relay(true, first);
    if response == Crashed(JSONDecodeError) {
      ex := Passthrough(cfg, injection, body, retry, calls);
      return;
    }
    ex := Exchange(calls, response);
  }


  /** The `except json.JSONDecodeError` branch: the original body is posted
      again to the same path and that reply is relayed. */
  method Passthrough(cfg: Config, injection: Injection, body: Utf8.Bytes, retry: Reply, calls: seq<Call>)
    returns (ex: Exchange)
    ensures ex == Exchange(calls + [InjectingCall(cfg, injection, body)], Relay(true, retry))
  {
    var url := cfg.ollamaBase + Path(RouteOf(injection));
    ex := Exchange(calls + [Call(POST, url, Content(body), NoTimeout)], Relay(true, retry));
  }


  // ---------------------------------------------------------------------
  // The other routes
  // ---------------------------------------------------------------------

  /** A route that forwards the request as it came: GET routes send no
      body, the others the raw bytes. */
  function PlainExchange(cfg: Config, route: Route, body: Utf8.Bytes, reply: Reply): (ex: Exchange)
    ensures |ex.calls| == 1
    ensures ex.calls[0].verb == MethodOf(route) && ex.calls[0].url == cfg.ollamaBase + Path(route)
    ensures ex.calls[0].timeout == TimeoutOf(route)
    ensures MethodOf(route) == GET <==> ex.calls[0].payload == NoPayload
    ensures MethodOf(route) != GET ==> ex.calls[0].payload == Content(body)
    ensures ex.response == Relay(ChecksStream(route), reply)
  {
    var payload := if MethodOf(route) == GET then NoPayload else Content(body);
    Exchange([Call(MethodOf(route), cfg.ollamaBase + Path(route), payload, TimeoutOf(route))],
             Relay(ChecksStream(route), reply))
  }

  /** Every route of the legacy router, given the replies upstream gives. */
  function Handle(cfg: Config, route: Route, body: Utf8.Bytes, first: Reply, retry: Reply): (ex: Exchange)
    ensures route.Generate? ==> ex == InjectingExchange(cfg, IntoPrompt, body, first, retry)
    ensures route.Chat? ==> ex == InjectingExchange(cfg, IntoMessages, body, first, retry)
    ensures !Injects(route) ==> |ex.calls| == 1 && ex.response == Relay(ChecksStream(route), first)
    ensures !Injects(route) && MethodOf(route) != GET ==> ex.calls[0].payload == Content(body)
  {
    match route
    case Generate => InjectingExchange(cfg, IntoPrompt, body, first, retry)
    case Chat => InjectingExchange(cfg, IntoMessages, body, first, retry)
    case _ => PlainExchange(cfg, route, body, first)
  }
  /** `ollama_delete` as written: `AsyncClient.delete` has no `content`
      parameter (a DELETE request carries no body in httpx), so the call
      itself raises TypeError before anything is sent. `Handle` uses the
      intended forwarding instead. */
  function DeleteAsWritten(cfg: Config, body: Utf8.Bytes, reply: Reply): (ex: Exchange)
    ensures ex.calls == [] && ex.response == Crashed(TypeError)
  {
    Exchange([], Crashed(TypeError))
  }

  /** As written, `/delete` never reaches upstream, whereas the intended
      route forwards the body once with the DELETE method. */
  lemma DeleteNeverForwards(cfg: Config, body: Utf8.Bytes, first: Reply, retry: Reply)
    ensures DeleteAsWritten(cfg, body, first).calls == []
    ensures Handle(cfg, Delete, body, first, retry).calls
         == [Call(DELETE, cfg.ollamaBase + T("/api/delete"), Content(body), Seconds(30))]
  {
  }


  // ---------------------------------------------------------------------
  // What every route does
  // ---------------------------------------------------------------------

  /** Every call goes to the route's own upstream path, with the route's
      method and timeout; there are at most two calls, and a second one only
      on a rewriting route, where it re-posts the original bytes. */
  lemma CallsFollowRouteTable(cfg: Config, route: Route, body: Utf8.Bytes, first: Reply, retry: Reply)
    ensures var ex := Handle(cfg, route, body, first, retry);
      && |ex.calls| <= 2
      && (forall i :: 0 <= i < |ex.calls| ==>
            ex.calls[i].verb == MethodOf(route) && ex.calls[i].url == cfg.ollamaBase + Path(route)
            && ex.calls[i].timeout == TimeoutOf(route))
      && (|ex.calls| == 2 ==> Injects(route) && ex.calls[1].payload == Content(body))
      && (ex.calls == [] ==> Injects(route) && ex.response.Crashed?)
  {
    match route
    case Generate => InjectingCalls(cfg, IntoPrompt, body, first, retry);
    case Chat => InjectingCalls(cfg, IntoMessages, body, first, retry);
    case _ =>
  }

  lemma InjectingCalls(cfg: Config, injection: Injection, body: Utf8.Bytes, first: Reply, retry: Reply)
    ensures var ex := InjectingExchange(cfg, injection, body, first, retry);
      && |ex.calls| <= 2
      && (forall i :: 0 <= i < |ex.calls| ==>
            ex.calls[i].verb == POST && ex.calls[i].url == cfg.ollamaBase + Path(RouteOf(injection))
            && ex.calls[i].timeout == NoTimeout)
      && (|ex.calls| == 2 ==> ex.calls[1].payload == Content(body))
      && (ex.calls == [] ==> ex.response.Crashed?)
  {
    var ex := InjectingExchange(cfg, injection, body, first, retry);
    var passthrough := InjectingCall(cfg, injection, body);
    match Forwarded(injection, body)
    case Err(e) =>
      assert ex.calls == [] || ex.calls == [passthrough];
    case Ok(bytes) =>
      var sent := InjectingCall(cfg, injection, bytes);
      assert ex.calls == [sent] || ex.calls == [sent, passthrough];
  }

  /** The response is the relay of the reply to the last call made. A non-200
      reply becomes an HTTPException with its status and text; a 200 NDJSON reply
      streams on the routes that check for it; anything else is read as JSON. */
  lemma ResponseRelaysLastReply(cfg: Config, route: Route, body: Utf8.Bytes, first: Reply, retry: Reply)
    ensures var ex := Handle(cfg, route, body, first, retry);
      var fellBack := |ex.calls| == 2 || (Injects(route) && JsonDecoder.DecodeRequest(body) == Err(JSONDecodeError));
      ex.calls != [] ==> ex.response == Relay(ChecksStream(route), if fellBack then retry else first)
  {
    if route == Generate {
      InjectingRelaysLastReply(cfg, IntoPrompt, body, first, retry);
    } else if route == Chat {
      InjectingRelaysLastReply(cfg, IntoMessages, body, first, retry);
    }
  }

  /** Rewriting raises TypeError or AttributeError, never JSONDecodeError. */
  lemma RewriteErrors(injection: Injection, data: Value)
    requires Rewrite(injection, data).Err?
    ensures Rewrite(injection, data).error != JSONDecodeError
  {
    var key := KeyOf(injection);
    if Contains(data, key).Ok? && Contains(data, key).value && data.Object? {
      var v := Get(data.members, key).value;
      if injection.IntoMessages? && Iterate(v).Ok? {
        assert InjectIntoMessages(Iterate(v).value).Err?;
      }
    }
  }

  /** On a rewriting route the response relays the reply to the last call. */
  lemma InjectingRelaysLastReply(cfg: Config, injection: Injection, body: Utf8.Bytes, first: Reply, retry: Reply)
    ensures var ex := InjectingExchange(cfg, injection, body, first, retry);
      var fellBack := |ex.calls| == 2 || JsonDecoder.DecodeRequest(body) == Err(JSONDecodeError);
      ex.calls != [] ==> ex.response == Relay(true, if fellBack then retry else first)
  {
    var decoded := JsonDecoder.DecodeRequest(body);
    if decoded.Ok? && Rewrite(injection, decoded.value).Err? {
      RewriteErrors(injection, decoded.value);
    }
  }

  /** The passthrough fallback: a request body that is UTF-8 but not JSON is
      re-posted byte for byte to the same upstream path. */
  lemma FallbackForwardsOriginal(cfg: Config, injection: Injection, body: Utf8.Bytes, first: Reply, retry: Reply)
    requires JsonDecoder.DecodeRequest(body) == Err(JSONDecodeError)
    ensures InjectingExchange(cfg, injection, body, first, retry)
         == Exchange([Call(POST, cfg.ollamaBase + Path(RouteOf(injection)), Content(body), NoTimeout)], Relay(true, retry))
  {
  }

  /** A 200 reply to the rewritten body that is neither NDJSON nor JSON also
      lands in the fallback: the original body is posted a second time. */
  lemma BadReplyFallsBack(cfg: Config, injection: Injection, body: Utf8.Bytes, first: Reply, retry: Reply)
    requires Forwarded(injection, body).Ok?
    requires first.status == OK && !IsNdjson(first) && JsonDecoder.DecodeReply(first.content) == Err(JSONDecodeError)
    ensures var ex := InjectingExchange(cfg, injection, body, first, retry);
      && ex.calls == [InjectingCall(cfg, injection, Forwarded(injection, body).value), InjectingCall(cfg, injection, body)]
      && ex.response == Relay(true, retry)
  {
  }

  /** Bodies that are not UTF-8, and HTTP errors from upstream, are not
      caught by the fallback. */
  lemma OtherErrorsPropagate(cfg: Config, injection: Injection, body: Utf8.Bytes, first: Reply, retry: Reply)
    ensures Utf8.Decode(body, false).None? ==> InjectingExchange(cfg, injection, body, first, retry) == Exchange([], Crashed(UnicodeDecodeError))
    ensures Forwarded(injection, body).Ok? && first.status != OK ==>
      InjectingExchange(cfg, injection, body, first, retry).response == Raised(HttpException(first.status, first.text))
  {
  }
}
