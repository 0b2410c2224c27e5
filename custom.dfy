/**
 * The proxy's own endpoints: health, a projection of the upstream model
 * list, pulling a model, and chat and embeddings through a language-model
 * client. The client is a parameter: `invoke` answers a generation with
 * the reply text or the message of the exception it raised, and `embed`
 * likewise for embeddings.
 */
module Custom {
  import opened Wrappers
  import opened Texts
  import opened Json
  import opened Http
  import opened Helpers

  datatype Role = System | User | Assistant

  datatype Message = Message(role: Role, content: Text)

  datatype ChatRequest = ChatRequest(messages: seq<Message>, model: Option<Text>, temperature: Option<real>, maxTokens: Option<int>)

  /** What is handed to the chat model: where and which model, at what
      temperature, with which system and user text. */
  datatype Generation = Generation(base: Text, model: Text, temperature: real, system: Text, user: Text)

  datatype ChatResponse = ChatResponse(content: Text, model: Text, usage: seq<Member>)

  datatype EmbeddingsRequest = EmbeddingsRequest(input: seq<Text>, model: Option<Text>)

  datatype EmbeddingsResponse = EmbeddingsResponse(embeddings: seq<seq<real>>, model: Text)

  const DEFAULT_TEMPERATURE: real := 0.2
  const NO_USER_MESSAGE: Text := T("Falta al menos un mensaje de usuario.")
  const GENERATION_FAILED: Text := T("Error en generación: ")
  const EMPTY_INPUT: Text := T("Lista de textos vacía.")
  const EMBEDDING_FAILED: Text := T("Error generando embeddings: ")
  const STATUS: Text := T("status")
  const OK_TEXT: Text := T("ok")
  const NAME: Text := T("name")
  const MODELS: Text := T("models")
  const MODEL: Text := T("model")
  const ANY: Text := T("ANY")

  // ---------------------------------------------------------------------
  // health
  // ---------------------------------------------------------------------

  /** `health`: no upstream call; the configuration, echoed. */
  function Health(cfg: Config): (ex: Exchange)
    ensures ex.calls == []
    ensures ex.response.Buffered? && ex.response.document.Object?
    ensures var ms := ex.response.document.members;
      && Get(ms, STATUS) == Some(String(OK_TEXT))
      && Get(ms, T("default_model")) == Some(String(cfg.defaultModel))
      && Get(ms, T("ollama_base")) == Some(String(cfg.ollamaBase))
  {
    Exchange([], Buffered(Object([
      Member(STATUS, String(OK_TEXT)),
      Member(T("default_model"), String(cfg.defaultModel)),
      Member(T("ollama_base"), String(cfg.ollamaBase))])))
  }

  // ---------------------------------------------------------------------
  // list_models
  // ---------------------------------------------------------------------

  /** `item.get("name")` for a dict item: the value, or None when absent. */
  function NameOf(item: Value): Value
    requires item.Object?
  {
    match Get(item.members, NAME)
    case Some(v) => v
    case None => Null
  }

  /** `[item.get("name") for item in items if item.get("name")]`: every item
      must be a dict; the truthy names are kept, in order. */
  function ModelNames(items: seq<Value>): (r: Result<seq<Value>, PyError>)
    ensures r.Err? ==> r.error == AttributeError
    ensures r.Ok? ==> |r.value| <= |items|
  {
    if items == [] then Ok([])
    else if !items[0].Object? then Err(AttributeError)
    else
      match ModelNames(items[1..])
      case Err(e) => Err(e)
      case Ok(rest) =>
        var name := NameOf(items[0]);
        Ok(if Truthy(name) then [name] + rest else rest)
  }

  /** The names fail exactly when an item is not a dict; the kept names are truthy. */
  lemma {:induction false} ModelNamesShape(items: seq<Value>)
    ensures ModelNames(items).Err? <==> exists i :: 0 <= i < |items| && !items[i].Object?
    ensures ModelNames(items).Ok? ==> forall j :: 0 <= j < |ModelNames(items).value| ==> Truthy(ModelNames(items).value[j])
  {
    if items != [] {
      ModelNamesShape(items[1..]);
      if items[0].Object? && (exists i :: 0 <= i < |items| && !items[i].Object?) {
        var i :| 0 <= i < |items| && !items[i].Object?;
        assert items[1..][i - 1] == items[i];
      }
      if ModelNames(items[1..]).Err? {
        var i :| 0 <= i < |items[1..]| && !items[1..][i].Object?;
        assert items[i + 1] == items[1..][i];
      }
    }
  }

  /** Item by item: the names of two runs of items are the names of each. */
  lemma ModelNamesStep(items: seq<Value>)
    requires items != [] && items[0].Object? && ModelNames(items[1..]).Ok?
    ensures ModelNames(items) == Ok((if Truthy(NameOf(items[0])) then [NameOf(items[0])] else []) + ModelNames(items[1..]).value)
  {
    var name := NameOf(items[0]);
    if !Truthy(name) {
      assert [] + ModelNames(items[1..]).value == ModelNames(items[1..]).value;
    }
  }

  lemma {:induction false} ModelNamesConcat(a: seq<Value>, b: seq<Value>)
    requires ModelNames(a).Ok? && ModelNames(b).Ok?
    ensures ModelNames(a + b) == Ok(ModelNames(a).value + ModelNames(b).value)
  {
    if a == [] {
      assert a + b == b;
      assert ModelNames(a).value + ModelNames(b).value == ModelNames(b).value;
    } else {
      var ab := a + b;
      assert ab != [] && ab[0] == a[0] && ab[1..] == a[1..] + b;
      assert a[0].Object? && ModelNames(a[1..]).Ok?;
      ModelNamesConcat(a[1..], b);
      var h := if Truthy(NameOf(a[0])) then [NameOf(a[0])] else [];
      var rest, restB := ModelNames(a[1..]).value, ModelNames(b).value;
      calc {
        ModelNames(ab);
      == { ModelNamesStep(ab); }
        Ok(h + (rest + restB));
      == { Regroup(h, rest, restB); }
        Ok((h + rest) + restB);
      == { ModelNamesStep(a); }
        Ok(ModelNames(a).value + restB);
      }
    }
  }

  lemma Regroup<X>(a: seq<X>, b: seq<X>, c: seq<X>)
    ensures a + (b + c) == (a + b) + c
  {
  }


  /** A dict item with a non-empty str name contributes it; one without a
      name, or with an empty one, contributes nothing. */
  lemma ModelNamesSingle(item: Value)
    requires item.Object?
    ensures Get(item.members, NAME) == None ==> ModelNames([item]) == Ok([])
    ensures Get(item.members, NAME) == Some(String([])) ==> ModelNames([item]) == Ok([])
    ensures Get(item.members, NAME).Some? && Get(item.members, NAME).value.String? && Get(item.members, NAME).value.s != [] ==>
      ModelNames([item]) == Ok([Get(item.members, NAME).value])
  {
    assert [item][1..] == [];
    assert ModelNames([item][1..]) == Ok([]);
    assert [NameOf(item)] + [] == [NameOf(item)];
  }

  /** The `allowed` field: the allow-list, or "ANY" when it is empty. */
  function AllowedField(allowed: seq<Text>): (v: Value)
    ensures allowed == [] <==> v == String(ANY)
    ensures allowed != [] ==> v.Array? && |v.items| == |allowed| && forall i :: 0 <= i < |allowed| ==> v.items[i] == String(allowed[i])
  {
    if allowed == [] then String(ANY) else Array(seq(|allowed|, i requires 0 <= i < |allowed| => String(allowed[i])))
  }

  /** The document `list_models` returns for the upstream `/api/tags` document:
      `data.get("models", [])` needs a dict; iterating it needs a list, dict or
      str (dict keys and characters are str, which have no `.get`). */
  function ModelList(cfg: Config, data: Value): (r: Result<Value, PyError>)
    ensures !data.Object? ==> r == Err(AttributeError)
    ensures data.Object? && Get(data.members, MODELS) == None ==> r == Ok(Object([Member(MODELS, Array([])), Member(T("allowed"), AllowedField(cfg.allowedModels))]))
    ensures data.Object? && Get(data.members, MODELS).Some? && Get(data.members, MODELS).value.Array? ==>
      match ModelNames(Get(data.members, MODELS).value.items)
      case Ok(names) => r == Ok(Object([Member(MODELS, Array(names)), Member(T("allowed"), AllowedField(cfg.allowedModels))]))
      case Err(e) => r == Err(e)
    ensures data.Object? && Get(data.members, MODELS).Some? && !Get(data.members, MODELS).value.Array? ==>
      var models := Get(data.members, MODELS).value;
      && (Iterate(models).Err? ==> r == Err(TypeError))
      && (Iterate(models) == Ok([]) ==> r == Ok(Object([Member(MODELS, Array([])), Member(T("allowed"), AllowedField(cfg.allowedModels))])))
      && (Iterate(models).Ok? && Iterate(models).value != [] ==> r == Err(AttributeError))
  {
    if !data.Object? then Err(AttributeError)
    else
      var models := match Get(data.members, MODELS) case Some(v) => v case None => Array([]);
      match Iterate(models)
      case Err(e) => Err(e)
      case Ok(items) =>
        match ModelNames(items)
        case Err(e) => Err(e)
        case Ok(names) => Ok(Object([Member(MODELS, Array(names)), Member(T("allowed"), AllowedField(cfg.allowedModels))]))
  }

  /** `list_models`: one bounded GET of `/api/tags`, then the projection. */
  function ListModels(cfg: Config, reply: Reply): (ex: Exchange)
    ensures ex.calls == [Call(GET, cfg.ollamaBase + T("/api/tags"), NoPayload, Seconds(30))]
    ensures reply.status != OK ==> ex.response == Raised(HttpException(reply.status, reply.text))
    ensures reply.status == OK && ReadJson(reply).Buffered? ==>
      match ModelList(cfg, ReadJson(reply).document)
      case Ok(doc) => ex.response == Buffered(doc)
      case Err(e) => ex.response == Crashed(e)
    ensures reply.status == OK && ReadJson(reply).Crashed? ==> ex.response == ReadJson(reply)
    ensures ex.response.Streamed? == false
  {
    var call := Call(GET, cfg.ollamaBase + T("/api/tags"), NoPayload, Seconds(30));
    if reply.status != OK then Exchange([call], Raised(HttpException(reply.status, reply.text)))
    else
      var read := ReadJson(reply);
      if read.Crashed? then Exchange([call], read)
      else
        match ModelList(cfg, read.document)
        case Ok(doc) => Exchange([call], Buffered(doc))
        case Err(e) => Exchange([call], Crashed(e))
  }

  // ---------------------------------------------------------------------
  // pull_model
  // ---------------------------------------------------------------------

  /** `pull_model`: posts exactly `{"name": name}` without a timeout; the
      upstream body of a 200 is never read. */
  function PullModel(cfg: Config, name: Text, reply: Reply): (ex: Exchange)
    ensures ex.calls == [Call(POST, cfg.ollamaBase + T("/api/pull"), JsonPayload(Object([Member(NAME, String(name))])), NoTimeout)]
    ensures reply.status != OK ==> ex.response == Raised(HttpException(reply.status, reply.text))
    ensures reply.status == OK ==> ex.response == Buffered(Object([Member(STATUS, String(OK_TEXT)), Member(T("pulled"), String(name))]))
  {
    var call := Call(POST, cfg.ollamaBase + T("/api/pull"), JsonPayload(Object([Member(NAME, String(name))])), NoTimeout);
    if reply.status != OK then Exchange([call], Raised(HttpException(reply.status, reply.text)))
    else Exchange([call], Buffered(Object([Member(STATUS, String(OK_TEXT)), Member(T("pulled"), String(name))])))
  }

  /** Whatever upstream answers on success, the result names the model pulled. */
  lemma PullResultIgnoresBody(cfg: Config, name: Text, r1: Reply, r2: Reply)
    requires r1.status == OK && r2.status == OK
    ensures PullModel(cfg, name, r1) == PullModel(cfg, name, r2)
  {
  }

  // ---------------------------------------------------------------------
  // chat
  // ---------------------------------------------------------------------

  /** `[m.content for m in messages if m.role == "user"]`. */
  function UserContents(msgs: seq<Message>): (r: seq<Text>)
    ensures |r| <= |msgs|
  {
    if msgs == [] then []
    else (if msgs[0].role == User then [msgs[0].content] else []) + UserContents(msgs[1..])
  }

  lemma {:induction false} UserContentsConcat(a: seq<Message>, b: seq<Message>)
    ensures UserContents(a + b) == UserContents(a) + UserContents(b)
  {
    if a == [] {
      assert a + b == b;
    } else {
      var ab := a + b;
      var h := if a[0].role == User then [a[0].content] else [];
      assert ab[0] == a[0] && ab[1..] == a[1..] + b;
      assert UserContents(ab) == h + UserContents(a[1..] + b);
      UserContentsConcat(a[1..], b);
      assert h + (UserContents(a[1..]) + UserContents(b)) == (h + UserContents(a[1..])) + UserContents(b);
    }
  }

  /** There is a user content exactly when some message is from the user. */
  lemma {:induction false} UserContentsEmpty(msgs: seq<Message>)
    ensures UserContents(msgs) == [] <==> forall i :: 0 <= i < |msgs| ==> msgs[i].role != User
  {
    if msgs != [] {
      UserContentsEmpty(msgs[1..]);
      assert forall i :: 1 <= i < |msgs| ==> msgs[i] == msgs[1..][i - 1];
    }
  }

  /** `req.temperature or 0.2`: an absent or zero temperature becomes 0.2. */
  function Temperature(t: Option<real>): (r: real)
    ensures r != 0.0
    ensures t.Some? && t.value != 0.0 ==> r == t.value
  {
    if t.Some? && t.value != 0.0 then t.value else DEFAULT_TEMPERATURE
  }

  /** Everything `chat` decides before calling the model: the gate first,
      then the 400 for a conversation without a user message; the system
      text is always the directive, the user text the last user message. */
  function ChatGeneration(cfg: Config, req: ChatRequest): (r: Result<Generation, HttpException>)
    ensures EnsureModelAllowed(cfg, RequestedModel(cfg, req.model)).Err? ==>
      r == Err(EnsureModelAllowed(cfg, RequestedModel(cfg, req.model)).error)
    ensures EnsureModelAllowed(cfg, RequestedModel(cfg, req.model)).Ok? ==>
      (r == Err(HttpException(400, NO_USER_MESSAGE)) <==> forall i :: 0 <= i < |req.messages| ==> req.messages[i].role != User)
    ensures r.Ok? ==> r.value.model == EnsureModelAllowed(cfg, RequestedModel(cfg, req.model)).value
    ensures r.Ok? ==> r.value.system == BASE_SYSTEM && r.value.base == cfg.ollamaBase
    ensures r.Ok? ==> r.value.temperature == Temperature(req.temperature)
    ensures r.Ok? ==> exists i :: 0 <= i < |req.messages| && req.messages[i] == Message(User, r.value.user)
  {
    match EnsureModelAllowed(cfg, RequestedModel(cfg, req.model))
    case Err(e) => Err(e)
    case Ok(model) =>
      var userMsgs := UserContents(req.messages);
      UserContentsEmpty(req.messages);
      if userMsgs == [] then Err(HttpException(400, NO_USER_MESSAGE))
      else
        var user := userMsgs[|userMsgs| - 1];
        LastUserIsUserMessage(req.messages);
        Ok(Generation(cfg.ollamaBase, model, Temperature(req.temperature), BASE_SYSTEM, user))
  }

  lemma {:induction false} LastUserIsUserMessage(msgs: seq<Message>)
    requires UserContents(msgs) != []
    ensures var us := UserContents(msgs);
      exists i :: 0 <= i < |msgs| && msgs[i] == Message(User, us[|us| - 1])
  {
    var us := UserContents(msgs);
    var tail := UserContents(msgs[1..]);
    if tail != [] {
      LastUserIsUserMessage(msgs[1..]);
      var i :| 0 <= i < |msgs[1..]| && msgs[1..][i] == Message(User, tail[|tail| - 1]);
      assert msgs[i + 1] == Message(User, us[|us| - 1]);
    } else {
      assert msgs[0] == Message(User, us[|us| - 1]);
    }
  }

  /** The user text is the last user message: what follows it holds no
      user message. */
  lemma LastUserWins(cfg: Config, req: ChatRequest, before: seq<Message>, content: Text, after: seq<Message>)
    requires req.messages == before + [Message(User, content)] + after
    requires forall i :: 0 <= i < |after| ==> after[i].role != User
    requires EnsureModelAllowed(cfg, RequestedModel(cfg, req.model)).Ok?
    ensures ChatGeneration(cfg, req).Ok? && ChatGeneration(cfg, req).value.user == content
  {
    UserContentsConcat(before + [Message(User, content)], after);
    UserContentsConcat(before, [Message(User, content)]);
    UserContentsEmpty(after);
    assert UserContents([Message(User, content)]) == [content] by {
      assert [Message(User, content)][1..] == [];
    }
    var us := UserContents(req.messages);
    assert us == UserContents(before) + [content];
  }

  /** A message that is not from the user changes nothing: client system
      messages and assistant messages are discarded. */
  lemma NonUserMessageIgnored(cfg: Config, req: ChatRequest, before: seq<Message>, m: Message, after: seq<Message>)
    requires m.role != User
    requires req.messages == before + [m] + after
    ensures ChatGeneration(cfg, req) == ChatGeneration(cfg, req.(messages := before + after))
  {
    UserContentsConcat(before + [m], after);
    UserContentsConcat(before, [m]);
    UserContentsConcat(before, after);
    assert UserContents([m]) == [] by {
      assert [m][1..] == [];
    }
    assert UserContents(req.messages) == UserContents(before + after);
  }

  /** `chat`: a generation failure becomes a 500 whose detail starts with
      the fixed prefix; on success the model is reported twice. */
  function Chat(cfg: Config, req: ChatRequest, invoke: Generation -> Result<Text, Text>): (r: Result<ChatResponse, HttpException>)
    ensures ChatGeneration(cfg, req).Err? ==> r == Err(ChatGeneration(cfg, req).error)
    ensures ChatGeneration(cfg, req).Ok? && invoke(ChatGeneration(cfg, req).value).Err? ==>
      r == Err(HttpException(500, GENERATION_FAILED + invoke(ChatGeneration(cfg, req).value).error))
    ensures r.Ok? ==>
      && ChatGeneration(cfg, req).Ok?
      && r.value.content == invoke(ChatGeneration(cfg, req).value).value
      && r.value.model == ChatGeneration(cfg, req).value.model
      && r.value.usage == [Member(MODEL, String(r.value.model))]
    ensures ChatGeneration(cfg, req).Ok? && invoke(ChatGeneration(cfg, req).value).Ok? ==> r.Ok?
  {
    match ChatGeneration(cfg, req)
    case Err(e) => Err(e)
    case Ok(g) =>
      match invoke(g)
      case Err(message) => Err(HttpException(500, GENERATION_FAILED + message))
      case Ok(content) => Ok(ChatResponse(content, g.model, [Member(MODEL, String(g.model))]))
  }

  /** A request refused before generation is refused whatever the model
      would have answered: it is never asked. */
  lemma RefusedChatNeverGenerates(cfg: Config, req: ChatRequest, i1: Generation -> Result<Text, Text>, i2: Generation -> Result<Text, Text>)
    requires ChatGeneration(cfg, req).Err?
    ensures Chat(cfg, req, i1) == Chat(cfg, req, i2)
    ensures Chat(cfg, req, i1).Err? && Chat(cfg, req, i1).error.status == 400
  {
  }

  /** A conversation with a client system message and two user messages:
      the directive replaces the system message and the last user message
      is what is asked. */
  lemma ChatScenario(cfg: Config)
    requires cfg.allowedModels == []
    ensures var req := ChatRequest([Message(System, T("X")), Message(User, T("hi")), Message(User, T("bye"))], None, None, None);
      ChatGeneration(cfg, req) == Ok(Generation(cfg.ollamaBase, cfg.defaultModel, 0.2, BASE_SYSTEM, T("bye")))
  {
    var msgs := [Message(System, T("X")), Message(User, T("hi")), Message(User, T("bye"))];
    assert msgs[1..][1..][1..] == [];
    assert UserContents(msgs) == [T("hi"), T("bye")];
  }

  // ---------------------------------------------------------------------
  // embeddings
  // ---------------------------------------------------------------------

  /** `embeddings`: the gate, then the 400 for an empty input, then the
      embedder; its failure is a 500 with the fixed prefix. */
  function Embeddings(cfg: Config, req: EmbeddingsRequest, embed: (Text, seq<Text>) -> Result<seq<seq<real>>, Text>): (r: Result<EmbeddingsResponse, HttpException>)
    ensures EnsureModelAllowed(cfg, RequestedModel(cfg, req.model)).Err? ==>
      r == Err(EnsureModelAllowed(cfg, RequestedModel(cfg, req.model)).error)
    ensures EnsureModelAllowed(cfg, RequestedModel(cfg, req.model)).Ok? && req.input == [] ==>
      r == Err(HttpException(400, EMPTY_INPUT))
    ensures req.input != [] && EnsureModelAllowed(cfg, RequestedModel(cfg, req.model)).Ok? ==>
      var model := EnsureModelAllowed(cfg, RequestedModel(cfg, req.model)).value;
      && (embed(model, req.input).Err? ==> r == Err(HttpException(500, EMBEDDING_FAILED + embed(model, req.input).error)))
      && (embed(model, req.input).Ok? ==> r == Ok(EmbeddingsResponse(embed(model, req.input).value, model)))
  {
    match EnsureModelAllowed(cfg, RequestedModel(cfg, req.model))
    case Err(e) => Err(e)
    case Ok(model) =>
      if req.input == [] then Err(HttpException(400, EMPTY_INPUT))
      else
        match embed(model, req.input)
        case Err(message) => Err(HttpException(500, EMBEDDING_FAILED + message))
        case Ok(vectors) => Ok(EmbeddingsResponse(vectors, model))
  }

  /** The gate comes before the input check: a refused model with an empty
      input is refused for the model. */
  lemma EmbeddingsGateFirst(cfg: Config, model: Text, embed: (Text, seq<Text>) -> Result<seq<seq<real>>, Text>)
    requires cfg.allowedModels != [] && model != [] && model !in cfg.allowedModels
    ensures Embeddings(cfg, EmbeddingsRequest([], Some(model)), embed)
         == Err(HttpException(400, RejectionDetail(model, cfg.allowedModels)))
  {
  }
}
