# Request shaping in the Ollama BFF, in Dafny

The BFF ("backend for frontend") is a FastAPI service that sits in front of an
Ollama server. This project models the part of it that decides what goes
upstream and what comes back. There are two surfaces.

The legacy router (`/api/...`) is a transparent proxy with these behaviours:
- It has a fixed table of paths, methods and timeouts.
- It injects the fixed Spanish system directive `BASE_SYSTEM`. For `generate` the directive goes in front of the `prompt` field. For `chat` all system messages are removed and one directive message is put first.
- A request body that is not JSON is passed through unchanged.
- It ends every request with the same relay: a non-200 status becomes an `HTTPException` carrying the upstream status and text; an NDJSON reply streams; anything else is read as JSON.

The custom router (`/health`, `/models`, `/pull`, `/chat`, `/embeddings`):
- checks the model against an allow-list (`ensure_model_allowed`);
- chooses what the language model is asked;
- injects the directive;
- projects the upstream model list.

Everything runs on values. The replies Ollama gives and the answers of the LangChain client are parameters of the model. A handler's result is an `Exchange`: the list of calls it made and the response it gave.

The files, leaf first:

- `wrappers.dfy`: `Option` and `Result`.
- `texts.dfy`: Python `str` as a sequence of code points. It covers `strip`, `split(",")`, `", ".join`, `repr`, and decimal and hex digits.
- `utf8.dfy`: strict UTF-8 decoding, `surrogatepass` decoding, and encoding; strict decoding and encoding are proved inverse.
- `json_numbers.dfy` and `json_number_facts.dfy`: the JSON number grammar as CPython's scanner reads it, and its facts.
- `json.dfy`: the decoded document. It holds objects as ordered key/value lists with dict semantics, and the Python operations the handlers apply to it (`in`, iteration, `str()`, truthiness).
- `json_decoder.dfy`: `json.loads(body.decode('utf-8'))` and `r.json()`, following CPython's scanner.
- `json_encoder.dfy`: `json.dumps(data)` with its default separators and `ensure_ascii`.
- `json_string_roundtrip.dfy` and `json_number_roundtrip.dfy`: a string literal and a number written by `json.dumps` read back as themselves.
- `json_wellformed.dfy`: the documents `json.loads` can produce (distinct keys, no joinable surrogate pair in a string), and the proof that every decoded request is one.
- `json_roundtrip.dfy`: decoding what `json.dumps` wrote gives the document back.
- `http.dfy`: calls, replies, responses and the shared relay.
- `helpers.dfy`: configuration, `ALLOWED_MODELS` parsing, `BASE_SYSTEM`, and `ensure_model_allowed`.
- `legacy.dfy`: the legacy router. `generate` and `ollama_chat` are imperative methods (`HandleInjecting`, with `RewriteBody`, `SendRewritten` and `Passthrough` for its parts) that follow the `try`/`except json.JSONDecodeError` steps. They are proved equal to the specification functions `Forwarded` and `InjectingExchange`.
- `custom.dfy`: the custom router.

Where the code and the written description of the system differ, the model follows the code:

- Only `generate`, `chat`, `pull`, `push` and `create` look at the content type and may stream. `version`, `tags`, `delete`, `copy`, `show` and `embeddings` always read the reply as JSON, even when it is NDJSON.
- The passthrough fallback is not limited to request bodies that fail to decode. The `except json.JSONDecodeError` covers the whole `try`. So a 200 reply to the rewritten body that is neither NDJSON nor JSON makes the handler post the original body a second time.
- A body that is not UTF-8 raises `UnicodeDecodeError`, and the fallback does not catch it. Neither does it catch the `TypeError`/`AttributeError` from a JSON body of the wrong shape, such as a top-level string that contains `"prompt"` or a `messages` list holding a non-dict. All of these are uncaught. They are modelled as the `Crashed` response.
- `ollama_delete` passes `content=` to httpx's `delete`, which has no such parameter, so the route as written fails before calling upstream. The model records this under "## Findings" and follows the intended forwarding elsewhere.
- Typed client messages do not exist on the legacy path. Any JSON value can appear where a message is expected.

## Model

| member | source | states |
|---|---|---|
| `Helpers.ParseAllowedModels` | bff/helpers.py:9 | every entry of the parsed allow-list is non-empty, has no surrounding whitespace and holds no comma |
| `Helpers.EmptyAllowList` | bff/helpers.py:9 | an empty `ALLOWED_MODELS` gives the empty list |
| `Helpers.KeepStrippedConcat` | bff/helpers.py:9 | the parse treats the parts one by one, so the entries keep their order |
| `Helpers.AllowListRoundTrip` | bff/helpers.py:9 | joining a list of such entries with commas and parsing it gives the list back |
| `Helpers.LoadConfig` | bff/helpers.py:7-9 | an unset variable gives the default base URL, the default model, or an empty allow-list |
| `Helpers.RequestedModel` | bff/components/custom.py:58 | `req.model or DEFAULT_MODEL`: an absent or empty model is the default one |
| `Helpers.EnsureModelAllowed` | bff/helpers.py:18-24 | an empty name is the default; with an empty list the name passes unchanged; with a non-empty list it passes iff it is a member, and the result is then a member; otherwise a 400 naming the model and the list |
| `Helpers.EnsureModelAllowedIdempotent` | bff/helpers.py:18-24 | gating an accepted name again gives the same result |
| `Helpers.DefaultModelGated` | bff/helpers.py:20-23 | the default model is gated too: without a model, a request is refused when the default is not on a non-empty list |
| `Texts.Strip` | bff/helpers.py:9 | `str.strip()`: the result starts and ends with non-whitespace |
| `Texts.StripIsSlice` | bff/helpers.py:9 | the result is a contiguous part of its input, surrounded only by whitespace |
| `Texts.Split` | bff/helpers.py:9 | `str.split(",")`: at least one part, no part holds the separator, and joining the parts gives the text back |
| `Texts.SplitJoin` | bff/helpers.py:9 | splitting a join of separator-free parts gives the parts back |
| `Http.ReadJson` | bff/components/legacy.py:73 | `r.json()` gives a document, or a `UnicodeDecodeError` or `JSONDecodeError` |
| `Http.Relay` | bff/components/legacy.py:66-73 | any status but 200 becomes an `HTTPException` with the upstream status and text; a 200 streams iff the route checks the content type and it is exactly `application/x-ndjson`, and the stream is the upstream body; otherwise the reply is read as JSON |
| `Legacy.TimeoutOf` | bff/components/legacy.py:34-212 | every route is either bounded at 30 seconds or unbounded: no timeout on `generate`, `chat`, `pull`, `push` and `create` (lines 63, 103, 133, 149, 164), 30 seconds on `version`, `tags`, `delete`, `copy`, `show` and `embeddings` (lines 34, 43, 179, 190, 201, 212) |
| `Legacy.Path` | bff/components/legacy.py:31-217 | every upstream path lies under `/api/`; with `PathsDistinct`, each route has its own |
| `Legacy.MethodOf` | bff/components/legacy.py:31-217 | the route decorators: GET exactly for `version` and `tags`, DELETE exactly for `delete`, POST for the rewriting and streaming routes |
| `Legacy.StreamingRoutesAreUnbounded` | bff/components/legacy.py:129-173 | a route has no timeout iff it may stream; the rewriting routes are POST routes that may stream |
| `Legacy.PathsDistinct` | bff/components/legacy.py:31-217 | distinct routes forward to distinct upstream paths |
| `Legacy.InjectIntoPrompt` | bff/components/legacy.py:25-27 | the directive, then a blank line, then the prompt unchanged |
| `Legacy.PromptInjectionNotIdempotent` | bff/components/legacy.py:25-27 | injecting twice differs from injecting once, and puts a second directive in front of the first |
| `Legacy.WithoutSystem` | bff/components/legacy.py:19 | the filtered list is never longer than its input; its partners are the `WithoutSystem*` lemmas below |
| `Legacy.WithoutSystemSound` | bff/components/legacy.py:19 | the kept messages are messages of the input, and none is a system message |
| `Legacy.WithoutSystemConcat` | bff/components/legacy.py:19 | filtering keeps the relative order of the input |
| `Legacy.WithoutSystemSingle` | bff/components/legacy.py:19 | one message is dropped iff its role is the string "system" |
| `Legacy.WithoutSystemKeepsAll` | bff/components/legacy.py:19 | a list without system messages is kept whole |
| `Legacy.RoleLessKept` | bff/components/legacy.py:19 | a dict without a `role` key is kept |
| `Legacy.SystemMessageIsSystem` | bff/components/legacy.py:22 | the injected message is itself a system message |
| `Legacy.InjectIntoMessages` | bff/components/legacy.py:16-23 | fails with AttributeError iff some item is not a dict; otherwise the directive message is first, no later message has role "system", and the rest is the input without its system messages |
| `Legacy.MessagesInjectionIdempotent` | bff/components/legacy.py:16-23 | injecting into an injected list changes nothing |
| `Legacy.InjectIntoMessagesValue` | bff/components/legacy.py:98 | on a list it is the injector; a dict or str passes only when empty and otherwise raises AttributeError, since its items have no `.get`; any other value raises TypeError; a success is a list that starts with the directive |
| `Legacy.RouteOf` | bff/components/legacy.py:49-127 | the two injections belong to rewriting routes |
| `Legacy.Rewrite` | bff/components/legacy.py:57-58 | a dict without the key is forwarded as decoded; a non-dict is never changed; a dict stays a dict |
| `Legacy.RewriteOnlyTouchesKey` | bff/components/legacy.py:57-58 | after the rewrite the keys and their order are those of the input, and every other key keeps its value |
| `Legacy.RewriteSetsKey` | bff/components/legacy.py:97-98 | a present key gets what the injector makes of its old value |
| `Legacy.ChatScenario` | bff/components/legacy.py:97-98 | `{"messages":[{"role":"user","content":"hi"}]}` becomes the same body with the directive message before the user message |
| `Legacy.TopLevelNonObjects` | bff/components/legacy.py:57-58 | a str body holding the key fails the subscript, and a number body fails `in`, both with TypeError |
| `Legacy.EncodeDocument` | bff/components/legacy.py:61 | `json.dumps(data).encode('utf-8')` is ASCII, so its bytes are the text's code points |
| `Legacy.Forwarded` | bff/components/legacy.py:52-61 | the `try` stops before sending iff the body does not decode or the rewrite raises |
| `Legacy.ForwardedDecodesToRewrite` | bff/components/legacy.py:54-61 | the bytes sent upstream decode to exactly the rewritten document |
| `Legacy.RewriteBody` | bff/components/legacy.py:52-61 | the steps of the `try` block up to the re-encoded body (decode, `in`, the injector, the assignment, `json.dumps`), with the result equal to `Forwarded` |
| `Legacy.InjectingExchange` | bff/components/legacy.py:49-127 | the `try`/`except` of `generate` and `ollama_chat`: no call iff the rewrite raises an exception other than `JSONDecodeError`; two calls iff the rewritten body was sent and its 200 reply was not JSON; the first call of a rewritten body carries it |
| `Legacy.HandleInjecting` | bff/components/legacy.py:49-127 | the step-by-step handler of `generate` and `ollama_chat`, with calls and response equal to `InjectingExchange` |
| `Legacy.SentExchange` | bff/components/legacy.py:63-80 | once the rewritten body is ready: it is the first call; a second call, of the original body, happens iff the 200 reply is not JSON, and then its reply is relayed; otherwise the first reply is |
| `Legacy.SendRewritten` | bff/components/legacy.py:63-80 | the imperative steps after the rewrite (post, status check, stream check, `r.json()`, fallback) are proved equal to `SentExchange` |
| `Legacy.Passthrough` | bff/components/legacy.py:75-87 | the `except` block appends one POST of the original bytes to the calls and relays its reply |
| `Legacy.RewriteErrors` | bff/components/legacy.py:57-59 | the rewrite raises TypeError or AttributeError, never `JSONDecodeError`, so the fallback never catches it |
| `Legacy.InjectingRelaysLastReply` | bff/components/legacy.py:63-87 | on a rewriting route the response relays the reply to the last call: the retry after a fallback, else the first reply |
| `Legacy.RewriteWellFormed` | bff/components/legacy.py:57-58 | rewriting a well-formed document gives a well-formed document, so the body sent upstream reads back as what was meant |
| `Legacy.InjectedPromptWellFormed` | bff/components/legacy.py:25-27 | the injected prompt is a str without surrogate pairs, whatever value it formats |
| `Legacy.InjectedMessagesWellFormed` | bff/components/legacy.py:16-23 | the injected message list is well-formed when its input is |
| `Legacy.PlainExchange` | bff/components/legacy.py:31-217 | the nine routes that do not rewrite: exactly one call, with the route's method, path and timeout; GET sends no body and the others the request bytes unchanged; the response is the relay of the reply |
| `Legacy.Handle` | bff/components/legacy.py:31-217 | the whole legacy router: `generate` and `chat` are `InjectingExchange`, every other route makes one call and relays its reply |
| `Legacy.DeleteAsWritten` | bff/components/legacy.py:176-184 | `/delete` as written raises TypeError before any call (see Findings) |
| `Legacy.DeleteNeverForwards` | bff/components/legacy.py:176-184 | as written `/delete` makes no call, where the intended route forwards the body once with DELETE (see Findings) |
| `Legacy.CallsFollowRouteTable` | bff/components/legacy.py:31-217 | the calls use the route's path, method and timeout; there are at most two calls, and a second one only on a rewriting route, where it re-posts the original body; without calls the handler crashed |
| `Legacy.InjectingCalls` | bff/components/legacy.py:63-64 | the rewriting routes post without a timeout to their own path, at most twice |
| `Legacy.ResponseRelaysLastReply` | bff/components/legacy.py:36-38 | the response relays the reply to the last call made |
| `Legacy.FallbackForwardsOriginal` | bff/components/legacy.py:75-87 | a UTF-8 body that is not JSON is posted byte for byte, once, to the same upstream path, and that reply is relayed |
| `Legacy.BadReplyFallsBack` | bff/components/legacy.py:73-80 | a 200 reply that is neither NDJSON nor JSON makes the handler post the original body a second time |
| `Legacy.OtherErrorsPropagate` | bff/components/legacy.py:52-67 | a non-UTF-8 body crashes before any call, and a non-200 reply to the rewritten body is an `HTTPException` rather than a fallback |
| `Custom.Health` | bff/components/custom.py:29-32 | no upstream call; the status is "ok", the default model and the base URL are echoed |
| `Helpers.KeepStripped` | bff/helpers.py:9 | the filter-map never gives more entries than parts; `KeepStrippedEntries`, `KeepStrippedConcat` and `KeepStrippedStripped` state its entries, order and fixed points |
| `Custom.ModelNames` | bff/components/custom.py:42 | a failure is an AttributeError; no more names than items |
| `Custom.ModelNamesShape` | bff/components/custom.py:42 | a failure happens iff some item is not a dict; every kept name is truthy |
| `Custom.ModelNamesConcat` | bff/components/custom.py:42 | names keep the upstream order |
| `Custom.ModelNamesSingle` | bff/components/custom.py:42 | a dict item contributes its non-empty name, and nothing when the name is missing or empty |
| `Custom.AllowedField` | bff/components/custom.py:43 | `ALLOWED_MODELS or "ANY"`: "ANY" iff the list is empty, otherwise the list |
| `Custom.ModelList` | bff/components/custom.py:41-43 | a non-dict document raises AttributeError; a missing `models` key gives no names; a list gives the projected names next to `allowed`; a number, bool or null under `models` raises TypeError, a non-empty dict or str raises AttributeError, and an empty one gives no names |
| `Custom.ListModels` | bff/components/custom.py:34-43 | one bounded GET of `/api/tags`; a non-200 is passed through as an `HTTPException`; a 200 whose body does not decode crashes as `r.json()` does; otherwise the projection; it never streams |
| `Custom.PullModel` | bff/components/custom.py:45-53 | posts exactly `{"name": name}` without a timeout; a non-200 is passed through; a 200 gives `{"status": "ok", "pulled": name}` |
| `Custom.PullResultIgnoresBody` | bff/components/custom.py:51-53 | the upstream body of a 200 does not affect the result |
| `Custom.UserContentsConcat` | bff/components/custom.py:60 | the user contents keep the message order |
| `Custom.UserContentsEmpty` | bff/components/custom.py:60-61 | there are no user contents iff no message is from the user |
| `Custom.Temperature` | bff/components/custom.py:68 | `req.temperature or 0.2`: never zero; a given non-zero temperature is kept |
| `Custom.ChatGeneration` | bff/components/custom.py:58-68 | the gate decides first; then a 400 iff no user message; the system text is always the directive; the user text is the content of a user message |
| `Custom.LastUserWins` | bff/components/custom.py:66 | the user text is the content of the last user message |
| `Custom.NonUserMessageIgnored` | bff/components/custom.py:60-66 | inserting a system or assistant message anywhere changes nothing |
| `Custom.Chat` | bff/components/custom.py:55-77 | refusals come before generation; a generation failure is a 500 starting with "Error en generación: "; a successful generation gives a response, which carries the generated text and reports the resolved model as `model` and as `usage["model"]` |
| `Custom.RefusedChatNeverGenerates` | bff/components/custom.py:58-62 | a refused request gives the same 400 whatever the model would answer |
| `Custom.ChatScenario` | bff/components/custom.py:60-70 | system "X", user "hi", user "bye": the model is asked "bye" under the directive, at temperature 0.2 |
| `Custom.Embeddings` | bff/components/custom.py:79-90 | the gate first, then a 400 for an empty input, then the embedder; its failure is a 500 starting with "Error generando embeddings: " |
| `Custom.EmbeddingsGateFirst` | bff/components/custom.py:82-84 | a refused model with an empty input is refused for the model |
| `Utf8.Decode` | bff/components/legacy.py:54 | `body.decode('utf-8')`: never more code points than bytes, and strict decoding gives no surrogates |
| `Utf8.DecodeEncode` | bff/components/legacy.py:54 | strict UTF-8 decoding undoes encoding |
| `Utf8.EncodeDecode` | bff/components/legacy.py:54 | every strictly decodable byte string is the encoding of what it decodes to |
| `Utf8.EncodeAscii` | bff/components/legacy.py:61 | the UTF-8 encoding of ASCII text is the text itself |
| `JsonDecoder.Loads` | bff/components/legacy.py:54 | `json.loads` on text fails only with `JSONDecodeError` |
| `JsonDecoder.DecodeRequest` | bff/components/legacy.py:53-54 | a failure is `UnicodeDecodeError` iff the body is not strict UTF-8, else `JSONDecodeError` |
| `JsonDecoder.DecodeReply` | bff/components/legacy.py:73 | `r.json()` fails only with a decoding error of the bytes or of the JSON |
| `JsonDecoder.ParseDocument` | bff/components/legacy.py:54 | a document holds a value: text of whitespace only does not decode |
| `JsonDecoder.ParseValue` | bff/components/legacy.py:54 | every parse step consumes input |
| `JsonEncoder.Dump` | bff/components/legacy.py:61 | `json.dumps` writes something for every value; its partners are `DumpIsAscii` and the round trip `DumpThenLoad` |
| `JsonEncoder.DumpIsAscii` | bff/components/legacy.py:61 | `json.dumps` writes printable ASCII only (`ensure_ascii`) |
| `JsonEncoder.EscapeCharAscii` | bff/components/legacy.py:61 | every code point is written as printable ASCII |
| `JsonStringRoundTrip.StringRoundTrip` | bff/components/legacy.py:54-61 | the escaped body of a string without surrogate pairs, its closing quote and anything after it read back as the string, leaving what came after |
| `JsonStringRoundTrip.QuoteRoundTrip` | bff/components/legacy.py:54-61 | a written string literal starts with a quote and reads back as the string |
| `JsonNumberFacts.ScanPrefix` | bff/components/legacy.py:54 | cutting the text right after the scanned number does not change the scan |
| `JsonNumberRoundTrip.ScanExtend` | bff/components/legacy.py:54 | a number scans the same whatever follows it, unless that could continue it |
| `JsonNumberRoundTrip.IntRoundTrip` | bff/components/legacy.py:54-61 | an int written in decimal reads back as the same int |
| `JsonNumberRoundTrip.FloatRoundTrip` | bff/components/legacy.py:54-61 | a float written as its lexeme reads back as the same float |
| `JsonRoundTrip.ValueRoundTrip` | bff/components/legacy.py:54-61 | every well-formed value written by `json.dumps` and followed by a separator, closing bracket or the end reads back as itself |
| `JsonRoundTrip.DumpThenLoad` | bff/components/legacy.py:54-61 | for every document `json.loads` can produce, decoding what `json.dumps` wrote gives the document back |
| `JsonWellFormed.StringBodyWellFormed` | bff/components/legacy.py:54 | a str read from text without surrogates holds no joinable surrogate pair |
| `JsonWellFormed.PutWellFormed` | bff/components/legacy.py:58 | assigning a well-formed value under a well-formed key keeps a dict well-formed |
| `JsonWellFormed.DecodedIsWellFormed` | bff/components/legacy.py:54 | every document decoded from a request is of that kind: distinct keys, no joinable surrogate pair in a string |
| `Json.FromPairs` | bff/components/legacy.py:54 | duplicate keys in an object merge into one: the result has distinct keys |
| `Json.FromPairsLastWins` | bff/components/legacy.py:54 | of duplicate keys the last value wins |
| `Json.Put` | bff/components/legacy.py:58 | `data[key] = v` keeps the keys and their order when the key is present and appends it otherwise, and the key then holds `v` |
| `Json.GetPutOther` | bff/components/legacy.py:58 | assigning one key leaves every other key's value alone |
| `Json.Iterate` | bff/components/legacy.py:19 | `for m in v`: a list gives its items, a dict its keys and a str its characters, as many as there are, all str; any other value raises TypeError |
| `Json.FalsyValues` | bff/components/custom.py:42 | a value is falsy exactly when it is None, False, a zero, or an empty str, list or dict |
| `Json.PyStr` | bff/components/legacy.py:27 | `str(v)` in the f-string: a str is itself, any other value its `repr` |
| `Texts.PyRepr` | bff/components/legacy.py:27 | `repr` of a str is quoted, with the same quote at both ends, `'` or `"` |
| `Json.Contains` | bff/components/legacy.py:57 | `key in data` on a dict is key membership; on any type but dict, list and str it raises TypeError |

## Findings

| source | as written | input that shows it | evidently intended | confidence | as-written member | corrected member |
|---|---|---|---|---|---|---|
| bff/components/legacy.py:180 | `client.delete(..., content=body, ...)`; httpx's `AsyncClient.delete` takes no `content` argument, so the call raises TypeError and the route answers 500 without reaching upstream | any request to `DELETE /api/delete`, e.g. body `{"name": "llama3"}` | forward the body to `/api/delete` with DELETE and a 30-second timeout, like the other routes | not executed; rests on httpx's published signature, which is not part of this model | `Legacy.DeleteAsWritten`, `Legacy.DeleteNeverForwards` | `Legacy.PlainExchange` (used by `Legacy.Handle`), `Legacy.CallsFollowRouteTable` |

## Left out

- Network I/O, the `httpx.AsyncClient` calls, `async`/`await` and concurrency. The reply to each call is an input, and so is `r.text`: httpx's detection of the charset is not modelled.
- `StreamingResponse(r.iter_bytes())`: a stream is modelled as the whole upstream body, so chunking, backpressure and cancellation are not represented.
- Request and reply headers: the `Content-Type: application/json` every forwarding call sets is not part of `Call`.
- LangChain (`ChatPromptTemplate`, `get_chat`, `get_embedder`, `chain.invoke`, `embed_documents`) is foreign library code. Generation and embedding are parameters of `Custom.Chat` and `Custom.Embeddings`. So "one vector per input, in order" is not stated. Neither is a failure of `get_chat` itself, which happens outside the `try` in `chat`.
- The pydantic validation of `bff/schemas.py` is not modelled: role patterns, the types of the request fields, and the validation of `EmbeddingsResponse`. Requests reach `Custom` already typed.
- `bff/app.py` (CORS and router wiring) is not part of this model.
- Floating point. A float is kept as the text it was written as. `json.dumps` writes it back as that text, whereas Python writes the shortest text that reads back to the same double. Overflow beyond a double and underflow to zero are not modelled either. `Custom.Temperature`: a temperature is a `real`, and so NaN and `-0.0` are not modelled.
- Python's limit on the number of digits when reading an integer, and the recursion limit on deeply nested documents.
- `r.json()` detecting a UTF-16 or UTF-32 reply body: only UTF-8, with or without a byte-order mark, is modelled.
- `Texts.ReprChar`: `repr` printability is modelled by a code-point rule: control characters, Latin-1 spaces and soft hyphen, and surrogates are escaped, and everything else from U+00A1 on is kept. Python asks the Unicode database, so some rarer non-printable characters appear unescaped here.
- `Custom.PullModel`: the document sent with `json=` is kept as a document. httpx's own serialisation of it is not modelled.
