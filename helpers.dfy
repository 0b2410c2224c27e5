/**
 * The proxy's configuration and model gate: the environment it reads at
 * start-up, the parse of the allow-list `ALLOWED_MODELS`, the fixed system
 * directive, and `ensure_model_allowed`.
 */
module Helpers {
  import opened Wrappers
  import opened Texts
  import opened Http

  /** The environment variables the proxy reads; an unset one is None. */
  datatype Environment = Environment(ollamaBase: Option<Text>, defaultModel: Option<Text>, allowedModels: Option<Text>)

  /** The settings read once at start-up and never changed. */
  datatype Config = Config(ollamaBase: Text, defaultModel: Text, allowedModels: seq<Text>)

  const DEFAULT_OLLAMA_BASE: Text := T("http://ollama:11434")
  const DEFAULT_MODEL: Text := T("llama3.1:latest")

  /** The directive put in front of every conversation and prompt. */
  const BASE_SYSTEM: Text :=
    T("Respondé de forma técnica, clara y concisa. ")
    + T("Si no sabés, decí 'No lo sé con certeza con el contexto dado'. ")
    + T("Evitá inventar datos. Contesta siempre en idioma español.")

  const COMMA: CodePoint := 0x2C

  /** The stripped, non-empty parts, in order. */
  function KeepStripped(parts: seq<Text>): (r: seq<Text>)
    ensures |r| <= |parts|
  {
    if parts == [] then [] else Kept(parts[0]) + KeepStripped(parts[1..])
  }

  /** One part, stripped, as a list of at most one entry. */
  function Kept(part: Text): (r: seq<Text>)
    ensures |r| <= 1
  {
    var m := Strip(part);
    if m == [] then [] else [m]
  }

  /** The allow-list, from the raw `ALLOWED_MODELS` text: split on commas,
      each entry stripped of whitespace, empty entries dropped. */
  function ParseAllowedModels(raw: Text): (r: seq<Text>)
    ensures forall i :: 0 <= i < |r| ==> r[i] != [] && IsStripped(r[i]) && COMMA !in r[i]
  {
    var parts := Split(raw, COMMA);
    KeepStrippedEntries(parts);
    KeepStrippedOmits(parts, COMMA);
    KeepStripped(parts)
  }

  /** Every entry is non-empty and stripped. */
  predicate CleanEntries(r: seq<Text>) {
    forall i :: 0 <= i < |r| ==> r[i] != [] && IsStripped(r[i])
  }

  /** No entry holds the code point `c`. */
  predicate Avoids(r: seq<Text>, c: CodePoint) {
    forall i :: 0 <= i < |r| ==> c !in r[i]
  }

  lemma CleanJoin(h: seq<Text>, tl: seq<Text>)
    requires CleanEntries(h) && CleanEntries(tl)
    ensures CleanEntries(h + tl)
  {
    forall i | 0 <= i < |h + tl|
      ensures (h + tl)[i] != [] && IsStripped((h + tl)[i])
    {
      if i >= |h| {
        assert (h + tl)[i] == tl[i - |h|];
      }
    }
  }

  lemma AvoidsJoin(h: seq<Text>, tl: seq<Text>, c: CodePoint)
    requires Avoids(h, c) && Avoids(tl, c)
    ensures Avoids(h + tl, c)
  {
    forall i | 0 <= i < |h + tl|
      ensures c !in (h + tl)[i]
    {
      if i >= |h| {
        assert (h + tl)[i] == tl[i - |h|];
      }
    }
  }

  lemma KeepStrippedStep(parts: seq<Text>)
    requires parts != []
    ensures KeepStripped(parts) == Kept(parts[0]) + KeepStripped(parts[1..])
  {
  }

  /** Every kept entry is non-empty and stripped. */
  lemma {:induction false} KeepStrippedEntries(parts: seq<Text>)
    ensures CleanEntries(KeepStripped(parts))
  {
    if parts != [] {
      KeepStrippedStep(parts);
      KeepStrippedEntries(parts[1..]);
      CleanJoin(Kept(parts[0]), KeepStripped(parts[1..]));
    }
  }

  /** A code point no part holds is in no kept entry. */
  lemma {:induction false} KeepStrippedOmits(parts: seq<Text>, c: CodePoint)
    requires Avoids(parts, c)
    ensures Avoids(KeepStripped(parts), c)
  {
    if parts != [] {
      KeepStrippedStep(parts);
      StripOmits(parts[0], c);
      assert Avoids(parts[1..], c) by {
        forall k | 0 <= k < |parts| - 1
          ensures c !in parts[1..][k]
        {
          assert parts[1..][k] == parts[k + 1];
        }
      }
      KeepStrippedOmits(parts[1..], c);
      AvoidsJoin(Kept(parts[0]), KeepStripped(parts[1..]), c);
    }
  }

  lemma StripOmits(t: Text, c: CodePoint)
    requires c !in t
    ensures c !in Strip(t)
  {
    var i := StripIsSlice(t);
    assert Strip(t) == t[i..i + |Strip(t)|];
  }

  /** The parse keeps the order of the entries: parsing two lists of parts
      is parsing each. */
  lemma {:induction false} KeepStrippedConcat(a: seq<Text>, b: seq<Text>)
    ensures KeepStripped(a + b) == KeepStripped(a) + KeepStripped(b)
  {
    if a == [] {
      assert a + b == b;
    } else {
      var ab := a + b;
      assert ab != [] && ab[0] == a[0] && ab[1..] == a[1..] + b;
      var h := Kept(a[0]);
      calc {
        KeepStripped(ab);
      == { KeepStrippedStep(ab); }
        h + KeepStripped(a[1..] + b);
      == { KeepStrippedConcat(a[1..], b); }
        h + (KeepStripped(a[1..]) + KeepStripped(b));
      ==
        (h + KeepStripped(a[1..])) + KeepStripped(b);
      == { KeepStrippedStep(a); }
        KeepStripped(a) + KeepStripped(b);
      }
    }
  }

  /** An unset or empty `ALLOWED_MODELS` allows every model. */
  lemma EmptyAllowList()
    ensures ParseAllowedModels([]) == []
  {
    assert Split([], COMMA) == [[]];
    assert Strip([]) == [];
  }

  /** Writing an allow-list out with commas and parsing it gives it back. */
  lemma AllowListRoundTrip(models: seq<Text>)
    requires forall i :: 0 <= i < |models| ==> models[i] != [] && IsStripped(models[i]) && COMMA !in models[i]
    ensures ParseAllowedModels(Join(models, COMMA)) == models
  {
    if models == [] {
      EmptyAllowList();
    } else {
      SplitJoin(models, COMMA);
      KeepStrippedStripped(models);
    }
  }

  lemma KeptStripped(part: Text)
    requires part != [] && IsStripped(part)
    ensures Kept(part) == [part]
  {
    StripStripped(part);
  }

  lemma {:induction false} KeepStrippedStripped(models: seq<Text>)
    requires forall i :: 0 <= i < |models| ==> models[i] != [] && IsStripped(models[i])
    ensures KeepStripped(models) == models
  {
    if models != [] {
      var head, tail := models[0], models[1..];
      KeptStripped(head);
      KeepStrippedStripped(tail);
      assert models == [head] + tail;
    }
  }

  /** The configuration as the module-level constants compute it. */
  function LoadConfig(env: Environment): (cfg: Config)
    ensures env.ollamaBase.None? ==> cfg.ollamaBase == DEFAULT_OLLAMA_BASE
    ensures env.ollamaBase.Some? ==> cfg.ollamaBase == env.ollamaBase.value
    ensures env.defaultModel.None? ==> cfg.defaultModel == DEFAULT_MODEL
    ensures env.defaultModel.Some? ==> cfg.defaultModel == env.defaultModel.value
    ensures env.allowedModels.None? ==> cfg.allowedModels == []
  {
    Config(
      if env.ollamaBase.Some? then env.ollamaBase.value else DEFAULT_OLLAMA_BASE,
      if env.defaultModel.Some? then env.defaultModel.value else DEFAULT_MODEL,
      ParseAllowedModels(if env.allowedModels.Some? then env.allowedModels.value else []))
  }

  /** The model a request names, or the default one: `req.model or DEFAULT_MODEL`. */
  function RequestedModel(cfg: Config, model: Option<Text>): (m: Text)
    ensures model.Some? && model.value != [] ==> m == model.value
    ensures model.None? || model.value == [] ==> m == cfg.defaultModel
  {
    if model.Some? && model.value != [] then model.value else cfg.defaultModel
  }

  /** The message of the 400 for a model not on the list. */
  function RejectionDetail(model: Text, allowed: seq<Text>): Text {
    T("Modelo '") + model + T("' no permitido. Permitidos: ") + PyListRepr(allowed)
  }

  /** `ensure_model_allowed(model)`: an empty name means the default model;
      with a non-empty allow-list, a name not on it is refused with a 400. */
  function EnsureModelAllowed(cfg: Config, model: Text): (r: Result<Text, HttpException>)
    ensures var resolved := if model == [] then cfg.defaultModel else model;
      && (cfg.allowedModels == [] ==> r == Ok(resolved))
      && (r.Ok? ==> r.value == resolved)
      && (r.Ok? && cfg.allowedModels != [] ==> r.value in cfg.allowedModels)
      && (r.Err? <==> cfg.allowedModels != [] && resolved !in cfg.allowedModels)
      && (r.Err? ==> r.error == HttpException(400, RejectionDetail(resolved, cfg.allowedModels)))
  {
    var resolved := if model == [] then cfg.defaultModel else model;
    if cfg.allowedModels != [] && resolved !in cfg.allowedModels then
      Err(HttpException(400, RejectionDetail(resolved, cfg.allowedModels)))
    else Ok(resolved)
  }

  /** Passing the gate twice is passing it once. */
  lemma EnsureModelAllowedIdempotent(cfg: Config, model: Text)
    requires EnsureModelAllowed(cfg, model).Ok?
    ensures EnsureModelAllowed(cfg, EnsureModelAllowed(cfg, model).value) == EnsureModelAllowed(cfg, model)
  {
  }

  /** The default model is gated like any other: with a non-empty list that
      does not hold it, a request without a model is refused. */
  lemma DefaultModelGated(cfg: Config)
    requires cfg.allowedModels != [] && cfg.defaultModel !in cfg.allowedModels
    ensures EnsureModelAllowed(cfg, []).Err?
    ensures EnsureModelAllowed(cfg, RequestedModel(cfg, None)).Err?
  {
  }
}
