/** The control skeleton of `run_deploy` in `llama_deploy/orchestrator.py`:
    the bootstrap token (`TokenRuntime`, `_ensure_first_token`), the
    sixteen steps in their four phases with their skip predicates, the
    `--skip-download` recovery that fills the model steps' results from the
    files already on disk, and the cleanup of the `finally` block that
    revokes a temporary validation token.

    The bodies of the external steps (package installation, downloads,
    configuration rendering, containers, proxies, health and smoke checks)
    are one opaque collaborator keyed by the step's label, acting on an
    abstract host state `W`; the token store is the `Tokens` model. */
module Deploy {
  import opened Wrappers
  import opened Tokens
  import opened Runner
  import Text

  // ---------------------------------------------------------------------
  // Bootstrap token
  // ---------------------------------------------------------------------

  /** The token material used for validation; `temporaryId` is set only
      when a temporary token was created for it. */
  datatype TokenRuntime = TokenRuntime(value: string, temporaryId: Option<string>)

  const SmokeTokenName: string := "__deploy-smoke-test"

  /** `_ensure_first_token`, three ways. With no active token, the first
      token is created from the configured name and value and used
      directly. When the first active token holds a usable plaintext, that
      plaintext is used and nothing is written. Otherwise a temporary
      "__deploy-smoke-test" token is created and its id remembered. */
  function EnsureFirstToken(st: Store, apiTokenName: string, apiToken: Option<string>,
                            ent: Entropy, sha256: string -> string): (r: Reply<TokenRuntime>)
    ensures r.store.mode == st.mode
    ensures ActiveTokens(st.records) == [] ==>
      var c := CreateToken(st, apiTokenName, apiToken, ent, sha256);
      && r.store == c.store
      && (r.result.Err? <==> c.result.Err?)
      && (r.result.Ok? ==>
            && r.result.value.temporaryId.None?
            && r.result.value.value == (if apiToken.Some? && apiToken.value != [] then apiToken.value else "sk-" + ent.urlsafe))
    ensures ActiveTokens(st.records) != [] && Truthy(ActiveTokens(st.records)[0].value) ==>
      r == Reply(st, Ok(TokenRuntime(ActiveTokens(st.records)[0].value.value, None)))
    ensures ActiveTokens(st.records) != [] && !Truthy(ActiveTokens(st.records)[0].value) ==>
      && r.result == Ok(TokenRuntime("sk-" + ent.urlsafe, Some("tk_" + ent.hex)))
      && |r.store.records| == |st.records| + 1
      && r.store.records[..|st.records|] == st.records
      && r.store.records[|st.records|].name == SmokeTokenName
      && r.store.records[|st.records|].id == "tk_" + ent.hex
      && !r.store.records[|st.records|].revoked
  {
    var active := ActiveTokens(st.records);
    if |active| > 0 then
      if Truthy(active[0].value) then
        Reply(st, Ok(TokenRuntime(active[0].value.value, None)))
      else
        var smoke := CreateToken(st, SmokeTokenName, None, ent, sha256);
        match smoke.result
        case Ok(t) => Reply(smoke.store, Ok(TokenRuntime(t.value.value, Some(t.id))))
        case Err(e) => Reply(smoke.store, Err(e))
    else
      var first := CreateToken(st, apiTokenName, apiToken, ent, sha256);
      match first.result
      case Ok(t) => Reply(first.store, Ok(TokenRuntime(t.value.value, None)))
      case Err(e) => Reply(first.store, Err(e))
  }

  /** A token created because none was active is the first active token
      afterwards, and in plaintext mode it keeps its secret: a second
      resolution, whatever randomness it is given, returns the same value
      and creates nothing. */
  lemma BootstrapIdempotentInPlaintextMode(st: Store, apiTokenName: string, apiToken: Option<string>,
                                           ent1: Entropy, ent2: Entropy, sha256: string -> string)
    requires st.mode == Plaintext
    requires forall i :: 0 <= i < |st.records| ==> st.records[i].revoked
    requires EnsureFirstToken(st, apiTokenName, apiToken, ent1, sha256).result.Ok?
    ensures var r1 := EnsureFirstToken(st, apiTokenName, apiToken, ent1, sha256);
            EnsureFirstToken(r1.store, apiTokenName, apiToken, ent2, sha256)
              == Reply(r1.store, Ok(TokenRuntime(r1.result.value.value, None)))
  {
    NoActive(st.records);
    var r1 := EnsureFirstToken(st, apiTokenName, apiToken, ent1, sha256);
    var n := |st.records|;
    var t := r1.store.records[n];
    assert r1.store.records == st.records + [t];
    ActiveAppend(st.records, [t]);
    assert ActiveTokens([t]) == [t] by {
      assert [t][1..] == [];
    }
  }

  lemma {:induction false} NoActive(ts: seq<TokenRecord>)
    requires forall i :: 0 <= i < |ts| ==> ts[i].revoked
    ensures ActiveTokens(ts) == []
    decreases |ts|
  {
    if |ts| > 0 {
      NoActive(ts[1..]);
    }
  }

  /** Redeploying over a hashed store that already has an active token:
      no plaintext is recoverable, so a temporary token is created and its
      fresh "sk-" secret and id are reported. */
  lemma HashedRedeployUsesTemporaryToken(st: Store, apiTokenName: string, apiToken: Option<string>,
                                         ent: Entropy, sha256: string -> string, i: nat)
    requires st.mode == Hashed && NoPlaintext(st.records)
    requires i < |st.records| && !st.records[i].revoked
    ensures var r := EnsureFirstToken(st, apiTokenName, apiToken, ent, sha256);
            && r.result == Ok(TokenRuntime("sk-" + ent.urlsafe, Some("tk_" + ent.hex)))
            && NoPlaintext(r.store.records)
  {
    ActiveMembers(st.records);
    assert st.records[i] in ActiveTokens(st.records);
    var a := ActiveTokens(st.records)[0];
    assert a in ActiveTokens(st.records);
  }

  /** When the first active token has no usable plaintext,
      `_ensure_first_token` creates a temporary token; revoking it succeeds
      and restores the active tokens the store had before, provided the
      fresh id is not already taken. */
  lemma TemporaryTokenRevocable(st: Store, apiTokenName: string, apiToken: Option<string>,
                                ent: Entropy, sha256: string -> string, now: string)
    requires ActiveTokens(st.records) != [] && !Truthy(ActiveTokens(st.records)[0].value)
    requires forall j :: 0 <= j < |st.records| ==> st.records[j].id != "tk_" + ent.hex
    ensures var e := EnsureFirstToken(st, apiTokenName, apiToken, ent, sha256);
            var rv := RevokeToken(e.store, e.result.value.temporaryId.value, now);
            && rv.result.Ok?
            && |rv.store.records| == |st.records| + 1
            && ActiveTokens(rv.store.records) == ActiveTokens(st.records)
  {
    var e := EnsureFirstToken(st, apiTokenName, apiToken, ent, sha256);
    RevokeAppended(st.records, e.store, "tk_" + ent.hex, now);
  }

  /** Revoking the one record appended to a list, by an id no earlier
      record has, succeeds and leaves the active view of the earlier
      records. */
  lemma RevokeAppended(before: seq<TokenRecord>, st: Store, id: string, now: string)
    requires |st.records| == |before| + 1 && st.records[..|before|] == before
    requires st.records[|before|].id == id && !st.records[|before|].revoked
    requires forall j :: 0 <= j < |before| ==> before[j].id != id
    ensures var rv := RevokeToken(st, id, now);
            && rv.result.Ok?
            && |rv.store.records| == |before| + 1
            && ActiveTokens(rv.store.records) == ActiveTokens(before)
  {
    var n := |before|;
    var recs := st.records;
    assert recs == before + [recs[n]];
    assert IsFirst(recs, id, n) by {
      forall j | 0 <= j < n
        ensures recs[j].id != id
      {
        assert recs[j] == before[j];
      }
    }
    var y := recs[n].(revoked := true, revokedAt := Some(now));
    var rv := RevokeToken(st, id, now);
    assert rv.result == Ok(y) && rv.store.records == recs[n := y];
    assert recs[n := y] == before + [y];
    ActiveIgnoresRevokedTail(before, y);
  }

  /** A revoked record at the end of a list adds nothing to its active
      view. */
  lemma ActiveIgnoresRevokedTail(before: seq<TokenRecord>, y: TokenRecord)
    requires y.revoked
    ensures ActiveTokens(before + [y]) == ActiveTokens(before)
  {
    ActiveAppend(before, [y]);
    assert ActiveTokens([y]) == [] by {
      assert [y][1..] == [];
    }
  }


  /** With an explicit bootstrap value that is not blank, on a fresh
      plaintext store, that value is used, no temporary token is made, and
      it is the only active token afterwards. */
  lemma ExplicitBootstrapValue(apiTokenName: string, v: string, ent: Entropy, sha256: string -> string)
    requires !Text.AllWhitespace(v)
    ensures var r := EnsureFirstToken(Fresh(Plaintext), apiTokenName, Some(v), ent, sha256);
            && r.result == Ok(TokenRuntime(v, None))
            && |ActiveTokens(r.store.records)| == 1
            && ActiveTokens(r.store.records)[0].value == Some(v)
  {
    var r := EnsureFirstToken(Fresh(Plaintext), apiTokenName, Some(v), ent, sha256);
    var t := r.store.records[0];
    assert r.store.records == [t];
    assert ActiveTokens([t]) == [t] by {
      assert [t][1..] == [];
    }
  }

  // ---------------------------------------------------------------------
  // Configuration, collaborators and step values
  // ---------------------------------------------------------------------

  /** A model to serve: its repository and the filename fragments that
      identify its file. */
  datatype ModelSpec = ModelSpec(repo: string, candidatePatterns: seq<string>)

  /** A `*.gguf` file of the models directory with its SHA-256 and size. */
  datatype ModelFile = ModelFile(name: string, sha256: string, size: nat)

  /** `spec.with_resolved(filename, sha256, size)`. */
  datatype ResolvedModel = ResolvedModel(spec: ModelSpec, filename: string, sha256: string, size: nat)

  /** The deployment settings `run_deploy` reads. */
  datatype Config = Config(
    authMode: AuthMode,
    useTls: bool,
    domain: string,
    configureUfw: bool,
    publish: bool,
    skipDownload: bool,
    apiTokenName: string,
    apiToken: Option<string>,
    llm: ModelSpec,
    emb: ModelSpec)

  /** What a step returns: nothing useful, the token material, or a
      resolved model. */
  datatype StepValue = NoValue | Runtime(runtime: TokenRuntime) | Model(model: ResolvedModel)

  /** Why a deployment stops: an external step failed, the token store
      raised, or `--skip-download` found no matching file. */
  datatype Failure =
    | ExternalFailure(step: string, detail: string)
    | TokenFailure(error: TokenError)
    | NoMatchingModel(repo: string)

  /** The machine: the token store and everything else (`host`). */
  datatype World<W> = World(store: Store, host: W)

  /** The parts of the deployment this model leaves opaque: the body of
      every external step (looked up by label, given the result table),
      `resolve_model`, the listing of `*.gguf` files with their digests and
      sizes, and the randomness, SHA-256 and clock the token store uses. */
  datatype Collaborators<!W> = Collaborators(
    external: (string, W, seq<Option<StepValue>>) -> Result<W, string>,
    resolve: (ModelSpec, W) -> Result<(W, ResolvedModel), string>,
    listModels: W -> seq<ModelFile>,
    entropy: Entropy,
    sha256: string -> string,
    clock: string)

  type DeployStep<!W> = Step<World<W>, StepValue, Failure>

  // Result slots: the position of each step in `all_steps`.
  const TokenSlot: nat := 5
  const LlmSlot: nat := 6
  const EmbSlot: nat := 7
  const LocalProxySlot: nat := 11
  const TlsSlot: nat := 12
  const StepCount: nat := 16

  /** A skip predicate reading only the (immutable) configuration. */
  function SkipWhen<W>(b: bool): Option<(World<W>, seq<Option<StepValue>>) -> bool> {
    Some((w: World<W>, res: seq<Option<StepValue>>) => b)
  }

  predicate FirewallSkipped(cfg: Config) {
    !cfg.configureUfw
  }

  predicate DownloadSkipped(cfg: Config) {
    cfg.skipDownload
  }

  /** The local auth proxy is for hashed mode without TLS. */
  predicate LocalProxySkipped(cfg: Config) {
    cfg.authMode != Hashed || cfg.useTls
  }

  predicate TlsSkipped(cfg: Config) {
    !cfg.useTls
  }

  /** A step whose body is external and returns nothing. */
  function ExternalStep<W>(col: Collaborators<W>, stepName: string, slot: nat,
                           skipIf: Option<(World<W>, seq<Option<StepValue>>) -> bool>): (s: DeployStep<W>)
    ensures s.slot == slot && s.skipIf == skipIf
  {
    Step(stepName, slot,
      (w: World<W>, res: seq<Option<StepValue>>) =>
        match col.external(stepName, w.host, res)
        case Ok(h) => Ok((w.(host := h), NoValue))
        case Err(d) => Err(ExternalFailure(stepName, d)),
      skipIf)
  }

  /** "Create API token": `_ensure_first_token` on the store, opened in
      the configured mode. */
  function TokenStep<W>(cfg: Config, col: Collaborators<W>): (s: DeployStep<W>)
    ensures s.slot == TokenSlot && s.skipIf.None?
  {
    Step("Create API token", TokenSlot,
      (w: World<W>, res: seq<Option<StepValue>>) =>
        var r := EnsureFirstToken(w.store.(mode := cfg.authMode), cfg.apiTokenName, cfg.apiToken, col.entropy, col.sha256);
        match r.result
        case Ok(rt) => Ok((w.(store := r.store), Runtime(rt)))
        case Err(e) => Err(TokenFailure(e)),
      None)
  }

  /** "Resolve + download ... GGUF", skipped under `--skip-download`. */
  function ModelStep<W>(cfg: Config, col: Collaborators<W>, stepName: string, slot: nat,
                        spec: ModelSpec): (s: DeployStep<W>)
    ensures s.slot == slot && s.skipIf == SkipWhen(DownloadSkipped(cfg))
  {
    Step(stepName, slot,
      (w: World<W>, res: seq<Option<StepValue>>) =>
        match col.resolve(spec, w.host)
        case Ok((h, m)) => Ok((w.(host := h), Model(m)))
        case Err(d) => Err(ExternalFailure(stepName, d)),
      SkipWhen(DownloadSkipped(cfg)))
  }

  /** The token step runs `_ensure_first_token` on the store reopened in
      the configured mode: it succeeds exactly when that call does, then
      leaves the host alone, keeps the store the call left and records the
      token material; otherwise it raises the call's error. */
  lemma TokenStepEffect<W>(cfg: Config, col: Collaborators<W>, w: World<W>, res: seq<Option<StepValue>>)
    ensures var o := TokenStep(cfg, col).action(w, res);
            var e := EnsureFirstToken(w.store.(mode := cfg.authMode), cfg.apiTokenName, cfg.apiToken, col.entropy, col.sha256);
            && (o.Ok? <==> e.result.Ok?)
            && (o.Ok? ==>
                  && o.value.0.host == w.host
                  && o.value.0.store == e.store
                  && o.value.0.store.mode == cfg.authMode
                  && o.value.1 == Runtime(e.result.value))
            && (o.Err? ==> o.error == TokenFailure(e.result.error))
  {
  }

  /** Phase 1 up to the token step: host preparation. */
  function Preparation<W>(cfg: Config, col: Collaborators<W>): (r: seq<DeployStep<W>>)
    ensures |r| == 5 && forall i :: 0 <= i < |r| ==> r[i].slot == i
  {
    [ ExternalStep(col, "Install base packages", 0, None),
      ExternalStep(col, "Enable unattended upgrades", 1, None),
      ExternalStep(col, "Install / enable Docker", 2, None),
      ExternalStep(col, "Ensure swap", 3, None),
      ExternalStep(col, "Firewall (UFW) hardening", 4, SkipWhen(FirewallSkipped(cfg))) ]
  }

  /** Phase 1, system preparation, ending with the token step. */
  function SystemSteps<W>(cfg: Config, col: Collaborators<W>): (r: seq<DeployStep<W>>)
    ensures |r| == 6 && forall i :: 0 <= i < |r| ==> r[i].slot == i
    ensures Fits(r, StepCount)
  {
    Preparation(cfg, col) + [TokenStep(cfg, col)]
  }

  /** Only the firewall step of phase 1 has a skip predicate: it is
      skipped exactly when UFW is not to be configured. */
  lemma SystemStepsShape<W>(cfg: Config, col: Collaborators<W>)
    ensures var sys := SystemSteps(cfg, col);
            && (forall i :: 0 <= i < |sys| && i != 4 ==> sys[i].skipIf.None?)
            && sys[4].skipIf.Some?
            && (forall s, t :: sys[4].skipIf.value(s, t) == FirewallSkipped(cfg))
  {
  }

  /** Phase 2, the two model downloads. */
  function ModelSteps<W>(cfg: Config, col: Collaborators<W>): (r: seq<DeployStep<W>>)
    ensures |r| == 2 && forall i :: 0 <= i < |r| ==> r[i].slot == 6 + i
    ensures Fits(r, StepCount)
    ensures forall i :: 0 <= i < |r| ==> r[i].skipIf == SkipWhen(DownloadSkipped(cfg))
  {
    [ ModelStep(cfg, col, "Resolve + download LLM GGUF", LlmSlot, cfg.llm),
      ModelStep(cfg, col, "Resolve + download embedding GGUF", EmbSlot, cfg.emb) ]
  }

  /** Phases 3 and 4: configuration and startup, the two mutually
      exclusive proxy steps, and validation. The health and smoke steps go
      through the published port when the service is published or hashed,
      and through the internal network otherwise. */
  function ServiceSteps<W>(cfg: Config, col: Collaborators<W>): (r: seq<DeployStep<W>>)
    ensures |r| == 8 && forall i :: 0 <= i < |r| ==> r[i].slot == 8 + i
    ensures Fits(r, StepCount)
    ensures forall i :: 0 <= i < |r| && i != 3 && i != 4 ==> r[i].skipIf.None?
    ensures r[3].skipIf == SkipWhen(LocalProxySkipped(cfg)) && r[4].skipIf == SkipWhen(TlsSkipped(cfg))
  {
    var viaPort := cfg.publish || cfg.authMode == Hashed;
    [ ExternalStep(col, "Write models.ini + docker-compose.yml", 8, None),
      ExternalStep(col, "Pull Docker image", 9, None),
      ExternalStep(col, "Start Docker Compose", 10, None),
      ExternalStep(col, "NGINX local auth proxy (hashed mode)", LocalProxySlot,
                   SkipWhen(LocalProxySkipped(cfg))),
      ExternalStep(col, "NGINX + Let's Encrypt TLS (" + cfg.domain + ")", TlsSlot,
                   SkipWhen(TlsSkipped(cfg))),
      ExternalStep(col, if viaPort then "Wait for /health" else "Internal network smoke test", 13, None),
      ExternalStep(col, if viaPort then "Smoke tests (OpenAI-compatible routes)" else "Sanity checks", 14, None),
      ExternalStep(col, "Sanity checks (ports + logs)", 15, None) ]
  }

  /** `all_steps`, the list the progress bar total counts; every step's
      result slot is its position in it. */
  function AllSteps<W>(cfg: Config, col: Collaborators<W>): (r: seq<DeployStep<W>>)
    ensures |r| == StepCount && forall i :: 0 <= i < |r| ==> r[i].slot == i
  {
    SystemSteps(cfg, col) + ModelSteps(cfg, col) + ServiceSteps(cfg, col)
  }

  /** One step leaves the token store as it found it. */
  ghost predicate KeepsStoreAt<W>(step: DeployStep<W>, w: World<W>, t: seq<Option<StepValue>>) {
    step.action(w, t).Ok? ==> step.action(w, t).value.0.store == w.store
  }

  lemma ExternalStepKeepsStore<W>(col: Collaborators<W>, stepName: string, slot: nat,
                                  skipIf: Option<(World<W>, seq<Option<StepValue>>) -> bool>)
    ensures forall w, t :: KeepsStoreAt(ExternalStep(col, stepName, slot, skipIf), w, t)
  {
  }

  /** Only the token step writes the token store: the host preparation,
      the downloads and the service steps leave it as they found it. */
  lemma PreparationKeepsStore<W>(cfg: Config, col: Collaborators<W>)
    ensures var p := Preparation(cfg, col);
            forall i, w, t :: 0 <= i < |p| ==> KeepsStoreAt(p[i], w, t)
  {
    var p := Preparation(cfg, col);
    forall i | 0 <= i < |p|
      ensures forall w, t :: KeepsStoreAt(p[i], w, t)
    {
      ExternalStepKeepsStore(col, p[i].name, p[i].slot, p[i].skipIf);
    }
  }

  lemma ModelStepsKeepStore<W>(cfg: Config, col: Collaborators<W>)
    ensures var m := ModelSteps(cfg, col);
            forall i, w, t :: 0 <= i < |m| ==> KeepsStoreAt(m[i], w, t)
  {
  }

  lemma ServiceStepsKeepStore<W>(cfg: Config, col: Collaborators<W>)
    ensures var v := ServiceSteps(cfg, col);
            forall i, w, t :: 0 <= i < |v| ==> KeepsStoreAt(v[i], w, t)
  {
    var v := ServiceSteps(cfg, col);
    forall i | 0 <= i < |v|
      ensures forall w, t :: KeepsStoreAt(v[i], w, t)
    {
      ExternalStepKeepsStore(col, v[i].name, v[i].slot, v[i].skipIf);
    }
  }

  /** The proxy and TLS steps never both run: the local proxy runs exactly
      in hashed mode without TLS, the TLS step exactly with TLS. */
  lemma ProxyPredicatesExclusive(cfg: Config)
    ensures !LocalProxySkipped(cfg) <==> cfg.authMode == Hashed && !cfg.useTls
    ensures !TlsSkipped(cfg) <==> cfg.useTls
    ensures LocalProxySkipped(cfg) || TlsSkipped(cfg)
  {
  }

  // ---------------------------------------------------------------------
  // --skip-download recovery
  // ---------------------------------------------------------------------

  /** The file's name contains one of the patterns. */
  predicate NameMatches(f: ModelFile, patterns: seq<string>) {
    exists p :: p in patterns && Text.Contains(f.name, p)
  }

  /** The position of the first listed file whose name contains a
      pattern. */
  function FirstMatching(files: seq<ModelFile>, patterns: seq<string>): (r: Option<nat>)
    ensures r.Some? ==> r.value < |files| && NameMatches(files[r.value], patterns)
    ensures r.Some? ==> forall j :: 0 <= j < r.value ==> !NameMatches(files[j], patterns)
    ensures r.None? ==> forall j :: 0 <= j < |files| ==> !NameMatches(files[j], patterns)
    decreases |files|
  {
    if |files| == 0 then None
    else if NameMatches(files[0], patterns) then Some(0)
    else match FirstMatching(files[1..], patterns)
      case None => None
      case Some(i) => Some(i + 1)
  }

  /** The result table after `_resolve_from_disk`, and the fatal error it
      raised, if any. */
  datatype Recovery = Recovery(results: seq<Option<StepValue>>, failure: Option<Failure>)

  /** `_resolve_from_disk`: nothing without `--skip-download`; otherwise,
      for the LLM and then the embedding model, the first listed file that
      matches one of the model's patterns becomes that step's result, and a
      model with no matching file is fatal (after the LLM's result may
      already have been set). */
  function ResolveFromDisk(cfg: Config, files: seq<ModelFile>, results: seq<Option<StepValue>>): (r: Recovery)
    requires |results| == StepCount
    ensures |r.results| == StepCount
    ensures !cfg.skipDownload ==> r == Recovery(results, None)
    ensures forall j :: 0 <= j < StepCount && j != LlmSlot && j != EmbSlot ==> r.results[j] == results[j]
    ensures cfg.skipDownload ==>
      match FirstMatching(files, cfg.llm.candidatePatterns)
      case None => r == Recovery(results, Some(NoMatchingModel(cfg.llm.repo)))
      case Some(i) =>
        && r.results[LlmSlot] == Some(Model(ResolvedModel(cfg.llm, files[i].name, files[i].sha256, files[i].size)))
        && match FirstMatching(files, cfg.emb.candidatePatterns)
           case None => r.failure == Some(NoMatchingModel(cfg.emb.repo)) && r.results[EmbSlot] == results[EmbSlot]
           case Some(k) =>
             && r.failure.None?
             && r.results[EmbSlot] == Some(Model(ResolvedModel(cfg.emb, files[k].name, files[k].sha256, files[k].size)))
  {
    if !cfg.skipDownload then Recovery(results, None)
    else match FirstMatching(files, cfg.llm.candidatePatterns)
      case None => Recovery(results, Some(NoMatchingModel(cfg.llm.repo)))
      case Some(i) =>
        var f := files[i];
        var withLlm := results[LlmSlot := Some(Model(ResolvedModel(cfg.llm, f.name, f.sha256, f.size)))];
        match FirstMatching(files, cfg.emb.candidatePatterns)
        case None => Recovery(withLlm, Some(NoMatchingModel(cfg.emb.repo)))
        case Some(k) =>
          var g := files[k];
          Recovery(withLlm[EmbSlot := Some(Model(ResolvedModel(cfg.emb, g.name, g.sha256, g.size)))], None)
  }

  // ---------------------------------------------------------------------
  // run_deploy
  // ---------------------------------------------------------------------

  /** The context the try block ends in and how it ended. */
  datatype Attempt<W> = Attempt(ctx: Ctx<World<W>, StepValue>, outcome: Result<(), Failure>)

  /** Nothing run yet: an empty result table and no progress. */
  function Start<W>(init: World<W>): (a: Attempt<W>)
    ensures a.ctx.state == init && |a.ctx.results| == StepCount && a.ctx.progress == 0 && a.outcome.Ok?
    ensures forall j :: 0 <= j < StepCount ==> a.ctx.results[j].None?
  {
    Attempt(Ctx(init, seq(StepCount, _ => None), 0), Ok(()))
  }

  /** One `run_steps` call of the try block, reached only if nothing has
      failed yet; a failure is carried on untouched. */
  function Continue<W>(steps: seq<DeployStep<W>>, a: Attempt<W>): (b: Attempt<W>)
    requires Fits(steps, |a.ctx.results|)
    ensures |b.ctx.results| == |a.ctx.results|
    ensures a.outcome.Err? ==> b == a
    ensures a.outcome.Ok? && b.outcome.Ok? ==> b.ctx.progress == a.ctx.progress + |steps|
    ensures a.outcome.Ok? && b.outcome.Err? ==> b.ctx.progress < a.ctx.progress + |steps|
  {
    if a.outcome.Err? then a
    else match RunSteps(steps, a.ctx)
      case Completed(c) => Attempt(c, Ok(()))
      case Aborted(c, e, _) => Attempt(c, Err(e))
  }

  /** `_resolve_from_disk` between the system and the model steps, against
      the files present once the system steps are done; it reports no
      progress. */
  function Recover<W>(cfg: Config, col: Collaborators<W>, a: Attempt<W>): (b: Attempt<W>)
    requires |a.ctx.results| == StepCount
    ensures |b.ctx.results| == StepCount
    ensures b.ctx.state == a.ctx.state && b.ctx.progress == a.ctx.progress
    ensures a.outcome.Err? ==> b == a
    ensures forall j :: 0 <= j < StepCount && j != LlmSlot && j != EmbSlot ==> b.ctx.results[j] == a.ctx.results[j]
    ensures a.outcome.Ok? ==>
      var rec := ResolveFromDisk(cfg, col.listModels(a.ctx.state.host), a.ctx.results);
      b.ctx.results == rec.results && (b.outcome.Ok? <==> rec.failure.None?)
  {
    if a.outcome.Err? then a
    else
      var rec := ResolveFromDisk(cfg, col.listModels(a.ctx.state.host), a.ctx.results);
      Attempt(a.ctx.(results := rec.results), if rec.failure.Some? then Err(rec.failure.value) else Ok(()))
  }

  /** The try block of `run_deploy` up to the service steps: the system
      steps, the disk recovery and the model steps. */
  function BeforeServices<W>(cfg: Config, col: Collaborators<W>, init: World<W>): (a: Attempt<W>)
    ensures |a.ctx.results| == StepCount
    ensures a.outcome.Ok? ==> a.ctx.progress == 8
    ensures a.outcome.Err? ==> a.ctx.progress < 8
  {
    var a1 := Continue(SystemSteps(cfg, col), Start(init));
    Continue(ModelSteps(cfg, col), Recover(cfg, col, a1))
  }

  /** The try block of `run_deploy`: the system steps, the disk recovery,
      the model steps and the service steps, all on one progress bar,
      stopping at the first failure. */
  function Pipeline<W>(cfg: Config, col: Collaborators<W>, init: World<W>): (a: Attempt<W>)
    ensures |a.ctx.results| == StepCount
    ensures a.outcome.Ok? ==> a.ctx.progress == StepCount
    ensures a.outcome.Err? ==> a.ctx.progress < StepCount
  {
    Continue(ServiceSteps(cfg, col), BeforeServices(cfg, col, init))
  }

  /** What `run_deploy` leaves behind: the machine, the result table, the
      progress, the outcome it returns or raises, and the warning a failed
      cleanup printed. */
  datatype DeployResult<W> = DeployResult(
    world: World<W>,
    results: seq<Option<StepValue>>,
    progress: nat,
    outcome: Result<(), Failure>,
    warning: Option<TokenError>)

  /** The token step produced token material with a temporary id. */
  predicate HasTemporaryToken(v: Option<StepValue>) {
    v.Some? && v.value.Runtime? && v.value.runtime.temporaryId.Some? && v.value.runtime.temporaryId.value != []
  }

  /** The finally block: when the token step produced a temporary id, that
      token is revoked through a store opened in the configured mode; a
      failing revoke becomes a warning; the outcome of the try block is
      returned or re-raised unchanged either way. */
  function Cleanup<W>(a: Attempt<W>, mode: AuthMode, clock: string): (r: DeployResult<W>)
    requires |a.ctx.results| == StepCount
    ensures r.outcome == a.outcome
    ensures r.results == a.ctx.results && r.progress == a.ctx.progress && r.world.host == a.ctx.state.host
    ensures !HasTemporaryToken(a.ctx.results[TokenSlot]) ==> r.world == a.ctx.state && r.warning.None?
    ensures HasTemporaryToken(a.ctx.results[TokenSlot]) ==>
      var revoke := RevokeToken(a.ctx.state.store.(mode := mode), a.ctx.results[TokenSlot].value.runtime.temporaryId.value, clock);
      && (revoke.result.Ok? ==> r.world.store == revoke.store && r.warning.None?)
      && (revoke.result.Err? ==> r.world.store == a.ctx.state.store && r.warning == Some(revoke.result.error))
  {
    var c := a.ctx;
    if HasTemporaryToken(c.results[TokenSlot]) then
      var id := c.results[TokenSlot].value.runtime.temporaryId.value;
      var revoke := RevokeToken(c.state.store.(mode := mode), id, clock);
      match revoke.result
      case Ok(_) => DeployResult(c.state.(store := revoke.store), c.results, c.progress, a.outcome, None)
      case Err(e) => DeployResult(c.state, c.results, c.progress, a.outcome, Some(e))
    else DeployResult(c.state, c.results, c.progress, a.outcome, None)
  }

  /** `run_deploy`: the try block, then the finally block. */
  function RunDeploy<W>(cfg: Config, col: Collaborators<W>, init: World<W>): (r: DeployResult<W>)
    ensures |r.results| == StepCount
    ensures r.outcome.Ok? <==> r.progress == StepCount
    ensures r.progress <= StepCount
    ensures !HasTemporaryToken(r.results[TokenSlot]) ==> r.warning.None?
  {
    Cleanup(Pipeline(cfg, col, init), cfg.authMode, col.clock)
  }

  /** A successful deployment reports exactly one progress unit per step
      of `all_steps`, however many were skipped; a failed one fewer. */
  lemma DeployProgress<W>(cfg: Config, col: Collaborators<W>, init: World<W>)
    ensures var r := RunDeploy(cfg, col, init);
            && (r.outcome.Ok? ==> r.progress == |AllSteps(cfg, col)| == StepCount)
            && (r.outcome.Err? ==> r.progress < StepCount)
  {
  }

  // ---------------------------------------------------------------------
  // Properties of a whole deployment
  // ---------------------------------------------------------------------

  /** A batch none of whose steps owns slot `j` leaves it as it was. */
  lemma ContinueKeepsSlot<W>(steps: seq<DeployStep<W>>, a: Attempt<W>, j: nat)
    requires Fits(steps, |a.ctx.results|) && j < |a.ctx.results|
    requires forall i :: 0 <= i < |steps| ==> steps[i].slot != j
    ensures Continue(steps, a).ctx.results[j] == a.ctx.results[j]
  {
  }

  /** A batch of steps that keep the token store keeps it. */
  lemma ContinueKeepsStore<W>(steps: seq<DeployStep<W>>, a: Attempt<W>)
    requires Fits(steps, |a.ctx.results|)
    requires forall i, w, t :: 0 <= i < |steps| ==> KeepsStoreAt(steps[i], w, t)
    ensures Continue(steps, a).ctx.state.store == a.ctx.state.store
  {
    if a.outcome.Ok? {
      var st := a.ctx.state.store;
      forall i, w: World<W>, t | 0 <= i < |steps| && w.store == st && steps[i].action(w, t).Ok?
        ensures steps[i].action(w, t).value.0.store == st
      {
        assert KeepsStoreAt(steps[i], w, t);
      }
      StateInvariantKept(steps, a.ctx, (w: World<W>) => w.store == st);
    }
  }

  /** A slot whose steps are always skipped keeps its value. */
  lemma ContinueSkipsSlot<W>(steps: seq<DeployStep<W>>, a: Attempt<W>, j: nat)
    requires Fits(steps, |a.ctx.results|) && j < |a.ctx.results|
    requires forall i :: 0 <= i < |steps| && steps[i].slot == j ==>
               steps[i].skipIf.Some? && forall s, t :: steps[i].skipIf.value(s, t)
    ensures Continue(steps, a).ctx.results[j] == a.ctx.results[j]
  {
    if a.outcome.Ok? {
      AlwaysSkippedSlotKept(steps, a.ctx, j);
    }
  }

  /** A step that is never skipped has its result set once its batch has
      succeeded. */
  lemma ContinueWritesSlot<W>(steps: seq<DeployStep<W>>, a: Attempt<W>, k: nat)
    requires Fits(steps, |a.ctx.results|) && k < |steps|
    requires steps[k].skipIf.None? || forall s, t :: !steps[k].skipIf.value(s, t)
    requires Continue(steps, a).outcome.Ok?
    ensures Continue(steps, a).ctx.results[steps[k].slot].Some?
  {
    if a.outcome.Ok? {
      NeverSkippedSlotWritten(steps, a.ctx, k);
    }
  }

  /** The system steps own slots 0 to 5 only. */
  lemma SystemPhaseKeepsSlot<W>(cfg: Config, col: Collaborators<W>, a: Attempt<W>, j: nat)
    requires |a.ctx.results| == StepCount && TokenSlot < j < StepCount
    ensures Continue(SystemSteps(cfg, col), a).ctx.results[j] == a.ctx.results[j]
  {
    ContinueKeepsSlot(SystemSteps(cfg, col), a, j);
  }

  /** The model steps own the two model slots only, and leave the token
      store as it was. */
  lemma ModelPhaseKeeps<W>(cfg: Config, col: Collaborators<W>, a: Attempt<W>, j: nat)
    requires |a.ctx.results| == StepCount && j < StepCount && j != LlmSlot && j != EmbSlot
    ensures var b := Continue(ModelSteps(cfg, col), a);
            b.ctx.results[j] == a.ctx.results[j] && b.ctx.state.store == a.ctx.state.store
  {
    ModelStepsKeepStore(cfg, col);
    ContinueKeepsStore(ModelSteps(cfg, col), a);
    ContinueKeepsSlot(ModelSteps(cfg, col), a, j);
  }

  /** The service steps own slots 8 to 15 only, and leave the token store
      as it was. */
  lemma ServicePhaseKeeps<W>(cfg: Config, col: Collaborators<W>, a: Attempt<W>, j: nat)
    requires |a.ctx.results| == StepCount && j < 8
    ensures var b := Continue(ServiceSteps(cfg, col), a);
            b.ctx.results[j] == a.ctx.results[j] && b.ctx.state.store == a.ctx.state.store
  {
    ServiceStepsKeepStore(cfg, col);
    ContinueKeepsStore(ServiceSteps(cfg, col), a);
    ContinueKeepsSlot(ServiceSteps(cfg, col), a, j);
  }

  /** Within the service steps, a step with a constant skip predicate
      whose slot was empty has a result only when it is not skipped, and
      after a successful batch exactly then. */
  lemma ServicePhaseSlot<W>(cfg: Config, col: Collaborators<W>, a: Attempt<W>, k: nat, skip: bool)
    requires (k == 3 && skip == LocalProxySkipped(cfg)) || (k == 4 && skip == TlsSkipped(cfg))
    requires |a.ctx.results| == StepCount && a.ctx.results[8 + k].None?
    ensures var b := Continue(ServiceSteps(cfg, col), a);
            && (b.ctx.results[8 + k].Some? ==> !skip)
            && (b.outcome.Ok? ==> (b.ctx.results[8 + k].Some? <==> !skip))
  {
    var svc := ServiceSteps(cfg, col);
    ServiceStepShape(cfg, col, k, skip);
    if skip {
      ContinueSkipsSlot(svc, a, 8 + k);
    } else if Continue(svc, a).outcome.Ok? {
      ContinueWritesSlot(svc, a, k);
    }
  }

  /** Neither proxy step's slot is written before the service steps. */
  lemma ProxySlotsEmptyBeforeServices<W>(cfg: Config, col: Collaborators<W>, init: World<W>)
    ensures BeforeServices(cfg, col, init).ctx.results[LocalProxySlot].None?
    ensures BeforeServices(cfg, col, init).ctx.results[TlsSlot].None?
  {
    var a0 := Start(init);
    var ar := Recover(cfg, col, Continue(SystemSteps(cfg, col), a0));
    SystemPhaseKeepsSlot(cfg, col, a0, LocalProxySlot);
    SystemPhaseKeepsSlot(cfg, col, a0, TlsSlot);
    ModelPhaseKeeps(cfg, col, ar, LocalProxySlot);
    ModelPhaseKeeps(cfg, col, ar, TlsSlot);
  }


  /** Within the service steps, the step at position `k` is the only one
      owning its slot, and its skip predicate is the constant `skip`. */
  lemma ServiceStepShape<W>(cfg: Config, col: Collaborators<W>, k: nat, skip: bool)
    requires (k == 3 && skip == LocalProxySkipped(cfg)) || (k == 4 && skip == TlsSkipped(cfg))
    ensures var svc := ServiceSteps(cfg, col);
            && k < |svc|
            && (forall i :: 0 <= i < |svc| && svc[i].slot == svc[k].slot ==> i == k)
            && svc[k].skipIf.Some?
            && (forall s, t :: svc[k].skipIf.value(s, t) == skip)
  {
  }

  /** A service step with a constant skip predicate: its result exists only
      when it is not skipped, and after a successful try block exactly
      then. */
  lemma ServiceStepRunsIffNotSkipped<W>(cfg: Config, col: Collaborators<W>, init: World<W>, k: nat, skip: bool)
    requires (k == 3 && skip == LocalProxySkipped(cfg)) || (k == 4 && skip == TlsSkipped(cfg))
    ensures var a := Pipeline(cfg, col, init);
            var j := 8 + k;
            && (a.ctx.results[j].Some? ==> !skip)
            && (a.outcome.Ok? ==> (a.ctx.results[j].Some? <==> !skip))
  {
    ProxySlotsEmptyBeforeServices(cfg, col, init);
    ServicePhaseSlot(cfg, col, BeforeServices(cfg, col, init), k, skip);
  }


  /** The local auth proxy's result exists only in hashed mode without
      TLS, and after a successful try block exactly then. */
  lemma LocalProxyRunsOnlyForHashedPlainHttp<W>(cfg: Config, col: Collaborators<W>, init: World<W>)
    ensures var a := Pipeline(cfg, col, init);
            && (a.ctx.results[LocalProxySlot].Some? ==> cfg.authMode == Hashed && !cfg.useTls)
            && (a.outcome.Ok? ==> (a.ctx.results[LocalProxySlot].Some? <==> cfg.authMode == Hashed && !cfg.useTls))
  {
    ServiceStepRunsIffNotSkipped(cfg, col, init, 3, LocalProxySkipped(cfg));
  }

  /** The TLS step's result exists only with TLS, and after a successful
      try block exactly then. */
  lemma TlsRunsOnlyWithTls<W>(cfg: Config, col: Collaborators<W>, init: World<W>)
    ensures var a := Pipeline(cfg, col, init);
            && (a.ctx.results[TlsSlot].Some? ==> cfg.useTls)
            && (a.outcome.Ok? ==> (a.ctx.results[TlsSlot].Some? <==> cfg.useTls))
  {
    ServiceStepRunsIffNotSkipped(cfg, col, init, 4, TlsSkipped(cfg));
  }

  /** The local auth proxy and the TLS proxy never both run in one
      deployment. */
  lemma ProxyAndTlsNeverBothRun<W>(cfg: Config, col: Collaborators<W>, init: World<W>)
    ensures var r := RunDeploy(cfg, col, init);
            !(r.results[LocalProxySlot].Some? && r.results[TlsSlot].Some?)
  {
    LocalProxyRunsOnlyForHashedPlainHttp(cfg, col, init);
    TlsRunsOnlyWithTls(cfg, col, init);
  }

  /** The model result carries the model's spec and names a file that
      matches one of its patterns: it was recovered from disk. */
  ghost predicate FoundOnDisk(v: Option<StepValue>, spec: ModelSpec) {
    && v.Some? && v.value.Model? && v.value.model.spec == spec
    && NameMatches(ModelFile(v.value.model.filename, v.value.model.sha256, v.value.model.size),
                   spec.candidatePatterns)
  }

  /** Under `--skip-download`, a recovery that succeeds has set both model
      results from files on disk. */
  lemma RecoverFindsFiles<W>(cfg: Config, col: Collaborators<W>, a: Attempt<W>)
    requires |a.ctx.results| == StepCount
    ensures var b := Recover(cfg, col, a);
            b.outcome.Ok? && cfg.skipDownload ==>
              FoundOnDisk(b.ctx.results[LlmSlot], cfg.llm) && FoundOnDisk(b.ctx.results[EmbSlot], cfg.emb)
  {
    var b := Recover(cfg, col, a);
    if b.outcome.Ok? && cfg.skipDownload {
      var files := col.listModels(a.ctx.state.host);
      var i := FirstMatching(files, cfg.llm.candidatePatterns).value;
      var k := FirstMatching(files, cfg.emb.candidatePatterns).value;
      assert files[i] == ModelFile(files[i].name, files[i].sha256, files[i].size);
      assert files[k] == ModelFile(files[k].name, files[k].sha256, files[k].size);
    }
  }

  /** The model steps leave both model results alone under
      `--skip-download`, and set both otherwise once they succeed. */
  lemma ModelPhaseResults<W>(cfg: Config, col: Collaborators<W>, a: Attempt<W>)
    requires |a.ctx.results| == StepCount
    ensures var b := Continue(ModelSteps(cfg, col), a);
            && (cfg.skipDownload ==>
                  b.ctx.results[LlmSlot] == a.ctx.results[LlmSlot] && b.ctx.results[EmbSlot] == a.ctx.results[EmbSlot])
            && (b.outcome.Ok? && !cfg.skipDownload ==>
                  b.ctx.results[LlmSlot].Some? && b.ctx.results[EmbSlot].Some?)
  {
    var mods := ModelSteps(cfg, col);
    assert mods[0].skipIf == SkipWhen(DownloadSkipped(cfg)) && mods[1].skipIf == SkipWhen(DownloadSkipped(cfg));
    if cfg.skipDownload {
      ContinueSkipsSlot(mods, a, LlmSlot);
      ContinueSkipsSlot(mods, a, EmbSlot);
    } else if Continue(mods, a).outcome.Ok? {
      ContinueWritesSlot(mods, a, 0);
      ContinueWritesSlot(mods, a, 1);
    }
  }

  /** When the service steps start, the configuration step finds both
      model results set: downloaded by the model steps, or, under
      `--skip-download`, recovered from disk and left alone by the skipped
      model steps. */
  lemma ModelResultsReadyForConfiguration<W>(cfg: Config, col: Collaborators<W>, init: World<W>)
    ensures var a := BeforeServices(cfg, col, init);
            a.outcome.Ok? ==>
              && a.ctx.results[LlmSlot].Some? && a.ctx.results[EmbSlot].Some?
              && (cfg.skipDownload ==>
                    FoundOnDisk(a.ctx.results[LlmSlot], cfg.llm) && FoundOnDisk(a.ctx.results[EmbSlot], cfg.emb))
  {
    var a1 := Continue(SystemSteps(cfg, col), Start(init));
    RecoverFindsFiles(cfg, col, a1);
    ModelPhaseResults(cfg, col, Recover(cfg, col, a1));
  }

  /** The model results the configuration step used are still there when
      the deployment succeeds. */
  lemma ModelResultsSurvive<W>(cfg: Config, col: Collaborators<W>, init: World<W>)
    ensures var r := RunDeploy(cfg, col, init);
            r.outcome.Ok? ==>
              && r.results[LlmSlot].Some? && r.results[EmbSlot].Some?
              && (cfg.skipDownload ==> FoundOnDisk(r.results[LlmSlot], cfg.llm) && FoundOnDisk(r.results[EmbSlot], cfg.emb))
  {
    var a2 := BeforeServices(cfg, col, init);
    ModelResultsReadyForConfiguration(cfg, col, init);
    ServicePhaseKeeps(cfg, col, a2, LlmSlot);
    ServicePhaseKeeps(cfg, col, a2, EmbSlot);
  }


  /** After the system steps, either the token step did not complete and
      the store and the token slot are untouched, or it did and they hold
      what `_ensure_first_token` returned. */
  lemma SystemStepsTokenEffect<W>(cfg: Config, col: Collaborators<W>, init: World<W>)
    ensures var a1 := Continue(SystemSteps(cfg, col), Start(init));
            var e := EnsureFirstToken(init.store.(mode := cfg.authMode), cfg.apiTokenName, cfg.apiToken, col.entropy, col.sha256);
            || (a1.ctx.results[TokenSlot].None? && a1.ctx.state.store == init.store)
            || (e.result.Ok? && a1.ctx.results[TokenSlot] == Some(Runtime(e.result.value)) && a1.ctx.state.store == e.store)
  {
    var a0 := Start(init);
    var prep := Preparation(cfg, col);
    var tok := TokenStep(cfg, col);
    RunAppend(prep, [tok], a0.ctx);
    PreparationKeepsStore(cfg, col);
    ContinueKeepsStore(prep, a0);
    ContinueKeepsSlot(prep, a0, TokenSlot);
    assert [tok][1..] == [];
  }

  /** The download, configuration, startup and validation steps leave the
      token store and the token slot as the system steps left them. */
  lemma LaterPhasesKeepToken<W>(cfg: Config, col: Collaborators<W>, init: World<W>)
    ensures var a1 := Continue(SystemSteps(cfg, col), Start(init));
            var a := Pipeline(cfg, col, init);
            a.ctx.results[TokenSlot] == a1.ctx.results[TokenSlot] && a.ctx.state.store == a1.ctx.state.store
  {
    var a1 := Continue(SystemSteps(cfg, col), Start(init));
    var ar := Recover(cfg, col, a1);
    ModelPhaseKeeps(cfg, col, ar, TokenSlot);
    ServicePhaseKeeps(cfg, col, Continue(ModelSteps(cfg, col), ar), TokenSlot);
  }


  /** A temporary validation token does not outlive the deployment: if the
      token step created one, the finally block revokes it without a
      warning, whether the deployment succeeded or failed, and the active
      tokens are those the store had before. The fresh id must not collide
      with an existing one. */
  lemma TemporaryTokenIsRevoked<W>(cfg: Config, col: Collaborators<W>, init: World<W>)
    requires forall i :: 0 <= i < |init.store.records| ==> init.store.records[i].id != "tk_" + col.entropy.hex
    ensures var r := RunDeploy(cfg, col, init);
            HasTemporaryToken(r.results[TokenSlot]) ==>
              && r.warning.None?
              && |r.world.store.records| == |init.store.records| + 1
              && ActiveTokens(r.world.store.records) == ActiveTokens(init.store.records)
  {
    SystemStepsTokenEffect(cfg, col, init);
    LaterPhasesKeepToken(cfg, col, init);
    var a := Pipeline(cfg, col, init);
    if HasTemporaryToken(a.ctx.results[TokenSlot]) {
      TemporaryTokenRevocable(init.store.(mode := cfg.authMode), cfg.apiTokenName, cfg.apiToken, col.entropy, col.sha256, col.clock);
    }
  }
}
