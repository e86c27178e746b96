# llama_deploy token store, deploy pipeline and log redaction in Dafny

This project models three sequential, deterministic pieces of `llama_deploy`, a tool that deploys a
llama.cpp server:

- **The API token store** (`llama_deploy/tokens.py`, module `Tokens`).
  - The store is an append-only list of token records, kept in plaintext mode or hashed mode.
  - `create_token` and `revoke_token` are its only mutations.
  - `active_tokens`, `list_tokens` and `show_token` are its read views.
  - After every mutation the current mode's derived artifact is rebuilt from the list. In plaintext
    mode that is the `api_keys` keyfile; in hashed mode it is the hash list of `token_hashes.json`.
  - A record converts to and from its JSON dict form.
- **The step runner and the deployment skeleton** (`llama_deploy/orchestrator.py`, modules `Runner`
  and `Deploy`).
  - `Step` and `run_steps` form a fail-fast fold with skip predicates and a progress counter.
  - `TokenRuntime` and `_ensure_first_token` make a three-way decision over the token store.
  - `run_deploy` is modelled as its control skeleton: the sixteen steps of `all_steps` in four phases,
    their skip predicates, the `--skip-download` recovery `_resolve_from_disk`, and the `finally`
    block that revokes a temporary validation token.
- **Log redaction** (`llama_deploy/log.py`, module `Redact`).
  - `REDACT_PATTERNS` holds four regular expressions, and `redact` applies them one after the other.
  - Each pattern's regex is modelled twice: as a declarative matching relation, and as a hand-written
    left-to-right scanner. The two are proved to agree.
  - `re.sub` with the replacement `\1<REDACTED>` is modelled as a scan that keeps the first group and
    masks the secret that follows it.

Two support modules sit underneath. `Wrappers` defines `Option` and `Result`. `Text` models Python's
`str.isspace`, `strip`, `join`, `split` and substring containment.

How the effects are represented:

- Each mutation of the store (`create_token`, `revoke_token`) returns a `Reply`: the store after the
  call, plus the value returned or the error raised. So "an error leaves the store as it was" is stated
  as an ordinary postcondition. The read views return a record list, or a `Result` for `show_token`.
- SHA-256 is a function parameter.
- `secrets.token_hex(6)`, `secrets.token_urlsafe(48)` and the UTC clock are one `Entropy` input per
  creation, and one clock reading per revocation.
- An external step is a collaborator looked up by the step's label. It acts on an abstract host state
  `W`, and the token store sits next to that state.
- A Python step closes over an earlier `Step` object and reads its `result`. In the model, each step
  owns a slot of an explicit result table instead.

Three behaviours of the code are easy to misread, and the model follows the code in each:

- `create_token` raises "Token value must not be empty." (`tokens.py:141`) only for a value that is
  non-empty but blank. An explicit value of `""` never reaches that check: `value or ...`
  (`tokens.py:139`) replaces it with a generated `"sk-"` secret.
- Token ids are not checked for uniqueness. `show_token` and `revoke_token` act on the first record
  with the id.
- `_ensure_first_token` and the `finally` block each open the store in the configured auth mode. The
  model re-reads the mode from the configuration at both points.

## Model

| member | source | states |
|---|---|---|
| Tokens.FromDict | llama_deploy/tokens.py:54-64 | "id", "name" and "created_at" are required. A dict without "id" reports that key as missing. A read record carries exactly the three required strings. A missing "revoked" reads as false, and a missing "revoked_at", "value" or "hash" as None. |
| Tokens.ToDict | llama_deploy/tokens.py:66-67 | The dict has exactly the seven field names, and `_from_dict` reads the same record back from it. |
| Tokens.Status | llama_deploy/tokens.py:69-71 | The status is "REVOKED" exactly for a revoked record and "active" exactly for one that is not. |
| Tokens.DictRoundTrip | llama_deploy/tokens.py:54-67 | `_from_dict(_to_dict(r)) == r` for every record. |
| Tokens.DictDefaults | llama_deploy/tokens.py:54-64 | A dict holding only the three required keys reads as an active record with no timestamp, value or hash. |
| Tokens.Save | llama_deploy/tokens.py:195-197 | The "tokens" array has one dict per record, in list order, each the record's dict form. |
| Tokens.Load | llama_deploy/tokens.py:189-193 | Loading succeeds exactly when every dict reads as a record. The records are then those readings, in the same order and number. |
| Tokens.LoadSave | llama_deploy/tokens.py:189-199 | Loading the saved "tokens" array gives back the same records in the same order. |
| Tokens.ActiveTokens | llama_deploy/tokens.py:105-107 | The active view is never longer than the record list and holds no revoked record. |
| Tokens.ActiveMembers | llama_deploy/tokens.py:105-107 | `active_tokens` holds exactly the records that are not revoked. |
| Tokens.ActiveAppend | llama_deploy/tokens.py:105-107 | The active view keeps the list order: filtering distributes over concatenation. |
| Tokens.ShowToken | llama_deploy/tokens.py:109-122 | KeyError exactly when no record has the id. ValueError exactly when the store is hashed and the first record with the id holds no value. Otherwise the result is that first record, unchanged. |
| Tokens.LiveMembers | llama_deploy/tokens.py:210-228 | A derived artifact lists the non-empty value, or hash, of every non-revoked record, and nothing else. |
| Tokens.LiveOfActive | llama_deploy/tokens.py:210-228 | A derived artifact depends only on the active records. |
| Tokens.Sync | llama_deploy/tokens.py:201-208 | `_sync` rebuilds only the current mode's artifact, as a projection of the full list. The other mode's artifact, the records and the mode are kept. |
| Tokens.KeyfileText | llama_deploy/tokens.py:210-217 | As long as no value holds a newline, reading `api_keys` back line by line gives the live values in order, then the empty piece after the trailing newline. With no live value the file is a lone newline. |
| Tokens.HashList | llama_deploy/tokens.py:219-228 | The "hashes" array holds exactly the non-empty digests of the non-revoked records, and is never longer than the record list. |
| Text.StripEmptyIffBlank | llama_deploy/tokens.py:139-141 | `value.strip()` is empty exactly when the value consists only of whitespace. |
| Tokens.CreateToken | llama_deploy/tokens.py:128-166 | ValueError exactly for an explicit value that is non-empty but blank, and then the store is unchanged. On success: one record is appended and the earlier records are kept; the id is "tk_" plus the random hex; the secret is the explicit value, or "sk-" plus the random text; in hashed mode the persisted copy holds only the digest and the returned copy adds the plaintext; in plaintext mode the two copies are the same, with no hash; the artifacts are resynced. |
| Tokens.KeyfileListsNewSecret | llama_deploy/tokens.py:138-166 | In plaintext mode, a successful creation puts its secret on a line of `api_keys`, whether the secret is the explicit value or the generated "sk-" one, as long as no secret holds a newline. |
| Tokens.RevokeToken | llama_deploy/tokens.py:168-183 | KeyError exactly when no record has the id. ValueError exactly when the first record with the id is already revoked. Both errors leave the store unchanged. On success, only that first record changes: it becomes revoked and is stamped with the clock. Length and order are kept and the artifacts are resynced. |
| Tokens.RevokeDropsToken | llama_deploy/tokens.py:168-183 | A successful revoke removes exactly that record from the active view and from both projections. The record's status becomes "REVOKED". |
| Tokens.HashedNeverPersistsPlaintext | llama_deploy/tokens.py:144-155 | A hashed store without plaintext never acquires any, whatever sequence of creations and revocations follows. Every saved dict has a null "value". |
| Tokens.HistoryIsAppendOnly | llama_deploy/tokens.py:128-183 | Over any sequence of calls, the mode is kept and no record is removed or reordered. A record changes only by the one-way transition from active to revoked. |
| Runner.RunStep | llama_deploy/orchestrator.py:149-164 | A step whose skip predicate holds in the current context costs one progress unit and changes nothing else. Otherwise the action's value lands in the step's slot with one progress unit, or the action's failure propagates. |
| Runner.RunSteps | llama_deploy/orchestrator.py:146-164 | A completed run advances progress by exactly the number of steps, skipped ones included. An aborted run stops before the end, with one unit per step before the failure. Set results stay set, and slots owned by no step are untouched. |
| Runner.RunAppend | llama_deploy/orchestrator.py:146-164 | Running `a + b` equals running `a` and then, only if it completed, running `b` from where `a` stopped. |
| Runner.FailFastIgnoresLaterSteps | llama_deploy/orchestrator.py:146-164 | Once a run aborts, later steps change nothing: no later predicate or action is evaluated. |
| Runner.RunOneMore | llama_deploy/orchestrator.py:149-150 | Steps are visited in list order. Each skip predicate is evaluated afresh on the context the earlier steps produced. |
| Runner.AbortedAtFailingStep | llama_deploy/orchestrator.py:159 | An aborted run stops at a step that was not skipped and whose action raised the reported failure. Its context is the one the earlier steps completed with. |
| Runner.AlwaysSkippedSlotKept | llama_deploy/orchestrator.py:150-154 | A slot whose steps are always skipped keeps its value. |
| Runner.NeverSkippedSlotWritten | llama_deploy/orchestrator.py:159 | After a completed run, a step that is never skipped has its result set. |
| Runner.StateInvariantKept | llama_deploy/orchestrator.py:146-164 | A state property that every action preserves holds wherever the run stops. |
| Deploy.EnsureFirstToken | llama_deploy/orchestrator.py:171-195 | No active token: the first token is created from the configured name and value, with no temporary id, and its errors propagate. The first active token has a value: that value is returned and the store is unchanged. Otherwise: one "__deploy-smoke-test" token is appended and its fresh secret and id are returned. |
| Deploy.BootstrapIdempotentInPlaintextMode | llama_deploy/orchestrator.py:183-195 | After the first token is created in plaintext mode, a second call returns the same value, creates nothing and ignores its randomness. |
| Deploy.HashedRedeployUsesTemporaryToken | llama_deploy/orchestrator.py:183-190 | A redeploy over a hashed store with an active token creates a temporary token, and the store still holds no plaintext. |
| Deploy.ExplicitBootstrapValue | llama_deploy/orchestrator.py:192-195 | A non-blank configured value on a fresh plaintext store is the token used, and it is the only active token. |
| Deploy.TemporaryTokenRevocable | llama_deploy/orchestrator.py:184-190 | When the first active token has no usable plaintext, a temporary token is created; revoking it succeeds and restores the store's previous active tokens. |
| Deploy.TokenStep | llama_deploy/orchestrator.py:255-258 | The token step owns the token slot and has no skip predicate. |
| Deploy.TokenStepEffect | llama_deploy/orchestrator.py:255-258 | The token step succeeds exactly when `_ensure_first_token` on the store reopened in the configured mode does. It then leaves the host alone, keeps the store that call left, in the configured mode, and records the token material. Otherwise it raises that call's error. |
| Deploy.SystemSteps | llama_deploy/orchestrator.py:260-271 | Phase 1 has six steps, the token step last, and step `i` owns slot `i` of the sixteen-slot table. |
| Deploy.SystemStepsShape | llama_deploy/orchestrator.py:260-271 | Only the firewall step of phase 1 has a skip predicate, and it skips exactly when UFW is not to be configured. |
| Deploy.ModelSteps | llama_deploy/orchestrator.py:276-285 | Phase 2 has the LLM and embedding steps, owning slots 6 and 7. Each is skipped exactly under `--skip-download`. |
| Deploy.ServiceSteps | llama_deploy/orchestrator.py:404-408 | Phases 3 and 4 have eight steps owning slots 8 to 15. Only the local proxy step and the TLS step have skip predicates, and those are the two proxy predicates. |
| Deploy.AllSteps | llama_deploy/orchestrator.py:410 | `all_steps` has sixteen steps, and each owns the result slot at its own position. |
| Deploy.ProxyPredicatesExclusive | llama_deploy/orchestrator.py:343-367 | The local proxy is not skipped exactly in hashed mode without TLS. The TLS step is not skipped exactly with TLS. At least one of the two is always skipped. |
| Deploy.FirstMatching | llama_deploy/orchestrator.py:295-305 | The chosen file is the first listed file whose name contains one of the patterns. None means no file matches. |
| Deploy.ResolveFromDisk | llama_deploy/orchestrator.py:287-310 | Without `--skip-download`, nothing changes. Otherwise the LLM result, then the embedding result, come from the first matching file, and a model with no match is fatal. The embedding failure leaves the LLM result set. No other slot changes. |
| Deploy.Recover | llama_deploy/orchestrator.py:418 | The disk recovery runs only if nothing has failed. It reports no progress and touches only the two model slots. |
| Deploy.Continue | llama_deploy/orchestrator.py:417-420 | A `run_steps` call after a failure is never reached. Otherwise it adds one progress unit per step on success, and fewer on failure. |
| Deploy.Pipeline | llama_deploy/orchestrator.py:415-420 | The try block reaches the bar total of sixteen exactly when it succeeds. |
| Deploy.DeployProgress | llama_deploy/orchestrator.py:410-420 | A successful deployment reports exactly `len(all_steps)` progress units; a failed one reports fewer. |
| Deploy.Cleanup | llama_deploy/orchestrator.py:426-441 | The finally block returns or re-raises the try block's outcome unchanged. It revokes only a temporary id that the token step produced. A failing revoke becomes a warning and leaves the store as it was. |
| Deploy.RunDeploy | llama_deploy/orchestrator.py:414-441 | A deployment fills the sixteen-slot table. It succeeds exactly when the bar reaches its total of sixteen, and the bar never goes past it. Without a temporary token, no cleanup warning is printed. |
| Deploy.LocalProxyRunsOnlyForHashedPlainHttp | llama_deploy/orchestrator.py:343-347 | The local proxy step produces a result only in hashed mode without TLS, and after a successful try block exactly then. |
| Deploy.TlsRunsOnlyWithTls | llama_deploy/orchestrator.py:364-368 | The TLS step produces a result only with TLS, and after a successful try block exactly then. |
| Deploy.ServiceStepRunsIffNotSkipped | llama_deploy/orchestrator.py:404-408 | A service step with a constant skip predicate has a result only when not skipped, and after success exactly then. |
| Deploy.ProxyAndTlsNeverBothRun | llama_deploy/orchestrator.py:343-368 | No deployment runs both the local auth proxy and the TLS proxy. |
| Deploy.ModelResultsReadyForConfiguration | llama_deploy/orchestrator.py:287-319 | When the service steps start, both model results are set. Under `--skip-download` they are the files recovered from disk, which the skipped model steps leave alone. |
| Deploy.ModelResultsSurvive | llama_deploy/orchestrator.py:415-420 | After a successful deployment the model results are still set, and still the recovered files under `--skip-download`. |
| Deploy.SystemStepsTokenEffect | llama_deploy/orchestrator.py:255-271 | After the system steps, either the token step did not complete and the store and the token slot are untouched, or they hold what `_ensure_first_token` returned. |
| Deploy.LaterPhasesKeepToken | llama_deploy/orchestrator.py:274-420 | The download, configuration, startup and validation steps leave the token store and the token result as the system steps left them. |
| Deploy.TemporaryTokenIsRevoked | llama_deploy/orchestrator.py:426-441 | A temporary token created by the token step is revoked without a warning, whether the deployment succeeded or failed. The active tokens afterwards are those the store had before. |
| Redact.SecretRun | llama_deploy/log.py:22-25 | The secret run is maximal: it stops at whitespace, and for the header patterns also at a quote. |
| Redact.BearerTailEndSpec | llama_deploy/log.py:22 | The scanner for `\s*Bearer\s+` ends at position `e` exactly when the prefix up to `e` matches it, ignoring case. |
| Redact.GroupEndSound | llama_deploy/log.py:21-26 | The scanned first group matches the pattern's group. |
| Redact.GroupEndComplete | llama_deploy/log.py:21-26 | A group match followed by a non-space character is the one the scanner finds. |
| Redact.GroupPrefixFree | llama_deploy/log.py:21-26 | A group match can be extended only by whitespace, so the greedy match is unique. |
| Redact.MatchAtSpec | llama_deploy/log.py:21-26 | The scanner reports the group end `j` and secret end `k` exactly when the regex matches there with those spans. |
| Redact.NoSecretNoMatch | llama_deploy/log.py:21-26 | A prefix not followed by any eligible secret character is not a match. |
| Redact.MatchAt | llama_deploy/log.py:21-26 | A reported match lies inside the text and has a non-empty secret after the group. The secret holds no character that ends a secret, and it runs as far as it can. |
| Redact.ScanWithoutMatch | llama_deploy/log.py:32 | A substitution scan with no match anywhere returns its input. |
| Redact.ScanCopiesPrefix | llama_deploy/log.py:32 | The scan copies characters verbatim up to the first match. |
| Redact.ScanAtFirstMatch | llama_deploy/log.py:32 | At the leftmost match, the scan keeps the group, writes the mask and resumes after the secret. |
| Redact.Sub | llama_deploy/log.py:32 | `pat.sub` leaves text unchanged when the pattern matches at no position. |
| Redact.SubAtFirstMatch | llama_deploy/log.py:32 | At the pattern's leftmost match, the text up to the group's end is kept verbatim, the secret becomes "<REDACTED>", and substitution goes on after the secret. |
| Redact.SubReplacesLeftmostMatch | llama_deploy/log.py:32 | The same statement in terms of the regex's own match spans. |
| Redact.SubKeepsTextWithoutMatch | llama_deploy/log.py:32 | Text where the regex matches nowhere is unchanged. |
| Redact.RedactInOrder | llama_deploy/log.py:29-33 | `redact` applies the Bearer, x-api-key, HF_TOKEN= and --hf-token substitutions in that order, each on the previous output. |
| Redact.Redact | llama_deploy/log.py:29-33 | A string containing none of the four keywords is returned unchanged. |

## Left out

- File I/O and file formats are not modelled: JSON text layout, `mkdir`, `chmod 0o600`, and reading
  files back. Records and artifacts are values.
- SHA-256, `secrets.token_hex`, `secrets.token_urlsafe` and the clock are foreign calls. They are
  parameters of the model.
- `restart_hint` is a constant message and is not modelled.
- Tokens.FromDict: Python never checks the JSON type of a field. The model reports a value of the
  wrong JSON type as an error instead of carrying it along.
- Tokens.ListTokens has no contract of its own. It returns the record list as it is.
- The bodies of the external steps are opaque collaborators keyed by the step's label. That covers
  package installation, Docker, swap, the firewall, `resolve_model`, configuration writing, image
  pull, compose, the nginx proxies, and the health, smoke and sanity checks. `health.py` is not part of
  this model.
- A step whose action raises is modelled as leaving the state as it was. Any partial effect it had on
  the host is not modelled.
- The `die` in `_resolve_from_disk` is modelled as a failure of the try block. Like the exception it
  is, it still runs the `finally` block.
- The progress bar, `tqdm.write` and `log_line` messages, elapsed times, `_ensure_tqdm`,
  `_print_summary`, `_is_new_token`, `require_root_reexec`, `detect_ubuntu`, the directory creation
  and the `START`/`END` log lines are UI, logging or environment checks. None is modelled.
- Redact.StartsWithFold: `re.IGNORECASE` is modelled as ASCII case folding. Python's Unicode folding
  also accepts a few non-ASCII characters for the keyword letters, for example KELVIN SIGN for `k`,
  and the model does not.
- Redact.Scan: a matcher that reports a span not lying inside the string is treated as no match. The
  four pattern scanners never report one (`MatchAt` ensures this), so `redact` is unaffected.
- Deploy.TemporaryTokenIsRevoked and Deploy.TemporaryTokenRevocable assume the fresh id
  "tk_" + hex is not already in the store. The code does not check this; with a collision,
  `revoke_token` would act on the older record.
- Everything else in `log.py` (`log_line`, `die`, `sh`) is I/O or process control.
