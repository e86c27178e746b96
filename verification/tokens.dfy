/** The API token store of `llama_deploy/tokens.py`.

    The store is an append-only list of token records (the content of
    `tokens.json`) kept in one of two modes. In plaintext mode a record
    carries the secret itself and the derived keyfile `api_keys` lists the
    secrets of the active records; in hashed mode a record carries only the
    SHA-256 digest of the secret and the derived `token_hashes.json` lists
    the digests of the active records. Both derived files are rebuilt in
    full from the record list after every mutation.

    SHA-256 is a function parameter, and the random id, the random secret and
    the clock reading a creation uses are an `Entropy` input. */
module Tokens {
  import opened Wrappers
  import Text

  datatype AuthMode = Plaintext | Hashed

  /** One API credential: `id` is "tk_" followed by 12 hex characters,
      `value` is the plaintext secret (plaintext mode) and `hash` its
      SHA-256 hex digest (hashed mode). */
  datatype TokenRecord = TokenRecord(
    id: string,
    name: string,
    createdAt: string,
    revoked: bool,
    revokedAt: Option<string>,
    value: Option<string>,
    hash: Option<string>)

  /** The status column of a token listing. */
  function Status(t: TokenRecord): (s: string)
    ensures s == "REVOKED" <==> t.revoked
    ensures s == "active" <==> !t.revoked
  {
    if t.revoked then "REVOKED" else "active"
  }

  /** Python truthiness of an optional string: present and non-empty. */
  predicate Truthy(o: Option<string>) {
    o.Some? && o.value != []
  }

  // ---------------------------------------------------------------------
  // The dict form of a record (one entry of the "tokens" array)
  // ---------------------------------------------------------------------

  /** The JSON values a record's dict can hold. */
  datatype Json = JNull | JBool(b: bool) | JStr(s: string)

  type Dict = map<string, Json>

  /** A dict that lacks a required key (Python's KeyError) or holds a value
      of the wrong JSON type. */
  datatype DictError = MissingKey(key: string) | WrongType(key: string)

  function OptionalJson(o: Option<string>): Json {
    match o
    case None => JNull
    case Some(s) => JStr(s)
  }

  /** `_to_dict`: every field under its snake_case name; `_from_dict`
      reads the record back from it. */
  function ToDict(t: TokenRecord): (d: Dict)
    ensures d.Keys == {"id", "name", "created_at", "revoked", "revoked_at", "value", "hash"}
    ensures FromDict(d) == Ok(t)
  {
    map[
      "id" := JStr(t.id),
      "name" := JStr(t.name),
      "created_at" := JStr(t.createdAt),
      "revoked" := JBool(t.revoked),
      "revoked_at" := OptionalJson(t.revokedAt),
      "value" := OptionalJson(t.value),
      "hash" := OptionalJson(t.hash)
    ]
  }

  /** `d[key]` for a string-valued key. */
  function RequiredString(d: Dict, key: string): Result<string, DictError> {
    if key !in d then Err(MissingKey(key))
    else match d[key]
      case JStr(s) => Ok(s)
      case _ => Err(WrongType(key))
  }

  /** `d.get(key)` for an optional string: a missing key and `null` both
      give None. */
  function OptionalString(d: Dict, key: string): Result<Option<string>, DictError> {
    if key !in d then Ok(None)
    else match d[key]
      case JNull => Ok(None)
      case JStr(s) => Ok(Some(s))
      case _ => Err(WrongType(key))
  }

  /** `d.get(key, default)` for a boolean. */
  function OptionalBool(d: Dict, key: string, default: bool): Result<bool, DictError> {
    if key !in d then Ok(default)
    else match d[key]
      case JBool(b) => Ok(b)
      case _ => Err(WrongType(key))
  }

  /** `_from_dict`: "id", "name" and "created_at" are required, in that
      order; "revoked" defaults to false and the optional fields to None. */
  function FromDict(d: Dict): (r: Result<TokenRecord, DictError>)
    ensures r.Ok? ==>
      && "id" in d && d["id"] == JStr(r.value.id)
      && "name" in d && d["name"] == JStr(r.value.name)
      && "created_at" in d && d["created_at"] == JStr(r.value.createdAt)
    ensures "id" !in d ==> r == Err(MissingKey("id"))
    ensures "id" in d && "name" !in d ==> r.Err?
    ensures "revoked" !in d && r.Ok? ==> !r.value.revoked
    ensures "value" !in d && r.Ok? ==> r.value.value.None?
    ensures "revoked_at" !in d && r.Ok? ==> r.value.revokedAt.None?
    ensures "hash" !in d && r.Ok? ==> r.value.hash.None?
  {
    var id :- RequiredString(d, "id");
    var name :- RequiredString(d, "name");
    var createdAt :- RequiredString(d, "created_at");
    var revoked :- OptionalBool(d, "revoked", false);
    var revokedAt :- OptionalString(d, "revoked_at");
    var value :- OptionalString(d, "value");
    var hash :- OptionalString(d, "hash");
    Ok(TokenRecord(id, name, createdAt, revoked, revokedAt, value, hash))
  }

  /** Every record survives the trip through its dict form. */
  lemma DictRoundTrip(t: TokenRecord)
    ensures FromDict(ToDict(t)) == Ok(t)
  {
  }

  /** A dict holding only the three required keys reads as an active
      record with no timestamp, secret or digest. */
  lemma DictDefaults(id: string, name: string, createdAt: string)
    ensures FromDict(map["id" := JStr(id), "name" := JStr(name), "created_at" := JStr(createdAt)])
         == Ok(TokenRecord(id, name, createdAt, false, None, None, None))
  {
  }

  /** The "tokens" array `_save` writes. */
  function Save(ts: seq<TokenRecord>): (ds: seq<Dict>)
    ensures |ds| == |ts|
    ensures forall i :: 0 <= i < |ts| ==> ds[i] == ToDict(ts[i])
    decreases |ts|
  {
    if |ts| == 0 then [] else [ToDict(ts[0])] + Save(ts[1..])
  }

  /** The record list `_load` reads back from a "tokens" array. */
  function Load(ds: seq<Dict>): (r: Result<seq<TokenRecord>, DictError>)
    ensures r.Ok? <==> forall i :: 0 <= i < |ds| ==> FromDict(ds[i]).Ok?
    ensures r.Ok? ==> |r.value| == |ds| && forall i :: 0 <= i < |ds| ==> r.value[i] == FromDict(ds[i]).value
    decreases |ds|
  {
    if |ds| == 0 then Ok([])
    else
      var t :- FromDict(ds[0]);
      var rest :- Load(ds[1..]);
      Ok([t] + rest)
  }

  /** Loading what was saved gives back the same list, in the same order. */
  lemma LoadSave(ts: seq<TokenRecord>)
    ensures Load(Save(ts)) == Ok(ts)
  {
    var ds := Save(ts);
    assert forall i :: 0 <= i < |ds| ==> FromDict(ds[i]) == Ok(ts[i]);
    assert Load(ds).value == ts;
  }

  // ---------------------------------------------------------------------
  // The store
  // ---------------------------------------------------------------------

  /** The secrets directory: the mode, the record list of `tokens.json`,
      and the two derived files (None while the file does not exist):
      `keyfile` is the text of `api_keys`, `hashfile` the "hashes" array of
      `token_hashes.json`. */
  datatype Store = Store(
    mode: AuthMode,
    records: seq<TokenRecord>,
    keyfile: Option<string>,
    hashfile: Option<seq<string>>)

  /** A secrets directory nothing has been written to. */
  function Fresh(mode: AuthMode): Store {
    Store(mode, [], None, None)
  }

  /** KeyError (NotFound), the two ValueErrors of `revoke_token` and
      `create_token`, and the ValueError of `show_token` in hashed mode. */
  datatype TokenError =
    | NotFound(id: string)
    | AlreadyRevoked(id: string)
    | EmptyValue
    | PlaintextUnavailable(id: string)

  /** The store after an operation together with what it returned or
      raised. */
  datatype Reply<T> = Reply(store: Store, result: Result<T, TokenError>)

  /** The outputs of `secrets.token_hex(6)`, `secrets.token_urlsafe(48)`
      and the UTC clock that one creation consumes. */
  datatype Entropy = Entropy(hex: string, urlsafe: string, now: string)

  /** `list_tokens`: every record, revoked ones included, in creation
      order. */
  function ListTokens(st: Store): seq<TokenRecord> {
    st.records
  }

  /** `active_tokens`: the records that are not revoked, in list order.
      The view is never longer than the list and holds no revoked record. */
  function ActiveTokens(ts: seq<TokenRecord>): (r: seq<TokenRecord>)
    ensures |r| <= |ts|
    ensures forall i :: 0 <= i < |r| ==> !r[i].revoked
    decreases |ts|
  {
    if |ts| == 0 then []
    else (if ts[0].revoked then [] else [ts[0]]) + ActiveTokens(ts[1..])
  }

  /** The active view holds exactly the records that are not revoked. */
  lemma {:induction false} ActiveMembers(ts: seq<TokenRecord>)
    ensures forall t :: t in ActiveTokens(ts) <==> t in ts && !t.revoked
    decreases |ts|
  {
    if |ts| > 0 {
      ActiveMembers(ts[1..]);
      assert ts == [ts[0]] + ts[1..];
    }
  }

  /** The filter keeps the list order: it distributes over concatenation. */
  lemma {:induction false} ActiveAppend(a: seq<TokenRecord>, b: seq<TokenRecord>)
    ensures ActiveTokens(a + b) == ActiveTokens(a) + ActiveTokens(b)
    decreases |a|
  {
    if |a| > 0 {
      assert (a + b)[1..] == a[1..] + b;
      ActiveAppend(a[1..], b);
    } else {
      assert a + b == b;
    }
  }

  /** `i` is the position of the first record with this id. */
  ghost predicate IsFirst(ts: seq<TokenRecord>, id: string, i: int) {
    0 <= i < |ts| && ts[i].id == id && forall j :: 0 <= j < i ==> ts[j].id != id
  }

  function FindFirst(ts: seq<TokenRecord>, id: string): (r: Option<nat>)
    ensures r.Some? ==> IsFirst(ts, id, r.value)
    ensures r.None? ==> forall j :: 0 <= j < |ts| ==> ts[j].id != id
    decreases |ts|
  {
    if |ts| == 0 then None
    else if ts[0].id == id then Some(0)
    else match FindFirst(ts[1..], id)
      case None => None
      case Some(i) => Some(i + 1)
  }

  /** `show_token`: the first record with the id; KeyError when there is
      none; ValueError when the store is hashed and that record holds no
      plaintext. */
  function ShowToken(st: Store, id: string): (r: Result<TokenRecord, TokenError>)
    ensures r == Err(NotFound(id)) <==> forall j :: 0 <= j < |st.records| ==> st.records[j].id != id
    ensures forall i :: IsFirst(st.records, id, i) ==>
      && (r == Err(PlaintextUnavailable(id)) <==> st.mode == Hashed && st.records[i].value.None?)
      && (r.Ok? ==> r.value == st.records[i])
    ensures r.Ok? || r == Err(NotFound(id)) || r == Err(PlaintextUnavailable(id))
  {
    match FindFirst(st.records, id)
    case None => Err(NotFound(id))
    case Some(i) =>
      if st.mode == Hashed && st.records[i].value.None? then Err(PlaintextUnavailable(id))
      else Ok(st.records[i])
  }

  // ---------------------------------------------------------------------
  // Derived artifacts
  // ---------------------------------------------------------------------

  /** Which field a derived artifact lists. */
  datatype Field = ValueField | HashField

  function Select(t: TokenRecord, f: Field): Option<string> {
    match f
    case ValueField => t.value
    case HashField => t.hash
  }

  /** The chosen field of every record that is not revoked and whose field
      is non-empty, in list order. */
  function Live(ts: seq<TokenRecord>, f: Field): seq<string>
    decreases |ts|
  {
    if |ts| == 0 then []
    else
      (if !ts[0].revoked && Truthy(Select(ts[0], f)) then [Select(ts[0], f).value] else [])
      + Live(ts[1..], f)
  }

  /** A derived artifact lists the non-empty field of every active record
      and nothing else. */
  lemma {:induction false} LiveMembers(ts: seq<TokenRecord>, f: Field)
    ensures |Live(ts, f)| <= |ts|
    ensures forall x :: x in Live(ts, f) ==> x != []
    ensures forall x :: x in Live(ts, f) <==> exists t :: t in ts && !t.revoked && Select(t, f) == Some(x) && x != []
    decreases |ts|
  {
    if |ts| > 0 {
      LiveMembers(ts[1..], f);
      assert ts == [ts[0]] + ts[1..];
      forall x | x in Live(ts[1..], f)
        ensures exists t :: t in ts && !t.revoked && Select(t, f) == Some(x) && x != []
      {
        var t :| t in ts[1..] && !t.revoked && Select(t, f) == Some(x) && x != [];
        assert t in ts;
      }
    }
  }

  lemma {:induction false} LiveAppend(a: seq<TokenRecord>, b: seq<TokenRecord>, f: Field)
    ensures Live(a + b, f) == Live(a, f) + Live(b, f)
    decreases |a|
  {
    if |a| > 0 {
      assert (a + b)[1..] == a[1..] + b;
      LiveAppend(a[1..], b, f);
    } else {
      assert a + b == b;
    }
  }

  /** The derived artifacts depend on the active records only. */
  lemma {:induction false} LiveOfActive(ts: seq<TokenRecord>, f: Field)
    ensures Live(ts, f) == Live(ActiveTokens(ts), f)
    decreases |ts|
  {
    if |ts| > 0 {
      LiveOfActive(ts[1..], f);
      var head := if ts[0].revoked then [] else [ts[0]];
      LiveAppend(head, ActiveTokens(ts[1..]), f);
      assert Live([], f) == [];
      if !ts[0].revoked {
        assert [ts[0]][1..] == [];
      }
    }
  }

  /** The text `_sync_keyfile` writes: the live plaintext values joined by
      newlines, with a trailing newline. As long as no value holds a
      newline, reading it back line by line gives the live values in order
      and then the empty piece after the final newline; with no live value
      it is a lone newline. */
  function KeyfileText(ts: seq<TokenRecord>): (r: string)
    ensures Live(ts, ValueField) == [] ==> r == "\n"
    ensures Live(ts, ValueField) != [] && (forall x :: x in Live(ts, ValueField) ==> '\n' !in x) ==>
              Text.Split(r, '\n') == Live(ts, ValueField) + [""]
  {
    var xs := Live(ts, ValueField);
    assert xs != [] && (forall x :: x in xs ==> '\n' !in x) ==>
             Text.Split(Text.Join(xs, '\n') + "\n", '\n') == xs + [""] by {
      if xs != [] && forall x :: x in xs ==> '\n' !in x {
        JoinSnocEmpty(xs, '\n');
        Text.SplitJoin(xs + [""], '\n');
      }
    }
    Text.Join(xs, '\n') + "\n"
  }

  /** The "hashes" array `_sync_hashfile` writes: the digest of every
      active record that has a non-empty one, and nothing else. */
  function HashList(ts: seq<TokenRecord>): (r: seq<string>)
    ensures |r| <= |ts|
    ensures forall h :: h in r <==> exists t :: t in ts && !t.revoked && t.hash == Some(h) && h != []
  {
    LiveMembers(ts, HashField);
    Live(ts, HashField)
  }

  /** The current mode's artifact is the projection of the record list. */
  ghost predicate Synced(st: Store) {
    && (st.mode == Hashed ==> st.hashfile == Some(HashList(st.records)))
    && (st.mode == Plaintext ==> st.keyfile == Some(KeyfileText(st.records)))
  }

  /** The artifact of the other mode is left as it was. */
  ghost predicate OtherArtifactKept(before: Store, after: Store) {
    && after.mode == before.mode
    && (before.mode == Hashed ==> after.keyfile == before.keyfile)
    && (before.mode == Plaintext ==> after.hashfile == before.hashfile)
  }

  /** `_sync`: rebuilds only the current mode's artifact, in full, from the
      record list. */
  function Sync(st: Store): (r: Store)
    ensures r.records == st.records
    ensures Synced(r)
    ensures OtherArtifactKept(st, r)
  {
    match st.mode
    case Hashed => st.(hashfile := Some(HashList(st.records)))
    case Plaintext => st.(keyfile := Some(KeyfileText(st.records)))
  }

  /** Joining with one more empty piece appends one separator. */
  lemma {:induction false} JoinSnocEmpty(xs: seq<string>, sep: char)
    requires |xs| > 0
    ensures Text.Join(xs, sep) + [sep] == Text.Join(xs + [""], sep)
    decreases |xs|
  {
    if |xs| > 1 {
      assert (xs + [""])[1..] == xs[1..] + [""];
      JoinSnocEmpty(xs[1..], sep);
    }
  }

  // ---------------------------------------------------------------------
  // Mutations
  // ---------------------------------------------------------------------

  /** `create_token`: an explicit non-empty value is the secret, `None` or
      "" fall back to a generated "sk-" secret, and an explicit value made
      only of whitespace is refused before anything is written. The new
      record goes at the end of the list; in hashed mode the persisted copy
      holds only the digest while the returned copy also carries the
      plaintext, in plaintext mode the two are the same record. */
  function CreateToken(st: Store, name: string, value: Option<string>, ent: Entropy,
                       sha256: string -> string): (r: Reply<TokenRecord>)
    ensures r.result.Err? <==> value.Some? && value.value != [] && Text.AllWhitespace(value.value)
    ensures r.result.Err? ==> r.store == st && r.result.error == EmptyValue
    ensures r.result.Ok? ==>
      var raw := if value.Some? && value.value != [] then value.value else "sk-" + ent.urlsafe;
      var shown := r.result.value;
      var n := |st.records|;
      && |r.store.records| == n + 1
      && r.store.records[..n] == st.records
      && shown.id == "tk_" + ent.hex
      && shown.name == name
      && shown.createdAt == ent.now
      && !shown.revoked && shown.revokedAt.None?
      && shown.value == Some(raw)
      && (st.mode == Hashed ==> shown.hash == Some(sha256(raw)) && r.store.records[n] == shown.(value := None))
      && (st.mode == Plaintext ==> shown.hash.None? && r.store.records[n] == shown)
      && Synced(r.store)
      && OtherArtifactKept(st, r.store)
  {
    var id := "tk_" + ent.hex;
    var raw := if value.Some? && value.value != [] then value.value else "sk-" + ent.urlsafe;
    Text.StripEmptyIffBlank(raw);
    assert !Text.IsWhitespace(('s' as char)) && ("sk-" + ent.urlsafe)[0] == 's';
    if Text.Strip(raw) == [] then
      Reply(st, Err(EmptyValue))
    else
      var stored :=
        if st.mode == Hashed then TokenRecord(id, name, ent.now, false, None, None, Some(sha256(raw)))
        else TokenRecord(id, name, ent.now, false, None, Some(raw), None);
      var shown := if st.mode == Hashed then stored.(value := Some(raw)) else stored;
      assert (st.records + [stored])[..|st.records|] == st.records;
      Reply(Sync(st.(records := st.records + [stored])), Ok(shown))
  }

  /** `revoke_token`: the first record with the id turns revoked, stamped
      with the clock reading; every other record, the length and the order
      stay as they were. KeyError when no record has the id, ValueError when
      that first record is already revoked; both leave the store as it
      was. */
  function RevokeToken(st: Store, id: string, now: string): (r: Reply<TokenRecord>)
    ensures r.result.Err? ==> r.store == st
    ensures r.result == Err(NotFound(id)) <==> forall j :: 0 <= j < |st.records| ==> st.records[j].id != id
    ensures forall i :: IsFirst(st.records, id, i) ==>
      && (r.result == Err(AlreadyRevoked(id)) <==> st.records[i].revoked)
      && (r.result.Ok? ==>
            && r.result.value == st.records[i].(revoked := true, revokedAt := Some(now))
            && r.store.records == st.records[i := r.result.value])
    ensures r.result.Ok? || r.result == Err(NotFound(id)) || r.result == Err(AlreadyRevoked(id))
    ensures r.result.Ok? ==> Synced(r.store) && OtherArtifactKept(st, r.store)
  {
    match FindFirst(st.records, id)
    case None => Reply(st, Err(NotFound(id)))
    case Some(i) =>
      if st.records[i].revoked then Reply(st, Err(AlreadyRevoked(id)))
      else
        var t := st.records[i].(revoked := true, revokedAt := Some(now));
        Reply(Sync(st.(records := st.records[i := t])), Ok(t))
  }

  /** Revoking the active record at position `i` of a list takes it out of
      the active view and nothing else: the view loses exactly that entry. */
  lemma RevokeAtDropsFromActive(ts: seq<TokenRecord>, i: int, y: TokenRecord)
    requires 0 <= i < |ts| && !ts[i].revoked && y.revoked
    ensures ActiveTokens(ts) == ActiveTokens(ts[..i]) + [ts[i]] + ActiveTokens(ts[i + 1..])
    ensures ActiveTokens(ts[i := y]) == ActiveTokens(ts[..i]) + ActiveTokens(ts[i + 1..])
    ensures |ActiveTokens(ts[i := y])| == |ActiveTokens(ts)| - 1
  {
    var pre, x, post := ts[..i], ts[i], ts[i + 1..];
    assert ts == pre + [x] + post;
    assert ts[i := y] == pre + [y] + post;
    ActiveAppend(pre + [x], post);
    ActiveAppend(pre, [x]);
    ActiveAppend(pre + [y], post);
    ActiveAppend(pre, [y]);
    assert ActiveTokens([x]) == [x] by {
      assert [x][1..] == [];
    }
    assert ActiveTokens([y]) == [] by {
      assert [y][1..] == [];
    }
  }

  /** Revoking the record at position `i` takes its secret or digest out of
      the derived artifacts and nothing else. */
  lemma RevokeAtDropsFromArtifacts(ts: seq<TokenRecord>, i: int, y: TokenRecord, f: Field)
    requires 0 <= i < |ts| && y.revoked
    ensures Live(ts, f) == Live(ts[..i], f) + Live([ts[i]], f) + Live(ts[i + 1..], f)
    ensures Live(ts[i := y], f) == Live(ts[..i], f) + Live(ts[i + 1..], f)
  {
    var pre, x, post := ts[..i], ts[i], ts[i + 1..];
    assert ts == pre + [x] + post;
    assert ts[i := y] == pre + [y] + post;
    LiveAppend(pre + [x], post, f);
    LiveAppend(pre, [x], f);
    LiveAppend(pre + [y], post, f);
    LiveAppend(pre, [y], f);
    assert Live([y], f) == [] by {
      assert [y][1..] == [];
    }
  }

  /** After a successful `revoke_token` the record is out of the active
      view and out of both derived projections, shows as "REVOKED", and the
      rest of the view is as it was. */
  lemma RevokeDropsToken(st: Store, id: string, now: string, i: int)
    requires IsFirst(st.records, id, i)
    requires RevokeToken(st, id, now).result.Ok?
    ensures var ts := st.records;
            var after := RevokeToken(st, id, now).store.records;
            && ActiveTokens(after) == ActiveTokens(ts[..i]) + ActiveTokens(ts[i + 1..])
            && |ActiveTokens(after)| == |ActiveTokens(ts)| - 1
            && Live(after, ValueField) == Live(ts[..i], ValueField) + Live(ts[i + 1..], ValueField)
            && Live(after, HashField) == Live(ts[..i], HashField) + Live(ts[i + 1..], HashField)
            && Status(after[i]) == "REVOKED"
  {
    var r := RevokeToken(st, id, now);
    var y := r.result.value;
    assert r.store.records == st.records[i := y] && y.revoked && !st.records[i].revoked;
    RevokeAtDropsFromActive(st.records, i, y);
    RevokeAtDropsFromArtifacts(st.records, i, y, ValueField);
    RevokeAtDropsFromArtifacts(st.records, i, y, HashField);
  }

  /** Creating a token in plaintext mode puts its secret, the explicit
      value or the generated "sk-" one, on a line of its own in
      `api_keys`, provided no secret holds a newline. */
  lemma KeyfileListsNewSecret(st: Store, name: string, value: Option<string>, ent: Entropy,
                              sha256: string -> string)
    requires st.mode == Plaintext
    requires forall x :: x in Live(st.records, ValueField) ==> '\n' !in x
    requires value.Some? && value.value != [] ==> '\n' !in value.value
    requires value.None? || value.value == [] ==> '\n' !in ent.urlsafe
    ensures var r := CreateToken(st, name, value, ent, sha256);
            r.result.Ok? ==>
              && r.result.value.value.Some?
              && r.store.keyfile.Some?
              && r.result.value.value.value in Text.Split(r.store.keyfile.value, '\n')
  {
    var r := CreateToken(st, name, value, ent, sha256);
    if r.result.Ok? {
      var raw := r.result.value.value.value;
      if !(value.Some? && value.value != []) {
        PrefixedHasNoNewline(ent.urlsafe);
      }
      var xs := Live(st.records, ValueField);
      LiveAfterAppend(st.records, r.store.records, raw);
      assert forall x :: x in xs + [raw] ==> '\n' !in x;
      assert Text.Split(r.store.keyfile.value, '\n') == xs + [raw] + [""];
      assert raw == (xs + [raw] + [""])[|xs|];
    }
  }

  /** A generated secret holds no newline when its random part holds
      none. */
  lemma PrefixedHasNoNewline(u: string)
    requires '\n' !in u
    ensures '\n' !in "sk-" + u
  {
    var raw := "sk-" + u;
    assert forall k :: 3 <= k < |raw| ==> raw[k] == u[k - 3];
  }

  /** Appending an active record with a non-empty secret appends that
      secret to the live values. */
  lemma LiveAfterAppend(before: seq<TokenRecord>, ts: seq<TokenRecord>, raw: string)
    requires |ts| == |before| + 1 && ts[..|before|] == before
    requires !ts[|before|].revoked && ts[|before|].value == Some(raw) && raw != []
    ensures Live(ts, ValueField) == Live(before, ValueField) + [raw]
  {
    var n := |before|;
    assert ts == before + [ts[n]];
    LiveAppend(before, [ts[n]], ValueField);
    assert Live([ts[n]], ValueField) == [raw] by {
      assert [ts[n]][1..] == [];
    }
  }

  // ---------------------------------------------------------------------
  // Store histories
  // ---------------------------------------------------------------------

  /** The two mutations of the store. */
  datatype Op =
    | Create(name: string, value: Option<string>, ent: Entropy)
    | Revoke(id: string, now: string)

  function ApplyOp(st: Store, op: Op, sha256: string -> string): Store {
    match op
    case Create(name, value, ent) => CreateToken(st, name, value, ent, sha256).store
    case Revoke(id, now) => RevokeToken(st, id, now).store
  }

  /** The store after a sequence of calls, failed ones included. */
  function ApplyOps(st: Store, ops: seq<Op>, sha256: string -> string): Store
    decreases |ops|
  {
    if |ops| == 0 then st else ApplyOps(ApplyOp(st, ops[0], sha256), ops[1..], sha256)
  }

  /** No record carries a plaintext secret. */
  ghost predicate NoPlaintext(ts: seq<TokenRecord>) {
    forall i :: 0 <= i < |ts| ==> ts[i].value.None?
  }

  /** The one-way life of a record: unchanged, or an active record turned
      revoked with everything but the revocation stamp kept. */
  ghost predicate Evolves(a: TokenRecord, b: TokenRecord) {
    b == a || (!a.revoked && b == a.(revoked := true, revokedAt := b.revokedAt))
  }

  /** The security invariant of hashed mode: a store that starts without
      plaintext never acquires any, whatever calls are made, so every
      persisted dict has a null "value". */
  lemma {:induction false} HashedNeverPersistsPlaintext(st: Store, ops: seq<Op>, sha256: string -> string)
    requires st.mode == Hashed && NoPlaintext(st.records)
    ensures var after := ApplyOps(st, ops, sha256);
            && after.mode == Hashed
            && NoPlaintext(after.records)
            && forall i :: 0 <= i < |Save(after.records)| ==> Save(after.records)[i]["value"] == JNull
    decreases |ops|
  {
    if |ops| > 0 {
      var next := ApplyOp(st, ops[0], sha256);
      assert next.mode == Hashed && NoPlaintext(next.records) by {
        match ops[0]
        case Create(name, value, ent) =>
          var r := CreateToken(st, name, value, ent, sha256);
          if r.result.Ok? {
            forall i | 0 <= i < |r.store.records|
              ensures r.store.records[i].value.None?
            {
              if i < |st.records| {
                assert r.store.records[i] == r.store.records[..|st.records|][i];
              }
            }
          }
        case Revoke(id, now) =>
      }
      HashedNeverPersistsPlaintext(next, ops[1..], sha256);
    } else {
      SaveKeepsNullValues(st.records);
    }
  }

  lemma {:induction false} SaveKeepsNullValues(ts: seq<TokenRecord>)
    requires NoPlaintext(ts)
    ensures |Save(ts)| == |ts|
    ensures forall i :: 0 <= i < |ts| ==> Save(ts)[i]["value"] == JNull
    decreases |ts|
  {
    if |ts| > 0 {
      SaveKeepsNullValues(ts[1..]);
      assert forall i :: 1 <= i < |ts| ==> Save(ts)[i] == Save(ts[1..])[i - 1];
    }
  }

  /** Records are never removed, reordered or edited except by the one-way
      active-to-revoked transition, and the storage mode never changes. */
  lemma {:induction false} HistoryIsAppendOnly(st: Store, ops: seq<Op>, sha256: string -> string)
    ensures var after := ApplyOps(st, ops, sha256);
            && after.mode == st.mode
            && |st.records| <= |after.records|
            && forall i :: 0 <= i < |st.records| ==> Evolves(st.records[i], after.records[i])
    decreases |ops|
  {
    if |ops| > 0 {
      var next := ApplyOp(st, ops[0], sha256);
      assert |st.records| <= |next.records| && forall i :: 0 <= i < |st.records| ==> Evolves(st.records[i], next.records[i]) by {
        match ops[0]
        case Create(name, value, ent) =>
          var r := CreateToken(st, name, value, ent, sha256);
          if r.result.Ok? {
            forall i | 0 <= i < |st.records|
              ensures next.records[i] == st.records[i]
            {
              assert next.records[i] == next.records[..|st.records|][i];
            }
          }
        case Revoke(id, now) =>
          var r := RevokeToken(st, id, now);
          if r.result.Ok? {
            var k := FindFirst(st.records, id).value;
            assert IsFirst(st.records, id, k);
          }
      }
      HistoryIsAppendOnly(next, ops[1..], sha256);
      var after := ApplyOps(st, ops, sha256);
      forall i | 0 <= i < |st.records|
        ensures Evolves(st.records[i], after.records[i])
      {
        assert Evolves(next.records[i], after.records[i]);
      }
    }
  }
}
