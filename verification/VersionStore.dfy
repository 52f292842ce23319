/**
 * Stored assistant versions: drafts, published rows, optimistic draft updates, export and
 * import. Every row carries the hash of the payload its columns hold.
 */
module VersionStore {
  import opened Wrappers
  import opened Text
  import opened Json
  import opened CanonicalJson
  import opened PayloadSchema
  import opened ExportImport

  datatype Status = Draft | Validating | Valid | Published | Retired

  /** The statuses a version can be published from. */
  predicate Publishable(status: Status) {
    status in {Draft, Valid, Validating}
  }

  datatype Version = Version(assistant: nat, status: Status, columns: seq<Field>, hash: JsString)

  /** The columns and the hash are those of one accepted payload. */
  ghost predicate Faithful(env: Env, names: seq<JsString>, v: Version) {
    exists payload: Value, w: Value ::
      Accept(env, payload) == Ok(w) && w.Obj? && v.columns == Columns(names, w) && v.hash == Hash(env, w)
  }

  lemma AcceptedIsObject(env: Env, names: seq<JsString>, payload: Value)
    requires Suits(env, names) && Accept(env, payload).Ok?
    ensures Accept(env, payload).value.Obj?
  {
  }

  /** Reading a faithful row back, whatever its key order, parses to the payload its hash covers. */
  lemma ReadsFaithfully(env: Env, names: seq<JsString>, v: Version, read: seq<Field>, version: int)
    requires Suits(env, names) && Faithful(env, names, v) && ReadBack(v.columns, read)
    ensures var imported := Import(env, Envelope(version, read, v.hash));
      && imported.Ok? && imported.value.Obj?
      && Accept(env, imported.value) == imported
      && SafeParse(env.schema, Some(Obj(Compacted(read)))) == Present(imported.value)
      && v.columns == Columns(names, imported.value) && v.hash == Hash(env, imported.value)
  {
    var payload, w :| Accept(env, payload) == Ok(w) && w.Obj? && v.columns == Columns(names, w)
      && v.hash == Hash(env, w);
    ExportImports(env, names, payload, w, read, version);
    AcceptedAgain(env, payload, w);
    ExportParses(env, names, payload, w, read);
  }

  /** No stored row holds a secret, at whatever depth of whatever column. */
  ghost predicate NoSecrets(screen: Screen, versions: map<nat, Version>) {
    forall id, path :: id in versions ==> !SecretAt(screen, Obj(versions[id].columns), path)
  }

  lemma FaithfulHoldsNoSecret(env: Env, names: seq<JsString>, v: Version)
    requires Suits(env, names) && Faithful(env, names, v)
    ensures forall path :: !SecretAt(env.screen, Obj(v.columns), path)
  {
    var payload, w :| Accept(env, payload) == Ok(w) && w.Obj? && v.columns == Columns(names, w)
      && v.hash == Hash(env, w);
    SecretsAreRefused(env, payload);
    SecretSomewhere(env.screen, w);
    ColumnsHoldNoSecret(env.screen, names, w);
    SecretSomewhere(env.screen, Obj(v.columns));
  }

  /** What publishing asks of a payload: known models, pinned tools, and the release gates of the repository. */
  datatype Gates = Gates(models: Value -> bool, tools: Value -> bool, release: Value -> bool, blank: JsString -> bool)

  /** `assertPublishable`: there are instructions, and they are not blank. */
  predicate HasInstructions(gates: Gates, w: Value) {
    w.Obj? &&
    match Find(w.fields, Lit("instructions"))
    case Some(Str(s)) => !gates.blank(s)
    case _ => false
  }

  /** A missing or empty If-Match value names no hash. */
  predicate NamesHash(expected: Option<JsString>) {
    expected.Some? && expected.value != []
  }

  predicate DraftIn(versions: map<nat, Version>, id: nat) {
    id in versions && versions[id].status == Draft
  }

  predicate Owns(versions: map<nat, Version>, assistant: nat, id: nat) {
    id in versions && versions[id].assistant == assistant
  }

  ghost predicate AllFaithful(env: Env, names: seq<JsString>, versions: map<nat, Version>) {
    forall id :: id in versions ==> Faithful(env, names, versions[id])
  }

  /** An assistant has at most one draft. */
  ghost predicate OneDraft(versions: map<nat, Version>) {
    forall i, j :: DraftIn(versions, i) && DraftIn(versions, j) && versions[i].assistant == versions[j].assistant ==>
      i == j
  }

  lemma PutKeepsOneDraft(versions: map<nat, Version>, id: nat, v: Version)
    requires OneDraft(versions)
    requires v.status == Draft ==> forall i :: DraftIn(versions, i) && versions[i].assistant == v.assistant ==> i == id
    ensures OneDraft(versions[id := v])
  {
    var after := versions[id := v];
    forall i, j | DraftIn(after, i) && DraftIn(after, j) && after[i].assistant == after[j].assistant ensures i == j {
      assert i != id ==> DraftIn(versions, i);
      assert j != id ==> DraftIn(versions, j);
    }
  }

  class Versions {
    const env: Env
    const names: seq<JsString>
    var versions: map<nat, Version>

    predicate IsDraft(id: nat)
      reads this
    {
      DraftIn(versions, id)
    }

    /** Every row is faithful, no row holds a secret, and an assistant has at most one draft. */
    ghost predicate Valid()
      reads this
    {
      && Suits(env, names)
      && AllFaithful(env, names, versions)
      && NoSecrets(env.screen, versions)
      && OneDraft(versions)
    }

    constructor (env: Env, names: seq<JsString>)
      requires Suits(env, names)
      ensures Valid() && versions == map[]
    {
      this.env, this.names, this.versions := env, names, map[];
    }

    predicate HasDraft(assistant: nat)
      reads this
    {
      exists id :: id in versions && IsDraft(id) && versions[id].assistant == assistant
    }

    /** The row of an accepted payload. */
    method RowOf(status: Status, assistant: nat, payload: Value, normalized: Value) returns (v: Version)
      requires Accept(env, payload) == Ok(normalized) && normalized.Obj?
      ensures v == Version(assistant, status, Columns(names, normalized), Hash(env, normalized))
      ensures Faithful(env, names, v)
    {
      v := Version(assistant, status, Columns(names, normalized), Hash(env, normalized));
    }

    method Put(id: nat, v: Version)
      requires Valid() && Faithful(env, names, v)
      requires v.status == Draft ==> forall i :: IsDraft(i) && versions[i].assistant == v.assistant ==> i == id
      modifies this
      ensures Valid() && versions == old(versions)[id := v]
    {
      PutKeepsOneDraft(versions, id, v);
      FaithfulHoldsNoSecret(env, names, v);
      versions := versions[id := v];
    }

    /** `createVersion`; `known` says whether the assistant exists. An assistant has one draft at a time. */
    method CreateVersion(assistant: nat, known: bool, payload: Value, id: nat) returns (r: Result<Version, Refusal>)
      requires Valid() && id !in versions
      modifies this
      ensures Valid()
      ensures r.Ok? <==> known && Accept(env, payload).Ok? && !old(HasDraft(assistant))
      ensures r.Ok? ==> Accept(env, payload).value.Obj?
      ensures r.Ok? ==>
        var w := Accept(env, payload).value;
        r.value == Version(assistant, Draft, Columns(names, w), Hash(env, w))
          && versions == old(versions)[id := r.value]
      ensures r.Err? ==> versions == old(versions)
      ensures !known ==> r == Err(NotFound)
      ensures known && Accept(env, payload).Err? ==> r == Err(Accept(env, payload).error)
      ensures known && Accept(env, payload).Ok? && old(HasDraft(assistant)) ==> r == Err(Conflict)
      ensures known ==>
        (r == Err(SecretMaterial) <==>
           Unknown(env.schema, payload, []) == [] && exists path :: SecretAt(env.screen, payload, path))
    {
      if !known {
        return Err(NotFound);
      }
      var accepted := Accept(env, payload);
      SecretsAreRefused(env, payload);
      if accepted.Err? {
        return Err(accepted.error);
      }
      AcceptedIsObject(env, names, payload);
      if HasDraft(assistant) {
        return Err(Conflict);
      }
      var v := RowOf(Draft, assistant, payload, accepted.value);
      Put(id, v);
      return Ok(v);
    }

    /** The conditional update: id, assistant, draft status and expected hash have to match. */
    method UpdateDraftContent(id: nat, expected: JsString, v: Version) returns (hit: bool)
      requires Valid() && Faithful(env, names, v) && v.status == Draft
      modifies this
      ensures Valid()
      ensures hit <==>
        Owns(old(versions), v.assistant, id) && old(versions)[id].status == Draft && old(versions)[id].hash == expected
      ensures versions == if hit then old(versions)[id := v] else old(versions)
    {
      hit := id in versions && versions[id].assistant == v.assistant && versions[id].status == Draft
        && versions[id].hash == expected;
      if hit {
        assert IsDraft(id);
        Put(id, v);
      }
    }

    /**
     * `updateDraft`: lands exactly when the row is this assistant's draft and still carries
     * the hash the author saw, so no save overwrites one its author has not seen.
     */
    method UpdateDraft(assistant: nat, id: nat, payload: Value, expected: Option<JsString>)
      returns (r: Result<Version, Refusal>)
      requires Valid()
      modifies this
      ensures Valid()
      ensures r.Ok? <==>
        NamesHash(expected) && Accept(env, payload).Ok? && Owns(old(versions), assistant, id)
          && old(versions)[id].status == Draft && old(versions)[id].hash == expected.value
      ensures r.Ok? ==> Accept(env, payload).value.Obj?
      ensures r.Ok? ==>
        var w := Accept(env, payload).value;
        r.value == Version(assistant, Draft, Columns(names, w), Hash(env, w))
          && versions == old(versions)[id := r.value]
      ensures r.Err? ==> versions == old(versions)
      ensures !NamesHash(expected) ==> r == Err(IfMatchMissing)
      ensures NamesHash(expected) && Accept(env, payload).Err? ==> r == Err(Accept(env, payload).error)
      ensures NamesHash(expected) && Accept(env, payload).Ok? ==>
        && (r == Err(NotFound) <==> !Owns(old(versions), assistant, id))
        && (r == Err(Conflict) <==> Owns(old(versions), assistant, id) && old(versions)[id].status != Draft)
        && (r.Err? && r != Err(NotFound) && r != Err(Conflict) ==>
              && old(versions)[id].hash != expected.value
              && r == Err(Precondition(expected.value, old(versions)[id].hash)))
    {
      if expected.None? || expected.value == [] {
        return Err(IfMatchMissing);
      }
      var accepted := Accept(env, payload);
      if accepted.Err? {
        return Err(accepted.error);
      }
      AcceptedIsObject(env, names, payload);
      var v := RowOf(Draft, assistant, payload, accepted.value);
      var hit := UpdateDraftContent(id, expected.value, v);
      if hit {
        return Ok(v);
      }
      if id !in versions || versions[id].assistant != assistant {
        return Err(NotFound);
      }
      return Err(if versions[id].status != Draft then Conflict else Precondition(expected.value, versions[id].hash));
    }

    /** `publish`: re-validates the stored row, puts its payload through the gates and inserts it. */
    method Publish(assistant: nat, id: nat, read: seq<Field>, gates: Gates, newId: nat)
      returns (r: Result<Version, Refusal>)
      requires Valid() && newId !in versions
      requires id in versions ==> ReadBack(versions[id].columns, read)
      modifies this
      ensures Valid()
      ensures r == Err(NotFound) <==> !Owns(old(versions), assistant, id)
      ensures r == Err(InvalidStatus) <==>
        Owns(old(versions), assistant, id) && old(versions)[id].status !in {Draft, Status.Valid, Validating}
      ensures Owns(old(versions), assistant, id) && r != Err(InvalidStatus) ==>
        var parsed := SafeParse(env.schema, Some(Obj(Compacted(read))));
        && parsed.Present? && old(versions)[id].hash == Hash(env, parsed.value)
        && var w := parsed.value;
           && (r == Err(UnknownModels) <==> !gates.models(w))
           && (r == Err(NoInstructions) <==> gates.models(w) && !HasInstructions(gates, w))
           && (r == Err(ToolPins) <==> gates.models(w) && HasInstructions(gates, w) && !gates.tools(w))
           && (r.Ok? <==> gates.models(w) && HasInstructions(gates, w) && gates.tools(w) && gates.release(w))
      ensures r.Err? ==> r.error in {NotFound, InvalidStatus, UnknownModels, NoInstructions, ToolPins, NotReleased}
      ensures r.Ok? ==> r.value == old(versions)[id].(status := Published)
      ensures versions == if r.Ok? then old(versions)[newId := r.value] else old(versions)
    {
      if id !in versions || versions[id].assistant != assistant {
        return Err(NotFound);
      }
      if !Publishable(versions[id].status) {
        return Err(InvalidStatus);
      }
      ReadsFaithfully(env, names, versions[id], read, 0);
      var parsed := SafeParse(env.schema, Some(Obj(Compacted(read))));
      if !gates.models(parsed.value) {
        return Err(UnknownModels);
      }
      if !HasInstructions(gates, parsed.value) {
        return Err(NoInstructions);
      }
      if !gates.tools(parsed.value) {
        return Err(ToolPins);
      }
      if !gates.release(parsed.value) {
        return Err(NotReleased);
      }
      var v := RowOf(Published, assistant, parsed.value, parsed.value);
      Put(newId, v);
      return Ok(v);
    }

    /** `exportVersion`: whatever it returns imports, to the payload the hash covers. */
    method ExportVersion(assistant: nat, id: nat, read: seq<Field>, schemaVersion: int)
      returns (r: Result<Envelope, Refusal>)
      requires Valid() && (id in versions ==> ReadBack(versions[id].columns, read))
      ensures r.Ok? <==> id in versions && versions[id].assistant == assistant && versions[id].status != Draft
      ensures r.Err? ==> r.error == NotFound
      ensures r.Ok? ==> r.value == Envelope(schemaVersion, read, versions[id].hash)
      ensures r.Ok? ==> Import(env, r.value).Ok? && Import(env, r.value).value.Obj?
      ensures r.Ok? ==> Columns(names, Import(env, r.value).value) == versions[id].columns
    {
      if id !in versions || versions[id].assistant != assistant || versions[id].status == Draft {
        return Err(NotFound);
      }
      ReadsFaithfully(env, names, versions[id], read, schemaVersion);
      return Ok(Envelope(schemaVersion, read, versions[id].hash));
    }

    /** `importVersion`: a new draft with the columns and the hash of the export. */
    method ImportVersion(assistant: nat, known: bool, exported: Envelope, id: nat) returns (r: Result<Version, Refusal>)
      requires Valid() && id !in versions
      modifies this
      ensures Valid()
      ensures r.Ok? <==> Import(env, exported).Ok? && known && !old(HasDraft(assistant))
      ensures r.Ok? ==> Import(env, exported).value.Obj?
      ensures r.Ok? ==> r.value == Version(assistant, Draft, Columns(names, Import(env, exported).value), exported.hash)
      ensures r.Ok? ==> versions == old(versions)[id := r.value]
      ensures r.Err? ==> versions == old(versions)
    {
      var parsed := SafeParse(env.schema, Some(Obj(Compacted(exported.body))));
      if !parsed.Present? {
        return Err(InvalidPayload);
      }
      if Hash(env, parsed.value) != exported.hash {
        return Err(HashMismatch);
      }
      ParsedAgain(env, Some(Obj(Compacted(exported.body))));
      r := CreateVersion(assistant, known, parsed.value, id);
    }
  }

  /** What parsing returns parses to itself. */
  lemma ParsedAgain(env: Env, v: Option<Value>)
    requires Distinct(env.schema) && SafeParse(env.schema, v).Present?
    ensures var w := SafeParse(env.schema, v).value; SafeParse(env.schema, Some(w)) == Present(w)
  {
    var w := SafeParse(env.schema, v).value;
    ParseWellFormed(env.schema, v);
    EquivRefl(w);
    ParseStable(env.schema, v, w, w);
  }
}
