/** Package `presexch`: matching a presentation submission against a
    presentation definition (the Presentation Submission part of the DIF
    Presentation Exchange specification). `Match` runs a fixed sequence of
    gates and the first failing gate aborts the whole match. */
module PresExch {
  import opened Wrappers
  import opened Data
  import opened Verifiable

  const SubmissionContext := "https://identity.foundation/presentation-exchange/submission/v1"
  const SubmissionType := "PresentationSubmission"
  const SubmissionProperty := "presentation_submission"
  const DescriptorMapProperty := "descriptor_map"

  datatype Schema = Schema(uri: seq<string>, name: string, purpose: string)

  /** Constraints are carried but not evaluated by the matcher. */
  datatype Field = Field(path: seq<string>, filter: map<string, Json>)
  datatype Constraints = Constraints(fields: seq<Field>)

  /** `Schema` and `Constraints` are nil-able fields of `InputDescriptor`: `None` is nil. */
  datatype InputDescriptor = InputDescriptor(id: string, schema: Option<Schema>, constraints: Option<Constraints>)

  datatype PresentationDefinitions = PresentationDefinitions(
    name: string, purpose: string, inputDescriptors: seq<InputDescriptor>)

  datatype InputDescriptorMapping = InputDescriptorMapping(id: string, path: string)

  /** `selectByPath` with the presentation document and the parser options
      fixed: compiles and evaluates the JSONPath, re-marshals the selected
      value and parses it as a credential. Any of those steps may fail. */
  type Selector = string -> Result<Credential, string>

  datatype MatchError =
    | MissingContext                    // "must have json-ld context ..."
    | MissingType                       // "must have json-ld type ..."
    | MissingSubmission                 // "missing 'presentation_submission' ..."
    | MissingDescriptorMap              // "missing 'descriptor_map' ..."
    | MalformedDescriptorMap            // "failed to unmarshal descriptor map"
    | UnknownDescriptorID(id: string)   // "... did not match the `id` property of any input descriptor"
    | SelectionFailed(cause: string)    // "failed to select vc from submission"
    | SchemaMismatch(descriptorID: string, schemaURIs: seq<string>, vcContext: seq<string>)
    | NoCredentialFor(descriptorID: string)  // "no credential provided for input descriptor ..."

  /** `stringsContain`. */
  function StringsContain(s: seq<string>, val: string): (r: bool)
    ensures r <==> val in s
  {
    |s| > 0 && (s[0] == val || StringsContain(s[1..], val))
  }

  /** `stringsIntersect`: do `a` and `b` share an element? */
  function StringsIntersect(a: seq<string>, b: seq<string>): (r: bool)
    ensures r <==> exists i, j :: 0 <= i < |a| && 0 <= j < |b| && a[i] == b[j]
  {
    if |a| == 0 then false
    else
      assert forall i :: 1 <= i < |a| ==> a[i] == a[1..][i - 1];
      StringsContain(b, a[0]) || StringsIntersect(a[1..], b)
  }

  /** `descriptorIDs`: the ids of the input descriptors, in order. */
  function DescriptorIDs(input: seq<InputDescriptor>): (ids: seq<string>)
    ensures |ids| == |input|
    ensures forall i :: 0 <= i < |input| ==> ids[i] == input[i].id
  {
    if |input| == 0 then [] else [input[0].id] + DescriptorIDs(input[1..])
  }

  /** `inputDescriptor`: the first input descriptor with the given id, nil if none. */
  function InputDescriptorOf(input: seq<InputDescriptor>, id: string): (r: Option<InputDescriptor>)
    ensures r.None? <==> forall i :: 0 <= i < |input| ==> input[i].id != id
    ensures r.Some? ==>
      exists i :: 0 <= i < |input| && input[i] == r.value && r.value.id == id
                  && forall j :: 0 <= j < i ==> input[j].id != id
  {
    if |input| == 0 then None
    else if input[0].id == id then Some(input[0])
    else
      assert forall i :: 1 <= i < |input| ==> input[i] == input[1..][i - 1];
      InputDescriptorOf(input[1..], id)
  }

  /** `checkJSONLDContextType`: the context is checked before the type. */
  function CheckJSONLDContextType(vp: Presentation): (r: Option<MatchError>)
    ensures r.None? <==> SubmissionContext in vp.context && SubmissionType in vp.types
    ensures SubmissionContext !in vp.context ==> r == Some(MissingContext)
    ensures SubmissionContext in vp.context && SubmissionType !in vp.types ==> r == Some(MissingType)
  {
    if !StringsContain(vp.context, SubmissionContext) then Some(MissingContext)
    else if !StringsContain(vp.types, SubmissionType) then Some(MissingType)
    else None
  }

  /** Go decodes an absent key or `null` as "", any other non-string is an
      unmarshal error. */
  function DecodeStringField(fields: map<string, Json>, key: string): Result<string, MatchError>
  {
    if key !in fields then Success("")
    else match fields[key]
      case JString(s) => Success(s)
      case JNull => Success("")
      case _ => Failure(MalformedDescriptorMap)
  }

  /** `json.Unmarshal` of one descriptor-map element into `*InputDescriptorMapping`:
      `null` decodes to nil (`None`). */
  function DecodeMapping(j: Json): Result<Option<InputDescriptorMapping>, MatchError>
  {
    match j
    case JNull => Success(None)
    case JObject(fields) =>
      var id :- DecodeStringField(fields, "id");
      var path :- DecodeStringField(fields, "path");
      Success(Some(InputDescriptorMapping(id, path)))
    case _ => Failure(MalformedDescriptorMap)
  }

  /** `json.Unmarshal` of the whole descriptor map: it fails if any element does. */
  function DecodeMappings(items: seq<Json>): (r: Result<seq<Option<InputDescriptorMapping>>, MatchError>)
    ensures r.Success? <==> forall i :: 0 <= i < |items| ==> DecodeMapping(items[i]).Success?
    ensures r.Success? ==>
      |r.value| == |items| && forall i :: 0 <= i < |items| ==> DecodeMapping(items[i]) == Success(r.value[i])
    ensures r.Failure? ==>
      r.error == MalformedDescriptorMap && exists i :: 0 <= i < |items| && DecodeMapping(items[i]).Failure?
  {
    if |items| == 0 then Success([])
    else
      assert forall i :: 1 <= i < |items| ==> items[i] == items[1..][i - 1];
      var m :- DecodeMapping(items[0]);
      var rest :- DecodeMappings(items[1..]);
      Success([m] + rest)
  }

  /** Is `presentation_submission` an object whose `descriptor_map` is an array? */
  predicate HasDescriptorMap(vp: Presentation)
  {
    && SubmissionProperty in vp.customFields
    && vp.customFields[SubmissionProperty].JObject?
    && DescriptorMapProperty in vp.customFields[SubmissionProperty].fields
    && vp.customFields[SubmissionProperty].fields[DescriptorMapProperty].JArray?
  }

  function DescriptorMapItems(vp: Presentation): seq<Json>
    requires HasDescriptorMap(vp)
  {
    vp.customFields[SubmissionProperty].fields[DescriptorMapProperty].items
  }

  /** `parseDescriptorMap`: shape checks on the submission, then decoding. */
  function ParseDescriptorMap(vp: Presentation): (r: Result<seq<Option<InputDescriptorMapping>>, MatchError>)
    ensures SubmissionProperty !in vp.customFields || !vp.customFields[SubmissionProperty].JObject? ==>
      r == Failure(MissingSubmission)
    ensures SubmissionProperty in vp.customFields && vp.customFields[SubmissionProperty].JObject? && !HasDescriptorMap(vp) ==>
      r == Failure(MissingDescriptorMap)
    ensures r.Success? ==>
      && HasDescriptorMap(vp)
      && |r.value| == |DescriptorMapItems(vp)|
      && forall i :: 0 <= i < |r.value| ==> DecodeMapping(DescriptorMapItems(vp)[i]) == Success(r.value[i])
    ensures HasDescriptorMap(vp) && r.Failure? ==>
      r.error == MalformedDescriptorMap
      && exists i :: 0 <= i < |DescriptorMapItems(vp)| && DecodeMapping(DescriptorMapItems(vp)[i]).Failure?
  {
    if SubmissionProperty !in vp.customFields || !vp.customFields[SubmissionProperty].JObject? then
      Failure(MissingSubmission)
    else if !HasDescriptorMap(vp) then
      Failure(MissingDescriptorMap)
    else
      DecodeMappings(DescriptorMapItems(vp))
  }

  /** `Match` dereferences `inputDescriptor.Schema` without a nil check, for
      the descriptor `inputDescriptor` looks up: the FIRST one with a given id.
      A later descriptor repeating an id is never looked up, so its schema may
      be absent. */
  predicate SchemasPresent(p: PresentationDefinitions)
  {
    forall i :: 0 <= i < |p.inputDescriptors| ==>
      && InputDescriptorOf(p.inputDescriptors, p.inputDescriptors[i].id).Some?
      && InputDescriptorOf(p.inputDescriptors, p.inputDescriptors[i].id).value.schema.Some?
  }

  predicate NonNil(dm: seq<Option<InputDescriptorMapping>>)
  {
    forall i :: 0 <= i < |dm| ==> dm[i].Some?
  }

  /** `Match` dereferences every decoded `mapping` without a nil check. */
  predicate MappingsNonNil(vp: Presentation)
  {
    ParseDescriptorMap(vp).Success? ==> NonNil(ParseDescriptorMap(vp).value)
  }

  /** The credential's context shares an element with the schema URIs of the
      input descriptor that `id` names (the first one with that id). */
  predicate Conforms(p: PresentationDefinitions, id: string, vc: Credential)
  {
    match InputDescriptorOf(p.inputDescriptors, id)
    case None => false
    case Some(d) =>
      d.schema.Some? &&
      exists i, j :: 0 <= i < |vc.context| && 0 <= j < |d.schema.value.uri| && vc.context[i] == d.schema.value.uri[j]
  }

  /** The gates one mapping passes in the loop of `Match`: a known id, a
      successful selection, and a context that meets the descriptor's schema. */
  function ResolveMapping(p: PresentationDefinitions, m: InputDescriptorMapping, select: Selector): (r: Result<Credential, MatchError>)
    requires SchemasPresent(p)
    ensures m.id !in DescriptorIDs(p.inputDescriptors) ==> r == Failure(UnknownDescriptorID(m.id))
    ensures r.Success? ==>
      m.id in DescriptorIDs(p.inputDescriptors) && select(m.path) == Success(r.value) && Conforms(p, m.id, r.value)
    ensures m.id in DescriptorIDs(p.inputDescriptors) && select(m.path).Failure? ==>
      r == Failure(SelectionFailed(select(m.path).error))
    ensures m.id in DescriptorIDs(p.inputDescriptors) && select(m.path).Success? ==>
      var vc := select(m.path).value;
      var d := InputDescriptorOf(p.inputDescriptors, m.id).value;
      && (r.Success? <==> Conforms(p, m.id, vc))
      && (r.Failure? ==> r == Failure(SchemaMismatch(d.id, d.schema.value.uri, vc.context)))
  {
    if !StringsContain(DescriptorIDs(p.inputDescriptors), m.id) then Failure(UnknownDescriptorID(m.id))
    else match select(m.path)
      case Failure(e) => Failure(SelectionFailed(e))
      case Success(vc) =>
        var d := InputDescriptorOf(p.inputDescriptors, m.id).value;
        var uris := d.schema.value.uri;
        if !StringsIntersect(vc.context, uris) then Failure(SchemaMismatch(d.id, uris, vc.context))
        else Success(vc)
  }

  /** One step of the loop of `Match`, for a fixed definition and selector. */
  type Step = InputDescriptorMapping --> Result<Credential, MatchError>

  function MappingStep(p: PresentationDefinitions, select: Selector): (step: Step)
    requires SchemasPresent(p)
    ensures forall m :: step.requires(m) && step(m) == ResolveMapping(p, m, select)
  {
    m requires SchemasPresent(p) => ResolveMapping(p, m, select)
  }

  /** The loop of `Match` from mapping `from` on, with the entries gathered so far. */
  function ResolveFrom(step: Step, dm: seq<Option<InputDescriptorMapping>>, from: nat, acc: map<string, Credential>)
    : Result<map<string, Credential>, MatchError>
    requires NonNil(dm) && from <= |dm| && forall m :: step.requires(m)
    decreases |dm| - from
  {
    if from == |dm| then Success(acc)
    else match step(dm[from].value)
      case Failure(e) => Failure(e)
      case Success(vc) => ResolveFrom(step, dm, from + 1, acc[dm[from].value.id := vc])
  }

  /** Index of the first id at or after `from` that `matched` lacks. */
  function FirstUncovered(ids: seq<string>, matched: map<string, Credential>, from: nat): (r: Option<nat>)
    requires from <= |ids|
    decreases |ids| - from
    ensures r.None? <==> forall i :: from <= i < |ids| ==> ids[i] in matched
    ensures r.Some? ==>
      from <= r.value < |ids| && ids[r.value] !in matched && forall j :: from <= j < r.value ==> ids[j] in matched
  {
    if from == |ids| then None
    else if ids[from] !in matched then Some(from)
    else FirstUncovered(ids, matched, from + 1)
  }

  /** `Match` as a function of its inputs. */
  function MatchSpec(p: PresentationDefinitions, vp: Presentation, select: Selector): Result<map<string, Credential>, MatchError>
    requires SchemasPresent(p) && MappingsNonNil(vp)
  {
    match CheckJSONLDContextType(vp)
    case Some(e) => Failure(e)
    case None =>
      match ParseDescriptorMap(vp)
      case Failure(e) => Failure(e)
      case Success(dm) =>
        match ResolveFrom(MappingStep(p, select), dm, 0, map[])
        case Failure(e) => Failure(e)
        case Success(result) =>
          var ids := DescriptorIDs(p.inputDescriptors);
          match FirstUncovered(ids, result, 0)
          case Some(k) => Failure(NoCredentialFor(ids[k]))
          case None => Success(result)
  }

  /** `evalSubmissionRequirements`: every input descriptor id must have a
      matched credential; the first one missing, in descriptor order, is reported. */
  method EvalSubmissionRequirements(p: PresentationDefinitions, matched: map<string, Credential>)
    returns (err: Option<MatchError>)
    ensures err.None? <==> forall i :: 0 <= i < |p.inputDescriptors| ==> p.inputDescriptors[i].id in matched
    ensures err.Some? ==>
      exists i :: 0 <= i < |p.inputDescriptors| && err.value == NoCredentialFor(p.inputDescriptors[i].id)
                  && p.inputDescriptors[i].id !in matched
                  && forall j :: 0 <= j < i ==> p.inputDescriptors[j].id in matched
    ensures err == match FirstUncovered(DescriptorIDs(p.inputDescriptors), matched, 0)
                   case None => None
                   case Some(k) => Some(NoCredentialFor(DescriptorIDs(p.inputDescriptors)[k]))
  {
    var descriptorIDs := DescriptorIDs(p.inputDescriptors);
    var i := 0;
    while i < |descriptorIDs|
      invariant 0 <= i <= |descriptorIDs|
      invariant forall j :: 0 <= j < i ==> p.inputDescriptors[j].id in matched
      invariant FirstUncovered(descriptorIDs, matched, 0) == FirstUncovered(descriptorIDs, matched, i)
    {
      if descriptorIDs[i] !in matched {
        assert p.inputDescriptors[i].id == descriptorIDs[i];
        return Some(NoCredentialFor(descriptorIDs[i]));
      }
      i := i + 1;
    }
    return None;
  }

  /** `Match`: the envelope check, the descriptor map, one pass over the
      mappings that fills the result map in place, then the coverage check. */
  method Match(p: PresentationDefinitions, vp: Presentation, select: Selector)
    returns (r: Result<map<string, Credential>, MatchError>)
    requires SchemasPresent(p) && MappingsNonNil(vp)
    ensures r == MatchSpec(p, vp, select)
    ensures SubmissionContext !in vp.context ==> r == Failure(MissingContext)
    ensures SubmissionContext in vp.context && SubmissionType !in vp.types ==> r == Failure(MissingType)
    ensures CheckJSONLDContextType(vp).None? && !HasDescriptorMap(vp) ==> r.Failure?
    ensures r.Success? ==> r.value.Keys == DescriptorIDSet(p)
    ensures r.Success? ==> forall k :: k in r.value ==> Conforms(p, k, r.value[k])
  {
    var err := CheckJSONLDContextType(vp);
    if err.Some? {
      return Failure(err.value);
    }
    var descriptorIDs := DescriptorIDs(p.inputDescriptors);
    var parsed := ParseDescriptorMap(vp);
    if parsed.Failure? {
      return Failure(parsed.error);
    }
    var descriptorMap := parsed.value;
    ghost var step := MappingStep(p, select);
    var result: map<string, Credential> := map[];
    var i := 0;
    while i < |descriptorMap|
      invariant 0 <= i <= |descriptorMap|
      invariant ResolveFrom(step, descriptorMap, i, result) == ResolveFrom(step, descriptorMap, 0, map[])
    {
      var mapping := descriptorMap[i].value;
      if !StringsContain(descriptorIDs, mapping.id) {
        return Failure(UnknownDescriptorID(mapping.id));
      }
      var selected := select(mapping.path);
      if selected.Failure? {
        return Failure(SelectionFailed(selected.error));
      }
      var vc := selected.value;
      var inputDescriptor := InputDescriptorOf(p.inputDescriptors, mapping.id).value;
      if !StringsIntersect(vc.context, inputDescriptor.schema.value.uri) {
        return Failure(SchemaMismatch(inputDescriptor.id, inputDescriptor.schema.value.uri, vc.context));
      }
      result := result[mapping.id := vc];
      i := i + 1;
    }
    var unsatisfied := EvalSubmissionRequirements(p, result);
    if unsatisfied.Some? {
      return Failure(unsatisfied.value);
    }
    r := Success(result);
    MatchSucceeds(p, vp, select, result);
  }

  /** The ids named by the mappings from `from` on. */
  function MappingIDs(dm: seq<Option<InputDescriptorMapping>>, from: nat): set<string>
    requires NonNil(dm) && from <= |dm|
  {
    set i | from <= i < |dm| :: dm[i].value.id
  }

  /** The ids of all input descriptors. */
  function DescriptorIDSet(p: PresentationDefinitions): set<string>
  {
    set i | 0 <= i < |p.inputDescriptors| :: p.inputDescriptors[i].id
  }

  /** Mapping `i` (at or after `from`) is the last one that names `k`. */
  predicate LastMappingFor(dm: seq<Option<InputDescriptorMapping>>, from: nat, i: int, k: string)
    requires NonNil(dm)
  {
    from <= i < |dm| && dm[i].value.id == k && forall j :: i < j < |dm| ==> dm[j].value.id != k
  }

  /** A successful pass over the mappings: the keys are the ids gathered so
      far plus the mapped ids. */
  lemma {:induction false} ResolveFromKeys(step: Step, dm: seq<Option<InputDescriptorMapping>>,
                                           from: nat, acc: map<string, Credential>)
    requires NonNil(dm) && from <= |dm| && forall m :: step.requires(m)
    requires ResolveFrom(step, dm, from, acc).Success?
    ensures ResolveFrom(step, dm, from, acc).value.Keys == acc.Keys + MappingIDs(dm, from)
    decreases |dm| - from
  {
    if from < |dm| {
      var id := dm[from].value.id;
      var vc := step(dm[from].value).value;
      ResolveFromKeys(step, dm, from + 1, acc[id := vc]);
      assert MappingIDs(dm, from) == {id} + MappingIDs(dm, from + 1);
    }
  }

  /** A successful pass over the mappings: the entry for `k` holds the
      credential of the LAST mapping that names `k` (a later duplicate
      overwrites an earlier one), or the entry gathered before if no mapping
      names `k`. */
  lemma {:induction false} ResolveFromEntry(step: Step, dm: seq<Option<InputDescriptorMapping>>,
                                            from: nat, acc: map<string, Credential>, k: string)
    requires NonNil(dm) && from <= |dm| && forall m :: step.requires(m)
    requires ResolveFrom(step, dm, from, acc).Success? && k in ResolveFrom(step, dm, from, acc).value
    ensures var v := ResolveFrom(step, dm, from, acc).value[k];
      || (exists i :: LastMappingFor(dm, from, i, k) && step(dm[i].value) == Success(v))
      || (k in acc && v == acc[k] && forall i :: from <= i < |dm| ==> dm[i].value.id != k)
    decreases |dm| - from
  {
    if from < |dm| {
      var id := dm[from].value.id;
      var vc := step(dm[from].value).value;
      var acc' := acc[id := vc];
      ResolveFromEntry(step, dm, from + 1, acc', k);
      var v := ResolveFrom(step, dm, from + 1, acc').value[k];
      assert ResolveFrom(step, dm, from, acc).value[k] == v;
      if i :| LastMappingFor(dm, from + 1, i, k) && step(dm[i].value) == Success(v) {
        assert LastMappingFor(dm, from, i, k);
      } else if k == id {
        assert LastMappingFor(dm, from, from, k);
      }
    }
  }

  /** A pass over the mappings fails exactly when some mapping fails, and
      then with the error of the first mapping that fails. */
  lemma {:induction false} ResolveFromFails(step: Step, dm: seq<Option<InputDescriptorMapping>>,
                                            from: nat, acc: map<string, Credential>)
    requires NonNil(dm) && from <= |dm| && forall m :: step.requires(m)
    ensures ResolveFrom(step, dm, from, acc).Failure? <==>
      exists i :: from <= i < |dm| && step(dm[i].value).Failure?
    ensures ResolveFrom(step, dm, from, acc).Failure? ==>
      exists i :: && from <= i < |dm|
                  && step(dm[i].value) == Failure(ResolveFrom(step, dm, from, acc).error)
                  && forall j :: from <= j < i ==> step(dm[j].value).Success?
    decreases |dm| - from
  {
    if from < |dm| {
      match step(dm[from].value)
      case Failure(e) =>
      case Success(vc) =>
        ResolveFromFails(step, dm, from + 1, acc[dm[from].value.id := vc]);
    }
  }

  /** A successful match passed every stage, and its result is the map the
      pass over the mappings built. */
  lemma MatchStages(p: PresentationDefinitions, vp: Presentation, select: Selector)
    requires SchemasPresent(p) && MappingsNonNil(vp)
    requires MatchSpec(p, vp, select).Success?
    ensures CheckJSONLDContextType(vp).None? && ParseDescriptorMap(vp).Success?
    ensures ResolveFrom(MappingStep(p, select), ParseDescriptorMap(vp).value, 0, map[])
            == Success(MatchSpec(p, vp, select).value)
    ensures FirstUncovered(DescriptorIDs(p.inputDescriptors), MatchSpec(p, vp, select).value, 0).None?
  {
  }

  /** One entry of a successful match: its id names an input descriptor,
      its credential conforms to that descriptor's schema, and it comes from
      the last mapping that names the id. */
  lemma MatchEntry(p: PresentationDefinitions, vp: Presentation, select: Selector, k: string)
    requires SchemasPresent(p) && MappingsNonNil(vp)
    requires MatchSpec(p, vp, select).Success? && k in MatchSpec(p, vp, select).value
    ensures Conforms(p, k, MatchSpec(p, vp, select).value[k])
    ensures var dm := ParseDescriptorMap(vp).value;
      exists i :: LastMappingFor(dm, 0, i, k) && select(dm[i].value.path) == Success(MatchSpec(p, vp, select).value[k])
  {
    MatchStages(p, vp, select);
    var dm := ParseDescriptorMap(vp).value;
    var step := MappingStep(p, select);
    ResolveFromEntry(step, dm, 0, map[], k);
    var v := MatchSpec(p, vp, select).value[k];
    var i :| LastMappingFor(dm, 0, i, k) && step(dm[i].value) == Success(v);
    assert ResolveMapping(p, dm[i].value, select) == Success(v);
  }

  /** On success the presentation carries the submission markers, the result
      has exactly one entry per input descriptor id, and every credential's
      context meets its descriptor's schema URIs. */
  lemma MatchSucceeds(p: PresentationDefinitions, vp: Presentation, select: Selector, result: map<string, Credential>)
    requires SchemasPresent(p) && MappingsNonNil(vp)
    requires MatchSpec(p, vp, select) == Success(result)
    ensures SubmissionContext in vp.context && SubmissionType in vp.types
    ensures result.Keys == DescriptorIDSet(p)
    ensures forall k :: k in result ==> Conforms(p, k, result[k])
  {
    MatchStages(p, vp, select);
    MatchCoversDescriptors(p, vp, select);
    forall k | k in result
      ensures k in DescriptorIDSet(p) && Conforms(p, k, result[k])
    {
      MatchEntryConforms(p, vp, select, result, k);
    }
  }

  /** One entry of a successful match names an input descriptor and conforms to it. */
  lemma MatchEntryConforms(p: PresentationDefinitions, vp: Presentation, select: Selector,
                           result: map<string, Credential>, k: string)
    requires SchemasPresent(p) && MappingsNonNil(vp)
    requires MatchSpec(p, vp, select) == Success(result) && k in result
    ensures k in DescriptorIDSet(p) && Conforms(p, k, result[k])
  {
    MatchEntry(p, vp, select, k);
    ConformsNamesDescriptor(p, k, result[k]);
  }

  /** On success each entry comes from the LAST mapping that names its id:
      a later mapping with a repeated id overwrites an earlier one. */
  lemma MatchKeepsLastMapping(p: PresentationDefinitions, vp: Presentation, select: Selector, result: map<string, Credential>)
    requires SchemasPresent(p) && MappingsNonNil(vp)
    requires MatchSpec(p, vp, select) == Success(result)
    ensures ParseDescriptorMap(vp).Success?
    ensures var dm := ParseDescriptorMap(vp).value;
      forall k :: k in result ==>
        exists i :: LastMappingFor(dm, 0, i, k) && select(dm[i].value.path) == Success(result[k])
  {
    MatchStages(p, vp, select);
    var dm := ParseDescriptorMap(vp).value;
    forall k | k in result
      ensures exists i :: LastMappingFor(dm, 0, i, k) && select(dm[i].value.path) == Success(result[k])
    {
      MatchEntry(p, vp, select, k);
    }
  }

  /** A conforming credential's id names an input descriptor. */
  lemma ConformsNamesDescriptor(p: PresentationDefinitions, k: string, vc: Credential)
    requires Conforms(p, k, vc)
    ensures k in DescriptorIDSet(p)
  {
    var i :| 0 <= i < |p.inputDescriptors| && p.inputDescriptors[i].id == k;
  }

  /** A successful match has an entry for every input descriptor id. */
  lemma MatchCoversDescriptors(p: PresentationDefinitions, vp: Presentation, select: Selector)
    requires SchemasPresent(p) && MappingsNonNil(vp)
    requires MatchSpec(p, vp, select).Success?
    ensures DescriptorIDSet(p) <= MatchSpec(p, vp, select).value.Keys
  {
    MatchStages(p, vp, select);
    var ids := DescriptorIDs(p.inputDescriptors);
    forall k | k in DescriptorIDSet(p) ensures k in MatchSpec(p, vp, select).value {
      var n :| 0 <= n < |p.inputDescriptors| && p.inputDescriptors[n].id == k;
      assert ids[n] == k;
    }
  }

  /** With a valid envelope and descriptor map, a match fails as soon as one
      mapping fails, and reports the error of the first failing mapping. */
  lemma MatchReportsFirstBadMapping(p: PresentationDefinitions, vp: Presentation, select: Selector, bad: nat)
    requires SchemasPresent(p) && MappingsNonNil(vp)
    requires CheckJSONLDContextType(vp).None? && ParseDescriptorMap(vp).Success?
    requires bad < |ParseDescriptorMap(vp).value|
    requires ResolveMapping(p, ParseDescriptorMap(vp).value[bad].value, select).Failure?
    ensures MatchSpec(p, vp, select).Failure?
    ensures var dm := ParseDescriptorMap(vp).value;
      exists i :: && 0 <= i <= bad
                  && ResolveMapping(p, dm[i].value, select) == Failure(MatchSpec(p, vp, select).error)
                  && forall j :: 0 <= j < i ==> ResolveMapping(p, dm[j].value, select).Success?
  {
    var dm := ParseDescriptorMap(vp).value;
    var step := MappingStep(p, select);
    ResolveFromFails(step, dm, 0, map[]);
    var i :| && 0 <= i < |dm|
             && ResolveMapping(p, dm[i].value, select) == Failure(ResolveFrom(step, dm, 0, map[]).error)
             && forall j :: 0 <= j < i ==> ResolveMapping(p, dm[j].value, select).Success?;
    assert i <= bad;
  }

  /** A mapping whose id names no input descriptor makes the match fail. */
  lemma MatchRejectsUnknownID(p: PresentationDefinitions, vp: Presentation, select: Selector, bad: nat)
    requires SchemasPresent(p) && MappingsNonNil(vp)
    requires ParseDescriptorMap(vp).Success? && bad < |ParseDescriptorMap(vp).value|
    requires ParseDescriptorMap(vp).value[bad].value.id !in DescriptorIDSet(p)
    ensures MatchSpec(p, vp, select).Failure?
  {
    var dm := ParseDescriptorMap(vp).value;
    if CheckJSONLDContextType(vp).None? {
      MatchReportsFirstBadMapping(p, vp, select, bad);
    }
  }

  /** When every mapping resolves, the match fails exactly when some input
      descriptor id is not mapped, naming the first such id in descriptor order. */
  lemma MatchReportsFirstUncovered(p: PresentationDefinitions, vp: Presentation, select: Selector)
    requires SchemasPresent(p) && MappingsNonNil(vp)
    requires CheckJSONLDContextType(vp).None? && ParseDescriptorMap(vp).Success?
    requires var dm := ParseDescriptorMap(vp).value;
      forall i :: 0 <= i < |dm| ==> ResolveMapping(p, dm[i].value, select).Success?
    ensures var mapped := MappingIDs(ParseDescriptorMap(vp).value, 0);
      MatchSpec(p, vp, select).Success? <==> forall i :: 0 <= i < |p.inputDescriptors| ==> p.inputDescriptors[i].id in mapped
    ensures var mapped := MappingIDs(ParseDescriptorMap(vp).value, 0);
      MatchSpec(p, vp, select).Failure? ==>
        exists i :: && 0 <= i < |p.inputDescriptors|
                    && MatchSpec(p, vp, select).error == NoCredentialFor(p.inputDescriptors[i].id)
                    && p.inputDescriptors[i].id !in mapped
                    && forall j :: 0 <= j < i ==> p.inputDescriptors[j].id in mapped
  {
    var dm := ParseDescriptorMap(vp).value;
    ResolvesEveryMapping(p, dm, select);
    MatchAfterResolve(p, vp, select);
    FirstUncoveredByDescriptor(p.inputDescriptors, ResolveFrom(MappingStep(p, select), dm, 0, map[]).value, MappingIDs(dm, 0));
  }

  /** When every mapping resolves, the pass over them succeeds with the mapped ids as keys. */
  lemma ResolvesEveryMapping(p: PresentationDefinitions, dm: seq<Option<InputDescriptorMapping>>, select: Selector)
    requires SchemasPresent(p) && NonNil(dm)
    requires forall i :: 0 <= i < |dm| ==> ResolveMapping(p, dm[i].value, select).Success?
    ensures ResolveFrom(MappingStep(p, select), dm, 0, map[]).Success?
    ensures ResolveFrom(MappingStep(p, select), dm, 0, map[]).value.Keys == MappingIDs(dm, 0)
  {
    var step := MappingStep(p, select);
    ResolveFromFails(step, dm, 0, map[]);
    ResolveFromKeys(step, dm, 0, map[]);
  }

  /** The coverage check read in terms of the descriptors and the set of
      mapped ids: none is uncovered exactly when every descriptor id is
      mapped, and otherwise the first unmapped one is reported. */
  lemma FirstUncoveredByDescriptor(input: seq<InputDescriptor>, matched: map<string, Credential>, mapped: set<string>)
    requires matched.Keys == mapped
    ensures var r := FirstUncovered(DescriptorIDs(input), matched, 0);
      && (r.None? <==> forall i :: 0 <= i < |input| ==> input[i].id in mapped)
      && (r.Some? ==>
            && r.value < |input|
            && DescriptorIDs(input)[r.value] == input[r.value].id
            && input[r.value].id !in mapped
            && forall j :: 0 <= j < r.value ==> input[j].id in mapped)
  {
  }

  /** Once every mapping has resolved, only the coverage check is left. */
  lemma MatchAfterResolve(p: PresentationDefinitions, vp: Presentation, select: Selector)
    requires SchemasPresent(p) && MappingsNonNil(vp)
    requires CheckJSONLDContextType(vp).None? && ParseDescriptorMap(vp).Success?
    requires ResolveFrom(MappingStep(p, select), ParseDescriptorMap(vp).value, 0, map[]).Success?
    ensures var result := ResolveFrom(MappingStep(p, select), ParseDescriptorMap(vp).value, 0, map[]).value;
      var ids := DescriptorIDs(p.inputDescriptors);
      MatchSpec(p, vp, select) == match FirstUncovered(ids, result, 0)
                                  case None => Success(result)
                                  case Some(n) => Failure(NoCredentialFor(ids[n]))
  {
  }

  /** A presentation with both submission markers, whose every mapping names
      an input descriptor and selects a credential conforming to it, and
      which maps every input descriptor, is accepted. */
  lemma MatchAcceptsConformingSubmission(p: PresentationDefinitions, vp: Presentation, select: Selector)
    requires SchemasPresent(p) && MappingsNonNil(vp)
    requires SubmissionContext in vp.context && SubmissionType in vp.types
    requires ParseDescriptorMap(vp).Success?
    requires var dm := ParseDescriptorMap(vp).value;
      forall i :: 0 <= i < |dm| ==>
        && dm[i].value.id in DescriptorIDSet(p)
        && select(dm[i].value.path).Success?
        && Conforms(p, dm[i].value.id, select(dm[i].value.path).value)
    requires forall i :: 0 <= i < |p.inputDescriptors| ==>
      p.inputDescriptors[i].id in MappingIDs(ParseDescriptorMap(vp).value, 0)
    ensures MatchSpec(p, vp, select).Success?
  {
    var dm := ParseDescriptorMap(vp).value;
    forall i | 0 <= i < |dm| ensures ResolveMapping(p, dm[i].value, select).Success? {
      var m := dm[i].value;
      var n :| 0 <= n < |p.inputDescriptors| && p.inputDescriptors[n].id == m.id;
      assert DescriptorIDs(p.inputDescriptors)[n] == m.id;
    }
    MatchReportsFirstUncovered(p, vp, select);
  }
}
