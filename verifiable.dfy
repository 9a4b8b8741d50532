/** Package `verifiable`: the credential and presentation values the other
    packages consume, and the credential-extension switch that turns a parsed
    base credential into a registered custom type (first accepting producer
    wins, the base credential when none accepts). */
module Verifiable {
  import opened Wrappers
  import opened Data

  /** A parsed verifiable credential (the fields the model needs). */
  datatype Credential = Credential(context: seq<string>, types: seq<string>, customFields: map<string, Json>)

  /** A parsed verifiable presentation (the fields the model needs). */
  datatype Presentation = Presentation(context: seq<string>, types: seq<string>, customFields: map<string, Json>)

  /** `Credential{}`: the zero value Go gives an embedded credential. */
  const ZeroCredential := Credential([], [], map[])

  /** The external credential parser (`ParseCredential`): JSON-LD expansion,
      mandatory-field validation and proof checking are not modelled. */
  type CredentialParser = Bytes -> Result<Credential, string>

  /** Which custom layout a producer decodes: `s1`/`c1` or `s2`/`c2`. */
  datatype Layout = Layout1 | Layout2

  /** What `json.Unmarshal` found for a custom layout; `None` for a key the
      document does not contain (Go then leaves that field as it was). */
  datatype DecodedFields = DecodedFields(
    subjectID: Option<string>,
    customSubjectField: Option<string>,
    customField: Option<string>)

  /** `json.Unmarshal` into a custom credential struct, an opaque step that may fail. */
  type Unmarshal = (Layout, Bytes) -> Result<DecodedFields, string>

  const Cred1Type := "CredType1"
  const Cred2Type := "CredType2"
  const FailingApplyMessage := "failed to apply credential extension"

  /** `hasType`: is `targetType` one of `allTypes`? */
  function HasType(allTypes: seq<string>, targetType: string): (r: bool)
    ensures r <==> targetType in allTypes
  {
    |allTypes| > 0 && (allTypes[0] == targetType || HasType(allTypes[1..], targetType))
  }

  /** `Cred1`: a custom credential that is its own producer. `Apply` decodes
      into the receiver and returns the receiver itself. */
  class Cred1 {
    var base: Credential
    var subjectID: string
    var customSubjectField: string
    var customField: string

    /** `&Cred1{}` (`NewCred1Producer`). */
    constructor ()
      ensures base == ZeroCredential
      ensures subjectID == "" && customSubjectField == "" && customField == ""
    {
      base := ZeroCredential;
      subjectID, customSubjectField, customField := "", "", "";
    }

    function Accept(vc: Credential): (r: bool)
      ensures r <==> Cred1Type in vc.types
    {
      HasType(vc.types, Cred1Type)
    }

    /** Decodes `data` into this object (fields absent from `data` keep their
        value), then embeds `vc` as the base credential. */
    method Apply(vc: Credential, data: Bytes, unmarshal: Unmarshal) returns (r: Result<Cred1, string>)
      modifies this
      ensures unmarshal(Layout1, data).Failure? ==>
        r == Failure(unmarshal(Layout1, data).error) && unchanged(this)
      ensures unmarshal(Layout1, data).Success? ==>
        var f := unmarshal(Layout1, data).value;
        && r == Success(this)
        && base == vc
        && subjectID == f.subjectID.GetOr(old(subjectID))
        && customSubjectField == f.customSubjectField.GetOr(old(customSubjectField))
        && customField == f.customField.GetOr(old(customField))
    {
      var decoded := unmarshal(Layout1, data);
      if decoded.Failure? {
        return Failure(decoded.error);
      }
      var f := decoded.value;
      subjectID := f.subjectID.GetOr(subjectID);
      customSubjectField := f.customSubjectField.GetOr(customSubjectField);
      customField := f.customField.GetOr(customField);
      base := vc;
      r := Success(this);
    }
  }

  /** `Cred2`: the custom credential built by `Cred2Producer`. */
  datatype Cred2 = Cred2(base: Credential, subjectID: string, customSubjectField: string, customField: string)

  /** `Cred2Producer`: a stateless producer that builds a fresh `Cred2`. */
  datatype Cred2Producer = Cred2Producer {
    function Accept(vc: Credential): (r: bool)
      ensures r <==> Cred2Type in vc.types
    {
      HasType(vc.types, Cred2Type)
    }

    /** Decodes `data` into a zero `Cred2` and embeds `vc` as its base. */
    function Apply(vc: Credential, data: Bytes, unmarshal: Unmarshal): (r: Result<Cred2, string>)
      ensures r.Failure? <==> unmarshal(Layout2, data).Failure?
      ensures r.Failure? ==> r.error == unmarshal(Layout2, data).error
      ensures r.Success? ==>
        var f := unmarshal(Layout2, data).value;
        && r.value.base == vc
        && r.value.subjectID == f.subjectID.GetOr("")
        && r.value.customSubjectField == f.customSubjectField.GetOr("")
        && r.value.customField == f.customField.GetOr("")
    {
      match unmarshal(Layout2, data)
      case Failure(e) => Failure(e)
      case Success(f) =>
        Success(Cred2(vc, f.subjectID.GetOr(""), f.customSubjectField.GetOr(""), f.customField.GetOr("")))
    }
  }

  /** `FailingCredentialProducer`: accepts everything, never applies. */
  datatype FailingCredentialProducer = FailingCredentialProducer {
    function Accept(vc: Credential): (r: bool)
      ensures r
    {
      true
    }

    function Apply(vc: Credential, data: Bytes): (r: Result<Custom, string>)
      ensures r == Failure(FailingApplyMessage)
    {
      Failure(FailingApplyMessage)
    }
  }

  /** A registered `CustomCredentialProducer`, one variant per producer kind. */
  datatype Producer =
    | Cred1Ext(obj: Cred1)
    | Cred2Ext(producer: Cred2Producer)
    | FailingExt(failing: FailingCredentialProducer)
  {
    function Accept(vc: Credential): bool
    {
      match this
      case Cred1Ext(c) => c.Accept(vc)
      case Cred2Ext(p) => p.Accept(vc)
      case FailingExt(p) => p.Accept(vc)
    }
  }

  /** What `CreateCustomCredential` returns: the base credential or a custom one. */
  datatype Custom = Base(vc: Credential) | Custom1(cred1: Cred1) | Custom2(cred2: Cred2)

  datatype ResolveError =
    | BuildBaseFailed(cause: string)   // "build base verifiable credential: ..."
    | ApplyFailed(cause: string)       // the accepting producer's Apply error

  /** Index of the first producer at or after `from` that accepts `vc`. */
  function FirstAccepting(producers: seq<Producer>, vc: Credential, from: nat): (r: Option<nat>)
    requires from <= |producers|
    decreases |producers| - from
    ensures r.None? <==> forall i :: from <= i < |producers| ==> !producers[i].Accept(vc)
    ensures r.Some? ==>
      && from <= r.value < |producers|
      && producers[r.value].Accept(vc)
      && forall i :: from <= i < r.value ==> !producers[i].Accept(vc)
  {
    if from == |producers| then None
    else if producers[from].Accept(vc) then Some(from)
    else FirstAccepting(producers, vc, from + 1)
  }

  /** The `Cred1` objects a producer list holds (the only mutable producers). */
  function Cred1Objects(producers: seq<Producer>): set<Cred1>
  {
    set i | 0 <= i < |producers| && producers[i].Cred1Ext? :: producers[i].obj
  }

  /** `CreateCustomCredential`: build the base credential, then hand it to
      the first producer that accepts it; an `Apply` error is final. */
  method CreateCustomCredential(data: Bytes, producers: seq<Producer>, parse: CredentialParser, unmarshal: Unmarshal)
    returns (r: Result<Custom, ResolveError>)
    modifies Cred1Objects(producers)
    ensures parse(data).Failure? ==>
      r == Failure(BuildBaseFailed(parse(data).error)) && unchanged(Cred1Objects(producers))
    ensures parse(data).Success? && FirstAccepting(producers, parse(data).value, 0).None? ==>
      r == Success(Base(parse(data).value)) && unchanged(Cred1Objects(producers))
    ensures parse(data).Success? && FirstAccepting(producers, parse(data).value, 0).Some? ==>
      var vc := parse(data).value;
      match producers[FirstAccepting(producers, vc, 0).value]
      case Cred1Ext(c) =>
        && (unmarshal(Layout1, data).Failure? ==>
              r == Failure(ApplyFailed(unmarshal(Layout1, data).error)) && unchanged(Cred1Objects(producers)))
        && (unmarshal(Layout1, data).Success? ==>
              var f := unmarshal(Layout1, data).value;
              && r == Success(Custom1(c))
              && c.base == vc
              && c.subjectID == f.subjectID.GetOr(old(c.subjectID))
              && c.customSubjectField == f.customSubjectField.GetOr(old(c.customSubjectField))
              && c.customField == f.customField.GetOr(old(c.customField))
              && unchanged(Cred1Objects(producers) - {c}))
      case Cred2Ext(p) =>
        && unchanged(Cred1Objects(producers))
        && r == (match p.Apply(vc, data, unmarshal)
                 case Success(c2) => Success(Custom2(c2))
                 case Failure(e) => Failure(ApplyFailed(e)))
      case FailingExt(_) =>
        r == Failure(ApplyFailed(FailingApplyMessage)) && unchanged(Cred1Objects(producers))
  {
    var parsed := parse(data);
    if parsed.Failure? {
      return Failure(BuildBaseFailed(parsed.error));
    }
    var vc := parsed.value;
    var i := 0;
    while i < |producers|
      invariant 0 <= i <= |producers|
      invariant forall j :: 0 <= j < i ==> !producers[j].Accept(vc)
      invariant unchanged(Cred1Objects(producers))
    {
      var p := producers[i];
      if p.Accept(vc) {
        assert FirstAccepting(producers, vc, 0) == Some(i);
        match p {
          case Cred1Ext(c) =>
            var applied := c.Apply(vc, data, unmarshal);
            r := match applied
                 case Success(o) => Success(Custom1(o))
                 case Failure(e) => Failure(ApplyFailed(e));
          case Cred2Ext(c2p) =>
            r := match c2p.Apply(vc, data, unmarshal)
                 case Success(c2) => Success(Custom2(c2))
                 case Failure(e) => Failure(ApplyFailed(e));
          case FailingExt(fp) =>
            r := Failure(ApplyFailed(fp.Apply(vc, data).error));
        }
        return;
      }
      i := i + 1;
    }
    r := Success(Base(vc));
  }

  /** The assertions of the extensibility-switch test, derived from the
      contracts above. The documents are parameters; what the parser and the
      decoder make of them is stated in the requires clauses. */
  method ExtensibilitySwitchScenarios(
    parse: CredentialParser, unmarshal: Unmarshal,
    cred1Doc: Bytes, cred2Doc: Bytes, plainDoc: Bytes, invalidDoc: Bytes)
    returns (i1: Result<Custom, ResolveError>, i2: Result<Custom, ResolveError>, i3: Result<Custom, ResolveError>,
             i4: Result<Custom, ResolveError>, i5: Result<Custom, ResolveError>)
    requires parse(cred1Doc).Success? && parse(cred1Doc).value.types == ["VerifiableCredential", Cred1Type]
    requires parse(cred2Doc).Success? && parse(cred2Doc).value.types == ["VerifiableCredential", Cred2Type]
    requires parse(plainDoc).Success?
    requires Cred1Type !in parse(plainDoc).value.types && Cred2Type !in parse(plainDoc).value.types
    requires parse(invalidDoc).Failure?
    requires unmarshal(Layout1, cred1Doc).Success?
    requires unmarshal(Layout1, cred1Doc).value.customField == Some("custom field 1")
    requires unmarshal(Layout1, cred1Doc).value.customSubjectField == Some("custom subject 1")
    requires unmarshal(Layout2, cred2Doc).Success?
    requires unmarshal(Layout2, cred2Doc).value.customField == Some("custom field 2")
    requires unmarshal(Layout2, cred2Doc).value.customSubjectField == Some("custom subject 2")
    ensures i1.Success? && i1.value.Custom1?
    ensures i1.value.cred1.base.types == ["VerifiableCredential", Cred1Type]
    ensures i1.value.cred1.customField == "custom field 1" && i1.value.cred1.customSubjectField == "custom subject 1"
    ensures i2.Success? && i2.value.Custom2?
    ensures i2.value.cred2.base.types == ["VerifiableCredential", Cred2Type]
    ensures i2.value.cred2.customField == "custom field 2" && i2.value.cred2.customSubjectField == "custom subject 2"
    ensures i3 == Success(Base(parse(plainDoc).value))
    ensures i4.Failure? && i4.error.BuildBaseFailed?
    ensures i5 == Failure(ApplyFailed(FailingApplyMessage))
  {
    var c1 := new Cred1();
    var producers := [Cred1Ext(c1), Cred2Ext(Cred2Producer)];
    assert producers[0].Cred1Ext? && !producers[1].Cred1Ext?;
    assert Cred1Objects(producers) == {c1};

    // Producer 1 applied: the result is the Cred1 producer object itself.
    i1 := CreateCustomCredential(cred1Doc, producers, parse, unmarshal);
    assert i1 == Success(Custom1(c1));

    // Producer 2 applied, not the base credential.
    assert Cred1Type[8] != Cred2Type[8];
    assert FirstAccepting(producers, parse(cred2Doc).value, 0) == Some(1);
    i2 := CreateCustomCredential(cred2Doc, producers, parse, unmarshal);

    // No producer accepts: the base credential.
    i3 := CreateCustomCredential(plainDoc, producers, parse, unmarshal);

    // The base credential cannot be built.
    i4 := CreateCustomCredential(invalidDoc, producers, parse, unmarshal);

    // The only producer accepts and fails: no fallback to the base credential.
    i5 := CreateCustomCredential(plainDoc, [FailingExt(FailingCredentialProducer)], parse, unmarshal);
  }
}
