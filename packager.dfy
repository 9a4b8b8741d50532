/**
 * The DIDComm packager: a registry of packers keyed by encoding type, used
 * to pack outgoing envelopes with the outbound packer and to route incoming
 * messages to the packer named by their protected header.
 *
 * The packers' cryptography, base58 decoding, base64 decoding and JSON
 * parsing are foreign steps and appear as function parameters.
 */
module Packager {
  import opened Wrappers
  import opened Data

  /** A packer as the registry sees it: an identity and the encoding type it handles. */
  datatype Packer = Packer(name: string, encodingType: string)

  /** A transport envelope: the message and the sender's and recipients' base58 keys. */
  datatype Envelope = Envelope(message: Bytes, fromVerKey: string, toVerKeys: seq<string>)

  /** `Pack(packer, message, senderKey, recipientKeys)`. */
  type PackFn = (Packer, Bytes, Bytes, seq<Bytes>) -> Result<Bytes, string>

  /** `Unpack(packer, encMessage)`. */
  type UnpackFn = (Packer, Bytes) -> Result<Bytes, string>

  /** The decoders an encoding-type lookup relies on: a JSON parser and the
      padded and the raw (unpadded) URL-safe base64 decoders. */
  datatype Codec = Codec(parseJSON: Bytes -> Result<Json, string>,
                         decodeURL: string -> Result<Bytes, string>,
                         decodeRawURL: string -> Result<Bytes, string>)

  const EnvelopeNil := "envelope argument is nil"
  const NeedOutbound := "need outbound packer to initialize packager"
  const TypeNotRecognized := "message Type not recognized"
  const NotAString := "json: cannot unmarshal non-string into string field"
  const NotAnObject := "json: cannot unmarshal non-object into struct"

  /** Decoding a JSON value into a struct with one optional string field
      `key`: null or an absent field leaves it empty, a string fills it, any
      other value is an error. */
  function StubField(j: Json, key: string): (r: Result<string, string>)
    ensures r.Failure? <==> (j.JObject? && key in j.fields && !j.fields[key].JNull? && !j.fields[key].JString?)
                            || (!j.JObject? && !j.JNull?)
    ensures r.Success? ==>
      r.value == if j.JObject? && key in j.fields && j.fields[key].JString? then j.fields[key].s else ""
  {
    match j
    case JNull => Success("")
    case JObject(fields) =>
      if key !in fields then Success("")
      else (match fields[key]
            case JNull => Success("")
            case JString(s) => Success(s)
            case _ => Failure(NotAString))
    case _ => Failure(NotAnObject)
  }

  /** The protected header's bytes: the padded decoding when it succeeds,
      otherwise the raw one; when both fail, the padded decoder's error. */
  function HeaderBytes(codec: Codec, protected: string): (r: Result<Bytes, string>)
    ensures r.Success? <==> codec.decodeURL(protected).Success? || codec.decodeRawURL(protected).Success?
    ensures codec.decodeURL(protected).Success? ==> r == codec.decodeURL(protected)
    ensures codec.decodeURL(protected).Failure? && codec.decodeRawURL(protected).Success? ==>
      r == codec.decodeRawURL(protected)
    ensures r.Failure? ==> r.error == "decode header: " + codec.decodeURL(protected).error
  {
    var padded := codec.decodeURL(protected);
    var raw := codec.decodeRawURL(protected);
    if padded.Success? then padded
    else if raw.Success? then raw
    else Failure("decode header: " + padded.error)
  }

  /** `getEncodingType`: the `typ` of the protected header of a message. */
  function GetEncodingType(encMessage: Bytes, codec: Codec): (r: Result<string, string>)
    ensures r.Success? <==>
      && codec.parseJSON(encMessage).Success?
      && StubField(codec.parseJSON(encMessage).value, "protected").Success?
      && HeaderBytes(codec, StubField(codec.parseJSON(encMessage).value, "protected").value).Success?
      && codec.parseJSON(HeaderBytes(codec, StubField(codec.parseJSON(encMessage).value, "protected").value).value).Success?
      && StubField(codec.parseJSON(HeaderBytes(codec, StubField(codec.parseJSON(encMessage).value, "protected").value).value).value, "typ").Success?
    ensures r.Success? ==>
      r.value == StubField(codec.parseJSON(HeaderBytes(codec, StubField(codec.parseJSON(encMessage).value, "protected").value).value).value, "typ").value
    ensures codec.parseJSON(encMessage).Failure? ==> r == Failure("parse envelope: " + codec.parseJSON(encMessage).error)
  {
    var envJSON :- codec.parseJSON(encMessage).MapFailure(e => "parse envelope: " + e);
    var protected :- StubField(envJSON, "protected").MapFailure(e => "parse envelope: " + e);
    var protBytes :- HeaderBytes(codec, protected);
    var headerJSON :- codec.parseJSON(protBytes).MapFailure(e => "parse header: " + e);
    var typ :- StubField(headerJSON, "typ").MapFailure(e => "parse header: " + e);
    Success(typ)
  }

  /** A message whose envelope has a string `protected` field, which decodes
      (padded or raw) to a header with a string `typ` field `t`, has encoding
      type `t`, whatever other fields the envelope and the header carry. */
  lemma EncodingTypeIsHeaderTyp(encMessage: Bytes, codec: Codec, env: map<string, Json>, protected: string,
                                header: Bytes, h: map<string, Json>, t: string)
    requires codec.parseJSON(encMessage) == Success(JObject(env))
    requires "protected" in env && env["protected"] == JString(protected)
    requires HeaderBytes(codec, protected) == Success(header)
    requires codec.parseJSON(header) == Success(JObject(h))
    requires "typ" in h && h["typ"] == JString(t)
    ensures GetEncodingType(encMessage, codec) == Success(t)
  {
  }

  /** Registering `p` in table `t`: an existing entry for its encoding type
      is never overwritten. */
  function Register(t: map<string, Packer>, p: Packer): (r: map<string, Packer>)
    ensures r.Keys == t.Keys + {p.encodingType}
    ensures r[p.encodingType] == if p.encodingType in t then t[p.encodingType] else p
    ensures forall k :: k in t && k != p.encodingType ==> r[k] == t[k]
  {
    if p.encodingType in t then t else t[p.encodingType := p]
  }

  /** The table built by registering `ps` in order, starting empty. */
  function Table(ps: seq<Packer>): map<string, Packer>
  {
    if |ps| == 0 then map[] else Register(Table(ps[..|ps| - 1]), ps[|ps| - 1])
  }

  /** Every entry of a table is keyed by its own encoding type. */
  predicate KeyedByType(t: map<string, Packer>)
  {
    forall k :: k in t ==> t[k].encodingType == k
  }

  /** The keys of the table of `ps` are the encoding types occurring in `ps`. */
  lemma {:induction false} TableKeys(ps: seq<Packer>)
    ensures forall k :: k in Table(ps) <==> exists i :: 0 <= i < |ps| && ps[i].encodingType == k
  {
    if |ps| > 0 {
      var init := ps[..|ps| - 1];
      TableKeys(init);
      assert Table(ps).Keys == Table(init).Keys + {ps[|ps| - 1].encodingType};
      forall k ensures k in Table(ps) <==> exists i :: 0 <= i < |ps| && ps[i].encodingType == k {
        if k in Table(ps) && k != ps[|ps| - 1].encodingType {
          var i :| 0 <= i < |init| && init[i].encodingType == k;
          assert ps[i].encodingType == k;
        }
        if i :| 0 <= i < |init| && ps[i].encodingType == k {
          assert init[i].encodingType == k;
        }
      }
    }
  }

  /** The entry for `k` in the table of `ps` is the EARLIEST packer of `ps`
      with encoding type `k`. */
  lemma {:induction false} TableEntry(ps: seq<Packer>, k: string)
    requires k in Table(ps)
    ensures exists i :: && 0 <= i < |ps| && ps[i].encodingType == k && Table(ps)[k] == ps[i]
                        && forall j :: 0 <= j < i ==> ps[j].encodingType != k
  {
    var init := ps[..|ps| - 1];
    if k in Table(init) {
      TableEntry(init, k);
      var i :| && 0 <= i < |init| && init[i].encodingType == k && Table(init)[k] == init[i]
               && forall j :: 0 <= j < i ==> init[j].encodingType != k;
      assert ps[i] == init[i];
      assert forall j :: 0 <= j < i ==> ps[j] == init[j];
    } else {
      TableKeys(init);
      forall j | 0 <= j < |ps| - 1 ensures ps[j].encodingType != k {
        assert ps[j] == init[j];
      }
    }
  }

  /** The table of `ps` has one entry per encoding type occurring in `ps`,
      that entry is the EARLIEST packer of `ps` with that type, and so every
      entry is keyed by its own type. */
  lemma TableFirstWins(ps: seq<Packer>)
    ensures forall k :: k in Table(ps) <==> exists i :: 0 <= i < |ps| && ps[i].encodingType == k
    ensures forall k :: k in Table(ps) ==>
      exists i :: && 0 <= i < |ps| && ps[i].encodingType == k && Table(ps)[k] == ps[i]
                  && forall j :: 0 <= j < i ==> ps[j].encodingType != k
    ensures KeyedByType(Table(ps))
  {
    TableKeys(ps);
    forall k | k in Table(ps)
      ensures exists i :: && 0 <= i < |ps| && ps[i].encodingType == k && Table(ps)[k] == ps[i]
                          && forall j :: 0 <= j < i ==> ps[j].encodingType != k
    {
      TableEntry(ps, k);
    }
  }

  /** After `New(inbound, outbound)` the outbound packer's entry is the
      earliest inbound packer sharing its encoding type, or the outbound
      packer itself when no inbound packer shares it. */
  lemma OutboundEntry(inbound: seq<Packer>, outbound: Packer)
    ensures outbound.encodingType in Table(inbound + [outbound])
    ensures forall i :: && 0 <= i < |inbound| && inbound[i].encodingType == outbound.encodingType
                        && (forall j :: 0 <= j < i ==> inbound[j].encodingType != outbound.encodingType) ==>
      Table(inbound + [outbound])[outbound.encodingType] == inbound[i]
    ensures (forall i :: 0 <= i < |inbound| ==> inbound[i].encodingType != outbound.encodingType) ==>
      Table(inbound + [outbound])[outbound.encodingType] == outbound
  {
    var ps := inbound + [outbound];
    assert ps[..|ps| - 1] == inbound;
    TableFirstWins(inbound);
    forall i | && 0 <= i < |inbound| && inbound[i].encodingType == outbound.encodingType
               && (forall j :: 0 <= j < i ==> inbound[j].encodingType != outbound.encodingType)
      ensures Table(ps)[outbound.encodingType] == inbound[i]
    {
      var i' :| && 0 <= i' < |inbound| && inbound[i'].encodingType == outbound.encodingType
                && Table(inbound)[outbound.encodingType] == inbound[i']
                && forall j :: 0 <= j < i' ==> inbound[j].encodingType != outbound.encodingType;
      assert i' == i;
    }
  }

  /** The recipients' keys, each decoded with `decode`. */
  function Recipients(keys: seq<string>, decode: string -> Bytes): seq<Bytes>
  {
    seq(|keys|, i requires 0 <= i < |keys| => decode(keys[i]))
  }

  /** The recipient loop of `PackMessage`: one decoded key per key, in order. */
  method DecodeRecipients(keys: seq<string>, decode: string -> Bytes) returns (recipients: seq<Bytes>)
    ensures |recipients| == |keys|
    ensures forall i :: 0 <= i < |keys| ==> recipients[i] == decode(keys[i])
    ensures recipients == Recipients(keys, decode)
  {
    recipients := [];
    for i := 0 to |keys|
      invariant |recipients| == i
      invariant forall j :: 0 <= j < i ==> recipients[j] == decode(keys[j])
    {
      recipients := recipients + [decode(keys[i])];
    }
  }

  /** A packager: the outbound packer and the table of packers by encoding type. */
  class Packager {
    var packer: Option<Packer>
    var inboundPackers: map<string, Packer>

    /** Built by `New`: an outbound packer is set, it has an entry of its
        type, and every entry is keyed by its own type. */
    predicate Valid()
      reads this
    {
      && packer.Some?
      && packer.value.encodingType in inboundPackers
      && KeyedByType(inboundPackers)
    }

    /** An empty packager: no outbound packer and an empty table. */
    constructor()
      ensures packer.None? && inboundPackers == map[]
    {
      packer := None;
      inboundPackers := map[];
    }

    /** `addPacker`: the first packer registered for an encoding type stays. */
    method AddPacker(pack: Packer)
      modifies this
      ensures inboundPackers == Register(old(inboundPackers), pack)
      ensures packer == old(packer)
    {
      if pack.encodingType !in inboundPackers {
        inboundPackers := inboundPackers[pack.encodingType := pack];
      }
    }

    /** `New`: registers the inbound packers in order, then the outbound
        one; without an outbound packer there is no packager. */
    static method New(inbound: seq<Packer>, outbound: Option<Packer>) returns (r: Result<Packager, string>)
      ensures outbound.None? <==> r.Failure?
      ensures r.Failure? ==> r.error == NeedOutbound
      ensures r.Success? ==> && fresh(r.value) && r.value.Valid()
                             && r.value.packer == outbound
                             && r.value.inboundPackers == Table(inbound + [outbound.value])
    {
      var bp := new Packager();
      for i := 0 to |inbound|
        invariant bp.packer.None?
        invariant bp.inboundPackers == Table(inbound[..i])
      {
        assert inbound[..i + 1][..i] == inbound[..i];
        bp.AddPacker(inbound[i]);
      }
      assert inbound[..|inbound|] == inbound;
      bp.packer := outbound;
      if bp.packer.None? {
        return Failure(NeedOutbound);
      }
      bp.AddPacker(bp.packer.value);
      assert (inbound + [outbound.value])[..|inbound|] == inbound;
      TableFirstWins(inbound + [outbound.value]);
      r := Success(bp);
    }

    /** `PackMessage`: fails on a nil envelope; otherwise packs the message
        with the outbound packer for the decoded recipient keys, in order. */
    method PackMessage(messageEnvelope: Option<Envelope>, base58: string -> Bytes, pack: PackFn)
      returns (r: Result<Bytes, string>)
      requires Valid()
      ensures messageEnvelope.None? ==> r == Failure(EnvelopeNil)
      ensures messageEnvelope.Some? ==>
        var env := messageEnvelope.value;
        var packed := pack(packer.value, env.message, base58(env.fromVerKey), Recipients(env.toVerKeys, base58));
        r == if packed.Failure? then Failure("pack: " + packed.error) else packed
    {
      if messageEnvelope.None? {
        return Failure(EnvelopeNil);
      }
      var env := messageEnvelope.value;
      var recipients := DecodeRecipients(env.toVerKeys, base58);
      var packed := pack(packer.value, env.message, base58(env.fromVerKey), recipients);
      if packed.Failure? {
        return Failure("pack: " + packed.error);
      }
      r := packed;
    }

    /** `UnpackMessage`: looks up the packer for the header's type and
        delegates to exactly that packer. */
    method UnpackMessage(encMessage: Bytes, codec: Codec, unpack: UnpackFn) returns (r: Result<Envelope, string>)
      ensures GetEncodingType(encMessage, codec).Failure? ==>
        r == Failure("getEncodingType: " + GetEncodingType(encMessage, codec).error)
      ensures GetEncodingType(encMessage, codec).Success? && GetEncodingType(encMessage, codec).value !in inboundPackers ==>
        r == Failure(TypeNotRecognized)
      ensures GetEncodingType(encMessage, codec).Success? && GetEncodingType(encMessage, codec).value in inboundPackers ==>
        var unpacked := unpack(inboundPackers[GetEncodingType(encMessage, codec).value], encMessage);
        r == if unpacked.Failure? then Failure("unpack: " + unpacked.error) else Success(Envelope(unpacked.value, "", []))
    {
      var encType := GetEncodingType(encMessage, codec);
      if encType.Failure? {
        return Failure("getEncodingType: " + encType.error);
      }
      if encType.value !in inboundPackers {
        return Failure(TypeNotRecognized);
      }
      var p := inboundPackers[encType.value];
      var bytes := unpack(p, encMessage);
      if bytes.Failure? {
        return Failure("unpack: " + bytes.error);
      }
      r := Success(Envelope(bytes.value, "", []));
    }
  }
}
