# Presentation exchange, credential extensions, DIDComm packager and store contract

A Dafny model of four pieces of aries-framework-go:

- **`presexch.Match`**: matches a verifiable presentation's Presentation Submission
  against a presentation definition. The order of checks is:
  1. The JSON-LD context, then the JSON-LD type.
  2. The shape of `presentation_submission.descriptor_map`.
  3. For each mapping, in order: the mapping's id is known, its credential is selected
     by path, and the credential's context meets the descriptor's schema URIs.
     The result map is filled in place, so a later mapping with the same id overwrites
     an earlier one.
  4. Every input descriptor id is covered.

  The first check that fails ends the match.

  The method `Match` is proved equal to `MatchSpec`, a function that composes these stages:
  - `CheckJSONLDContextType`, then `ParseDescriptorMap`;
  - `ResolveFrom`, the pass over the mappings from a given index with the entries gathered so far. Each step is `ResolveMapping`, wrapped as a function value by `MappingStep`;
  - `FirstUncovered`, the coverage check.

  `LastMappingFor(dm, from, i, k)` says that mapping `i` is the last one at or after `from` that names `k`. The lemmas about `Match` are stated over `MatchSpec`.
- **The credential-extension switch** (`CreateCustomCredential`): parses a base credential and hands it to the
  first registered producer that accepts it. It covers the producers `Cred1`, `Cred2Producer` and
  `FailingCredentialProducer`:
  - `Cred1` is an object that decodes into itself.
  - `Cred2Producer` builds a fresh `Cred2`.
  - `FailingCredentialProducer` accepts everything and always fails.
- **The DIDComm `Packager`**: a table of packers keyed by encoding type, where the first registration
  wins. It packs with the outbound packer and unpacks with the packer named by the `typ` of the
  message's protected header.
- **The key-value store contract** from the store test. A `Provider` of named `Store`s, each a
  mutable table. Keys must be non-empty and values non-nil. A `StoreIterator` walks the half-open
  range `[start, end)` in lexicographic key order.

Modules:
- `Wrappers`: `Option` and `Result`.
- `Data`: bytes and the untyped JSON tree.
- `Verifiable`.
- `PresExch`.
- `Packager`.
- `Storage`.

How the source takes each form in the model:
- **Stateful code becomes classes:**
  - `Cred1`;
  - `Packager` with its `inboundPackers` map;
  - `Store`, `Provider` and `StoreIterator`.
- **Loops become methods with loop invariants, proved against specification functions:**
  - `Match` against `MatchSpec`;
  - `EvalSubmissionRequirements`;
  - `CreateCustomCredential` against `FirstAccepting`;
  - `Packager.New` against `Table`;
  - the recipient loop;
  - the `Next` loops.
- **Pure searches become functions:** `stringsContain`, `stringsIntersect`, `descriptorIDs`,
  `inputDescriptor` and `hasType`.

Foreign steps are function parameters:
- JSONPath selection with credential parsing;
- `ParseCredential`;
- `json.Unmarshal` into a custom credential;
- base58, base64 and JSON decoding;
- `Pack` and `Unpack`.

## Model

| member | source | states |
|---|---|---|
| PresExch.StringsContain | pkg/doc/presexch/api.go:280-288 | true exactly when the value occurs in the list |
| PresExch.StringsIntersect | pkg/doc/presexch/api.go:290-300 | true exactly when some `a[i] == b[j]` |
| PresExch.DescriptorIDs | pkg/doc/presexch/api.go:242-250 | same length as the descriptors, and the i-th id is the i-th descriptor's id |
| PresExch.InputDescriptorOf | pkg/doc/presexch/api.go:194-202 | the first descriptor with that id, or none exactly when no descriptor has it |
| PresExch.CheckJSONLDContextType | pkg/doc/presexch/api.go:204-214 | passes exactly when both the submission context and the submission type are present; a missing context is reported before a missing type |
| PresExch.DecodeMappings | pkg/doc/presexch/api.go:227-239 | decoding the descriptor map succeeds exactly when every element decodes; the result keeps length and order, each element the decoding of the item at its position; on failure some element does not decode, and the error is `MalformedDescriptorMap` |
| PresExch.ParseDescriptorMap | pkg/doc/presexch/api.go:216-240 | a missing or non-object `presentation_submission` and a missing or non-array `descriptor_map` are each reported; on success, one decoded mapping per array element |
| PresExch.ResolveMapping | pkg/doc/presexch/api.go:141-168 | an id naming no descriptor is rejected with that id; for a known id a failed selection is `SelectionFailed` with the selector's error; a selected credential is accepted exactly when its context shares an element with the descriptor's schema URIs, and otherwise rejected with `SchemaMismatch` naming the descriptor, its URIs and the credential's context; on success the credential is the one selected by the path |
| PresExch.FirstUncovered | pkg/doc/presexch/api.go:184-189 | none exactly when every id is matched; otherwise the first unmatched id in descriptor order |
| PresExch.EvalSubmissionRequirements | pkg/doc/presexch/api.go:180-192 | no error exactly when every input descriptor id is matched; otherwise the error names the first unmatched id in descriptor order |
| PresExch.Match | pkg/doc/presexch/api.go:105-177 | equals the gate-by-gate specification `MatchSpec`; a missing context or type fails the match, context first; a malformed submission fails it; on success the keys are exactly the descriptor ids and every credential conforms to its descriptor's schema |
| PresExch.ResolveFromKeys | pkg/doc/presexch/api.go:139-169 | a successful pass has as keys exactly the ids of the mappings |
| PresExch.ResolveFromEntry | pkg/doc/presexch/api.go:141-168 | after a successful pass each entry holds the credential of the last mapping naming that id (a later duplicate overwrites an earlier one) |
| PresExch.ResolveFromFails | pkg/doc/presexch/api.go:141-165 | the pass fails exactly when some mapping fails, with the error of the first failing mapping |
| PresExch.MatchEntry | pkg/doc/presexch/api.go:151-168 | each entry of a successful match conforms to its descriptor's schema and was selected by the path of the last mapping naming its id |
| PresExch.MatchSucceeds | pkg/doc/presexch/api.go:114-177 | a successful match had the submission context and type, has exactly one entry per input descriptor id, and each entry's credential shares a context with its descriptor's schema URIs |
| PresExch.MatchEntryConforms | pkg/doc/presexch/api.go:145-168 | each key of a successful match names an input descriptor, and its credential conforms to that descriptor's schema |
| PresExch.MatchKeepsLastMapping | pkg/doc/presexch/api.go:139-169 | each entry of a successful match was selected by the last mapping naming its id: a later duplicate id overwrites an earlier one |
| PresExch.ConformsNamesDescriptor | pkg/doc/presexch/api.go:156-164 | a credential that passes the schema check for an id does so through an input descriptor with that id |
| PresExch.MatchCoversDescriptors | pkg/doc/presexch/api.go:171-192 | a successful match has an entry for every input descriptor id |
| PresExch.MatchReportsFirstBadMapping | pkg/doc/presexch/api.go:141-164 | with a valid envelope and descriptor map, one failing mapping fails the match, which reports the error of the first failing mapping |
| PresExch.MatchRejectsUnknownID | pkg/doc/presexch/api.go:145-149 | a mapping whose id names no input descriptor makes the match fail |
| PresExch.MatchAcceptsConformingSubmission | pkg/doc/presexch/api.go:114-192 | a presentation with both submission markers, whose every mapping names an input descriptor and selects a credential conforming to it, and which maps every input descriptor, is accepted |
| PresExch.MatchReportsFirstUncovered | pkg/doc/presexch/api.go:171-192 | when every mapping resolves, the match succeeds exactly when every descriptor id is mapped; otherwise it reports the first unmapped id |
| PresExch.ResolvesEveryMapping | pkg/doc/presexch/api.go:139-169 | when every mapping resolves, the pass over the mappings succeeds and its keys are exactly the mapped ids |
| PresExch.FirstUncoveredByDescriptor | pkg/doc/presexch/api.go:180-192 | the coverage check finds nothing exactly when every descriptor id is mapped, and otherwise names the first descriptor whose id is unmapped |
| Verifiable.HasType | pkg/doc/verifiable/credential_extension_switch_test.go:160-168 | true exactly when the type is in the list |
| Verifiable.Cred1.constructor | pkg/doc/verifiable/credential_extension_switch_test.go:141-143 | a zero `Cred1` |
| Verifiable.Cred1.Accept | pkg/doc/verifiable/credential_extension_switch_test.go:96-98 | true exactly when the types contain "CredType1" |
| Verifiable.Cred1.Apply | pkg/doc/verifiable/credential_extension_switch_test.go:100-109 | a decode error is returned and the receiver is left unchanged (a failed decode is taken as atomic); otherwise the decoded fields overwrite the receiver's (fields absent from the JSON keep their value), the base credential is embedded, and the receiver itself is returned |
| Verifiable.Cred2Producer.Accept | pkg/doc/verifiable/credential_extension_switch_test.go:124-126 | true exactly when the types contain "CredType2" |
| Verifiable.Cred2Producer.Apply | pkg/doc/verifiable/credential_extension_switch_test.go:128-139 | fails exactly when decoding fails, with its error; otherwise a fresh `Cred2` with the decoded fields and the base credential embedded |
| Verifiable.FailingCredentialProducer.Accept | pkg/doc/verifiable/credential_extension_switch_test.go:152-154 | accepts every credential |
| Verifiable.FailingCredentialProducer.Apply | pkg/doc/verifiable/credential_extension_switch_test.go:156-158 | always fails with "failed to apply credential extension" |
| Verifiable.FirstAccepting | pkg/doc/verifiable/credential_extension_switch_test.go:205-230 | the index of the first accepting producer, or none exactly when no producer accepts |
| Verifiable.CreateCustomCredential | pkg/doc/verifiable/credential_extension_switch_test.go:205-242 | a parse failure is a base-build error; no accepting producer gives the base credential; otherwise the FIRST accepting producer's `Apply` decides, and its error is final; only that producer's object changes |
| Verifiable.ExtensibilitySwitchScenarios | pkg/doc/verifiable/credential_extension_switch_test.go:170-243 | with the test's two producers: a "CredType1" credential yields the `Cred1` object carrying the base credential and custom fields 1, a "CredType2" credential yields a `Cred2` with custom fields 2, a credential of neither type yields the base credential, an unparsable document is a base-build error, and a lone failing producer's error is final |
| Packager.StubField | pkg/didcomm/packager/packager.go:96-110 | decoding one optional string field: fails exactly on a field value that is neither a string nor null, or on a document that is neither an object nor null; on success the result is the field's string when the field holds one, and empty otherwise |
| Packager.HeaderBytes | pkg/didcomm/packager/packager.go:112-124 | the padded URL decoding when it succeeds, else the raw one; fails only when both fail, with the padded decoder's error |
| Packager.GetEncodingType | pkg/didcomm/packager/packager.go:104-134 | succeeds exactly when the envelope parses, its `protected` header decodes and parses and has a string `typ`; the result is then the header's `typ` string (empty when absent or null); an unparsable envelope is reported as such |
| Packager.EncodingTypeIsHeaderTyp | pkg/didcomm/packager/packager.go:104-134 | any envelope object whose string `protected` field decodes, padded or raw, to a header object whose `typ` field is the string `t` has encoding type `t`, whatever other fields the envelope and the header carry |
| Packager.Register | pkg/didcomm/packager/packager.go:63-67 | the key set gains the packer's type; an existing entry for that type is kept, otherwise the new packer is entered; all other entries are unchanged |
| Packager.TableKeys | pkg/didcomm/packager/packager.go:49-58 | the table of a packer list is keyed by exactly the encoding types in the list |
| Packager.TableEntry | pkg/didcomm/packager/packager.go:49-58 | the entry for a type in the table is the earliest packer in the list with that type |
| Packager.TableFirstWins | pkg/didcomm/packager/packager.go:49-58 | the table of a packer list has one entry per encoding type in the list, holding the EARLIEST packer of that type; every entry is keyed by its own type |
| Packager.OutboundEntry | pkg/didcomm/packager/packager.go:53-58 | the outbound packer's type is in the table; its entry is the earliest inbound packer of that type, or the outbound packer when no inbound packer shares the type |
| Packager.DecodeRecipients | pkg/didcomm/packager/packager.go:75-86 | one decoded key per recipient key, in order |
| Packager.Packager.constructor | pkg/didcomm/packager/packager.go:44-47 | no outbound packer and an empty table |
| Packager.Packager.AddPacker | pkg/didcomm/packager/packager.go:63-67 | the table becomes `Register(old table, packer)`; the outbound packer is unchanged |
| Packager.Packager.New | pkg/didcomm/packager/packager.go:43-61 | fails exactly when there is no outbound packer; otherwise a new packager whose table registers the inbound packers in order and then the outbound one |
| Packager.Packager.PackMessage | pkg/didcomm/packager/packager.go:70-94 | a nil envelope is refused with "envelope argument is nil"; otherwise the outbound packer's result for the decoded sender key and recipient keys, a failure wrapped as "pack: ..." |
| Packager.Packager.UnpackMessage | pkg/didcomm/packager/packager.go:137-154 | a header-type error is wrapped; a type with no entry gives "message Type not recognized"; otherwise exactly the packer of that type unpacks the message |
| Storage.BelowIsStrictTotalOrder | pkg/storage/store_test.go:203-234 | the key order is irreflexive, asymmetric, transitive and total |
| Storage.LeastOfInsert | pkg/storage/store_test.go:203-234 | adding a key to a set with least element `m` gives least element the new key if it is below `m`, else `m` |
| Storage.LeastExists | pkg/storage/store_test.go:203-234 | every non-empty key set has a least key, so an ascending listing can always be started |
| Storage.SortedKeys | pkg/storage/store_test.go:203-234 | a strictly ascending listing of exactly the given keys |
| Storage.AscendingListingUnique | pkg/storage/store_test.go:203-234 | two strictly ascending listings of the same keys are equal, so iteration order is determined |
| Storage.ListingLength | pkg/storage/store_test.go:121-135 | a strictly ascending listing has as many elements as the set of keys it lists |
| Storage.StoreIterator.Key | pkg/storage/store_test.go:128-133 | the current key, or empty when on no entry |
| Storage.StoreIterator.Value | pkg/storage/store_test.go:128-133 | the stored value of the current key, or empty when on no entry |
| Storage.StoreIterator.Error | pkg/storage/store_test.go:289-293 | set exactly when the iterator is released |
| Storage.StoreIterator.Next | pkg/storage/store_test.go:280-290 | moves to the following entry and is true exactly when there is one; a released iterator does not move and is false |
| Storage.StoreIterator.Release | pkg/storage/store_test.go:289-293 | afterwards there is no current entry, `Key` and `Value` are empty and `Error` is set |
| Storage.Drain | pkg/storage/store_test.go:128-135 | a fresh iterator yields its listing once, in order, each key with its stored value |
| Storage.VerifyItr | pkg/storage/store_test.go:275-294 | drains the iterator, then after `Release` `Next` is false, `Key` and `Value` are empty and `Error` is set |
| Storage.Store.Get | pkg/storage/store_test.go:40-83 | the stored value; an empty key and a missing key are errors, a missing key being `ErrDataNotFound` |
| Storage.Store.Put | pkg/storage/store_test.go:40-83 | stores the value under the key, replacing an earlier one, so `Get` returns it; an empty key or a nil value is refused and changes nothing; other keys are unaffected |
| Storage.Store.Delete | pkg/storage/store_test.go:236-271 | an empty key is refused with "key is mandatory"; otherwise the key is removed (an absent key is no error) and `Get` reports it not found; other keys are unaffected |
| Storage.Store.Iterator | pkg/storage/store_test.go:203-234 | a fresh iterator listing, in ascending order, exactly the stored keys `k` with `start <= k < end`, with their values |
| Storage.Provider.OpenStore | pkg/storage/store_test.go:154-201 | reopening a name gives the same store; a new name gives a new empty store; different names never share a store |
| Storage.UnderscoreKeysInRange | pkg/storage/store_test.go:121 | every key starting with "_key_" lies in `["_key", "_key" + EndKeySuffix)` |
| Storage.AbcPrefixListing | pkg/storage/store_test.go:217-218 | over the test's seven keys, `["abc_", "abc_" + EndKeySuffix)` lists the four "abc_" keys in order |
| Storage.BeforeDabListing | pkg/storage/store_test.go:220-221 | `["", "dab_123")` lists the four "abc_" keys |
| Storage.EmptyEndListing | pkg/storage/store_test.go:223-227 | any range ending at "" lists nothing |
| Storage.ThroughMnoListing | pkg/storage/store_test.go:229-230 | `["abc_", "mno_" + EndKeySuffix)` lists all seven keys in order |
| Storage.BeforeMnoListing | pkg/storage/store_test.go:232-233 | `["abc_", "mno_123")` lists all keys but "mno_123" |
| Storage.PutIteratorTestKeys | pkg/storage/store_test.go:210-215 | after the put loop the store holds exactly the seven keys |
| Storage.CheckIteratorTestRange | pkg/storage/store_test.go:217-233 | each range of the iterator test yields exactly its expected listing |
| Storage.IteratorScenario | pkg/storage/store_test.go:203-234 | the six ranges yield 4, 4, 0, 0, 7 and 6 keys, and the first range, `["abc_", "abc_" + EndKeySuffix)`, yields only keys that start with "abc_" |
| Storage.PutAndGetScenario | pkg/storage/store_test.go:31-83 | a put value reads back, later puts replace it, an unknown key is not found, and empty keys and nil values are refused |
| Storage.MultiStoreScenario | pkg/storage/store_test.go:154-201 | a put in "store-1" is not seen in "store-2", and reopening "store-1" sees it |
| Storage.DeleteScenario | pkg/storage/store_test.go:236-271 | deleting "" fails with "key is mandatory", deleting an absent key succeeds, and a deleted key is not found |
| Storage.UnderscoreKeyScenario | pkg/storage/store_test.go:94-152 | a key prefixed with an underscore reads back and, once deleted, is not found |
| Storage.UnderscoreIterationScenario | pkg/storage/store_test.go:106-136 | over keys that all start with "_key_", the iteration yields every stored key once, each with its stored value |

## Left out

- The `MatchOption` closures (pkg/doc/presexch/api.go:84-112) are left out. They only collect parser options for `ParseCredential`.
- The JSON round trip of the presentation (pkg/doc/presexch/api.go:119-129) is left out.
- `selectByPath` (pkg/doc/presexch/api.go:255-278) is the `Selector` parameter. This covers JSONPath compilation and evaluation, re-marshalling and `ParseCredential`.
  - These are foreign libraries, and any of those steps may fail.
  - A failure is reported as `SelectionFailed`.
- PresExch.Match: the model requires that, for every input descriptor id, the FIRST descriptor with that id has a schema (`SchemasPresent`). These are the only descriptors `inputDescriptor` returns (api.go:194-202), and `Match` dereferences their `Schema` without a nil check (api.go:159). A later descriptor repeating an id may lack a schema. On an excluded input Go either panics, when the loop reaches a mapping for such an id, or returns an ordinary error before that. The errors are: a missing submission context or type (api.go:114-117), a descriptor-map parse error (api.go:133-137), an earlier mapping with an unknown id, a failed selection or a schema mismatch (api.go:145-164), or, when no mapping names the id, the coverage check (api.go:184-188). No excluded input succeeds in Go.
- PresExch.Match: the model requires no `null` element in `descriptor_map`. `null` decodes to a nil mapping, and `Match` panics when the loop reaches it (api.go:145). The requires also excludes inputs on which Go returns an ordinary error before reaching that element, such as a missing submission context or type (api.go:114-117) or an earlier mapping that fails (api.go:145-164).
- PresExch.Match: a nil `*InputDescriptor` element of `InputDescriptors` (a JSON `null` in the definition) is not representable, since descriptors are values. On such an input `descriptorIDs` panics (api.go:131, 246) once the context and type check has passed.
- Error messages in `presexch` are constructors of `MatchError`, not formatted text. The wrapping prefixes ("failed to parse descriptor map: ..." and so on) are not modelled.
- PresExch.DecodeMapping: Go's case-insensitive matching of JSON keys is not modelled; the keys `id` and `path` must match exactly.
- Packager.StubField: Go's case-insensitive matching of JSON keys is not modelled. Go would also accept, say, "Protected" for `protected` and "TYP" for `typ` (packager.go:97, 101, 107, 128); the model matches keys exactly.
- Verifiable.Cred1.Apply: a failed decode is modelled as atomic. Go's `json.Unmarshal` keeps decoding after a type mismatch, so fields decoded before the error are already written into the receiver (credential_extension_switch_test.go:101-104); the model leaves the receiver unchanged on any decode error.
- Constraints and submission-requirement rules are not evaluated. Both are unimplemented in the source.
- `CreateCustomCredential` and `ParseCredential` live in pkg/doc/verifiable/credential.go, which is not part of this model.
  - The dispatch is modelled from the assertions of `TestCredentialExtensibilitySwitch`.
  - Parsing is the `CredentialParser` parameter.
  - JSON-LD loading, proof checking and the test's HTTP server are left out.
- `json.Unmarshal` into a custom credential is the `Unmarshal` parameter. It reports, per field, whether the key was present.
- Packer cryptography (`Pack`, `Unpack`) is left out. So are base58, base64 and JSON decoding; these are parameters.
- The `Provider` interface of the packager is replaced by the inbound list and an optional outbound packer. A nil inbound packer, on which the source would panic, is not representable.
- Packager.Packager.PackMessage requires a packager built by `New`. A zero `Packager` has a nil outbound packer, which the source would dereference.
- Packager.Packager.UnpackMessage returns an envelope with only the message set. The source leaves the sender and recipient keys unset.
- Error messages of the packager are strings. JSON decoding errors are represented by fixed texts.
- The storage backends are not shown. The model is an in-memory store that meets the test's assertions:
  - values are snapshotted when an iterator is created;
  - `CloseStore`, concurrency (`t.Parallel`) and uuid randomness are left out;
  - randomly generated data is a method parameter.
- `EndKeySuffix` is not shown. It is a parameter: a non-empty string whose first character sorts after '_'.
- The error returned by `Get("")` is not pinned down by the test; the model uses `ErrKeyMandatory`.
- Storage.UnderscoreIterationScenario: states that the count equals the number of stored keys rather than the literal 20, because decimal formatting of the twenty keys is not modelled.
- Store names are case-sensitive map keys. The uppercase-name test (store_test.go:85-92) only needs `OpenStore` to succeed, which it always does.
