# A verified model of the SD-JWT, JAdES and EUDI components

This Dafny project models the parts of the repository whose correctness is hard to see from reading one function, and proves
their central properties for all inputs. Each module follows one component:

- **SD-JWT packing and its readers.** `Packing` says what `pack` computes; `Packer` is the imperative run with its threaded
  sets; `PackLedger`, `DigestLedger` and `Embedding` prove what a run leaves behind. `Collecting`, `Presenting`, `Disclosing`
  and `Collector` treat `collectPresentClaims` under every subset of the disclosures; `Mandatory`, `Presence`,
  `PackedEntries`, `WalkEnds`, `Verdicts` and `Lasting` the three-valued verdict on mandatory claims; `ClaimReport` the
  report against type metadata. `Unpacking`, `Unpacker`, `RoundTrip` and `UnpackTheorems` show when `unpackObj` undoes
  `pack`. `CompactForm` is the compact form and the string behind `sd_hash`, `Verifying` the two verification flows.
- **JAdES.** `JadesHeader` holds the header checks, `JadesToken` the builder as a class with every setter, and
  `JadesVerifier` the independent parser that must rebuild the signed string in three serializations.
- **Attestation schemas.** `SchemaWalker` walks schema graphs that may be cyclic, `SchemaClaims` says exactly which paths
  that gives, `DcqlBuilder` deduplicates claims and assigns references, `MetadataMerge` merges type metadata along `extends`
  chains.
- **Registration.** `JsonValues`, `ClaimsPaths` and `OverAsking` treat the over-asking check and what it means for documents.
- **Codecs and dates.** `Base64`, `Pem` and `Splitting` are the hand-written scanners, `Calendar` the date arithmetic.

Hashing, signing, JSON text and UTF-8 are function parameters. A digest function is not assumed to be injective: `pack`
itself throws on a repeated digest, so a run that succeeds has different digests, which is proved. JavaScript's thrown errors
are the error side of an `Outcome`; awaited callbacks are called in sequence.

Where the repository promises something the code does not do, the code is followed, the failing inputs are named, and the
exact condition is proved:

- A selectively disclosable object member with the empty name is written without its key, so it cannot be disclosed
  (`Disclosing.AllRevealed`, `UnpackTheorems.PackRoundTrip`, `UnpackTheorems.EmptyNameIsRejected`).
- `setDetached` with a valid `sigD` and a payload that JSON cannot express throws after it has changed the token
  (`JadesToken.ThrowingCallIsUndone`, `JadesToken.DetachCanHalfSucceed`).
- `setSigningTime` and `setLegacySigningTime` delete the other time from a copy of the header, but the merge in
  `setProtectedHeader` restores it (`JadesToken.LegacyTimeStays`, `JadesToken.SigningTimeStays`).
- A `sigD` or `b64` that is set to `undefined`, like any undefined parameter the caller lists in `crit`, is critical, can be
  signed, and is never accepted (`JadesHeader.SignedHeaderIsAccepted`, `JadesVerifier.UndefinedB64IsSigned` with
  `JadesVerifier.CompleteButB64Exists`, `JadesVerifier.UndefinedCriticalIsRejected`).
- The `_sd_alg` member of a payload counts as a present mandatory claim, but is not among the collected claims
  (`Presence.PresentIsCollected`, `Presence.AlgIsPresentOnly`).
- A `null` of a registered claims path covers a requested member name, although it selects array elements only
  (`OverAsking.CoveringIsContainment`, `OverAsking.NullCoversName`).
- The comment at the frame types shows array positions as strings (`["0", "1"]`), but `pack` compares numbers, so such a
  frame hides nothing (`PackLedger.NamesHideNoElement`; `PackLedger.PackLayout` says what a frame hides).

Nothing is promised of how a present verdict on a claim with null segments fares as more is disclosed: it can turn missing
(`Mandatory.NullCanTurnMissing`), and `Lasting.PresentIsLasting` says exactly when it does not.


## Model

| member | source | states |
|---|---|---|
| `Sorting.SortSorts` | packages/sd-jwt-core/src/sdjwt.ts:345-347 | The embedded `_sd` array is an ascending permutation of the digests of the layer. |
| `Sorting.SortHidesOrder` | packages/sd-jwt-core/src/sdjwt.ts:345-347 | The sorted array depends only on which digests there are: it says nothing about the order of the claims or which digests are decoys. |
| `PackLedger.PackLayout` | packages/sd-jwt-core/src/sdjwt.ts:221-349 | What `pack` builds has one slot for each child of the claims, in order, hidden exactly if the frame lists it in `_sd`, and as many decoys as asked. |
| `PackLedger.NamesHideNoElement` | packages/sd-jwt-core/src/sdjwt.ts:263-292 | In an array, names in `_sd` hide nothing, even when they look like positions. |
| `PackLedger.PackSigned` | packages/sd-jwt-core/src/sdjwt.ts:282-333 | Every embedded digest is the digest of the disclosure for its slot, whose value already contains what was packed below it. |
| `PackLedger.PackGathers` | packages/sd-jwt-core/src/sdjwt.ts:243-349 | The flat list of disclosures holds exactly those of the slots: any sum over the list equals the sum over the tree. |
| `PackLedger.PackGains` | packages/sd-jwt-core/src/sdjwt.ts:23-40 | The threaded sets of salts and digests grow by exactly the salts and digests of the tree, none of which was there before. |
| `DigestLedger.Conservation` | packages/sd-jwt-core/src/sdjwt.ts:221-349 | The payload and the values of the disclosures together embed each digest exactly as often as the tree has it. |
| `DigestLedger.PackBackward` | packages/sd-jwt-core/src/sdjwt.ts:247-333 | Whatever is embedded in the value of a disclosure is a decoy or the digest of an earlier disclosure of the list. |
| `DigestLedger.Ledger` | packages/sd-jwt-core/src/sdjwt.ts:221-349 | The ledger: every string is embedded as often as it is a disclosure digest or a decoy, at most once; salts differ; the decoys number what the frame asks for; disclosures refer backwards only. |
| `Packer.PackRun.CreateDisclosureSalt` | packages/sd-jwt-core/src/sdjwt.ts:23-33 | Draws one salt, or throws if it is no string or was seen, leaving what was drawn and seen as the specification says. |
| `Packer.PackRun.AddDisclosureDigest` | packages/sd-jwt-core/src/sdjwt.ts:35-40 | Records a new digest, or throws on a repeated one. |
| `Packer.PackRun.Disclose` | packages/sd-jwt-core/src/sdjwt.ts:282-333 | Salt, disclosure and digest for one child, with every error in the order of the code. |
| `Packer.PackRun.CreateDecoys` | packages/sd-jwt-core/src/sdjwt.ts:294-298 | The loop draws as many decoys as asked, and throws at the first repeated digest. |
| `Packer.PackRun.Pack` | packages/sd-jwt-core/src/sdjwt.ts:221-237 | The imperative run gives the payload and disclosures of the specification and leaves its salts and digests, or throws the same error. |
| `Packer.PackRun.PackFramed` | packages/sd-jwt-core/src/sdjwt.ts:239-349 | The same for claims with a frame. |
| `Packer.PackRun.PackSubFrames` | packages/sd-jwt-core/src/sdjwt.ts:247-261 | The loop over the nested frames. |
| `Packer.PackRun.PackNested` | packages/sd-jwt-core/src/sdjwt.ts:308-318 | One nested frame, packed with the same threaded sets. |
| `Packer.PackRun.PackLayer` | packages/sd-jwt-core/src/sdjwt.ts:263-299 | The loop over the claims of one layer, then the decoys: items, members and `_sd` digests pushed in order. |
| `Embedding.EmitIsNoPlaceholder` | packages/sd-jwt-vc/src/type-metadata-verification.ts:36-44 | Nothing that `pack` leaves open looks like the digest of a hidden array element. |
| `Embedding.EmittedDigestList` | packages/sd-jwt-vc/src/type-metadata-verification.ts:74-75 | A reader finds in the `_sd` member exactly the sorted digests of the layer. |
| `Presenting.Shown` | packages/sd-jwt-vc/src/type-metadata-verification.ts:46-85 | Among the claims collected from a packed payload each shown path occurs once, marked as selectively disclosable exactly if hidden, and nothing else occurs. |
| `Presenting.Below` | packages/sd-jwt-vc/src/type-metadata-verification.ts:46-85 | No claim is collected at or above the node where collecting starts. |
| `Disclosing.OneDisclosurePerListedPath` | packages/sd-jwt-core/src/sdjwt.ts:221-349 | There is one disclosure for each path of the claims that the frame lists, under the name of its last segment and with the embedded digest; different paths have different digests; there are no other disclosures. |
| `Disclosing.ChosenAgrees` | packages/sd-jwt-core/src/sdjwt.ts:221-349 | Any choice of the issued disclosures says, of every slot, what was issued for it, and never resolves a decoy. |
| `Disclosing.CollectsRevealedClaims` | packages/sd-jwt-vc/src/type-metadata-verification.ts:46-85 | For every subset of the disclosures the collected claims are, once each and with the right mark, the original paths all of whose listed prefixes are revealed and not named by the empty string. |
| `Disclosing.AllRevealed` | packages/sd-jwt-vc/src/type-metadata-verification.ts:46-85 | With all disclosures every path comes back if and only if no listed claim has the empty name (such a disclosure is written without its key). |
| `Collector.GroundedCollectsAlike` | packages/sd-jwt-vc/src/type-metadata-verification.ts:46-85 | Where following disclosures ends, the claims do not depend on how deep one is prepared to follow them. |
| `Collector.PackedIsGrounded` | packages/sd-jwt-vc/src/type-metadata-verification.ts:46-85 | Following disclosures inside disclosures of a packed payload always ends. |
| `Collector.ClaimCollector.Visit` | packages/sd-jwt-vc/src/type-metadata-verification.ts:49-82 | The visit appends to the list exactly the claims of the specification. |
| `Collector.ClaimCollector.VisitArray` | packages/sd-jwt-vc/src/type-metadata-verification.ts:52-64 | The loop over array elements, with original indices. |
| `Collector.ClaimCollector.VisitRecord` | packages/sd-jwt-vc/src/type-metadata-verification.ts:67-72 | The loop over the members, skipping `_sd` and, at the root, `_sd_alg`. |
| `Collector.ClaimCollector.VisitDigests` | packages/sd-jwt-vc/src/type-metadata-verification.ts:74-80 | The loop over the `_sd` digests that have a disclosure with a key. |
| `Collector.CollectPresentClaims` | packages/sd-jwt-vc/src/type-metadata-verification.ts:46-85 | The collected list as a whole. |
| `Mandatory.Worst` | packages/sd-jwt-vc/src/type-metadata-verification.ts:134-142 | The status of several children is missing if any is, and present only if all are. |
| `Mandatory.MandatoryClaimStatus` | packages/sd-jwt-vc/src/type-metadata-verification.ts:123-154 | The recursive walk with its early return computes the three-valued verdict. |
| `Mandatory.WalkNode` | packages/sd-jwt-vc/src/type-metadata-verification.ts:132-151 | One node of the walk: the loop stops at the first missing child. |
| `Mandatory.MissingIsFinal` | packages/sd-jwt-vc/src/type-metadata-verification.ts:123-154 | With no `never` prefix, a claim that is missing stays missing under every larger set of disclosures, null segments included. |
| `Mandatory.PresentIsFinal` | packages/sd-jwt-vc/src/type-metadata-verification.ts:123-154 | A null-free claim that is present stays present under every larger set, where a name occurs once per node. |
| `Mandatory.NullCanTurnMissing` | packages/sd-jwt-vc/src/type-metadata-verification.ts:123-154 | With a null segment present can become missing: a payload with one hidden array element that lacks the claim. |
| `Presence.PresentIsCollected` | packages/sd-jwt-vc/src/type-metadata-verification.ts:46-154 | On any payload with each key once per node, the path of a null-free claim is collected exactly if the walk says present and the path does not go through the `_sd_alg` member of the payload itself, which the collection passes over. |
| `Presence.AlgIsPresentOnly` | packages/sd-jwt-vc/src/type-metadata-verification.ts:66-71 | The exception at its smallest: the claim `_sd_alg` of a payload is present, but not collected. |
| `PackedEntries.EntriesOfSegment` | packages/sd-jwt-vc/src/type-metadata-verification.ts:89-121 | On a packed payload `childEntries` finds exactly the revealed children that fit the segment, and reports hidden ones exactly if a decoy or an unrevealed digest stands there. |
| `Verdicts.PresentVerdict` | packages/sd-jwt-vc/src/type-metadata-verification.ts:123-154 | On a packed payload a null-free mandatory claim is present exactly if the claims have it and all its hidden prefixes are revealed. |
| `Verdicts.ClaimVerdict` | packages/sd-jwt-vc/src/type-metadata-verification.ts:123-154 | Exactly when any mandatory claim of a packed payload, with or without null segments, is missing, undisclosed or present, in terms of the claims, the frame and the revealed digests. |
| `Verdicts.MissingVerdict` | packages/sd-jwt-vc/src/type-metadata-verification.ts:123-154 | So a null-free claim without a `never` prefix is reported missing only if no disclosure could show it. |
| `Verdicts.PresentVerdictStays` | packages/sd-jwt-vc/src/type-metadata-verification.ts:123-154 | Present stays present when more of the issued disclosures are revealed, for a null-free claim. |
| `Lasting.PresentIsLasting` | packages/sd-jwt-vc/src/type-metadata-verification.ts:123-154 | Exactly when a claim, with or without null segments, is present and stays so whatever more is disclosed: a named step always finds a readable member, also inside elements that are still hidden, and a null step an array that shows something if it conceals anything. |
| `ClaimReport.MatchesCanonical` | packages/sd-jwt-vc/src/type-metadata-verification.ts:24-34 | Matching a claim path depends only on the canonical form of the present path. |
| `ClaimReport.ExtraGoesDown` | packages/sd-jwt-vc/src/type-metadata-verification.ts:191-204 | A claim at or below an extra claim is extra. |
| `ClaimReport.ExtraPaths` | packages/sd-jwt-vc/src/type-metadata-verification.ts:160-167 | The set holds each canonical path of an extra claim once, and nothing else. |
| `ClaimReport.Topmost` | packages/sd-jwt-vc/src/type-metadata-verification.ts:232-239 | The filter keeps exactly the paths with no proper prefix among them. |
| `ClaimReport.ExtraClaimsAreLossless` | packages/sd-jwt-vc/src/type-metadata-verification.ts:191-239 | The reported extra claims are prefix-free, and a present claim is extra if and only if a reported path is a prefix of its canonical path. |
| `ClaimReport.ReportIsLossless` | packages/sd-jwt-vc/src/type-metadata-verification.ts:177-239 | The same for the claims collected from any payload under any disclosures. |
| `ClaimReport.ClaimPathSet.Add` | packages/sd-jwt-vc/src/type-metadata-verification.ts:160-163 | Adding a path keeps the first insertion and its place. |
| `ClaimReport.CheckPolicies` | packages/sd-jwt-vc/src/type-metadata-verification.ts:214-220 | One present claim adds to the two policy lists the metadata claims it violates, in order, each path once. |
| `ClaimReport.ViolatedLists` | packages/sd-jwt-vc/src/type-metadata-verification.ts:206-221 | A policy list holds each path once, and exactly those whose policy some present claim breaks. |
| `ClaimReport.MandatoryLists` | packages/sd-jwt-vc/src/type-metadata-verification.ts:223-228 | A list of mandatory claims holds each path once, and exactly those with that verdict. |
| `ClaimReport.CheckMandatory` | packages/sd-jwt-vc/src/type-metadata-verification.ts:223-228 | The loop that fills the two mandatory lists, in the order of the metadata. |
| `ClaimReport.VerifyClaims` | packages/sd-jwt-vc/src/type-metadata-verification.ts:177-245 | All five lists of the report, exactly and in their order. |
| `Unpacker.DigestTracker.UnpackObjInternal` | packages/sd-jwt-core/src/decode/decode.ts:198-283 | One node: members first, then `_sd`, then the merged object, or the first error. |
| `Unpacker.DigestTracker.UnpackArray` | packages/sd-jwt-core/src/decode/decode.ts:121-181 | The loop over array elements, dropping undisclosed ones. |
| `Unpacker.DigestTracker.UnpackElement` | packages/sd-jwt-core/src/decode/decode.ts:129-178 | One array element, with the three errors of a placeholder. |
| `Unpacker.DigestTracker.UnpackOwn` | packages/sd-jwt-core/src/decode/decode.ts:211-227 | The loop over the members of an object. |
| `Unpacker.DigestTracker.UnpackOwnMember` | packages/sd-jwt-core/src/decode/decode.ts:212-226 | One member: `_sd_alg` is refused below the root. |
| `Unpacker.DigestTracker.UnpackSd` | packages/sd-jwt-core/src/decode/decode.ts:237-276 | The loop over the digests of an object. |
| `Unpacker.DigestTracker.UnpackSdDigest` | packages/sd-jwt-core/src/decode/decode.ts:239-274 | One digest: met at most once, with a key, and no name conflict. |
| `Unpacker.UnpackObj` | packages/sd-jwt-core/src/decode/decode.ts:183-196 | The unpacked payload, or an error, also for a disclosure that is never referenced. |
| `RoundTrip.TreeUnpacks` | packages/sd-jwt-core/src/decode/decode.ts:198-283 | Unpacking what was packed, under any choice of disclosures, fails exactly if a disclosed member with the empty name is reached; else it gives the pruned claims and meets exactly the digests it should. |
| `UnpackTheorems.MetIsReached` | packages/sd-jwt-core/src/decode/decode.ts:198-283 | A disclosed digest is met only if every disclosure around it is there. |
| `UnpackTheorems.ReachedIsMet` | packages/sd-jwt-core/src/decode/decode.ts:198-283 | And if they are, it is met. |
| `UnpackTheorems.UnpackAfterPack` | packages/sd-jwt-core/src/decode/decode.ts:183-283 | For every choice of disclosures `unpackObj` succeeds if and only if the choice is closed under enclosing disclosures and free of empty names, and then returns the claims without what is undisclosed. |
| `UnpackTheorems.PackRoundTrip` | packages/sd-jwt-core/src/decode/decode.ts:183-283 | With all disclosures `unpackObj` undoes `pack`, up to member order, if and only if no listed claim has the empty name. |
| `UnpackTheorems.EmptyNameIsRejected` | packages/sd-jwt-core/src/decode/decode.ts:245-249 | The smallest failing input: one selectively disclosable member with the empty name. |
| `CompactForm.EncodeSdJwt` | packages/sd-jwt-core/src/sdjwt.ts:165-182 | The pushed parts joined with `~`. |
| `CompactForm.DecodeSdJwt` | packages/sd-jwt-core/src/sdjwt.ts:75-106 | Splitting, popping the last part and parsing the others, with both errors. |
| `CompactForm.EncodeOfDecode` | packages/sd-jwt-core/src/sdjwt.ts:75-182 | Encoding gives every accepted string back. |
| `CompactForm.DecodeOfEncode` | packages/sd-jwt-core/src/sdjwt.ts:75-182 | Decoding gives back any parts without `~`, with or without disclosures and a key binding JWT. |
| `CompactForm.SdHashAgrees` | packages/sd-jwt-core/src/index.ts:216-225 | The string that `verify` rebuilds and hashes for `sd_hash` is the one the holder hashed. |
| `Verifying.HasReserved` | packages/sd-jwt-core/src/index.ts:45-62 | The visit throws exactly if some member at some depth has a reserved name. |
| `Verifying.VerifyFast` | packages/sd-jwt-core/src/index.ts:231-285 | The fail-fast order of checks of `verify` and `validate`. |
| `Verifying.CollectClaims` | packages/sd-jwt-core/src/index.ts:352-371 | The one try block for signature, unpacking and payload validation, with its one error. |
| `Verifying.CollectKeyBinding` | packages/sd-jwt-core/src/index.ts:386-432 | The checks of the key binding, which are skipped without claims to check it against. |
| `Verifying.SafeVerifyAgrees` | packages/sd-jwt-core/src/index.ts:231-445 | `verify` succeeds exactly if `safeVerify` finds no problem and no claim has a reserved name, with the same result; it throws for a reserved name exactly where its check for them is reached and fails, and otherwise the first of the problems, unless the verifier is missing or the text is no SD-JWT. |
| `Verifying.SafeVerify` | packages/sd-jwt-core/src/index.ts:295-445 | `safeVerify` returns exactly the list of problems in their order, or the data if there are none; then `verify` returns the same payload, header and key binding, or throws only because the unpacked claims have a reserved name; if it fails, so does `verify`. |
| `Basics.Deduped` | packages/eudi-jades/src/token.ts:238-244 | Copying `crit` through a set keeps each name once and loses none. |
| `JadesHeader.Base64UrlFacts` | packages/eudi-jades/src/verifier.ts:32-45 | Encoded headers and payloads decode to the same bytes and consist of base64url characters. |
| `JadesHeader.SignedHeaderIsAccepted` | packages/eudi-jades/src/schemas.ts:324-388 | A header that passes the checks for signing passes those for verifying, after a trip through JSON, if and only if each critical parameter is defined. |
| `JadesToken.Token.Create` | packages/eudi-jades/src/token.ts:38-43 | A new token with its serialized payload, or the error for a payload that JSON cannot express. |
| `JadesToken.Token.SetProtectedHeader` | packages/eudi-jades/src/token.ts:45-54 | Merges, checks, replaces and drops the signature, or throws without a change. |
| `JadesToken.Token.SetUnprotectedHeader` | packages/eudi-jades/src/token.ts:56-63 | Replaces the unprotected header and keeps the signature. |
| `JadesToken.Token.SetSigningTime` | packages/eudi-jades/src/token.ts:82-91 | Sets `iat` through the merge. |
| `JadesToken.Token.SetLegacySigningTime` | packages/eudi-jades/src/token.ts:94-98 | Sets `sigT` through the merge. |
| `JadesToken.Token.SetB64` | packages/eudi-jades/src/token.ts:121-128 | Sets or removes `b64` and drops the signature. |
| `JadesToken.Token.SetDetached` | packages/eudi-jades/src/token.ts:134-148 | Changes the state step by step, so that an unserializable payload throws halfway. |
| `JadesToken.Token.SetSignature` | packages/eudi-jades/src/token.ts:167-172 | Stores a base64url signature on a token that passes the checks. |
| `JadesToken.Token.Sign` | packages/eudi-jades/src/token.ts:174-177 | Passes the signing input to the signer and stores what it returns. |
| `JadesToken.AskSigner` | packages/eudi-jades/src/token.ts:174-177 | What the signer returns for the signing input is what is set as signature. |
| `JadesToken.SignSigns` | packages/eudi-jades/src/token.ts:167-177 | A successful `sign` stores exactly the signature of the current signing input; a failing one changes nothing. |
| `JadesToken.ThrowingCallIsUndone` | packages/eudi-jades/src/token.ts:45-177 | A throwing call leaves the state as it was, except `setDetached` with a valid `sigD` and an unserializable payload, whose exact new state is stated. |
| `JadesToken.CallKeepsSync` | packages/eudi-jades/src/token.ts:134-148 | After a call the signed bytes are those of the payload exactly if it gave an expressible payload, or gave none and they were so before. |
| `JadesToken.DetachCanHalfSucceed` | packages/eudi-jades/src/token.ts:134-148 | After any run of calls, a `setDetached` that throws for its payload leaves the token detached with the new payload and without a signature, but with the old bytes. |
| `JadesToken.LegacyTimeStays` | packages/eudi-jades/src/token.ts:82-91 | `setSigningTime` leaves `sigT` as it was, so a token with a legacy time can no longer be signed. |
| `JadesToken.SigningTimeStays` | packages/eudi-jades/src/token.ts:94-98 | `setLegacySigningTime` leaves `iat` as it was, and the token can no longer be signed. |
| `JadesToken.ChangeDropsSignature` | packages/eudi-jades/src/token.ts:45-177 | Any call after which the signing input or the checks differ has dropped the signature. |
| `JadesToken.EveryRun` | packages/eudi-jades/src/token.ts:36-177 | After every sequence of calls a signature that is there was made over the current signing input and the token passes the checks; the signed bytes are the payload if and only if every halfway call is followed by one that gives another payload. |
| `JadesVerifier.ProtectedRebuilt` | packages/eudi-jades/src/verifier.ts:32-45 | `parseProtected` returns the signed header exactly if its critical parameters are defined. |
| `JadesVerifier.PayloadRebuilt` | packages/eudi-jades/src/verifier.ts:86-108 | The payload segment and bytes are rebuilt in attached, detached, unencoded and hashed modes, each exactly under its condition on text conversion. |
| `JadesVerifier.ParseRebuilds` | packages/eudi-jades/src/verifier.ts:70-120 | `parseSignature` accepts exactly if critical parameters are defined and understood, and then has the header, the signed string and the payload bytes of the token, the latter two under exact conditions. |
| `JadesVerifier.FlattenedVerifies` | packages/eudi-jades/src/verifier.ts:159-172 | The flattened form verifies as the token says. |
| `JadesVerifier.GeneralVerifies` | packages/eudi-jades/src/verifier.ts:141-157 | The general form verifies as the token says. |
| `JadesVerifier.CompactVerifies` | packages/eudi-jades/src/verifier.ts:131-139 | The compact form exists exactly without unprotected header and without a period in an attached unencoded payload, splits into its three parts, and verifies as the token says. |
| `JadesVerifier.SignedTokensVerify` | packages/eudi-jades/src/verifier.ts:70-172 | Whatever calls made it, a signed token verifies in all forms exactly if its critical parameters are defined and understood and the signature over the signed string is accepted. |
| `JadesVerifier.UndefinedCriticalIsRejected` | packages/eudi-jades/src/token.ts:238-244 | A signed token with `b64` present but undefined is rejected in all three forms. |
| `JadesVerifier.UndefinedB64IsSigned` | packages/eudi-jades/src/token.ts:45-54 | Such a token can be made: setting an otherwise complete header and signing succeeds. |
| `Base64.IndexIsPosition` | packages/identity-common/src/base64url.ts:29-81 | Each character of an alphabet has one position, and `indexOf` finds it. |
| `Base64.EncodeBase64` | packages/identity-common/src/base64url.ts:29-48 | The loop over whole groups, then the rest with padding. |
| `Base64.EncodeTail` | packages/identity-common/src/base64url.ts:39-45 | The last one or two bytes. |
| `Base64.DecodeBase64` | packages/identity-common/src/base64url.ts:50-81 | Validation, length check and decoding. |
| `Base64.DecodeGroups` | packages/identity-common/src/base64url.ts:66-80 | The decoding loop writes every byte of a buffer of exactly the right size. |
| `Base64.WriteGroup` | packages/identity-common/src/base64url.ts:69-77 | One round: two to four characters give one byte less. |
| `Base64.BytesOfSextets` | packages/identity-common/src/base64url.ts:29-81 | The bit operations of decoding undo those of encoding on every byte sequence. |
| `Base64.SextetsOfBytes` | packages/identity-common/src/base64url.ts:29-81 | In the other direction they do exactly if the unused bits of the last character are zero. |
| `Base64.DecodeOfEncode` | packages/identity-common/src/base64url.ts:29-81 | Decoding an encoding is the identity for all bytes in both alphabets. |
| `Base64.EncodeOfDecode` | packages/identity-common/src/base64url.ts:29-81 | Encoding a decoding gives the input back if and only if the unused bits are zero and base64 padding is exact. |
| `Pem.IndexIsLeftmost` | packages/crypto/src/pem.ts:85-95 | `indexOf` finds the leftmost occurrence. |
| `Pem.ScanLabel` | packages/crypto/src/pem.ts:100-101 | The scan stops at the first character that is not of a label, and reads no position twice. |
| `Pem.FindAnyBoundary` | packages/crypto/src/pem.ts:97-110 | The search that skips prefixes and labels returns the leftmost boundary there is, or none if there is none, reading no character of a label twice. |
| `Pem.ParseCertificateChain` | packages/crypto/src/pem.ts:9-21 | The contents of all blocks without white space, or the error if there are none. |
| `Pem.CollectContents` | packages/crypto/src/pem.ts:12-14 | The loop over the blocks. |
| `Pem.BodyKeepsText` | packages/crypto/src/pem.ts:63-66 | Cutting into lines of 64 and stripping white space gives the text back. |
| `Pem.ChainRoundTrip` | packages/crypto/src/pem.ts:9-66 | Parsing any concatenation of written certificates, with text free of hyphens around them, returns them in order. |
| `Pem.EncodedIsPlain` | packages/crypto/src/pem.ts:63-66 | Every base64 encoding meets the condition of that round trip. |
| `SchemaWalker.Walker.PushClaim` | packages/eudi-attestation-schema/src/dcql.ts:98-104 | Appends a claim unless its path is empty. |
| `SchemaWalker.Walker.CollectFromSchema` | packages/eudi-attestation-schema/src/dcql.ts:144-165 | Appends exactly the claims of the schema and restores the set of ancestors; it ends on every graph, cyclic or not. |
| `SchemaWalker.Walker.CollectFromSchemaNode` | packages/eudi-attestation-schema/src/dcql.ts:190-218 | Combinators, then properties, array or leaf. |
| `SchemaWalker.Walker.CollectFromVariants` | packages/eudi-attestation-schema/src/dcql.ts:196-204 | The loop over the variants of the combinators. |
| `SchemaWalker.Walker.CollectFromProperties` | packages/eudi-attestation-schema/src/dcql.ts:167-188 | The loop over the properties; an array schema is entered without being recorded. |
| `SchemaWalker.Walker.CollectFromArraySchema` | packages/eudi-attestation-schema/src/dcql.ts:114-142 | Tuple, uniform items or the array itself. |
| `SchemaWalker.Walker.CollectFromTuple` | packages/eudi-attestation-schema/src/dcql.ts:122-130 | The loop over tuple positions. |
| `SchemaWalker.SchemaReached` | packages/eudi-attestation-schema/src/dcql.ts:114-218 | Every appended path extends the current one by a way down the schema, and is at most twice the number of objects not yet entered longer. |
| `SchemaWalker.ClaimsAreNavigable` | packages/eudi-attestation-schema/src/dcql.ts:238-254 | Every inferred claims path is not empty, spells a way down the schema from its root, and is at most twice as long as the schema has objects. |
| `SchemaClaims.SchemaEmits` | packages/eudi-attestation-schema/src/dcql.ts:114-218 | A path is appended exactly if it extends the current one by a way that takes only the open steps, records no object twice and ends at a leaf. |
| `SchemaClaims.ClaimsAreWays` | packages/eudi-attestation-schema/src/dcql.ts:238-254 | So the inferred paths are exactly the non-empty ones that such a way down from the root spells, for every schema, cyclic or not. |
| `DcqlBuilder.DedupeClaims` | packages/eudi-attestation-schema/src/dcql.ts:220-231 | The loop that keeps first occurrences. |
| `DcqlBuilder.DedupedKeepsFirst` | packages/eudi-attestation-schema/src/dcql.ts:220-231 | Exactly the paths of the list stay, once each, in the order of their first occurrences. |
| `DcqlBuilder.AssignReferences` | packages/eudi-attestation-schema/src/dcql.ts:322-353 | The greedy loop gives selection number k of a format the reference number k of that format. |
| `DcqlBuilder.AssignmentIsBest` | packages/eudi-attestation-schema/src/dcql.ts:322-353 | References have the format of their selection, none is given twice, and of each format the smaller of both numbers is matched. |
| `MetadataMerge.MergeClaims` | packages/eudi-attestation-schema/src/type-metadata.ts:34-49 | The loop that splices matching child claims out of the rest. |
| `MetadataMerge.MergeTypeMetadata` | packages/eudi-attestation-schema/src/type-metadata.ts:31-56 | The merged document with its claims and display. |
| `MetadataMerge.MergeIsOverride` | packages/eudi-attestation-schema/src/type-metadata.ts:34-49 | With unique paths: the parent claims in their order, each overridden by the child, then the new child claims in theirs. |
| `MetadataMerge.MergeFacts` | packages/eudi-attestation-schema/src/type-metadata.ts:34-49 | Uniqueness is kept, no path is lost, and each path has the child claim if there is one, else the parent claim. |
| `MetadataMerge.MergeIsAssociative` | packages/eudi-attestation-schema/src/type-metadata.ts:31-56 | Merging documents is associative: the claims as an exact sequence, the display, what is extended and every other member. |
| `MetadataMerge.FoldTakesNearest` | packages/eudi-attestation-schema/src/resolver.ts:157 | The fold over the chain gives each path the claim of the nearest document declaring it, the nearest defined display, and every other member of the nearest document that has it. |
| `MetadataMerge.ResolveExtendsChain` | packages/eudi-attestation-schema/src/resolver.ts:129-158 | The loop asks for pairwise different URIs, at most the maximum depth and never its own, a failing one included; it succeeds exactly if the chain ends within that depth without a circle, with the fold over the chain, and otherwise throws the error of the one place where the chain fails. |
| `JsonValues.DeepEqualIsEqual` | packages/eudi-registration-certificate/src/over-asking.ts:61-70 | `deepEqual` holds exactly for equal JSON values, though it looks up keys one way only. |
| `JsonValues.MetaCoveredReflexive` | packages/eudi-registration-certificate/src/over-asking.ts:78-91 | Every `meta` covers itself. |
| `JsonValues.MetaCoveredTransitive` | packages/eudi-registration-certificate/src/over-asking.ts:78-91 | Covering `meta` is transitive. |
| `OverAsking.CoveringIsContainment` | packages/eudi-registration-certificate/src/over-asking.ts:93-101 | A registered pointer selects in every document at least what the requested one does, if and only if it covers it and none of its nulls stands where a member is named. |
| `OverAsking.NullCoversName` | packages/eudi-registration-certificate/src/over-asking.ts:97-101 | The smallest input for that exception: a registered null covers a requested member name. |
| `OverAsking.CheckOverAsking` | packages/eudi-registration-certificate/src/over-asking.ts:122-206 | The nested loops collect the issues of every credential query and claim, in order. |
| `OverAsking.CheckCredential` | packages/eudi-registration-certificate/src/over-asking.ts:140-203 | The issues of one credential query. |
| `OverAsking.ValidMeansRegistered` | packages/eudi-registration-certificate/src/over-asking.ts:133-206 | The result is valid exactly if each requested credential has a registered match and, unless some match lists no claims, each claim a covering registered claim that allows its values. |
| `OverAsking.RegisteringMoreKeepsValid` | packages/eudi-registration-certificate/src/over-asking.ts:133-206 | Adding registered credentials never makes a valid query invalid. |
| `OverAsking.NarrowingKeepsValid` | packages/eudi-registration-certificate/src/over-asking.ts:133-206 | Dropping credentials or claims, deepening paths, removing values or narrowing `meta` never makes a valid query invalid. |
| `OverAsking.WithinRegistration` | packages/eudi-registration-certificate/src/over-asking.ts:93-101 | In every document each location that a pointer selects lies at or below one that a registered claim of a matching credential selects, if and only if a single such claim covers the pointer with its nulls aligned. |
| `OverAsking.NoIssuesMeansWithin` | packages/eudi-registration-certificate/src/over-asking.ts:154-203 | With no issue at all, each requested claim is covered by a registered claim of a matching credential that allows its values, and stays within the registration in every document exactly if some covering claim has its nulls aligned. |
| `Calendar.YearLength` | packages/eudi-lote/src/signer.ts:75-77 | A year of the calendar has 366 days exactly if it is a leap year. |
| `Calendar.DateOf` | packages/eudi-lote/src/signer.ts:75-77 | Every day has a date, found by counting from the epoch. |
| `Calendar.Date.SetMonth` | packages/eudi-lote/src/signer.ts:77 | Sets the month in local time, carrying days past the end of the month. |
| `Calendar.Date.SetUtcFullYear` | packages/eudi-registration-certificate/src/validator.ts:225-226 | Sets the year, carrying 29 February to 1 March. |
| `Calendar.DefaultNextUpdate` | packages/eudi-lote/src/signer.ts:75-77 | The default NextUpdate is the issue time moved by six months. |
| `Calendar.SixMonthsInDays` | packages/eudi-lote/src/signer.ts:154-157 | Six months by field carry are 181 to 184 days, for every date, apart from a change of the local offset. |
| `Calendar.LeapSecondStartsDay` | packages/eudi-lote/src/schemas.ts:125-146 | An accepted leap second is read as the start of a UTC day plus its fraction, which is a whole second if it is read as 1. |
| `Calendar.IsoIsRead` | packages/eudi-lote/src/schemas.ts:134-146 | What `toISOString` writes for a four-digit year is accepted and read as the same time. |
| `Calendar.DefaultNextUpdatePasses` | packages/eudi-lote/src/profiles.ts:283-287 | The default NextUpdate passes the 186-day check for every date whose year, and that of the default, have four digits, if the change of offset adds at most two days. |
| `Calendar.MaxExp` | packages/eudi-registration-certificate/src/validator.ts:225-226 | The latest accepted `exp` is the date of `iat` a year later. |
| `Calendar.ExpWithinTwelveMonths` | packages/eudi-registration-certificate/src/validator.ts:224-242 | An `exp` is accepted exactly if it is later than `iat` by at most 365 days, or 366 over a 29 February. |

## Left out

- Cryptography, hashing, random salts, X.509, XML signatures and CBOR: they are function parameters, or not part of this model.
- JSON text: values are trees, and paths used as map keys through `JSON.stringify` are compared as paths.
- JavaScript prototype effects and the reordering of integer-like object keys: a claim named like `constructor` is treated as
  any other name.
- Frames under absent or scalar children: nested frames sit on existing arrays and objects, as the frame type demands.
- `transformPresentationFrame`: it names paths by dotted strings.
- In-place reuse of cloned values in `unpackObj`: the values are copies, so the model returns new ones.
- zod schemas: only `refineProtected` and the shapes it depends on are modelled; every other structural check is a parameter.
- The member order of a JAdES header: its encoding is a function of its contents.
- The object that a payload string parses to in a verification result: the payload is compared as bytes.
- Error messages and error codes of `safeVerify` beyond the kind of failure.
- The rest of a DCQL credential (`meta`, trusted authorities): plumbing around the claims and references.
- Parsing of DCQL queries by the `dcql` library: the over-asking check starts from a parsed query.
- Reading RFC 3339 text by a regular expression: the model starts from its fields.
- Concurrent calls on one token while a signer is awaited: calls run one after the other.
- Mandatory.PresentIsFinal: does not speak of claim paths with null segments, where it fails (`Mandatory.NullCanTurnMissing`); `Lasting.PresentIsLasting` gives the exact condition there.
- Unpacker.UnpackObj: does not return the disclosure key map, which names the disclosed paths by dotted strings.
- Unpacker.DigestTracker.UnpackObjInternal: does not build the disclosure key map, for the same reason.
- Unpacker.DigestTracker.UnpackArray: does not build the disclosure key map, for the same reason.
- MetadataMerge.MergeIsOverride: does not speak of documents that declare a path twice, for which order and override are not promised.
- HTTP clients, OAuth2, OpenID4VCI and OpenID4VP facades, mdoc wrappers and builders: easy members only.
