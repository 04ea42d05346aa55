# Verified models of the ReFineID client

ReFineID is a client for Finnish eID cards. This project models the parts of it
that keep state or loop, and proves what they guarantee over every input, every
card answer and every network answer.

- **Certificate paths** (`Certificates`, `IssuerRules`, `PathBuilder`, `PathSoundness`,
  `PathExact`, `EvidenceStore`, `ChainCollector`, `PathTheorems`): the two loops that
  climb from a leaf certificate to an approved anchor. One only authenticates, the
  other also freezes revocation evidence.
- **Revocation evidence** (`RevocationStatus`): OCSP services, then CRLs.
- **Long-term signatures** (`StoreParts`, `Archive`, `ArchiveTheorems`): which timestamps a
  document keeps, what its embedded store holds, and when an outer archive token
  is accepted.
- **PIN management** (`PinFlows`, `PinScripts`, `PinTheorems`): change, unblock and activate as
  command sequences. A run is described for a card that answers anything at all;
  the retry-counter results are about a card with try counters.
- **Chain walk** (`ChainWalk`): the `cert chain` report, which has no visited set.
- **HTTP** (`Http`, `Chunked`, `ChunkedExact`, `Utf8Exact`, `Dnssec`): redirect runs, chunked bodies, and the
  merge of DNSSEC answers.
- **Codecs** (`Base64Url`, `Base64Text`, `Base64Canonical`, `SshWire`, `KeyFiles`):
  base64 in three dialects, PEM wrapping, and OpenSSH public-key lines and files.

Everything outside the modelled code (certificate parsing, signature checks, random
numbers, servers, clocks, the card) is a value of function type passed in, so the
results hold for every choice of it. Errors keep their kind and lose their text.
Shifts and ors of disjoint bits are written arithmetically, with the 32-bit, 8-bit
and machine-word truncations spelled out.

The network comes in two forms. A `Network` may answer one address differently each
time; termination, the bounds on network work, the soundness of every path, the
contents of every store and the rules of redirect runs are proved against it. A
`Web` gives one address one answer, and a network is `Steady` when it behaves like
one. What needs that, such as the agreement of two loops that each ask for
themselves, is stated by functions over a `Web`, and every method is proved to
compute those functions when its network is steady.

Every operation is also stated independently of the functions that describe it: as
rules on certificate fields, scripts over status words, relations between what was
asked, answered and reported, or grammars and tables.

Where the code and its commentary differ the model follows the code:

- `read_chunked_body` is described as decoding section 7.1 of RFC 9112. It refuses
  some chunkings that section permits: a chunk extension may be preceded by white
  space ("1 ;name"), and extensions and trailers may hold octets that are not
  UTF-8. `Chunked.ChunkedInverts` gives the exact condition and
  `Chunked.SpaceBeforeSemicolonIsRefused` an instance. The two octets after a
  chunk are skipped without being compared with CRLF, and a leading plus sign in a
  size is accepted; neither matters to a grammatical message.
- The text decoder of padded base64 is described as a decoder of section 4 of RFC
  4648. It also accepts padding inside a text and bits under the padding.
  `Base64Canonical.DecodedText` says exactly what it accepts, and
  `Base64Canonical.CanonicalExactly` when encoding gives the text back.
- The retry floor lets a card through that reports a counter of zero. The model has
  both ways a card may report an exhausted counter, and the floor result covers
  both.
- The retry floor guards the change flow only. Activation of a newer card presents
  the activation code as a PIN without looking at the counter;
  `PinTheorems.ActivationFloorExactly` says exactly when that goes below the floor.
- That no issuer name is fetched twice holds for every chain walk, not only for one
  that reaches a root.
- The retry-floor results over sequences of runs need the card to keep the counter of
  a verified PIN full. `PinTheorems.ChangeRunFloorExactly` says what one change run
  does without that.

`dafny verify dfyconfig.toml` checks the project.

## Model

| member | source | states |
|---|---|---|
| PathTheorems.LoopsAgree | crates/refineid-client/src/validation_material.rs:406-537 | With steady servers, from the same candidates the evidence-collecting walk succeeds exactly when the authenticating loop returns a path and every status query along it succeeds. When some query fails it reports the error of the first link without an answer; otherwise it reports the very error the other loop reports. A successful walk adds to the store, as a set, exactly that path with leaf and anchor as the include flags say, evidence for every link, and no repetition |
| PathTheorems.AcceptedPathIsSound | crates/refineid-client/src/validation_material.rs:383-643 | Every accepted path, spelled out on certificate fields: it starts at the leaf, ends at a byte-identical approved anchor and meets none earlier, has at most 8 pairwise distinct certificates each inside its window; in each link the names chain, the signature verifies, the issuer is valid, and an issuer that is no anchor has present, critical CA constraints, keyCertSign, a sufficient pathLen, no Name Constraints and no extended key usage |
| IssuerRules.LinkIsIssued | crates/refineid-client/src/validation_material.rs:622-736 | The builder's link check amounts exactly to those rules, in both directions |
| PathExact.PathIsGreedy | crates/refineid-client/src/validation_material.rs:406-613 | Which path is built and why a climb ends, exactly: each certificate is followed by the first fitting one of anchors, candidates and what the climb met, else by the first fitting one that the first three different CA Issuers addresses serve; the climb ends at an anchor or with the first reason that applies |
| PathExact.ChoiceIsGreedy | crates/refineid-client/src/validation_material.rs:541-613 | The same for one choice of issuer, and that there is none exactly when none fits |
| PathTheorems.PathsAreGreedy | crates/refineid-client/src/validation_material.rs:360-380 | Start after start, the path is the greedy climb with the given candidates and everything earlier paths met |
| PathTheorems.PathLengthRule | crates/refineid-client/src/validation_material.rs:417-464 | On every sound path, hence on every path either loop accepts, a non-anchor CA with pathLen L has at most L non-self-issued CA certificates below it, a CA leaf counted; hence also the limit of section 4.2.1.9 of RFC 5280, which does not count the leaf |
| PathSoundness.AscentRises | crates/refineid-client/src/validation_material.rs:417-464 | One step up keeps a climb sound and its carried count equal to the number of non-self-issued CA certificates behind it, whoever served the issuer |
| PathSoundness.AscentEnds | crates/refineid-client/src/validation_material.rs:383-481 | A climb that arrives at an approved anchor is a sound path |
| PathTheorems.CollectIsAllOrNothing | crates/refineid-client/src/validation_material.rs:360-380 | With steady servers a store is returned exactly when every start has an accepted path with status for every link; it then holds, as a set, exactly the retained certificates of those sound paths, evidence for every non-anchor on every path, and each of its three lists is duplicate-free |
| PathBuilder.IssuerPreference | crates/refineid-client/src/validation_material.rs:541-583 | An approved anchor that fits is chosen before any candidate; and when an anchor or a candidate fits, no server can change the choice |
| PathBuilder.FirstLocalIsFirst | crates/refineid-client/src/validation_material.rs:549-571 | The local issuer is the first certificate of anchors-then-candidates that is not the subject itself and fits; there is none exactly when none fits |
| PathBuilder.FindIssuer | crates/refineid-client/src/validation_material.rs:541-613 | When a known certificate fits it is chosen without a single request or exchange. Otherwise at most the first three distinct CA Issuers addresses are asked, in three requests and nine exchanges. Whoever served it, what is chosen issued the child: names chain, the signature verifies, window and issuer rules hold. With steady servers it is the first that fits. The only failure is NoIssuer |
| PathBuilder.FetchFirstIssuer | crates/refineid-client/src/validation_material.rs:585-613 | The CA Issuers addresses in turn: three requests and nine exchanges, a fitting certificate or NoIssuer |
| PathBuilder.WalkGuard.Enter | crates/refineid-client/src/validation_material.rs:384-403 | Refuses exactly a repeated certificate, or a ninth; otherwise records it |
| ChainCollector.VerifyChain | crates/refineid-client/src/validation_material.rs:487-537 | Whatever is served: the authenticating loop ends, every path it returns is sound and starts at the leaf, and it stays within 24 requests. With steady servers it computes the climb both loops share |
| ChainCollector.VerifyTurn | crates/refineid-client/src/validation_material.rs:497-536 | One turn of the authenticating loop: the checks it made itself whatever it was served, and at most three requests |
| ChainCollector.Walk | crates/refineid-client/src/validation_material.rs:406-481 | Whatever is served: the evidence loop ends within 72 requests and 216 exchanges; on success the walked path is sound, exactly its retained certificates were added to the collection, for every link the store holds evidence that was judged good, and it gained no other evidence. With steady servers it fails exactly as the shared climb and the status answers say and leaves exactly their evidence |
| ChainCollector.WalkTurn | crates/refineid-client/src/validation_material.rs:423-480 | One turn: the checks it made itself whatever it was served, what it pushed, at most nine requests, and with steady servers what it established about the rest of the climb |
| ChainCollector.CollectChains | crates/refineid-client/src/validation_material.rs:360-380 | Whatever is served: a returned store holds, as a set, exactly the retained certificates of one sound path for each start, vouches for every link of those paths, holds no other evidence and repeats nothing; 72 requests and 216 exchanges per start. With steady servers it is the described collection, each start with the candidates its predecessors left |
| EvidenceStore.Collection.PushCertificate | crates/refineid-client/src/validation_material.rs:767-773 | Appends exactly when not already held |
| EvidenceStore.Collection.PushStatus | crates/refineid-client/src/validation_material.rs:752-760 | OCSP and CRL evidence go to their own lists, each appended exactly when not already held |
| EvidenceStore.Collection.PushCandidate | crates/refineid-client/src/validation_material.rs:742-750 | Appends exactly when not already known |
| EvidenceStore.RetainedExactly | crates/refineid-client/src/validation_material.rs:417-470 | What a path leaves in the store: everything strictly between leaf and anchor, and those two as the include flags say |
| Certificates.BoundedCertificateAddresses | crates/refineid-client/src/validation_material.rs:1147-1159 | At most three different addresses; they stand in the order of their first occurrence, and an address is left out only if three others occur before it |
| Certificates.DoFetchIssuer | crates/refineid-client/src/validation_material.rs:332-339 | One request and at most three exchanges for one issuer fetch; what is returned is what the body that came back decodes to |
| RevocationStatus.StatusIsFirstVerdict | crates/refineid-client/src/validation_material.rs:781-927 | Over the endpoints that count (OCSP before a nonce failure, then CRLs if the issuer may sign them): success exactly when the first decisive one says good, Revoked exactly when it says revoked, another error exactly when none is decisive |
| RevocationStatus.StatusOfBodies | crates/refineid-client/src/validation_material.rs:781-927 | The law over the bodies received, for the first three different addresses of each kind: the verdict is that of the first endpoint whose body is judged good or revoked, services before lists, with its body as evidence; a service counts only while nonces can be drawn, a list only if the issuer may sign lists; other failures mean that none says either |
| RevocationStatus.CollectStatus | crates/refineid-client/src/validation_material.rs:781-816 | Whatever is served: within six requests and eighteen exchanges, and evidence that is returned was judged good for this certificate and issuer. With steady servers the two scans compute the first verdict; without a decisive answer a random-source failure is reported as such |
| RevocationStatus.AskOcsp | crates/refineid-client/src/validation_material.rs:830-868 | Trying one service, whatever it serves: no answer exactly when no nonce is drawn and then nothing is sent; otherwise one POST, and the answer is good with that body as evidence, revoked, or open exactly as the body is judged |
| RevocationStatus.AskCrl | crates/refineid-client/src/validation_material.rs:881-927 | Trying one list, whatever is served: one GET, and the answer is good with that body as evidence, revoked, or open exactly as the body is judged |
| RevocationStatus.CollectOcspStatus | crates/refineid-client/src/validation_material.rs:819-868 | The OCSP scan, including the early stop when no nonce can be drawn |
| RevocationStatus.CollectCrlStatus | crates/refineid-client/src/validation_material.rs:871-927 | The CRL scan, including the stop when the issuer may not sign CRLs |
| ArchiveTheorems.ArchiveOutput | crates/refineid-client/src/card_sign.rs:1422-1530 | Every archive-level output carries an outer token, the first whose gate passes, and the whole verified path of that token is sound and byte for byte in the embedded store |
| ArchiveTheorems.LongTermOutput | crates/refineid-client/src/card_sign.rs:1422-1475 | Every long-term output has at least one timestamp; the path and evidence of each kept timestamp and of the signer are in the store, without repetition |
| ArchiveTheorems.DocumentTokens | crates/refineid-client/src/card_sign.rs:1355-1478 | The tokens of a document are exactly the answers that are there and, with long-term material, can be proved, in order and none lost; without long-term material its store is empty |
| ArchiveTheorems.KeptExactly | crates/refineid-client/src/card_sign.rs:1355-1413 | Collecting fails exactly when a timestamp is wanted and no answer can be kept |
| ArchiveTheorems.PreparedExactly | crates/refineid-client/src/card_sign.rs:1434-1477 | A document gets as far as its outer token exactly when some answer can be kept, if one is wanted, and the signer's greedy path at the earliest of them is accepted with a status answer for every link |
| ArchiveTheorems.FinishExactly | crates/refineid-client/src/card_sign.rs:1478-1530 | From there: the document as it stands, or with the first outer answer that can be proved and is covered by the store, and a failure exactly when none is |
| ArchiveTheorems.AssembledExactly | crates/refineid-client/src/card_sign.rs:1422-1530 | A document is what was prepared, finished; outer evidence is judged after all other |
| Archive.FinishDocument | crates/refineid-client/src/card_sign.rs:1478-1530 | Whatever is served: tokens and store are left as they are, an outer token is added exactly if asked for, covered by the store and counted, and the only failure is that none is |
| ArchiveTheorems.AnchorsExactly | crates/refineid-client/src/card_sign.rs:1742-1763 | A token's path may stop at its self-issued certificates if it has any, and otherwise at any it embeds |
| ArchiveTheorems.TokenPathExactly | crates/refineid-client/src/card_sign.rs:1717-1734 | The token's path is the greedy climb among its own certificates at its own time |
| ArchiveTheorems.GateExactly | crates/refineid-client/src/card_sign.rs:1662-1708 | The gate passes exactly for an accepted path, with status answers along it, that lies wholly in the store |
| ArchiveTheorems.UnchangedAuthorityIsCovered | crates/refineid-client/src/card_sign.rs:1669-1734 | A store that merged an inner token's evidence always covers an outer token with the same signer and embedded certificates when the validity windows agree at both times; the gate then passes exactly when the status queries succeed again |
| ArchiveTheorems.UnchangedAuthorityArchives | crates/refineid-client/src/card_sign.rs:1614-1681 | Completeness at document level: an authority unchanged since one of its kept inner answers, whose status services still answer, makes the archive timestamp succeed |
| ArchiveTheorems.ArchiveOnlyAddsOuter | crates/refineid-client/src/card_sign.rs:1422-1530 | Asking for the archive level changes neither the tokens nor the store, and succeeds exactly when some outer answer passes the gate |
| ArchiveTheorems.TokenMaterialIsItsPath | crates/refineid-client/src/card_sign.rs:1770-1794 | A token's evidence is collected exactly when its embedded path is accepted and every status query along it succeeds, and its certificates are then exactly that path |
| ArchiveTheorems.SameClimb | crates/refineid-client/src/validation_material.rs:487-613 | Path construction at two reference times gives the same path when every certificate it looks at is inside its window at both or outside at both |
| ArchiveTheorems.MergeIsUnion | crates/refineid-client/src/card_sign.rs:1798-1810 | Merging stores preserves the old contents as a prefix, is a set union on each list, is idempotent and introduces no repetition |
| ArchiveTheorems.EarliestIsMinimum | crates/refineid-client/src/card_sign.rs:1459-1463 | The signer path is checked at the earliest kept timestamp |
| Archive.EmbeddedTimestampPath | crates/refineid-client/src/card_sign.rs:1717-1734 | A returned token path is sound on the token's own certificates whatever is served; with steady servers it is the authenticating loop run on them |
| Archive.TimestampValidationMaterial | crates/refineid-client/src/card_sign.rs:1770-1794 | Evidence for one token, anchored on the certificates it carries: the store holds the whole of a sound path and evidence judged good for each link |
| Archive.AuthenticateArchiveTimestamp | crates/refineid-client/src/card_sign.rs:1662-1708 | The gate: whatever is served, an accepted token has a sound path that is whole and byte for byte in the store; with steady servers the gate passes exactly for a path, its coverage, and current evidence |
| StoreParts.MergeMaterial | crates/refineid-client/src/card_sign.rs:1798-1810 | The merge loops compute the duplicate-free union |
| StoreParts.MergeIsExact | crates/refineid-client/src/card_sign.rs:1798-1810 | Merging two stores that hold exactly certain paths with their evidence gives one that holds exactly all of them |
| Archive.CollectDocumentTimestamps | crates/refineid-client/src/card_sign.rs:1355-1413 | Whatever is served: the kept tokens are answers in their order; without evidence every answer there is, an empty store and no exchange at all; with evidence a store that is exactly the paths and evidence of the kept tokens. With steady servers: which answers are kept and what their evidence merges to; failure exactly when a timestamp was wanted and none was kept |
| Archive.PrepareDocument | crates/refineid-client/src/card_sign.rs:1434-1477 | Whatever is served: those tokens, and with long-term material a store that is exactly their paths and evidence and the signer's, whose path is checked at the earliest of them with leaf and anchor left out |
| Archive.FirstAnsweringToken | crates/refineid-client/src/card_sign.rs:1614-1653 | An accepted outer token is covered by the store; with steady servers it is that of the first authority whose token passes the gate |
| Archive.AssembleDocument | crates/refineid-client/src/card_sign.rs:1422-1530 | Whatever is served: a document holds what was prepared, unchanged, and an outer token exactly at the archive level, one that the store covers; the reported count is exact. Without long-term material nothing is asked of the network and assembly fails only if timestamps were wanted and none was answered. With steady servers: the whole assembly with each failure |
| PinTheorems.ChangesAndUnblocksNeverBlock | crates/refineid-client/src/card_pin.rs:642-772 | Over any sequence of change and unblock runs with any typed codes no PIN counter falls below the smaller of its starting value and two, so these flows never block a PIN |
| PinTheorems.RunsKeepFloor | crates/refineid-client/src/card_pin.rs:642-1485 | Over any sequence of change, unblock and activation runs with any typed codes a PIN counter falls below the floor, or reaches zero, only if some activation in it spends one of the last two tries |
| PinTheorems.OneRunExactly | crates/refineid-client/src/card_pin.rs:642-1485 | One run of any kind breaks the floor exactly when it is such an activation, and keeps the card sane |
| PinTheorems.ActivationFloorExactly | crates/refineid-client/src/card_pin.rs:1297-1485 | On any card whatever an activation run takes a counter below the floor exactly when the card is of the newer kind, the run gets as far as presenting the code as that PIN, the code is wrong and one or two tries remain |
| PinTheorems.ChangeRunFloorExactly | crates/refineid-client/src/card_pin.rs:588-604 | For any card whatever: one run takes a counter below that floor exactly when the card reports the PIN as verified although one or two tries remain and a wrong PIN is sent; the other PIN and the PUK are untouched |
| PinTheorems.ChangeRunKeepsSane | crates/refineid-client/src/card_pin.rs:642-708 | A card whose verified PINs have full counters stays one, and neither PIN counter falls below the floor |
| PinTheorems.RunAll | crates/refineid-client/src/card_pin.rs:642-1485 | A sequence of runs of all three kinds driven through one transport: a counter falls below the floor only if an activation in it spends one of the last two tries |
| PinTheorems.ChangeRunDiscipline | crates/refineid-client/src/card_pin.rs:642-708 | Under any card answers: the PIN-bearing command comes right after a token-info read of the bound serial, an Ok report states exactly the one command sent, and any error but a transport failure means none was sent |
| PinTheorems.UnblockRunDiscipline | crates/refineid-client/src/card_pin.rs:724-772 | The same for the PUK-bearing command of an unblock run |
| PinTheorems.ActivateRunDiscipline | crates/refineid-client/src/card_pin.rs:1297-1522 | Under any card answers an activation run is guarded in the same way; a failed preflight, or one that finds the card activated without leave to go on, is the whole run and nothing is sent; PIN2 is touched only after PIN1 succeeded, at most one presentation is wrong, and an Ok report states exactly which commands were sent and their outcomes |
| PinScripts.ChangeFollowsScript | crates/refineid-client/src/card_pin.rs:642-708 | The change flow as a script over status words: which command follows on which reply, on which it stops, and what it reports for each, for every card |
| PinScripts.UnblockFollowsScript | crates/refineid-client/src/card_pin.rs:724-772 | The unblock flow as a script |
| PinScripts.ActivateFollowsScript | crates/refineid-client/src/card_pin.rs:1201-1485 | The activation flow as a script, from those of its probes and its two slots; a newer card gets its PIN changed from the activation code to the new PIN, an older one its counter reset with the code as PUK |
| PinScripts.ChangeConverses | crates/refineid-client/src/card_pin.rs:642-708 | The replies in a change run are the card's own, in turn, and it is left where they leave it |
| PinScripts.ActivateConverses | crates/refineid-client/src/card_pin.rs:1346-1485 | The same for activation |
| PinTheorems.ChangeSetsPin | crates/refineid-client/src/card_pin.rs:642-708 | On a card with try counters: a change reports success exactly for the bound card, enough tries, well-formed PINs and the right current one; then the slot holds exactly the new PIN with a full counter, otherwise the PIN it held; the other slot is untouched |
| PinTheorems.UnblockSetsPin | crates/refineid-client/src/card_pin.rs:724-772 | The same for unblocking and the PUK |
| PinTheorems.ActivationSetsPins | crates/refineid-client/src/card_pin.rs:1346-1485 | A slot an activation reports as set holds exactly the new PIN asked for, with a full counter; every other slot keeps its PIN |
| PinTheorems.NewerActivationSucceedsExactly | crates/refineid-client/src/card_pin.rs:1201-1485 | When an activation of a newer card sets both PINs |
| PinTheorems.ActivationCostsOneTry | crates/refineid-client/src/card_pin.rs:1297-1485 | On a real card a whole activation run costs at most one try over all counters together |
| PinTheorems.UnblockCostsOnePukTry | crates/refineid-client/src/card_pin.rs:724-772 | An unblock run never costs a PIN try and at most one PUK try |
| PinFlows.Transport.ReVerifySession | crates/refineid-client/src/card_pin.rs:1064-1092 | Reads the token info once and accepts exactly the bound serial |
| PinFlows.Transport.ChangePinFirst | crates/refineid-client/src/card_pin.rs:642-708 | The change flow on a mutable transport performs exactly the described run |
| PinFlows.Transport.UnblockPinFirst | crates/refineid-client/src/card_pin.rs:724-772 | The unblock flow performs exactly the described run |
| PinFlows.Transport.ActivateSlotSetup | crates/refineid-client/src/card_pin.rs:1297-1314 | Per-slot setup by card generation |
| PinFlows.Transport.SetUpBothSlots | crates/refineid-client/src/card_pin.rs:1425-1485 | PIN1 and, only if that succeeded, PIN2, each right after re-verifying the bound serial |
| PinFlows.Transport.ActivateFirst | crates/refineid-client/src/card_pin.rs:1346-1485 | The activation flow performs exactly the described run |
| ChainWalk.WalkChain | crates/refineid-client/src/cert_chain.rs:358-489 | The report, link by link, is what became of each certificate with the issuers then known, and each step goes on where the one before turned; the walk goes on while links pass, up to sixteen. Although no visited set is kept: no issuer name is ever fetched twice, and a walk that does not run into the cap visits no certificate and follows no issuer name twice |
| ChainWalk.WalkStep | crates/refineid-client/src/cert_chain.rs:392-481 | One link, exactly: a self-signed certificate is judged on itself; else the first pool match; else, if fetching is on and there is an address, what the first address serves if it has the wanted name, appended to the pool; missing, fetch-failed, verified, verified through a fetch, and signature-failed in exactly their cases |
| ChainWalk.EndedWalkIsAcyclic | crates/refineid-client/src/cert_chain.rs:392-481 | A walk that ended at a certificate nothing follows visited none twice and no two steps went to one issuer name |
| ChainWalk.RevisitRepeats | crates/refineid-client/src/cert_chain.rs:392-481 | Once a certificate comes back the walk repeats itself from there |
| ChainWalk.FirstMatchIsStable | crates/refineid-client/src/cert_chain.rs:495-499 | In a pool that only grows at its end a first match never changes, and a certificate appended for want of one becomes it |
| Http.RedirectRun | crates/refineid-client/src/http.rs:336-452 | Every redirect run, whatever servers answer and however often they change their answers, under any redirect limit: at most limit plus one exchanges, never off HTTPS once on it, never to another host for an authority, to one origin for an authority on HTTPS, and the statement behind the loop, which the described loop does have, is never reached |
| Http.FollowIsRedirected | crates/refineid-client/src/http.rs:336-452 | A run hop by hop: which answers redirect and where, and how the last answer ends it, for every policy |
| Http.GetRunExactly | crates/refineid-client/src/http.rs:274-452 | GET redirects on 301, 302, 307 and 308, at most twice, or once for an authority |
| Http.PostRunExactly | crates/refineid-client/src/http.rs:369-452 | POST redirects on 307 and 308 only |
| Http.Client.FollowRedirects | crates/refineid-client/src/http.rs:336-414 | The loop of both requests performs exactly the described run, including the statement behind it, and logs every exchange |
| Http.Client.GetFor | crates/refineid-client/src/http.rs:336-367 | A GET exactly: the addresses logged, the answers the network gave to them in turn, and the outcome they make by the redirect rules |
| Http.Client.PostFor | crates/refineid-client/src/http.rs:369-414 | A POST exactly, with the same request and authorization on every exchange |
| Http.Client.PostAuthority | crates/refineid-client/src/http.rs:298-318 | Credentials never leave without HTTPS; otherwise the POST is made, exactly; and every exchange of a run that carries credentials goes to the scheme, host and port the caller named |
| Chunked.ChunkedInverts | crates/refineid-client/src/http.rs:1183-1245 | Decoding inverts a chunking of section 7.1 of RFC 9112, consumes exactly the message and agrees with the Content-Length reading, if and only if the body is within the limit, each line is UTF-8 and no size line has white space before its semicolon; otherwise it fails |
| Chunked.SpaceBeforeSemicolonIsRefused | crates/refineid-client/src/http.rs:1194-1206 | A chunking the grammar allows and the decoder refuses |
| Chunked.SizeLineIsRead | crates/refineid-client/src/http.rs:1194-1206 | The size of a grammatical size line is read, with machine-word overflow checks, exactly when no white space precedes the semicolon |
| Chunked.DecodeIsBounded | crates/refineid-client/src/http.rs:1183-1245 | On any stream a decoded body is within the limit and extends what was already read |
| ChunkedExact.DecodeExactly | crates/refineid-client/src/http.rs:1183-1245 | On any stream at all, grammatical or not: the decoder accepts exactly the streams made of full size lines, that many octets and two more, then a size of zero and trailers up to a blank line or the end, with a body within the limit; it returns that body and leaves what follows |
| ChunkedExact.SizeOfLineExactly | crates/refineid-client/src/http.rs:1194-1206 | The size read from any line is the one it states: hexadecimal digits of a machine word, perhaps behind a plus sign, up to a semicolon or the line break |
| Chunked.HexDigitExactly | crates/refineid-client/src/http.rs:1201-1206 | The digits are the sixteen characters, letters in either case |
| Utf8Exact.Utf8Exactly | crates/refineid-client/src/http.rs:1194-1196 | The line reader's text check accepts exactly the encodings of Unicode scalar values |
| Chunked.Reader.ReadChunkedBody | crates/refineid-client/src/http.rs:1183-1245 | The loop ends on every finite stream, its buffer never exceeds the limit, and it computes the decoding |
| Dnssec.CombineLaws | crates/refineid-client/src/http.rs:812-839 | The merge is commutative, associative and idempotent up to address order, and falls back only when both families do |
| Dnssec.CombineIsJoin | crates/refineid-client/src/http.rs:812-839 | Secure beats Bogus beats SecureEmpty beats Fallback, and the addresses are the duplicate-free union |
| Dnssec.ResolvedAddressesAreProved | crates/refineid-client/src/http.rs:783-839 | The addresses returned as secure are exactly those recorded in a family all of whose records are proved secure |
| Dnssec.ClassifyIgnoresOrder | crates/refineid-client/src/http.rs:783-810 | The order of a family's records does not matter |
| Dnssec.ClassifyExactly | crates/refineid-client/src/http.rs:783-810 | One family case by case: bogus if any record is, fallback if there is none or any falls short, empty if no record has an address, and otherwise exactly the recorded addresses, once each in the order recorded |
| Dnssec.CombineExactly | crates/refineid-client/src/http.rs:812-839 | Two families case by case: every address either found, the first family's before the second's; without one, bogus before empty before fallback |
| Dnssec.ClassifyProvenAddresses | crates/refineid-client/src/http.rs:783-810 | The scan computes the family's verdict |
| Dnssec.CombineLookups | crates/refineid-client/src/http.rs:812-839 | The nested loops compute the merge |
| Base64Url.RoundTrip | crates/refineid-lib-core/src/base64.rs:61-111 | The streaming decoder inverts the encoder on every octet string |
| Base64Url.DecodedBits | crates/refineid-lib-core/src/base64.rs:84-111 | On any string over the alphabet with n digits the decoder yields floor(6n/8) octets that spell the leading bits of the digit stream, although its 32-bit accumulator drops high bits; on any other string it fails |
| Base64Url.EncodedSpells | crates/refineid-lib-core/src/base64.rs:61-81 | The encoder's digits spell the input followed by zero bits |
| Base64Url.EncodedIsUnpadded | crates/refineid-lib-core/src/base64.rs:61-81 | The text has no padding and the length section 5 of RFC 4648 leaves without it |
| Base64Url.UrlAlphabet | crates/refineid-lib-core/src/base64.rs:57-111 | Digits and characters correspond as in table 2 of RFC 4648 |
| Base64Url.EncodeUrlUnpadded | crates/refineid-lib-core/src/base64.rs:61-81 | The nested loops compute the encoding |
| Base64Url.DecodeUrlUnpadded | crates/refineid-lib-core/src/base64.rs:84-111 | The streaming loop computes the decoding and fails at the first foreign character |
| Base64Text.EncodeChunks | crates/refineid-lib-core/src/base64.rs:30-55 | The library encoder computes the padded encoding |
| Base64Text.EncodeTriples | crates/refineid-client/src/card_pubkey.rs:756-819 | The key exporter's encoder computes the same string on every input |
| Base64Text.RoundTrip | crates/refineid-client/src/text.rs:74-128 | The text decoder inverts both encoders on every octet string |
| Base64Text.DecodeText | crates/refineid-client/src/text.rs:74-128 | The quantum loop computes the decoding and refuses a length that is not a multiple of four |
| Base64Text.StandardAlphabet | crates/refineid-client/src/text.rs:79-88 | Digits and characters correspond as in table 1 of RFC 4648 |
| Base64Canonical.DecodedText | crates/refineid-client/src/text.rs:74-128 | The decoder on every text: it accepts exactly whole quanta over the alphabet with padding only in their last two places, and yields quantum by quantum the octets of the 24-bit number spelled, those under padding left out |
| Base64Canonical.CanonicalExactly | crates/refineid-client/src/text.rs:74-128 | Encoding an accepted text's value gives the text back exactly when padding stands only at its end and no bits are left under it |
| Base64Text.PemBodyRoundTrip | crates/refineid-client/src/card_pubkey.rs:515-541 | Stripping white space from the wrapped body recovers the base64 text, which decodes to the key; every line has 64 characters except possibly a shorter, non-empty last one |
| Base64Text.PemLines | crates/refineid-client/src/card_pubkey.rs:515-541 | A PEM public key has a header line, the base64 text in lines of 64 of which only the last may be shorter, and a footer line |
| Base64Text.EncodePemSpki | crates/refineid-client/src/card_pubkey.rs:515-541 | The wrapping loop computes the PEM text |
| SshWire.MpintIsCanonical | crates/refineid-client/src/card_pubkey.rs:709-742 | An mpint decodes back as a non-negative two's-complement integer, and is minimal exactly when the value is not a written-out zero |
| SshWire.ContentIsFunctionOfValue | crates/refineid-client/src/card_pubkey.rs:709-742 | Leading zeros do not matter: equal values have equal encodings |
| SshWire.RsaBlobParses | crates/refineid-client/src/card_pubkey.rs:613-624 | The ssh-rsa blob parses back to exactly its exponent and modulus |
| SshWire.RsaBlobIsCanonical | crates/refineid-client/src/card_pubkey.rs:613-624 | Two keys have the same blob exactly when they have the same numbers |
| SshWire.StringReadsBack | crates/refineid-client/src/card_pubkey.rs:681-693 | A wire string is read back with whatever follows it |
| SshWire.LengthIsBigEndian | crates/refineid-client/src/card_pubkey.rs:681-693 | The length is four octets, most significant first |
| SshWire.NameIsSshRsa | crates/refineid-client/src/card_pubkey.rs:613-624 | The key type is ssh-rsa |
| SshWire.ParseComment | crates/refineid-client/src/card_pubkey.rs:121-135 | A comment is accepted exactly when it is at most 1024 octets and has no line break, and refused for the right reason |
| SshWire.KeyLineIsOneLine | crates/refineid-client/src/card_pubkey.rs:121-135 | A key line with an accepted comment contains no line break |
| SshWire.FileSplitsIntoItsKeys | crates/refineid-client/src/card_pubkey.rs:366-375 | A file of k concatenated key blocks has exactly k lines, the blocks in order |
| SshWire.WriteString | crates/refineid-client/src/card_pubkey.rs:681-693 | Appends the length-prefixed string |
| SshWire.WriteMpint | crates/refineid-client/src/card_pubkey.rs:709-742 | The trimming loop appends the mpint |
| SshWire.EncodeSshRsa | crates/refineid-client/src/card_pubkey.rs:613-624 | The whole ssh-rsa line |
| SshWire.ConcatenateReports | crates/refineid-client/src/card_pubkey.rs:366-375 | The concatenation loop |
| KeyFiles.ExportKeys | crates/refineid-client/src/card_pubkey.rs:366-375 | The file written for a list of keys is their lines in order |
| KeyFiles.KeyFileReadsBack | crates/refineid-client/src/card_pubkey.rs:361-624 | The file for k keys with accepted comments has exactly k lines, and line by line reads back as the exponent, the modulus and the comment it was written from |

## Left out

- Completeness of path search: the issuer choice is greedy and does not backtrack, so nothing is claimed about finding every valid path.
- The checks inside one OCSP or CRL answer (signer authorization, nonce echo, freshness windows): each is one conjunction; an answer is judged good, revoked or unusable by an input function.
- Response head parsing (`read_response`'s status line and headers): the body framing that was selected is taken as given.
- `resolve_destination`, public-address ranges and sockets: name resolution enters as the answer to an exchange, and the address tables hold no reasoning.
- `Uri` parsing and reference resolution: `join` is an input function.
- The signing run on the card (`sign_chain`, `sign_dispatch_by_alg`) and the timestamp back-off loop: straight-line dispatch and a doubling delay would only add easy members.
- Formatting of the signed document (PDF, ASiC, CMS): assembly is modelled as the tokens and store that go into it, and never fails for format reasons.
- Per-request failures inside `fetch_timestamp` and `request_token`: an authority's answer is present or absent.
- Card transport, reader selection, PACE, secure messaging and PIN memory wiping: commands are abstract, with their status words.
- Trust establishment before a PIN flow (card model, pinned root): the flows start from the bound serial.
- The organizational PIN numbering: the modelled flows use the citizen numbering only.
- Random nonces: one draw for each certificate and service; a service asked twice about one certificate is asked with the same nonce.
- The PUK counter: unblocking, and activating an older card, present the PUK without a floor; the model claims at most one PUK try per run.
- Outside interference: the retry-floor results assume nothing else uses the card during a run.
- `decode_cert_pem_or_der`: marker search around the decoder that is modelled.
- ECDSA key lines: the same line shape as RSA around a blob of three wire strings.
- Reports, event output, command-line parsing and the graphical and PKCS#11 front ends.
