# Onomancy in Dafny

Onomancy binds DNS hostnames to self-certifying documents. A zone publishes a TXT record
naming a document and a generation key; a certificate binds the hostname to the document
and carries the DNSSEC chain that proves the record; verifiers with no network judge both.
This project models the parts where several pieces of code must agree, and proves that
they do.

Run `dafny verify dfyconfig.toml`.

## What is modelled

| part | files |
|---|---|
| chain builder and chain validator, as two independent machines | `Builder`, `BuilderRuns`, `Validator`, `Soundness`, `Agreement`, `Completeness`, `Worlds` |
| rules of DNSSEC the validator does not check, and when accepted chains meet them | `Containment`, `BuiltChains`, `Commitment`, `Wildcards`, `Acceptance` |
| failing inputs | `OneRecordLinks`, `Counterexamples`, `RootTargets` |
| DNS wire forms and signature input | `Names`, `Records`, `Links`, `KeyTags`, `Dnssec`, `Freshness`, `LeafRecords` |
| canonical codec of signed units | `Wire`, `EntryLists`, `DnsNames`, `SignedUnits`, `Statements`, `Bindings`, `Certificates` |
| TXT binding records, serials, RRset selection | `TxtRecords`, `Serials`, `Base64`, `Selection` |
| path resolution and the comparison ladder | `Resolution`, `Ladder` |
| carriage replay, namestores, petnames, certificate lists | `Replay`, `Namestores`, `Petnames`, `CertificateLists`, `RegionLists` |
| shared | `Wrappers`, `Ordering`, `Text`, `Segments`, `Anchors` |

Each operation the source performs step by step is a method over a class or a loop, proved
equal to a function; the theorems are lemmas about the functions. What the source takes
from elsewhere is a parameter with a stated contract, and a witness shows that the contract
can be met: the varint crate (`Wire.Varint`: a prefix-free bijection between u64 and its
encodings, none empty), keys, signatures and digests (`SignedUnits.Suite`, `Dnssec.Crypto`),
the bs58check spelling of documents (`Anchors.AnchorCodec`, `Selection.Spelling`), the
document graph (`Resolution.Reference`, `Resolution.Replicas`), and whether an event is
acceptable (`Replay.Accepts`). Whether the document substrate commits a transaction is an
input of every write.

## Where the code and its documentation differ

- **A zone that speaks for a name outside it.** Section 5.3.1 of RFC 4035 asks that a signer's
  zone contain the names it signs. The validator checks who signed and where descents go, not that
  a DS link leads toward the name being resolved, so any signed zone can sign any hostname's leaf:
  `Counterexamples.AnySignedZoneSpeaks`, `Counterexamples.UncontainedChain`. An accepted chain is
  contained exactly when its links stay on the branch: `Containment.ContainedExactly`,
  `Containment.ContainedChains`. Every chain the builder finishes does, whatever it is answered:
  `BuiltChains.BuiltChainsAreContained`.
- **One key or two.** Section 5.2 of RFC 4035 speaks of a key that matches the DS or anchor and
  signs the key set. The validator asks for a key that matches and, separately, a key that signs:
  a foreign key added to a set can sign it alone (`Counterexamples.ForeignKeyEnters`,
  `Counterexamples.ForeignKeyCrosses`). `Commitment.RuleExactly` says exactly which sets are safe
  from that, `Commitment.EntryRuleExactly` and `Commitment.CutRuleExactly` where they are taken.
- **Wildcards.** Expanded answers are documented to be rejected outright. Only the leaf's label
  count is checked, so an expanded CNAME is followed: `Counterexamples.ExpandedHopIsFollowed`. A
  link is safe from that exactly when each signature that could be accepted for it counts its own
  owner's labels: `Wildcards.LinkUnexpandedExactly`.
- **CNAME to the root name.** The builder keeps its zone where the validator re-roots:
  `RootTargets.RootTargetRun` is such a run. The two agree on zones in runs without such a
  target, and a hop breaks the agreement exactly when it goes to the root from another zone:
  `Agreement.HopAgreesExactly`. The chain is accepted all the same if the path ends at the root or
  goes on outside the zone it left (`Completeness.EndToEnd`); back inside it the chain is refused
  (`RootTargets.RootTargetRefused`).
- **Certificate lists.** `put` is documented to replace the entry with an identical signed
  region. The code finds a position among the byte entries and writes at that index of the
  whole list, so an entry is replaced exactly when no other item stands before it:
  `CertificateLists.ReplacesExactly`, `CertificateLists.ForeignEntryIsOverwritten`. It also
  compares the signature and not only the region, so one region can stand twice
  (`RegionLists.SignedTwice`); each stands once exactly when none is known under two signatures:
  `RegionLists.PutKeepsRegionsExactly`, `RegionLists.RunKeepsRegionsExactly`,
  `RegionLists.RegionLength`.
- **Renames.** A rename is documented to change nothing but display. Onto a label that holds an
  edge it can drop a target (`Petnames.RenameDropsATarget`); `Petnames.RenameKeepsTargets` says
  exactly when it does not.
- **Segments.** The segment type is documented to consume one segment a hop; the walk consumes
  the whole longest key, as in `Resolution.GreedyDeadEnd`. One segment is consumed exactly when no
  longer prefix is a key: `Resolution.OneSegmentHops`.
- **Replay rounds.** The loop detects a round without progress by comparing a vector's length
  with its capacity, which is only promised to be at least what was asked for.
  `Replay.LoopExactly` says when a stuck replay is noticed; `Replay.ReplayLoop` is the loop with
  exact capacities.

## Model

| member | source | states |
|---|---|---|
| `Soundness.Soundness` | onomancy_dnssec/src/validator.rs:90-153 | accepting a chain implies evidence: an anchor-matched self-signed root key set, DS-matched self-signed cuts strictly descending from it, at most eight CNAMEs from the `_onomancy` owner and a TXT leaf, each signed under the keys trusted there, re-entering at the root after a hop out of the subtree; the links judged are exactly the evidence, in order, and the window is the intersection of the one signature used on each |
| `Acceptance.AcceptedMeans` | onomancy_dnssec/src/validator.rs:90-153 | every accepted chain has evidence as in `Soundness.Soundness`; its zones contain the names they speak for if and only if the links stay on the branch being resolved, committed keys sign throughout if the key sets are covered, and no link used is a wildcard expansion if and only if each signature used counts its own owner's labels |
| `Containment.ContainedExactly` | onomancy_dnssec/src/validator.rs:214-312 | section 5.3.1 of RFC 4035, exactly: for any evidence of an accepted chain, each CNAME and the leaf lie inside the zone that signs them if and only if the anchored zone lies above each name resolved and every DS link stands at or above the name being resolved then, read off link owners and CNAME targets alone |
| `Containment.ContainedChains` | onomancy_dnssec/src/validator.rs:90-153 | an accepted chain has contained evidence if and only if its links stay on the branch |
| `Containment.CutsOnBranch` | onomancy_dnssec/src/validator.rs:214-259 | a descent's DS links all lie above a name if and only if the zone it ends in does |
| `Containment.PathOnBranch` | onomancy_dnssec/src/validator.rs:262-312 | along a path of CNAMEs with re-rooting, every link is inside its signer's zone if and only if the remaining links stay on the branch |
| `BuiltChains.BuiltChainsStayOnBranch` | onomancy_chain/src/builder.rs:178-306 | for every sequence of answers, hostile ones and CNAMEs to the root included, the links of a chain the builder finishes stay on the branch of the name being resolved |
| `BuiltChains.BuiltChainsAreContained` | onomancy_chain/src/builder.rs:178-306 | so if the validator accepts a chain the builder finished, in every evidence for it each CNAME and the leaf lie inside the zone that signs them |
| `BuiltChains.PushTurns` | onomancy_chain/src/builder.rs:145-154 | each RRset framed turns the branch by its type, owner and target |
| `Counterexamples.AnySignedZoneSpeaks` | onomancy_dnssec/src/validator.rs:291-312 | the failure of containment: any signed zone whatever is accepted as the signer of any hostname's leaf; its chain is on the branch only if the zone lies above the name |
| `Counterexamples.UncontainedChain` | onomancy_dnssec/src/validator.rs:291-312 | in particular the keys of `e` are accepted for `_onomancy.v.w`, framed links and all, and no evidence for that chain is contained |
| `Commitment.RuleExactly` | onomancy_dnssec/src/validator.rs:324-353 | section 5.2 of RFC 4035, exactly: whatever the signature check says, an accepted key set is signed by a committed key, if and only if every zone key that a timely signature of the zone names by algorithm has the algorithm and public key of a committed zone key |
| `Commitment.EntryRuleExactly` | onomancy_dnssec/src/validator.rs:174-208 | the same for the anchored key set, over its guards |
| `Commitment.CutRuleExactly` | onomancy_dnssec/src/validator.rs:236-259 | the same for a child's key set against the DS set above it, over its guards |
| `Commitment.CommittedKeysSign` | onomancy_dnssec/src/validator.rs:90-153 | in an accepted chain whose key sets are covered, every key set that evidence rests on is signed, by the signature used, under a key an anchor or the DS set above commits to |
| `Commitment.OneKeySigns` | onomancy_dnssec/src/validator.rs:324-353 | a check that accepts one timely signature under one key gets the set accepted, by a signature with the same label count, under that key only |
| `Commitment.ParsedLinksComeFromWire` | onomancy_dnssec/src/link.rs:47-101 | each signature of a parsed link was read from some RDATA, which is what the exact rules ask of a link |
| `Counterexamples.ForeignKeyEnters` | onomancy_dnssec/src/validator.rs:183-205 | the failure of the rule at the root: a set with one foreign key added, and signed by that key alone, is entered |
| `Counterexamples.ForeignKeyCrosses` | onomancy_dnssec/src/validator.rs:245-256 | the failure at any cut: the same set is crossed into below a DS that commits to the other key |
| `Wildcards.UnexpandedExactly` | onomancy_dnssec/src/wire/rrsig.rs:258-280 | a signature is over the link's own owner name if and only if it counts all its labels, or all but a literal leading wildcard |
| `Wildcards.LinkUnexpandedExactly` | onomancy_dnssec/src/validator.rs:324-353 | whatever the signature check says, a link is never taken as a wildcard expansion, if and only if each signature that could be accepted for it counts its own owner's labels |
| `Wildcards.UnexpandedChains` | onomancy_dnssec/src/validator.rs:291-305 | the leaf of an accepted chain is never expanded, and the chain is free of expansion if and only if each signature used before the leaf counts its own owner's labels |
| `Counterexamples.ExpandedHopIsFollowed` | onomancy_dnssec/src/validator.rs:262-288 | the failure: a CNAME whose only signature was made over `*` is followed and the chain accepted |
| `Soundness.SoundFrom` | onomancy_dnssec/src/validator.rs:110-151 | the same for every remainder of a chain, from any trust the walk has reached: the invariant each link keeps |
| `Soundness.AcceptedGrade` | onomancy_dnssec/src/freshness.rs:58-68 | the evidence of an accepted chain can be chosen so that the reported window grades Fresh at an instant if and only if every signature used covers it |
| `Validator.ParsedFrames` | onomancy_dnssec/src/validator.rs:95-99 | a chain parses exactly when every frame does; otherwise the error is that of the first bad frame |
| `Soundness.GradeMeans` | onomancy_dnssec/src/freshness.rs:58-68 | an accepted window grades Fresh at an instant exactly when every signature used covers it, NotYetBegun exactly when some one has not begun, Stale exactly when all have begun and some one has lapsed |
| `Soundness.IntersectMeans` | onomancy_dnssec/src/validator.rs:356-367 | narrowing by a signature keeps exactly the instants of both, and fails exactly when no instant is left: an empty window is never reported |
| `Soundness.FirstUsable` | onomancy_dnssec/src/validator.rs:324-353 | a link verifies exactly when some signature by the current zone verifies under some zone key, and the first such signature is the one used; key-tag hints change neither |
| `Soundness.Verified` | onomancy_dnssec/src/validator.rs:324-353 | verifying a link establishes a signature of the current zone over it and adds exactly that signature to the window, zone and keys unchanged |
| `Soundness.CrossCut` | onomancy_dnssec/src/validator.rs:214-259 | an accepted DS link is followed at once by the child keys, and the pair is one trusted cut strictly below the current zone |
| `Soundness.FollowHop` | onomancy_dnssec/src/validator.rs:262-288 | an accepted CNAME link is at the query target, signed under the current keys, and trust resumes where the re-root rule says, one hop nearer the limit |
| `Soundness.ReachLeaf` | onomancy_dnssec/src/validator.rs:291-312 | the accepted leaf is at the query target and signed over its own owner name, never a wildcard; the records returned are one for each RDATA of its RRset that carries a valid record, in RRset order, and the window is the accumulated one |
| `LeafRecords.CarriedExactly` | onomancy_dnssec/src/validator.rs:391-401 | a record is read from an RDATA if and only if the RDATA is one or more length-prefixed character strings of at most 255 octets whose concatenation is the print of that valid record |
| `LeafRecords.BindingsYield` | onomancy_dnssec/src/validator.rs:391-401 | the records read from an RRset are one for each RDATA that carries one, in RRset order, and nothing else |
| `LeafRecords.YieldsOneList` | onomancy_dnssec/src/validator.rs:391-401 | an RRset yields one list of records: no other list meets that description |
| `Agreement.BuiltChainsNeverTrip` | onomancy_dnssec/src/validator.rs:110-151 | for every sequence of answers, hostile ones included, a chain the builder finishes never gets UnexpectedLink, NotDescending, WrongOwner, TooManyCnames, MissingLeaf or an empty chain from the validator |
| `Agreement.ZonesAgree` | onomancy_chain/src/builder.rs:178-217 | in every run with no CNAME target at the root, builder and validator stand in the same zone and at the same name at every CNAME and TXT link, and the zone holds the name |
| `Agreement.HopAgreesExactly` | onomancy_chain/src/builder.rs:292-306 | after a hop the two agree on the zone if and only if the hop does not go to the root name from another zone |
| `RootTargets.RootTargetRun` | onomancy_chain/src/builder.rs:258-306 | a whole run that parts the two: fed these answers for `_onomancy.com`, the builder frames a link at the root while it stands in `com`, and a validator of its links is at the root |
| `RootTargets.RootTargetHop` | onomancy_chain/src/builder.rs:292-306 | on that run the hypotheses of `Agreement.HopAgreesExactly` hold with the root as target and another zone, and the zones differ |
| `RootTargets.RootTargetRefused` | onomancy_chain/src/builder.rs:258-306 | past the root and back into the zone left behind the two cannot agree: fed answers each signed by the zone it lies in, the builder finishes a chain the validator refuses with SignerMismatch |
| `Agreement.TakesCourse` | onomancy_dnssec/src/validator.rs:110-146 | each link moves the validator exactly as its shape (type, owner, CNAME target) moves the course: same zone, target, pending cut and hop count, and no structural refusal unless the course trips |
| `Agreement.CourseJudged` | onomancy_dnssec/src/validator.rs:110-151 | a chain whose shapes form a course is refused, if at all, for its content and never for its structure |
| `Agreement.ReplayIsTheWalk` | onomancy_dnssec/src/validator.rs:110-147 | judging a chain in two parts is judging it whole |
| `Agreement.TurnKeepsCourse` | onomancy_chain/src/builder.rs:76-107 | every answer the builder accepts keeps its framed links on a course that ends at its own zone, name and hop count |
| `Agreement.PushMoves` | onomancy_chain/src/builder.rs:145-154 | framing one more link extends the course by that link and nothing else |
| `Agreement.ParsedShapes` | onomancy_dnssec/src/link.rs:47-101 | parsing a framed link gives back the owner, type and CNAME target it was framed from |
| `Completeness.EndToEnd` | onomancy_chain/src/builder.rs:76-357 | for every tree of signed zones answered faithfully, with a CNAME path of at most eight hops that does not pass the root and come back into the zone it left, and all signatures covering one instant, the builder either outgrows the unit cap or finishes a chain the validator accepts, with one record for each RDATA of the TXT RRset at the end of the path that carries one, in order, and a window that covers the instant |
| `Completeness.SignedVerifies` | onomancy_dnssec/src/validator.rs:324-353 | an RRset some key of its zone signs verifies in the walk and keeps the shared instant inside the window, whichever of its signatures is used |
| `Completeness.PushedLink` | onomancy_chain/src/builder.rs:373-407 | framing a faithful answer and parsing the frame gives the RRset the answer held |
| `Completeness.AdvanceStands` | onomancy_chain/src/builder.rs:263-309 | through the whole leaf walk, re-descents included, the links framed so far are ones the validator accepts, standing at the deepest cut above the current name |
| `Worlds.FaithfulWorldsExist` | onomancy_chain/src/builder.rs:76-357 | the hypotheses of the end-to-end theorem are met: for every tree of zone cuts and every CNAME between two names some judge and resolver are faithful |
| `BuilderRuns.CapHolds` | onomancy_chain/src/builder.rs:144-154 | in every reachable machine the byte total is the sum of the framed lengths and within the unit cap, and so is every finished chain |
| `BuilderRuns.AnswerShrinks` | onomancy_chain/src/builder.rs:76-107 | every further question strictly lowers the measure (phase, hops remaining, labels left and awaited record) |
| `BuilderRuns.Drive` | onomancy_chain/src/builder.rs:76-107 | against any resolver the machine reaches an end: a chain or an error |
| `BuilderRuns.QuestionsBounded` | onomancy_chain/src/builder.rs:98-103 | with names of at most L labels no run asks more than 2 + 20 L questions |
| `Builder.FramedLinks.PushLink` | onomancy_chain/src/builder.rs:145-154 | appends the link and its length, or refuses a total past the cap |
| `Builder.Frame` | onomancy_chain/src/builder.rs:373-407 | the frame loop writes the RRset of that owner and type and then exactly the signatures covering it there |
| `Builder.DataOf` | onomancy_chain/src/builder.rs:378-383 | the data kept from an answer is exactly the records of that owner and type |
| `Builder.SignaturesOf` | onomancy_chain/src/builder.rs:384-420 | the signatures kept are exactly the RRSIG records at the owner covering the type |
| `Builder.AdvanceWalk` | onomancy_chain/src/builder.rs:263-309 | the leaf loop computes the walk specified round by round |
| `Builder.AnswerDescent` | onomancy_chain/src/builder.rs:178-217 | one answer to a descent: probe, frame, or move on to the next suffix |
| `Builder.AnswerMachine` | onomancy_chain/src/builder.rs:76-107 | one answer in each of the three phases |
| `Builder.StartsExactly` | onomancy_chain/src/builder.rs:44-60 | building starts with the root's DNSKEY question and nothing framed, or is refused exactly when the `_onomancy` owner does not fit |
| `Builder.AnswerAsks` | onomancy_chain/src/builder.rs:76-357 | whatever a machine is answered, the question it asks next is the one its new state waits on: type 48 at the root, 43 or 48 at the name a descent stands at, or 16 at the leaf |
| `Builder.CnameFound` | onomancy_chain/src/builder.rs:270-281 | the CNAME followed is the first answer at the current name that reads as one, and there is none exactly when no answer does |
| `Validator.WalkState.IntersectWindow` | onomancy_dnssec/src/validator.rs:356-367 | narrows the window in place and touches neither zone nor keys |
| `Validator.WalkState.VerifySigned` | onomancy_dnssec/src/validator.rs:324-353 | the nested loops over signatures and hinted keys, with the last failure as the error |
| `Validator.WalkState.Enter` | onomancy_dnssec/src/validator.rs:181-211 | a walk entered at an anchor-matched, self-signed key set, or the first violation |
| `Validator.WalkState.Delegate` | onomancy_dnssec/src/validator.rs:214-231 | a DS set introducing a strictly deeper cut, verified under the current keys |
| `Validator.WalkState.DescendTo` | onomancy_dnssec/src/validator.rs:235-259 | zone and keys become the child's once a child key matches the DS set and the child keys sign themselves |
| `Validator.WalkState.Follow` | onomancy_dnssec/src/validator.rs:262-288 | the CNAME target, with zone and keys reset to the root when the target lies outside the zone |
| `Validator.WalkState.Finish` | onomancy_dnssec/src/validator.rs:291-312 | the proof at the leaf, refusing another owner and wildcard expansion |
| `Validator.ParseFrames` | onomancy_dnssec/src/validator.rs:95-99 | every frame is parsed before any is judged: success if and only if each frame parses, each to its own link |
| `Validator.ValidateDetailed` | onomancy_dnssec/src/validator.rs:90-152 | the validation loop over mutable walk state computes the judgement the theorems are about, with the same first error |
| `Validator.OwnerExactly` | onomancy_dnssec/src/wire/name.rs:100-111 | the owner asked about is the nine letters of `_onomancy` and then the hostname's labels, and there is none exactly when that is over 255 octets of wire |
| `Validator.OutOfPlaceExactly` | onomancy_dnssec/src/validator.rs:112-150 | a link is refused as out of place if and only if it is anything but the child's keys after a DS set, or elsewhere of a type other than 43, 5, 16, 47 and 50 |
| `Names.NameCanonical` | onomancy_dnssec/src/wire/name.rs:53-90 | whatever reads as a name is the one spelling of a valid name |
| `Names.NamePrefix` | onomancy_dnssec/src/wire/name.rs:53-130 | every valid name reads back from its wire form, whatever follows |
| `Names.NameExactly` | onomancy_dnssec/src/wire/name.rs:53-90 | what reads as a name: counted labels of 1 to 63 octets without the letters A to Z, a zero octet, 255 octets in all |
| `Records.RecordCanonical` | onomancy_dnssec/src/wire/record.rs:43-76 | whatever reads as a record re-writes to exactly the octets consumed |
| `Records.RecordPrefix` | onomancy_dnssec/src/wire/record.rs:43-76 | every record of representable fields reads back from its octets, whatever follows |
| `Records.PreamblePartition` | onomancy_dnssec/src/wire/rrsig.rs:54-84 | the signed preamble and the signature partition the RRSIG RDATA |
| `Records.RrsigLayout` | onomancy_dnssec/src/wire/rrsig.rs:54-84 | an RRSIG RDATA reads as given fields if and only if it is their big-endian integers of 2, 1, 1, 4, 4, 4 and 2 octets, a valid signer name and the signature, the preamble being all before the signature |
| `Records.RrsigRefused` | onomancy_dnssec/src/wire/rrsig.rs:54-84 | an RRSIG RDATA that is too large, cut short in a field or ill-formed in its signer is refused for that, with the field's width and what was left of it |
| `Records.CoveredTypeExactly` | onomancy_chain/src/builder.rs:402-423 | an RRSIG record covers the type its first two octets spell, and no other record covers any |
| `Records.DnskeyLayout` | onomancy_dnssec/src/wire/dnskey.rs:41-59 | a DNSKEY RDATA reads as a key if and only if it is the flags, the octet 3, the algorithm and the public key |
| `Records.ZoneFlag` | onomancy_dnssec/src/wire/dnskey.rs:71-73 | the ZONE flag is the bit worth 256 |
| `Records.DsLayout` | onomancy_dnssec/src/wire/ds.rs:29-47 | a DS RDATA is a key tag, an algorithm, a digest type and a digest that is not empty |
| `Records.CnameLayout` | onomancy_dnssec/src/wire/cname.rs:25-31 | a CNAME RDATA is one valid uncompressed name and nothing after it |
| `Names.TakeName` | onomancy_dnssec/src/wire/name.rs:53-90 | the label loop takes exactly the octets of one valid name, or stops at the first octet that no canonical name has |
| `Records.TakeRecord` | onomancy_dnssec/src/wire/record.rs:43-60 | one record from a cursor: the octets taken are exactly the spelling of the representable record returned |
| `Links.ParsedLinksAreWellFormed` | onomancy_dnssec/src/link.rs:47-101 | a parsed link is one RRset: one owner, one type, class IN, and at least one signature, each at that owner covering that type |
| `Links.FrameParses` | onomancy_dnssec/src/link.rs:47-101 | a frame parses if and only if it is within the cap, every record has class IN and every RRSIG is readable, and then exactly to the RRset and signatures it was made from |
| `Links.ReadHalves` | onomancy_dnssec/src/link.rs:54-67 | the reading loop separates data from signatures, in order, or stops at the first malformed record |
| `Links.Check` | onomancy_dnssec/src/link.rs:83-93 | the cross-checking loop accepts exactly when every RRSIG record stands at the owner and covers the type, and otherwise names the first that does not |
| `Links.Parse` | onomancy_dnssec/src/link.rs:47-101 | the whole link parse over a cursor |
| `Dnssec.SignedDataIsTheSet` | onomancy_dnssec/src/wire/rrsig.rs:228-253 | under one RRSIG two links at one owner of one type have the same signed octets if and only if they hold the same RDATA as a set: order and repetition do not matter, and nothing else can be swapped in |
| `Dnssec.CanonicalRrsetInjective` | onomancy_dnssec/src/wire/rrsig.rs:242-250 | the canonical form delimits its entries: it spells one list of RDATA |
| `Dnssec.SignedDataExactly` | onomancy_dnssec/src/wire/rrsig.rs:228-253 | the octets a signature is over, octet by octet and without naming any function of the encoder: the preamble, then for each distinct RDATA in strictly ascending order the signed name, the type, class 1, the original TTL and the length as big-endian integers, and the RDATA; none exactly when the label count exceeds the owner's |
| `Dnssec.SignedNameExactly` | onomancy_dnssec/src/wire/rrsig.rs:258-281 | the signed name is the owner, or `*` above its last labels when fewer are counted, and none when more are |
| `Commitment.ParsedLinksAreRepresentable` | onomancy_dnssec/src/link.rs:47-101 | the fields of a parsed link and of each of its signatures fit the widths those octets give them |
| `Dnssec.VerifyExactly` | onomancy_dnssec/src/wire/rrsig.rs:198-218 | one signature verifies under one key if and only if the key has the bit worth 256, shares the algorithm, and the check accepts the signature of exactly those octets under the key's public octets; each earlier refusal is named |
| `Dnssec.DsMatchesExactly` | onomancy_dnssec/src/crypto.rs:138-174 | a DS RDATA commits to a DNSKEY RDATA if and only if after its key tag stand the key's algorithm octet, digest type 2, and the SHA-256 of the owner's wire form and the key's RDATA |
| `Dnssec.AnchorMatchesExactly` | onomancy_dnssec/src/trust_anchor.rs:41-45 | a trust anchor commits to a key as such a DS of its zone would |
| `KeyTags.ComputeKeyTag` | onomancy_dnssec/src/wire/dnskey.rs:97-114 | for every RDATA a 16-bit length can frame, the loop stays within its 32-bit accumulator and gives the pairwise big-endian sum with one carry fold of Appendix B of RFC 4034 |
| `KeyTags.PairSumBound` | onomancy_dnssec/src/wire/dnskey.rs:97-114 | the word sum is at most 65535 for each pair of octets, the bound behind the absence of overflow |
| `KeyTags.PairSumStep` | onomancy_dnssec/src/wire/dnskey.rs:99-108 | adding one octet in the half its position selects extends the word sum |
| `Wire.BoundedLengthIsExact` | onomancy_core/src/wire.rs:117-134 | a count is admitted if and only if the rest of the input backs it at the given width, so no allocation precedes the check |
| `Wire.Reader.New` | onomancy_core/src/wire.rs:42-48 | a cursor at the start of a unit within the cap, or OversizeUnit |
| `Wire.Reader.Take` | onomancy_core/src/wire.rs:62-77 | exactly the next octets, or Truncated with the cursor unmoved |
| `Wire.Reader.TakeVarint` | onomancy_core/src/wire.rs:98-104 | the next integer, the cursor just past it |
| `Wire.Reader.BoundedLen` | onomancy_core/src/wire.rs:117-134 | a length the remaining input backs, or LengthOverrun |
| `Wire.Reader.Finish` | onomancy_core/src/wire.rs:142-150 | succeeds exactly at the end of the unit |
| `EntryLists.ListPrefix` | onomancy_core/src/delegation_chain.rs:58-79 | a written list reads back, whatever follows: the count check never refuses it |
| `EntryLists.ListCanonical` | onomancy_core/src/delegation_chain.rs:58-79 | whatever reads as a list is the one spelling of its entries |
| `EntryLists.FramedBijection` | onomancy_dnssec/src/chain.rs:46-77 | a standalone list decodes if and only if it is the spelling of its entries and within the cap |
| `EntryLists.SmallListIsCountable` | onomancy_core/src/delegation_chain.rs:71-78 | a list that fits a unit has lengths a machine word holds, so nothing else need be assumed of it |
| `EntryLists.DecodeList` | onomancy_core/src/delegation_chain.rs:58-68 | the counted loop reads the list from the cursor, or fails where the first bad entry stands |
| `EntryLists.DecodeFramed` | onomancy_dnssec/src/chain.rs:46-52 | a standalone list from a unit, nothing after it |
| `EntryLists.EncodeList` | onomancy_core/src/delegation_chain.rs:71-78 | the loop appends the list and nothing else |
| `DnsNames.CanonicalNames` | onomancy_dnssec/src/dns_name.rs:98-107 | the wire decoder accepts exactly the canonical hostnames, each as itself |
| `DnsNames.ParsedNames` | onomancy_dnssec/src/dns_name.rs:46-86 | parsing yields a canonical hostname, and a canonical hostname parses to itself |
| `DnsNames.ParsingNormalises` | onomancy_dnssec/src/dns_name.rs:46-86 | the canonical hostnames are exactly what parsing produces |
| `DnsNames.ParsedSpelling` | onomancy_dnssec/src/dns_name.rs:46-91 | a hostname parsed is the input without one trailing dot, each letter of A to Z 32 higher and every other octet kept |
| `DnsNames.LabelExactly` | onomancy_dnssec/src/dns_name.rs:153-174 | a label is 1 to 63 letters, digits and hyphens with no hyphen at either end, and each fault is reported exactly in its case |
| `DnsNames.Utf8Exactly` | onomancy_dnssec/src/dns_name.rs:102-103 | octets pass as text if and only if they encode a sequence of Unicode scalar values |
| `DnsNames.DecoderRefusals` | onomancy_dnssec/src/dns_name.rs:102-110 | each refusal of the wire decoder: no text, no hostname, or a hostname spelled otherwise |
| `DnsNames.Parse` | onomancy_dnssec/src/dns_name.rs:46-86 | the label-counting loop computes the parse, with the same error precedence |
| `SignedUnits.SignedPrefix` | onomancy_core/src/signed.rs:51-78 | a valid unit reads back from its own octets, whatever unsigned tail follows |
| `SignedUnits.SignedCanonical` | onomancy_core/src/signed.rs:51-78 | whatever decodes holds a signature that verifies over its own re-encoding, and re-encodes to the octets received |
| `SignedUnits.SelfDelimiting` | onomancy_core/src/signed.rs:51-78 | octets that begin with a valid unit's signed region and signature decode to that unit, whatever comes after |
| `SignedUnits.TakeTag` | onomancy_core/src/signed.rs:52-59 | the tag from a cursor, or WrongTag |
| `SignedUnits.TakeSignature` | onomancy_core/src/signed.rs:63-77 | the signature at the cursor, verified over every octet the cursor has read of the unit |
| `SignedUnits.TakeKey` | onomancy_dnssec/src/statement/rotation.rs:202-208 | a key that is canonically spelled, or the field it was to fill |
| `SignedUnits.TakeHostname` | onomancy_dnssec/src/certificate/binding.rs:122-123 | a canonical hostname, rejected rather than normalised |
| `Statements.StatementBijection` | onomancy_dnssec/src/statement/rotation.rs:65-122 | statement units and the octets that decode are in bijection, for either payload |
| `Statements.CompleteIsValid` | onomancy_dnssec/src/statement/rotation.rs:104-111 | completing a validly signed payload is refused exactly when the unit is over the cap, with the size it would have, and otherwise valid with exactly the given carriage |
| `Statements.RotationLaws` | onomancy_dnssec/src/statement/rotation.rs:176-199 | the rotation fields read back whatever follows, and only valid fields read, with one spelling |
| `Statements.SuccessionLaws` | onomancy_dnssec/src/statement/successor.rs:190-222 | the same for the succession fields, hostname included |
| `Statements.EncodeRotationFields` | onomancy_dnssec/src/statement/rotation.rs:181-185 | appends the rotation fields and nothing else |
| `Statements.DecodeRotationFields` | onomancy_dnssec/src/statement/rotation.rs:187-193 | the rotation fields from a cursor, or the first bad field |
| `Statements.EncodeSuccessionFields` | onomancy_dnssec/src/statement/successor.rs:195-201 | appends the succession fields and nothing else |
| `Statements.DecodeSuccessionFields` | onomancy_dnssec/src/statement/successor.rs:203-217 | the succession fields from a cursor, or the first bad field |
| `Statements.DecodeRotationUnit` | onomancy_dnssec/src/statement/rotation.rs:65-76 | the strict decode of one rotation unit over a cursor |
| `Statements.DecodeSuccessionUnit` | onomancy_dnssec/src/statement/successor.rs:68-79 | the strict decode of one succession unit over a cursor |
| `Statements.EncodeRotationUnit` | onomancy_dnssec/src/statement/rotation.rs:115-122 | the canonical octets of a rotation unit |
| `Statements.EncodeSuccessionUnit` | onomancy_dnssec/src/statement/successor.rs:120-128 | the canonical octets of a succession unit |
| `Statements.SignRotation` | onomancy_dnssec/src/statement/rotation.rs:85-112 | a signed rotation is a valid unit naming the signer as successor; only the cap refuses it, at exactly the length reported |
| `Statements.SignSuccession` | onomancy_dnssec/src/statement/successor.rs:88-117 | a signed succession is a valid unit with exactly the given fields; only the cap refuses it |
| `Bindings.BindingLaws` | onomancy_dnssec/src/certificate/binding.rs:90-148 | the binding fields, heads and nested predecessor included, read back whatever follows, and only valid fields read, with one spelling |
| `Bindings.HeadListPrefix` | onomancy_dnssec/src/certificate.rs:429-445 | every strictly ascending list of 32-octet heads reads back |
| `Bindings.HeadListCanonical` | onomancy_dnssec/src/certificate.rs:429-445 | whatever reads as heads is strictly ascending, hence sorted and duplicate-free, in its one spelling |
| `Bindings.PredecessorPrefix` | onomancy_dnssec/src/certificate/binding.rs:107-133 | a nested predecessor reads back, absence being length zero |
| `Bindings.PredecessorCanonical` | onomancy_dnssec/src/certificate/binding.rs:127-133 | whatever reads as a predecessor is a valid unit in its one spelling, or the absent one |
| `Bindings.TakeHeads` | onomancy_dnssec/src/certificate.rs:429-445 | the counted loop with its comparison to the last head pushed |
| `Bindings.TakePredecessor` | onomancy_dnssec/src/certificate/binding.rs:127-133 | the nested unit from a cursor, its failures wrapped |
| `Bindings.DecodeBindingFields` | onomancy_dnssec/src/certificate/binding.rs:117-143 | the six fields from a cursor in wire order, or the first bad one |
| `Bindings.EncodeBindingFields` | onomancy_dnssec/src/certificate/binding.rs:95-115 | appends the six fields in wire order and nothing else |
| `Bindings.PutHeads` | onomancy_dnssec/src/certificate/binding.rs:102-105 | appends the counted heads in order |
| `Bindings.PutPredecessor` | onomancy_dnssec/src/certificate/binding.rs:107-114 | appends the nested unit under its length, or length zero |
| `Certificates.CertificateBijection` | onomancy_dnssec/src/certificate.rs:101-118 | certificates and the octet strings that decode are in bijection, nested predecessor and lineage included: decode after encode and encode after decode are the identity |
| `Certificates.SameCertificate` | onomancy_dnssec/src/certificate.rs:304-307 | two decodable units carry the same certificate if and only if the second begins with the first's signed region and signature: no change to the attached region can change the certificate |
| `Certificates.KindsAreDisjoint` | onomancy_core/src/signed.rs:51-58 | no octets decode as units of two kinds among rotations, successions and certificates |
| `Certificates.UnitsBegin` | onomancy_dnssec/src/certificate/binding.rs:91-91 | certificates, rotations and successions begin with ONC, ONR and ONS and a zero octet |
| `Certificates.RefreshKeepsTheCertificate` | onomancy_dnssec/src/certificate.rs:274-291 | refreshing is refused only over the cap; otherwise the result keeps the signed part, carries exactly the new attachments, and its octets decode to it |
| `Certificates.AssemblyIsExact` | onomancy_dnssec/src/certificate.rs:195-224 | assembly refuses a signature that does not verify over the offered octets, then a unit over the cap, and nothing else; what it gives is valid with exactly those parts |
| `Certificates.SigningRoutesAgree` | onomancy_dnssec/src/certificate.rs:130-178 | signing in process and assembling from an outside signature over the offered octets give the same certificate, refused only for its size |
| `Certificates.SignableBytesSayOneThing` | onomancy_dnssec/src/certificate.rs:176-178 | two requests sign the same octets if and only if they agree on signer, document, time, hostname and predecessor and on the heads as a set |
| `Certificates.BindingIsValid` | onomancy_dnssec/src/certificate.rs:227-240 | sorting and deduplicating the heads makes the binding one every decoder accepts |
| `Certificates.AssembledIsValid` | onomancy_dnssec/src/certificate.rs:274-291 | a validly signed part with any valid lineage is a valid certificate once it fits the cap |
| `Certificates.LineagePrefix` | onomancy_dnssec/src/certificate.rs:458-471 | a lineage reads back whatever follows: the 166-octet count check never refuses a real one |
| `Certificates.LineageFloor` | onomancy_dnssec/src/certificate.rs:447-459 | every lineage entry occupies at least 166 octets |
| `Certificates.LineageCanonical` | onomancy_dnssec/src/certificate.rs:458-471 | whatever reads as a lineage is valid units in their one spelling |
| `Certificates.AttachedPrefix` | onomancy_dnssec/src/certificate.rs:401-417 | the attached region reads back |
| `Certificates.AttachedCanonical` | onomancy_dnssec/src/certificate.rs:105-109 | whatever reads as an attached region is its one spelling |
| `Certificates.TakeLineage` | onomancy_dnssec/src/certificate.rs:458-471 | the counted loop over nested units, a failure carrying its index |
| `Certificates.PutLineage` | onomancy_dnssec/src/certificate.rs:409-414 | appends the counted, length-prefixed units |
| `Certificates.DecodeCertificateUnit` | onomancy_dnssec/src/certificate.rs:101-118 | the strict decode over a cursor |
| `Certificates.EncodeCertificateUnit` | onomancy_dnssec/src/certificate.rs:243-255 | the canonical octets, built by appending |
| `Certificates.FromPartsUnit` | onomancy_dnssec/src/certificate.rs:195-224 | assembly over a buffer |
| `Certificates.Refresh` | onomancy_dnssec/src/certificate.rs:274-291 | the refresh over a buffer |
| `TxtRecords.DisplayParses` | onomancy_dnssec/src/txt/record.rs:209-219 | printing then classifying is the identity on every record, in at most 133 octets |
| `TxtRecords.BindingPrints` | onomancy_dnssec/src/txt/record.rs:89-186 | whatever classifies as a binding is the print of its record |
| `TxtRecords.RejectedExactly` | onomancy_dnssec/src/txt/record.rs:89-186 | a string is rejected if and only if it is `v=ONO0`, at its end or before a semicolon, and is not the print of any valid record |
| `TxtRecords.DispositionExactly` | onomancy_dnssec/src/txt/record.rs:94-106 | a string is of an unknown version if and only if it is `v=ONO` and digits other than "0", at its end or before a semicolon; and of no known kind if and only if no digits follow `v=ONO` so |
| `TxtRecords.RejectionMeans` | onomancy_dnssec/src/txt/record.rs:130-186 | why a `v=ONO0` string is rejected: too long, not five fields, or the first of its fields at fault, each fault in terms of the field's text |
| `TxtRecords.KeyFaultExactly` | onomancy_dnssec/src/txt/record.rs:243-277 | a key field is refused for its prefix, for a length other than 44, for not being base64, for not decoding to 32 octets, or for not being a curve point, in that order |
| `Serials.SerialRoundTrip` | onomancy_dnssec/src/txt/serial.rs:26-48 | every u64 prints to a spelling of at most 20 digits that parses back to it |
| `Serials.SerialCanonical` | onomancy_dnssec/src/txt/serial.rs:26-48 | the parser accepts exactly the spellings without leading zero of values below 2^64, each of them printed |
| `Serials.OverflowBoundary` | onomancy_dnssec/src/txt/serial.rs:36-48 | within twenty digits the only failure left is Overflow, and it starts exactly at 2^64 |
| `Serials.RefusedExactly` | onomancy_dnssec/src/txt/serial.rs:26-48 | each refusal of a serial exactly: empty, the first character that is no digit, a leading zero, more than twenty digits, 2^64 or more |
| `Serials.TwentyDigits` | onomancy_dnssec/src/txt/serial.rs:6-6 | 2^64 lies above nineteen digits and within twenty |
| `Base64.RoundTrip` | onomancy_dnssec/src/txt/record.rs:243-277 | decoding inverts encoding on all octet strings |
| `Base64.Unique` | onomancy_dnssec/src/txt/record.rs:243-277 | whatever decodes is the encoding of what it decodes to: padding and trailing bits leave one spelling |
| `Base64.EncodesTheBits` | onomancy_dnssec/src/txt/record.rs:209-219 | character i stands for the six bits from bit 6 i on, most significant first, and `=` for none (section 4 of RFC 4648) |
| `Selection.ClassifyRecords` | onomancy_wasm/src/records.rs:165-210 | the loop with its four counters, then top serial, sort and dedup, computes the classification |
| `Selection.CountsSum` | onomancy_wasm/src/records.rs:172-185 | the four counts and the considered bindings sum to the input length |
| `Selection.PermutationInvariant` | onomancy_wasm/src/records.rs:165-210 | a permutation of the strings changes nothing, counts included |
| `Selection.SelectionBySet` | onomancy_wasm/src/records.rs:187-210 | selection and contest depend only on which strings are present |
| `Selection.SelectedExactly` | onomancy_wasm/src/records.rs:187-207 | a record is selected if and only if it holds the top non-deferred serial and every record there has its document and generation |
| `Selection.ContestedExactly` | onomancy_wasm/src/records.rs:187-207 | contest holds exactly when two records differ at the top serial, and then lists each distinct claim there once, in order |
| `Selection.CandidatesDistinguish` | onomancy_wasm/src/records.rs:249-257 | two records spell the same candidate only if they are the same record |
| `Selection.CandidateReadsBack` | onomancy_wasm/src/records.rs:249-257 | what is shown of a record is its anchor behind `automerge:`, its generation key and its serial, each of which reads back |
| `Selection.CandidateLessMeans` | onomancy_wasm/src/records.rs:237-246 | candidates stand in the order of document, then generation, then serial, each as text |
| `Selection.RunIncreases` | onomancy_dnssec/src/txt/serial.rs:66-74 | over a publishing run, clocks moving arbitrarily, serials strictly increase and never lag their clock |
| `Selection.NewestIsSelected` | onomancy_wasm/src/records.rs:165-210 | over a publishing run, at any instant, the newest record that is not deferred is selected uncontested |
| `Selection.DeferralIsASuffix` | onomancy_wasm/src/records.rs:214-218 | deferral sets aside the newest part of a run, and later clocks only lift it |
| `Selection.DeferredExactly` | onomancy_wasm/src/records.rs:214-218 | below 2^64 a record is set aside if and only if its serial is more than the bound in milliseconds above 1000 times the clock in seconds; past 2^64, saturation sets nothing aside |
| `Selection.CurrentIsSelected` | onomancy_wasm/src/records.rs:165-210 | a publishing run whose newest serial is at most 1000 times the clock plus the bound has that newest record selected, uncontested, and nothing set aside |
| `Selection.MintingStopsAtTheTop` | onomancy_dnssec/src/txt/serial.rs:66-74 | minting gives the least serial above the last and not behind the clock, and fails only after the largest u64 |
| `Segments.SegmentExactly` | onomancy_core/src/name/segment.rs:26-48 | a string is a segment if and only if it is not empty, "." or "..", and holds no slash, hash or control character; each fault is reported exactly in its case |
| `Resolution.ResolveByLoop` | onomancy_protocol/src/resolve.rs:65-112 | the walk loop over current store, remaining path and grade computes the recursive walk |
| `Resolution.Search` | onomancy_protocol/src/resolve.rs:85-89 | the shrinking-prefix search |
| `Resolution.FindMatchIsLongest` | onomancy_protocol/src/resolve.rs:85-89 | the search finds a prefix if and only if it is the longest that is a key, and fails if and only if none is |
| `Resolution.ResolveExactly` | onomancy_protocol/src/resolve.rs:65-112 | an outcome is the resolution if and only if some trail of longest matches through held documents, at most one hop a segment, amounts to it, whatever cycles the documents form |
| `Resolution.WalkHasTrail` | onomancy_protocol/src/resolve.rs:65-112 | every walk has such a trail, its hops each consuming a segment |
| `Resolution.TrailIsTheWalk` | onomancy_protocol/src/resolve.rs:65-112 | a trail determines the outcome |
| `Resolution.WeakestLink` | onomancy_protocol/src/resolve.rs:98-103 | the grade reported is strong if and only if the root and every namestore entered are |
| `Resolution.MoreReplicas` | onomancy_protocol/src/resolve.rs:98-110 | holding more documents changes only an outcome that was waiting for one of them |
| `Resolution.Resumption` | onomancy_protocol/src/resolve.rs:104-110 | once the awaited document is held, resolving again is resolving the remaining segments from it, the count shifted and the grade lowered to the weakest crossed before |
| `Resolution.OneSegmentHops` | onomancy_core/src/name/segment.rs:9-11 | a walk consumes one segment a hop, as the segment type is documented to, if and only if at each hop it takes one segment is a key and no longer prefix is |
| `Resolution.GreedyDeadEnd` | onomancy_protocol/src/resolve.rs:82-84 | no backtracking: a path can dangle at a longer key though its shorter key would resolve it |
| `Ladder.Antisymmetry` | onomancy_protocol/src/ladder.rs:99-131 | swapping the contenders, and what the statements say of them, swaps the verdict |
| `Ladder.VerdictMeans` | onomancy_protocol/src/ladder.rs:99-131 | each of the five verdicts if and only if: freshness decides first, at equal freshness the statements decide when they speak, and forked ones give Forked; only silent ones leave it to the key, Equal or Equivocation |
| `Ladder.BeatsMeans` | onomancy_protocol/src/ladder.rs:99-131 | with statements silent, one beats the other by freshness, then zone-vouched state, then issuance within one document, and in no other way |
| `Ladder.BeatsIsStrictPartialOrder` | onomancy_protocol/src/ladder.rs:99-131 | with statements silent, "beats" is irreflexive, asymmetric and transitive |
| `Ladder.TiesAreNotTransitive` | onomancy_protocol/src/ladder.rs:122-130 | two records of which one beats the other can both tie with a third document's record |
| `Ladder.MaximalExists` | onomancy_protocol/src/ladder.rs:99-131 | every non-empty finite set of contenders has a maximal one, at or above any given member |
| `Ladder.MaximaAgree` | onomancy_protocol/src/ladder.rs:99-131 | all maximal contenders share freshness, window end and serial, and any two are Equal or Equivocation |
| `Ladder.MaximalExactly` | onomancy_dnssec/src/zone_state_key.rs:27-48 | the maximal contenders exactly: unexceeded in freshness and zone-vouched state, and last issued among their own document's ties |
| `Replay.ReplayLoop` | onomancy_keyhive/src/authority.rs:84-101 | the drain-and-defer loop computes the replay and its number of rounds |
| `Replay.LeastFixpoint` | onomancy_keyhive/src/authority.rs:84-101 | with acceptance monotone, the events ingested are closed, lie in every closed set, and replay succeeds exactly when they are all of them |
| `Replay.ReplayExactly` | onomancy_keyhive/src/authority.rs:68-71 | replay succeeds if and only if some order of the same events ingests them all |
| `Replay.OrderIsIrrelevant` | onomancy_keyhive/src/authority.rs:68-71 | entry order and repetition do not matter |
| `Replay.CarriageOrderIsIrrelevant` | onomancy_keyhive/src/authority.rs:72-102 | carriages with the same entries prove the same, unreadable entries included |
| `Replay.FewRounds` | onomancy_keyhive/src/authority.rs:85-100 | at most as many rounds as events, and one for none |
| `Replay.StuckRound` | onomancy_keyhive/src/authority.rs:94-98 | a round that defers everything refused every event from where it stood |
| `Replay.LoopExactly` | onomancy_keyhive/src/authority.rs:84-101 | with the vectors' capacities as inputs, each at least what was asked for: a carriage that replays is replayed whatever they are, and one that does not is refused if and only if some round from the first stuck one on has a capacity equal to the number of events left |
| `Replay.OrderCanMatter` | onomancy_keyhive/src/authority.rs:68-71 | without monotonicity entry order decides: one order succeeds and its reverse fails |
| `Namestores.PathKeyInjective` | onomancy_automerge/src/namestore.rs:200-214 | distinct paths have distinct keys |
| `Namestores.PathKeysExactly` | onomancy_automerge/src/namestore.rs:188-190 | the enumeration's key check accepts exactly the keys some path spells |
| `Namestores.JoinPath` | onomancy_automerge/src/namestore.rs:200-214 | the joining loop gives the path's key, and none for the empty path |
| `Namestores.Read` | onomancy_automerge/src/namestore.rs:93-146 | the reading loop into four lists |
| `Namestores.EdgesAgreeWithReference` | onomancy_automerge/src/namestore.rs:174-179 | a name resolves to a document if and only if its key is enumerated as an edge to it: both see the last value a merge left |
| `Namestores.EveryKeyAccountedFor` | onomancy_automerge/src/namestore.rs:96-142 | every key is reported once: malformed, not a reference, or an edge |
| `Namestores.ConflictsAreTheLosers` | onomancy_automerge/src/namestore.rs:128-134 | the conflicts reported are exactly the references that lost to the value lookup sees |
| `Petnames.PetnameStore.Pin` | onomancy_automerge/src/petname.rs:45-58 | writes the one key of the path, or changes nothing |
| `Petnames.PetnameStore.Unpin` | onomancy_automerge/src/petname.rs:67-78 | removes the one key of the path if it holds an edge, or changes nothing |
| `Petnames.PetnameStore.Rename` | onomancy_automerge/src/petname.rs:98-107 | a pin and then an unpin, either of which the substrate may refuse |
| `Petnames.PinBindsOneName` | onomancy_automerge/src/petname.rs:45-58 | a pin binds its own name to the target and leaves what every other name means |
| `Petnames.UnpinRemovesOneName` | onomancy_automerge/src/petname.rs:67-78 | an unpin removes its own name and leaves what every other name means |
| `Petnames.RenameMeans` | onomancy_automerge/src/petname.rs:98-107 | what every name means after a rename, and which error it gives, whichever transactions commit |
| `Petnames.FailedRenameKeepsTheSource` | onomancy_automerge/src/petname.rs:88-91 | a rename that fails never loses the source edge |
| `Petnames.RenameKeepsTargets` | onomancy_automerge/src/petname.rs:80-107 | a rename leaves the set of edge targets alone if and only if it wrote nothing, its destination held no edge, or another name holds the destination's old target |
| `Petnames.RenameDropsATarget` | onomancy_automerge/src/petname.rs:80-107 | a rename onto another document's only label drops that document from the targets, and its pin from the divergence join |
| `Petnames.RenameExample` | onomancy_automerge/src/petname.rs:80-107 | a root map of two labels, a source and a destination at which the set of targets changes |
| `Petnames.RenamesKeepPins` | onomancy_automerge/src/petname.rs:80-107 | no run of renames to free labels, whatever commits and whatever fails, changes the divergence join |
| `Petnames.RenameLast` | onomancy_automerge/src/petname.rs:98-107 | the last call of a run of renames works on what those before it left |
| `Petnames.JoinPins` | onomancy_automerge/src/petname.rs:124-149 | the claims loop with its membership tests, then the sorts, computes the join |
| `Petnames.PinsMean` | onomancy_automerge/src/petname.rs:117-149 | the join lists a hostname exactly when some claimed document of it is an edge target, and lists exactly those, sorted without repetition |
| `Petnames.PinsIgnoreClaimOrder` | onomancy_automerge/src/petname.rs:135-142 | claims are a set to the join |
| `Petnames.EdgesReachTheTargets` | onomancy_automerge/src/petname.rs:125-131 | the documents the enumerated edges point at are exactly those names resolve to |
| `CertificateLists.CertificateDocument.Put` | onomancy_automerge/src/certificates.rs:126-158 | the write: locate, search the byte entries, then replace at that index of the whole list or append |
| `CertificateLists.ReplacesExactly` | onomancy_automerge/src/certificates.rs:132-150 | a write over a stored copy replaces that copy and nothing else if and only if every list item before the copy is a byte value; with no copy it appends |
| `CertificateLists.ForeignEntryIsOverwritten` | onomancy_automerge/src/certificates.rs:187-206 | the failure: behind one item that is not a byte value, rewriting a certificate overwrites that item and leaves the certificate twice |
| `CertificateLists.PutToBytes` | onomancy_automerge/src/certificates.rs:126-158 | on a list of byte entries one write stores the given octets in the one place of that region and signature, changes no other entry, and lengthens the list only for a region and signature not yet stored |
| `CertificateLists.RunKeepsOneEach` | onomancy_automerge/src/certificates.rs:126-158 | over any run of writes a list with at most one entry for each region and signature keeps at most one |
| `CertificateLists.RunMeans` | onomancy_automerge/src/certificates.rs:126-158 | after any run each region and signature written stands as last written, entries never written are as they were, and nothing else is stored |
| `CertificateLists.RunLength` | onomancy_automerge/src/certificates.rs:126-158 | a run lengthens the list by one for each region and signature it introduces |
| `RegionLists.PutKeepsRegionsExactly` | onomancy_automerge/src/certificates.rs:112-120 | one entry for each signed region, exactly: a write to a list of byte entries keeps that if and only if no entry has the written region under another signature |
| `RegionLists.RunKeepsRegionsExactly` | onomancy_automerge/src/certificates.rs:112-120 | after any run each signed region stands once if and only if no region, stored before or written, is known under two signatures |
| `RegionLists.RegionLength` | onomancy_automerge/src/certificates.rs:112-120 | a run lengthens the list by one for each signed region it introduces, and by no more, if and only if no region is known under two signatures |
| `RegionLists.RegionsAndCertificates` | onomancy_automerge/src/certificates.rs:112-120 | one entry for each region is one for each certificate and no region stored under two signatures |
| `RegionLists.BothAreKept` | onomancy_dnssec/src/certificate.rs:304-307 | the failure: two valid certificates that differ in the signature alone are both kept |
| `RegionLists.SignedTwice` | onomancy_dnssec/src/certificate.rs:196-224 | and such certificates can be made: assembly takes any two signatures over one region that verify, and a run of the two writes holds both |
| `RegionLists.SignedTwiceExists` | onomancy_dnssec/src/certificate.rs:196-224 | a suite, a request and two signatures for which that is so |
| `RegionLists.RegionIsThePayload` | onomancy_core/src/signed.rs:119-127 | valid certificates sign the same octets if and only if their bindings are equal, so a signed region is a payload |
| `CertificateLists.PutLeavesTheRest` | onomancy_automerge/src/certificates.rs:139-155 | a committed write leaves its list where reading finds it, beside whatever other values stood at that key, and every other key alone; a failed one changes nothing |
| `CertificateLists.PutKeepsNames` | onomancy_automerge/src/certificates.rs:139-155 | no write to the reserved key changes what any name resolves to |
| `CertificateLists.OneHopOnly` | onomancy_automerge/src/certificates.rs:84-110 | reading depends on the document and the target of its reference alone, and refuses a second hop exactly when that target refers on |
| `Ordering.SortedUnique` | onomancy_dnssec/src/wire/rrsig.rs:235-238 | a set has one strictly sorted spelling, so sorting and deduplicating is canonical |
| `Ordering.BytesLessMeans` | onomancy_dnssec/src/wire/rrsig.rs:235-238 | octet strings are ordered by the first octet in which they differ, unsigned, a prefix first |
| `Ordering.TextLessMeans` | onomancy_wasm/src/records.rs:237-246 | strings are ordered likewise by code point |

## Left out

- Completeness.EndToEnd: does not cover wildcard labels, whose count the builder's DNS library may treat specially; of CNAMEs to the root it excludes those of the root itself, which lead nowhere, and those whose path comes back into the zone it left, where `RootTargets.RootTargetRefused` shows the conclusion fails.
- Agreement.ZonesAgree: does not cover runs with a CNAME to the root, because the agreement is false there; `Agreement.HopAgreesExactly` gives the exact condition.
- Soundness.Soundness: says nothing of containment, of which key is committed to, or of wildcards before the leaf, because the validator does not check them; `Acceptance.AcceptedMeans` adds exactly when they hold.
- Commitment.CommittedKeysSign: gives a sufficient condition for a whole chain; the exact condition is that of each key set, because another check may also change which signatures, and so which windows, the rest of the chain uses.
- Replay.ReplayExactly: assumes that acceptance is monotone in what was ingested; `Replay.OrderCanMatter` shows why.
- Selection.NewestIsSelected: leaves the skew bound a parameter rather than its number of milliseconds.
- Names are lower-case label sequences throughout; the builder's DNS library compares names without regard to case, and errors of re-encoding a record are not modelled.
- The readings of DNSKEY, DS, RRSIG, CNAME and TXT data, and the writing of names and records, are functions of octet strings; the cursor and buffer updates there are not captured.
- The parse of TXT text to UTF-8 is not modelled: a string stands for its octets, and a binding that parses is ASCII.
- Cryptography, curve-point decoding, digests, bs58check, IDNA and the octets of varints are parameters with contracts.
- The verifier's derivation over remembered state, verdicts, the ceremonies and store diffs are not part of this model.
- Keyhive's delegation graph and Automerge's history are reduced to a relation on events and to values in conflict lists whose last one wins; certificate lists are plain sequences.
- DNS and DNS-over-HTTPS transports, upstream failover, the command line, file stores, key generation, and the JavaScript boundary.
- DNS compression, message headers and negative proofs; NSEC links are skipped as the validator skips them.
- Display of errors, hash implementations and accessors, which would only add easy members.
