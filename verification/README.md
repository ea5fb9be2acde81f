# AERA runtime: a Dafny model

AERA lets a parent process hand small pieces of work to a child process under short safety leases, writes
every step to a hash-chained ledger, and isolates the body whenever authority is lost. A separate Python
broker delivers one irreversible effect at most once across crashes. This project models both and proves what
they promise, for every input, every child, every event sequence and every crash schedule.

| part | files | main results |
|---|---|---|
| words, UTF-8, numbers | `Words`, `Utf8`, `Numerals`, `Lines`, `Fnv`, `Workload` | FNV window theorem, UTF-8 and numeral round trips, undoing the work digest |
| JSON lines | `Json`, `JsonRoundTrip`, `JsonGrammar`, `FlatJson` | the parser accepts exactly a grammar; parsing undoes printing |
| sealed ledger | `LedgerEntries`, `LedgerLines`, `LedgerLayout`, `LedgerChain`, `LedgerVerifier`, `LedgerReports`, `LedgerWriter`, `LedgerIntegrity` | the accepted language, exactly; the report on every file, accepted or not; writer = verifier; binding of the final hash; recovery |
| wire protocol | `Protocol`, `WireLanguage`, `WireForms`, `WireChecksum`, `Frames` | the request languages, exactly; injective printers; what the checksum detects; framing, exactly |
| authority | `Authority` | what COMMIT decides, exactly |
| runtime | `RuntimeSpec`, `RuntimeEffects`, `RuntimeInvariant`, `RuntimeRequests`, `RuntimeSafety`, `RuntimeRuns`, `RuntimeAudit`, `RuntimeLines`, `RuntimeFailures`, `Runtime` | invariant of every run, authority safety, conservation, the whole ledger and transcript of a success, the whole state after any failure |
| honest child | `ChildLoop`, `Lockstep`, `Progress`, `Foresight`, `ClosedSystem` | any child of a successful run wrote what the honest child writes; the closed system succeeds |
| effect broker | `Broker`, `BrokerSafety`, `Sinks` | at most once under any crash schedule; comparison with redispatch |
| release archive | `Archive`, `ArchiveReports` | no finding if and only if the file is tiled; every finding has its exact condition |

## How to read it

Code of the repository that changes state in place is a class or a method with a loop (`Ledger`,
`FlatJsonParser`, `LedgerFile`, `AuthorityTransaction`, `ChildProcess`, `Runtime`, `BrokerLedger`, `Storage`,
`EffectSink`, `NonCooperativeSink`, `StateStore`, and the loops over bytes, lines and events). Each such method
is proved equal to a function of the old state; the theorems are about these functions. The runtime's functions
are in `RuntimeSpec`: a whole state `Rt`, one function per event, `Done` or `Failed` with the state left behind.

What lies outside is a parameter and chosen freely: clock readings, write failures and lost replies, the text
of an error, the output of the child as a byte stream, the exit status, and for the broker the point at which
each incarnation dies. `u64` is a subset of the integers; checked, saturating, wrapping and rotating operations
are written out. SHA-256 in the broker is an injective digest, represented by what it was taken of. FNV-1a in
the ledger is computed.

Three places where a claim needs care:

- The branch for a second end-of-file notification (src/runtime.rs:329-334) cannot be reached:
  `RuntimeRuns.NeverTwoEofs`.
- The verifier accepts one kind of file the writer refuses to write, a lone seal (src/ledger.rs:370-380 against
  src/ledger.rs:567-588): `LedgerIntegrity.OnlyLoneSealIsUnwritten`.
- The end record of a ZIP file is searched backwards by signature. A well-formed archive whose end record
  contains the signature again, for example as directory offset 0x06054b50, is reported as malformed.
  `Archive.CleanIsTiled` has the exact condition, `Archive.TiledButReported` a concrete archive of one entry, which
  the ZIP library lists.

## Model

| member | source | states |
|---|---|---|
| Fnv.Fnv1a | src/ledger.rs:44-51 | the loop computes the fold of the FNV-1a step |
| Fnv.WindowChangesHash | src/ledger.rs:10-51 | from one seed, strings that differ only inside a window of at most three bytes have different hashes |
| Fnv.HashInjectiveInSeed | src/ledger.rs:44-51 | for fixed data, different seeds give different hashes |
| Fnv.ThreeSteps | src/ledger.rs:10-51 | three steps from one state reach the same hash only on the same three bytes |
| Utf8.DecodeEncode | src/ledger.rs:948-953 | decoding inverts encoding on every string |
| Utf8.EncodeDecode | src/ledger.rs:948-953 | only encodings decode: overlong forms, surrogates and values beyond U+10FFFF are refused |
| Numerals.ParseHashTextExact | src/ledger.rs:1144-1155 | sixteen hexadecimal digits parse to h exactly when they are the printed form of h |
| Json.EscapeJson | src/ledger.rs:53-69 | the loop escapes quote, backslash, newline, return, tab and every control character, C1 and U+007F included |
| JsonRoundTrip.StringRoundTrip | src/ledger.rs:53-69 | a printed string is read back whatever follows it |
| JsonRoundTrip.ValueRoundTrip | src/ledger.rs:847-874 | every printed value is read back, with the rest of the input untouched |
| JsonRoundTrip.ObjectRoundTrip | src/ledger.rs:814-845 | a printed object with distinct keys is read back as the map of its members |
| JsonRoundTrip.ControlEscapes | src/ledger.rs:53-69 | a control character without a short escape is written as `\u00` and two lower-case hexadecimal digits |
| JsonRoundTrip.ObjectForm | src/ledger.rs:267-302 | members are written without any space: quoted key, colon, value, comma, closing brace |
| JsonGrammar.StringExactly | src/ledger.rs:876-946 | a string is read exactly where one is written: plain characters, the eight short escapes, four-digit codes and surrogate pairs, with the characters they denote |
| JsonGrammar.ValueExactly | src/ledger.rs:847-874 | a value is read exactly where null, true, false, a string or the decimal form of a number below 2^64 is written |
| JsonGrammar.ObjectExactly | src/ledger.rs:814-845 | a text parses to a map if and only if it is an object with at least one member, no key twice and spaces only between the tokens, and the map is that of its members |
| FlatJson.FlatJsonParser.ParseObject | src/ledger.rs:814-845 | the cursor parser equals the parser on the unread bytes, whose language is `JsonGrammar.ObjectExactly` |
| FlatJson.FlatJsonParser.ParseValue | src/ledger.rs:847-856 | same value, same position |
| FlatJson.FlatJsonParser.ParseNumber | src/ledger.rs:858-874 | no leading zero, no overflow of 64 bits, same position |
| FlatJson.FlatJsonParser.ParseString | src/ledger.rs:876-914 | same text, same position |
| FlatJson.FlatJsonParser.ParseUnicodeEscape | src/ledger.rs:916-934 | surrogate pairs join, lone surrogates are refused |
| LedgerEntries.CanonicalInjective | src/ledger.rs:79-225 | well-formed entries with equal canonical bytes agree in every field but the hash |
| LedgerLayout.CanonicalPieces | src/ledger.rs:166-225 | the hash covers schema, kind, sequence number, event and detail behind their sizes, decision, body, lease, seal fields behind their markers and the hash before, in this order and these widths |
| LedgerLayout.EntryHash | src/ledger.rs:227-229 | the hash of an entry is FNV-1a over these pieces, from the offset xored with the hash before |
| LedgerLayout.LineReads | src/ledger.rs:267-309 | what any reader of a printed line finds under each of its keys |
| LedgerLayout.EntryExactly | src/ledger.rs:1003-1098 | a line parses as an entry if and only if it is an object with exactly the twenty-four keys, each value is the one the entry is written with, and the entry is well formed |
| LedgerLines.ParseEntry | src/ledger.rs:1003-1098 | the method computes the parsed entry of a line |
| LedgerLines.EntryRoundTrip | src/ledger.rs:267-302 | the parse of a printed entry is the entry, for texts over all of Unicode |
| LedgerLines.ParsedIsWellFormed | src/ledger.rs:1003-1098 | whatever parses has lease fields exactly when a lease is present, and seal fields exactly when it is a seal |
| LedgerLines.WriteJsonInjective | src/ledger.rs:267-302 | different entries print different lines |
| LedgerChain.LineShape | src/ledger.rs:53-69 | a printed line holds no byte below 0x20, hence no raw newline, and starts with a brace |
| LedgerChain.LineFits | src/ledger.rs:12-14 | with every text byte escaped six-fold, a line is within the verifier's limit |
| LedgerChain.MakeEntryFits | src/ledger.rs:231-265 | an entry is built exactly when the texts fit, is well formed and carries its own hash |
| LedgerVerifier.VerifyReader | src/ledger.rs:484-606 | the line loop computes the report `Verification`, which the next seven rows determine for every file |
| LedgerReports.ReportOfEveryFile | src/ledger.rs:484-606 | the report of every file, accepted or not, is told from the lines read before the first one that stops the reading: what is counted, the last hash, and the errors in order |
| LedgerReports.BrokenExactly | src/ledger.rs:537-590 | an error about an entry is reported exactly when the entry, behind the ones before it, breaks the rule of that error |
| LedgerReports.RenderedReport | src/ledger.rs:537-606 | on any well-formed entries, chained or not: all are counted, the final hash is that of the last, and each kind of error is reported if and only if some entry breaks its rule, or there is no seal |
| LedgerReports.AlteredVerdictReport | src/ledger.rs:537-606 | an accepted file with one decision or quarantine flag altered is reported with unchanged counts and final hash and exactly one error, the wrong hash; for the decision of the seal also the verdict of the seal |
| LedgerReports.BadDecisionReport | src/ledger.rs:1003-1098 | with a decision no entry may have, reading stops there: the entries before it are counted, the entry is invalid and the seal is missing |
| LedgerVerifier.AcceptedLanguage | src/ledger.rs:484-606 | a byte string passes if and only if it is the canonical lines of a chain of events and one seal; no bound on the file |
| LedgerVerifier.AcceptedReport | src/ledger.rs:419-431 | entries, event entries and final hash of an accepted file |
| LedgerVerifier.AfterSealOnlyErrors | src/ledger.rs:560-589 | after the seal every further byte is an error |
| LedgerWriter.Ledger.Record | src/ledger.rs:330-368 | succeeds exactly when unsealed, below the last sequence number and the texts fit; appends one chained line, or changes nothing |
| LedgerWriter.Ledger.SealLedger | src/ledger.rs:370-401 | seals a non-empty log once; the file then passes with matching counts and hash |
| LedgerWriter.RecordedKeepsChain | src/ledger.rs:330-368 | a recorded entry extends the chain; when recording succeeds, exactly |
| LedgerWriter.SealedCompletesChain | src/ledger.rs:370-401 | the seal completes the chain; it fails exactly on an empty or full log |
| LedgerWriter.WriterLanguage | src/ledger.rs:330-401 | below 2^64 entries, the runs of at least one record and a seal are exactly the sealed chains of two entries or more |
| LedgerWriter.SealOnlyIsAccepted | src/ledger.rs:567-598 | there is a lone seal that the verifier accepts |
| LedgerIntegrity.OnlyLoneSealIsUnwritten | src/ledger.rs:370-380 | below 2^64 entries an accepted ledger is the file of some run of the writer if and only if it is not a lone seal |
| LedgerIntegrity.NoAcceptedProperPrefix | src/ledger.rs:484-606 | no accepted file is a proper prefix of another |
| LedgerIntegrity.LedgerFile.RecoverValidPrefix | src/ledger.rs:457-482 | truncates after the last newline exactly when that much is accepted, otherwise the file is unchanged; equals the function the next three rows are about |
| LedgerIntegrity.RecoverTornAppend | src/ledger.rs:457-482 | an accepted file followed by any newline-free fragment recovers to exactly that file |
| LedgerIntegrity.RecoverRejectsTruncation | src/ledger.rs:457-482 | no proper prefix of an accepted file recovers |
| LedgerIntegrity.RecoverIdempotent | src/ledger.rs:457-482 | recovery yields an accepted prefix, and recovering again changes nothing |
| LedgerIntegrity.FinalHashBindsFile | src/ledger.rs:166-229 | accepted files with the same final hash are identical or exhibit two entries with different encodings and one hash |
| LedgerIntegrity.SameHashSameChain | src/ledger.rs:537-558 | the same for chains, walking back from the last hash along the encoded sequence numbers |
| LedgerIntegrity.AlteredVerdictRejected | src/ledger.rs:484-606 | altering only the decision or only the quarantine flag of one entry of an accepted file is always rejected |
| LedgerIntegrity.RenderInjective | src/ledger.rs:267-302 | different chains render to different files |
| Protocol.ProtocolChecksum | src/protocol.rs:130-153 | the loops compute `Checksum`, which the next six rows determine |
| WireChecksum.ChecksumCovers | src/protocol.rs:130-153 | it is the hash of one byte string: version, direction and operation behind their lengths, the number of fields, and every field |
| WireChecksum.FieldChangesChecksum | src/protocol.rs:143-153 | one number altered inside three consecutive bytes alters the checksum |
| WireChecksum.SmallWordsAreNear | src/protocol.rs:149-151 | any two numbers below 2^24 differ in no more than that |
| WireChecksum.DirectionChangesChecksum | src/protocol.rs:146 | so does a direction altered inside three consecutive bytes |
| WireChecksum.OperationChangesChecksum | src/protocol.rs:147 | and an operation |
| WireChecksum.AlteredLineRefused | src/protocol.rs:226-507 | a message line with one number altered so and the checksum kept is refused by both request parsers and by every validator |
| WireChecksum.OnlyOwnChecksum | src/protocol.rs:186-415 | a line with the words of a message is a message only with that message's own checksum |
| WireForms.HelloLine | src/protocol.rs:324-327 | the greeting, word for word |
| WireForms.RequestLines | src/protocol.rs:186-204 | the four plain requests, word for word, and what their checksums cover |
| WireForms.AckLines | src/protocol.rs:206-224 | the four plain acknowledgements, the work digest in hexadecimal |
| WireForms.BoundRequestLines | src/protocol.rs:340-375 | the four bound requests, with the seven numbers of the authority |
| WireForms.BoundAckLines | src/protocol.rs:377-415 | the four bound acknowledgements |
| WireLanguage.ParseCanonicalExact | src/protocol.rs:155-170 | a token parses to n exactly when it is the decimal form of n |
| WireLanguage.SplitText | src/protocol.rs:172-184 | splitting a printed message at white space gives back its tokens |
| WireLanguage.RequestLanguage | src/protocol.rs:226-274 | a line is accepted as a request if and only if it is that request's printed form, in bounds, without its newline |
| WireLanguage.BoundRequestLanguage | src/protocol.rs:417-473 | the same for authority-bound requests, authority included |
| WireLanguage.PrintInjective | src/protocol.rs:186-415 | all printers together are injective, across kinds |
| WireLanguage.TrimPrinted | src/protocol.rs:276-295 | validators compare with the printed form less exactly one newline |
| WireLanguage.AckValidatesOnce | src/protocol.rs:475-507 | a line validates for one acknowledgement and one authority only |
| WireLanguage.PlainAckValidatesOnce | src/protocol.rs:276-295 | the same for plain acknowledgements; no line validates in both forms |
| WireLanguage.MessageFits | src/protocol.rs:377-403 | every message is one ASCII line within the frame limit |
| Workload.WorkDigest | src/protocol.rs:509-516 | the loop computes the digest of identifier and units |
| Workload.DigestBindsIdentifier | src/protocol.rs:509-516 | for the same amount of work, different identifiers have different digests |
| Workload.DigestUndone | src/protocol.rs:509-516 | as many rounds back as there are units, by subtraction, xor and rotation to the right, lead from the digest to the identifier |
| Workload.FirstDigests | src/protocol.rs:509-516 | two digests by value, for no and for one unit of work |
| Frames.ReadProtocolFrame | src/runtime.rs:405-429 | one frame from the front: at most 1024 bytes and a newline, valid UTF-8, or an error |
| Frames.ChildReader | src/runtime.rs:384-403 | the loop sends the messages of a whole output |
| Frames.OneTerminalMessage | src/runtime.rs:384-403 | lines, and then exactly one end of file or error |
| Frames.ReceivedExactly | src/runtime.rs:384-429 | some lines and a clean end of file are received if and only if the output is exactly these lines, each within the limit |
| Frames.ReceivedUpTo | src/runtime.rs:384-429 | some lines and an error are received if and only if the output is exactly these lines and then bytes that begin with no line: too long, without newline, or not UTF-8 |
| Frames.MessagesAreFramed | src/runtime.rs:405-429 | any concatenation of protocol messages is read back in order, then end of file |
| Authority.ValidateCommitAllows | src/model.rs:76-112 | allowed exactly when a lease is active, names body and request field by field, and has time left |
| Authority.FirstViolation | src/model.rs:76-112 | the oracle reports the violated condition with the least code |
| Authority.CommitAllows | src/model.rs:162-218 | COMMIT is allowed exactly when the lease captured at BEGIN is still the active one and authorizes body and request |
| Authority.ReplacementOrder | src/model.rs:189-218 | the comparison of two leases reports their first differing field, and allows exactly equal leases |
| Authority.AuthorityTransaction.Begin | src/model.rs:145-153 | captures the lease, or fails and changes nothing when one is pending |
| Authority.AuthorityTransaction.Abort | src/model.rs:155-160 | drops the capture and says whether there was one |
| Authority.AuthorityTransaction.Commit | src/model.rs:162-187 | consumes the capture whatever it decides, allows exactly under the condition above, and explains every refusal as the next row says |
| Authority.CommitExplained | src/model.rs:162-218 | the decision of COMMIT, and no other: no lease without BEGIN, active lease or capture; otherwise the violated condition of the least code; otherwise the reason of the first field in which capture and active lease differ; otherwise Allow |
| Authority.VerifyReflex | src/model.rs:299-317 | accepts exactly programs of one to eight instructions with lease and work in bounds |
| Authority.CompilePolicyExact | src/model.rs:271-297 | the policies that compile, exactly, and the whole program each compiles to; it always verifies |
| RuntimeEffects.PolicyCompiles | src/runtime.rs:445-459 | the built-in policy compiles to one WORK of 5000 units |
| RuntimeEffects.ExchangeEffect | src/runtime.rs:258-297 | an exchange succeeds exactly when nothing fails and the next message is the valid acknowledgement |
| RuntimeEffects.StepEffect | src/runtime.rs:600-792 | what each successful event does to the whole state, in closed form |
| RuntimeInvariant.StepKeeps | src/runtime.rs:538-792 | every successful event keeps authority, conservation, numbering, audit log and pairing, for any child |
| RuntimeInvariant.StartsGood | src/runtime.rs:445-518 | they hold after creation |
| RuntimeInvariant.StepsKeep | src/runtime.rs:822-834 | and after any sequence of successful events |
| RuntimeInvariant.AuthoritativeKept | src/runtime.rs:498-792 | there is a lease exactly when the body is not quarantined, it matches body and reflex, and a pending capture is empty or this lease |
| RuntimeInvariant.ConservedKept | src/runtime.rs:538-792 | actions = allowed commits = verified acks, rollbacks = rollback acks, quarantines less recoveries = 1 if quarantined, generation less epoch = certificate less 100 = recoveries, nonce = all exchanges |
| RuntimeInvariant.AuditedKept | src/runtime.rs:511-691 | counting nine kinds of ledger events reproduces the metrics |
| RuntimeInvariant.PairedKept | src/runtime.rs:676-691 | each COMMIT directly follows a CHILD_ACK_ACCEPTED, and each of those is directly followed by a COMMIT |
| RuntimeSafety.DecisionsInRun | src/runtime.rs:613-624 | in a run COMMIT decides only Allow, BlockNoLease or BlockExpired, and when each; the replacement check never blocks |
| RuntimeRequests.StepSends | src/runtime.rs:258-271 | an event, successful or not, writes at most one request, with the next nonce; WORK only in a COMMIT the oracle allows |
| RuntimeRequests.RequestsInOrder | src/runtime.rs:480-484 | in every life, successful or failed, the requests written carry the nonces 1, 2, 3 and so on, STOP and the last request of a failed run included |
| RuntimeSafety.WorkHasBegin | src/runtime.rs:600-694 | whatever becomes of an event, if it writes a WORK request it is a COMMIT with an earlier BEGIN and only refused probes in between, same body, same lease, before the deadline |
| RuntimeSafety.BeginsAreDistinct | src/runtime.rs:600-694 | no two COMMITs that write WORK go back to the same BEGIN, the last one failing or not |
| RuntimeSafety.EveryWorkAuthorized | src/runtime.rs:803-874 | every WORK request of every life, whatever the child does and however the run ends, was written by a COMMIT authorized by an earlier BEGIN |
| RuntimeSafety.WorksHaveOwnBegins | src/runtime.rs:803-874 | and two WORK requests of a life have two BEGINs |
| RuntimeSafety.BodyOnlyAdvances | src/runtime.rs:696-775 | epoch, generation and certificate never go back; the last two grow at every reinstatement |
| RuntimeSafety.RevokedForever | src/runtime.rs:538-792 | a lease that stopped being active passes the oracle for no later body of the run and no request |
| RuntimeRuns.LedgerTellsOutcome | src/runtime.rs:803-874 | the ledger file passes verification if and only if the run returned Ok, wherever a failed run stopped; I/O errors of the ledger itself, such as a failing sync after the seal, are outside the statement |
| RuntimeRuns.WholeTranscript | src/runtime.rs:158-353 | the output of an arbitrary child of a successful run is, byte for byte, HELLO, the exact bound ACK of each request, the STOP ACK and end of file |
| RuntimeRuns.RunConserves | src/runtime.rs:844-873 | a successful run reports damage 0 and the conservation laws |
| RuntimeRuns.LedgerAuditsRun | src/runtime.rs:859-873 | its ledger counts give the metrics, COMMITs are paired, and the file passes with the right counts |
| RuntimeRuns.AcksNeverCross | src/runtime.rs:480-484 | no line is the valid acknowledgement of two requests of a life, STOP and the request a failed run ended with included |
| RuntimeRuns.NeverTwoEofs | src/runtime.rs:325-334 | in every life that reaches the wait for the child's exit, what is left to read there never holds two end-of-file notifications |
| RuntimeRuns.SuccessReachesExit | src/runtime.rs:360-376 | a successful run got past that wait, with exactly one left |
| RuntimeAudit.LedgerIsTruthful | src/runtime.rs:498-873 | in every ledger left by a run, successful or failed, a line shows a lease only for an unquarantined body it names field by field, and lines about work show a lease and ALLOW |
| RuntimeAudit.RecordedShows | src/ledger.rs:231-265 | a recorded line repeats event, decision, body and lease it was written with |
| RuntimeLines.StepLines | src/runtime.rs:511-792 | the lines each successful event writes: name, verdict, text, body and lease |
| RuntimeLines.BlockedLine | src/runtime.rs:680-691 | a refused COMMIT writes one line with the decision it took, by code and by name, and the body and lease it was taken for |
| RuntimeLines.LedgerTellsRun | src/runtime.rs:803-874 | the whole ledger of a successful run from its events: the first lease, the lines of each event in order, the final line with ALLOW, and the seal |
| RuntimeFailures.BirthExactly | src/runtime.rs:445-518 | when a process is created, its whole first state with a lease of fifty milliseconds, and what is left if it is not |
| RuntimeFailures.ReinstatedLease | src/runtime.rs:756-775 | a reinstated body gets a lease of that length for its new epoch, generation and certificate |
| RuntimeFailures.WorkFails | src/runtime.rs:640-662 | an allowed COMMIT whose WORK is not acknowledged: body quarantined, no lease, no capture, no confirmed rollback, damage 1, one quarantine more if the body was free, the child closed, and PROTOCOL_ACK_REJECTED with the error as last line if it fits |
| RuntimeFailures.RollbackFails | src/runtime.rs:538-598 | the same for a quarantine whose ROLLBACK is not acknowledged: one rollback more and none acknowledged, QUARANTINE and ROLLBACK_ACK_REJECTED as last lines |
| RuntimeFailures.ProbeFails | src/runtime.rs:710-759 | the same for a probe, behind its PROBE_REQUEST line |
| RuntimeFailures.ProbeExpires | src/runtime.rs:756-764 | an answered probe whose deadline does not fit leaves the body quarantined, without damage |
| RuntimeFailures.StopFails | src/runtime.rs:840-858 | the same for a STOP without acknowledgement or clean exit, the child gone |
| RuntimeFailures.StepFailure | src/runtime.rs:520-792 | an event fails if and only if it is a BEGIN while one is pending, asks the child something that is not answered, or probes beyond the clock; it leaves exactly the states above |
| RuntimeFailures.FinishFailure | src/runtime.rs:840-874 | the end of a run fails if and only if the child does not stop cleanly |
| RuntimeFailures.LifeFailure | src/runtime.rs:445-874 | every failed life failed at its birth, at one of its events or at its end, and left that state |
| ChildLoop.ChildLoop | src/runtime.rs:877-951 | the loop writes the session of the honest child on its input |
| ChildLoop.SessionStep | src/runtime.rs:887-951 | what the honest child does with one bound request and the rest of its input |
| ChildLoop.BoundRequestHandled | src/runtime.rs:893-896 | a printed bound request is recognised by its prefix and parses |
| ChildLoop.PlainRequestHandled | src/runtime.rs:931-951 | a plain request is served in the plain form |
| ChildLoop.OthersRefused | src/runtime.rs:887-951 | any line that is not the printed form of a request in bounds ends the child |
| Lockstep.HonestSession | src/runtime.rs:877-951 | the session on a parent's requests is the exact answers, and ends well |
| Lockstep.SuccessMeansHonest | src/runtime.rs:803-951 | any child of a successful run wrote exactly what the honest child writes on the bytes its parent sent |
| Progress.StepSucceeds | src/runtime.rs:538-792 | an admissible event succeeds once the child has answered its request |
| Progress.GoodIsSmall | src/runtime.rs:458-475 | no counter outgrows the ledger |
| Foresight.StepFeeds | src/runtime.rs:258-297 | messages still to come do not influence a successful event |
| ClosedSystem.StaysLocked | src/runtime.rs:613-951 | with no fault, every admissible event succeeds on both sides and the two action counters stay equal |
| ClosedSystem.RunStaysLocked | src/runtime.rs:613-951 | for every sequence of events |
| ClosedSystem.HonestRunSucceeds | src/runtime.rs:803-951 | against the honest child a whole life of the runtime succeeds, for every admissible event sequence |
| Runtime.ChildProcess.ExpectHello | src/runtime.rs:158-184 | accepts exactly the greeting of this process |
| Runtime.ChildProcess.TransactBound | src/runtime.rs:258-297 | succeeds exactly when input is open, nothing fails and the next message validates; takes one message and writes one request; any failure closes the input |
| Runtime.ChildProcess.WaitForCleanExit | src/runtime.rs:299-353 | the draining loop succeeds exactly on a clean status and a single end of file |
| Runtime.Runtime.Quarantine | src/runtime.rs:538-598 | the body is isolated, the rollback counted, recorded, requested and confirmed, or the run fails with exactly the state the specification leaves |
| Runtime.Runtime.Begin | src/runtime.rs:600-611 | captures the active lease and records it, or fails with the state unchanged while a capture is pending |
| Runtime.Runtime.Commit | src/runtime.rs:613-694 | consumes the capture; on Allow one WORK exchange, the counters and two ledger lines, otherwise one blocked line; every failure point leaves the specified state |
| Runtime.Runtime.Reset | src/runtime.rs:696-708 | bumps epoch and generation with overflow checked one after the other, then quarantines |
| Runtime.Runtime.FunctionalFreshnessProbe | src/runtime.rs:710-792 | refuses unless quarantined with a confirmed rollback; otherwise one PROBE exchange and a new certificate, generation and lease, or the specified failure |
| Runtime.Runtime.RecordProtocolRejection | src/runtime.rs:520-536 | leaves the state that `RuntimeFailures.RejectionIs` describes field by field |
| RuntimeFailures.RejectionIs | src/runtime.rs:520-536 | the body quarantined as it stands, no authority left, damage 1, a quarantine counted if the body was free, one line with the reason, and nothing else changed |
| Runtime.Runtime.InstallLease | src/runtime.rs:498-518 | the lease of the current body with a checked deadline, recorded, or no change |
| Runtime.Runtime.Run | src/runtime.rs:803-874 | the event loop, STOP and seal equal the specified run; a result means the file passes |
| Runtime.New | src/runtime.rs:445-478 | a runtime exists exactly when the first message is this child's HELLO and the first lease is recorded; its state is the initial one |
| Runtime.LiveOnce | src/runtime.rs:803-874 | a result is returned exactly when the file passes, and then damage is 0 |
| Broker.BrokerLedger.Open | experiments/common/oasi_broker.py:126-164 | opens an existing ledger only under a matching seal, creates a missing one, may die after any durable write |
| Broker.BrokerLedger.PrepareAttempt | experiments/common/oasi_broker.py:202-214 | the transaction, then the seal, with a crash before, between or not at all |
| Broker.BrokerLedger.ConsumeAttempt | experiments/common/oasi_broker.py:216-234 | only from PREPARED with no dispatch |
| Broker.BrokerLedger.RecordReceipt | experiments/common/oasi_broker.py:236-254 | only from CONSUMED with one dispatch |
| Broker.BrokerLedger.MarkTerminal | experiments/common/oasi_broker.py:256-274 | only from RESULT with a non-empty receipt |
| Broker.BrokerLedger.Recovery | experiments/common/oasi_broker.py:283-291 | the action of the row; which one it is in every run says `BrokerSafety.RecoveryTellsStage` |
| Broker.BrokerLedger.Verify | experiments/common/oasi_broker.py:293-316 | the loop accepts exactly a chained event table and at most one dispatch |
| Broker.ChainBinds | experiments/common/oasi_broker.py:184-200 | verified chains with the same last hash are equal |
| BrokerSafety.AtMostOnce | experiments/common/oasi_broker.py:202-291 | over any incarnations, crashes and torn writes at most one effect; none while ABSENT or PREPARED, exactly one at RESULT or TERMINAL, FAIL_CLOSED never |
| BrokerSafety.RecoveryTellsStage | experiments/common/oasi_broker.py:202-291 | in every run the recovery action tells the last transaction in the event table, and with it the only operation that would still commit: NO_ACTION on an empty table, where only prepare would, and so on to COMPLETE_NO_REDISPATCH, where none would |
| BrokerSafety.LedgerVerifies | experiments/common/oasi_broker.py:293-316 | the ledger on disk always verifies, and its events are the operations behind its row |
| BrokerSafety.BlockedForever | experiments/common/oasi_broker.py:126-135 | under a stale seal every later open fails, no effect happens, and row, events and seal stay as they are for ever |
| BrokerSafety.WindowBlocks | experiments/common/oasi_broker.py:166-179 | dying between COMMIT and seal leads there |
| BrokerSafety.CreationBlocks | experiments/common/oasi_broker.py:126-164 | so does dying during creation |
| BrokerSafety.TornBlocks | experiments/s6/experiment.py:322-333 | so does a torn write |
| BrokerSafety.OpensUnlessBlocked | experiments/common/oasi_broker.py:126-164 | otherwise the next open succeeds |
| BrokerSafety.NominalCompletes | experiments/s6/experiment.py:334-336 | without a crash: one effect, and TERMINAL with the receipt |
| BrokerSafety.ConsumedIsAmbiguous | experiments/s6/experiment.py:312-321 | two runs end with the same disk at CONSUMED, one without the effect and one with it |
| Sinks.EffectSink.Apply | experiments/s5/experiment.py:124-143 | appends one effect, or in idempotent mode only for a key not seen before |
| Sinks.NonCooperativeSink.Apply | experiments/s6/experiment.py:108-112 | appends one effect, whatever was there |
| Sinks.StateStore.Open | experiments/s5/experiment.py:151-180 | opens only under a matching seal, or creates |
| Sinks.StateStore.PrepareJob | experiments/s5/experiment.py:182-187 | a new READY job and its seal, or no change |
| Sinks.StateStore.FinishJob | experiments/s5/experiment.py:195-204 | RESULT from READY and its seal, or no change |
| Sinks.StateStore.Corrupt | experiments/s5/experiment.py:206-210 | appends bytes behind the database and leaves the seal |
| Sinks.CorruptionUnseals | experiments/s5/experiment.py:174-180 | a torn write behind a sealed store breaks its seal |
| Sinks.RoundCompletes | experiments/s5/experiment.py:307-346 | a round without a crash, on a sealed store or none, ends with RESULT for its job, after one dispatch or none, and leaves the other jobs alone |
| Sinks.CoordinatedRound | experiments/s5/experiment.py:307-346 | one incarnation of the coordinator equals a round of the specification |
| Sinks.CoordinatedRounds | experiments/s5/experiment.py:281-346 | any number of incarnations on one store and sink: every dispatch an effect, or exactly one per dispatched key; at least one once RESULT |
| Sinks.BlindRounds | experiments/s6/experiment.py:255-284 | over the sink without keys: as many effects as dispatches, at least one once RESULT |
| Sinks.AppendOnlySink | experiments/s5/experiment.py:307-346 | any rounds: the append-only sink holds exactly the dispatches in order; at least one per job with RESULT, none before READY |
| Sinks.DeduplicatingSink | experiments/s5/experiment.py:124-143 | any rounds: one effect per dispatched key, so never two and exactly one once RESULT |
| Sinks.RedispatchIsUnbounded | experiments/s6/experiment.py:263-267 | n crashes between effect and result leave n effects in one sink and one in the other, and the job READY |
| Sinks.UnsealedStoreStops | experiments/s5/experiment.py:174-180 | a stale seal stops the coordinator for good |
| Sinks.RunOasi | experiments/s6/experiment.py:287-345 | one incarnation of the broker script is a schedule of the transition system |
| Sinks.Incarnations | experiments/s5/experiment.py:349-431 | any number of incarnations leave at most one effect, exactly one with a result on disk |
| Archive.VerifyEocd | tools/verify_archive.py:254-282 | the findings about the end record, and where it stands, exactly |
| Archive.VerifyLocalHeaders | tools/verify_archive.py:285-340 | the cursor loop computes the findings about all local headers, and for each entry where its data begins, or that its header is truncated |
| Archive.CleanIsTiled | tools/verify_archive.py:254-340 | no finding if and only if records, directory and end record tile the file and the end record does not repeat its signature |
| Archive.LocalClean | tools/verify_archive.py:285-340 | the header checks are clean exactly when permitted records follow one another up to the directory |
| Archive.EocdClean | tools/verify_archive.py:254-282 | the end-record checks are clean exactly on the last 22 bytes, matching counts and offsets, no repeated signature |
| Archive.TilesCover | tools/verify_archive.py:285-340 | a tiled file is its records in order, the directory and the end record, and nothing else |
| Archive.RecordsDisjoint | tools/verify_archive.py:295-340 | no two records overlap |
| Archive.RecordData | tools/verify_archive.py:285-340 | in a permitted record the data directly follows the name and ends with the record |
| ArchiveReports.EocdExactly | tools/verify_archive.py:254-282 | each finding about the end record is reported exactly when its condition holds |
| ArchiveReports.LocalExactly | tools/verify_archive.py:285-340 | each finding about an entry is reported exactly when its condition holds for that entry |
| ArchiveReports.LayoutReport | tools/verify_archive.py:254-340 | the report on any archive: the findings of both checks, and no others |
| Archive.TiledButReported | tools/verify_archive.py:264-268 | a concrete tiled archive that is reported |

## Left out

- Processes, pipes, threads and signals: the child is a byte stream and what was written to it. Messages that
  arrive early are allowed; a request that fails to be written is not counted as sent (its
  newline is its last byte, so the child has no complete line of it).
- The clock and the scheduler: any reading at any event, in any order, and lease timeouts at any time. The
  demo schedule of `run` is one of the event sequences covered.
- `Runtime.ChildProcess` does not model `transact` and `stop` in their plain form, which the runtime never
  uses. Plain requests, acknowledgements and the plain branch of the honest child are modelled.
- RuntimeFailures.StepFailure: for ledgers more than 200 entries below the last sequence number. The closed forms of
  the single failures need no such room.
- Error kinds and texts. Where a text reaches the ledger it is a parameter, and may be too long to record.
- File system calls, buffering and write errors of the ledger: the file is the bytes written.
- `LedgerVerifier.VerifyReader`: the line numbers and texts inside its errors, and the JSON form of the report.
- Resource use of `recover_valid_prefix` and its synchronisation calls.
- SQLite, SHA-256 and Ed25519: tables are values, digests are injective, frames and receipts are not modelled.
  The receipt stored by the broker is any text.
- `BrokerSafety.AtMostOnce`: assumes a client that applies the effect only after a `consume` that returned in
  the same incarnation, and records a result only after that, as both experiments do. A seal write that fails
  without ending the process is not modelled.
- The baselines without a coordinator, the altered-frame and cross-generation cases, and the result tables of
  the experiments: finite scripts and statistics.
- `Archive.CleanIsTiled`: the entries, their raw names and the directory offset are what the ZIP library
  reports; the content of the central directory, decompression, names, modes and digests are not modelled.
- `Archive.DosDateTime`: adds the bit fields, which is their union for a timestamp in range; the program calls
  it on one.
- Binaries, report rendering, and the release tooling other than the archive layout.
