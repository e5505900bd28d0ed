# Verified models of matter-rust

This project models four parts of matter-rust, a Matter smart-home stack written in Rust,
and proves what they promise. `dafny verify dfyconfig.toml` checks everything.

**The Bluetooth transport (BTP).** `BtpEngine` has one function per operation of the session
engine, over a record with the engine's own fields; bytes wrap, and the low-byte truncation of
the window formula is written out. `BtpSession` is the same engine as a class, every method
proved to do what its function says. `BtpReception` says, for any bytes in any state, exactly
which packets are refused, for what, and what a refusal leaves behind. `BtpNetwork` joins a
Central and a Peripheral by two reliable FIFO channels and proves one invariant over every
interleaving of queueing, writing, completing, receiving and timing out. `BtpTheorems`,
`BtpTimers`, `BtpDeadlines`, `BtpDrain` and `BtpSegments` draw the consequences: no packet is
ever rejected, SDUs arrive in order and whole, windows are accounted for, both windows are never
closed at once, the announced deadline is the first time at which the timers act, a session dies
after exactly 15 seconds of waiting, a session that is not close to dying can always be continued
until everything queued is delivered, and every SDU is cut and numbered correctly. `BtpCentral`
is the client's send loop. `BtpHandshake` gives the limits a session starts with.

**Certificates.** `Certificate` is the value. `X509` maps it to a tree of DER elements and
`X509Writer` is the encoder as it runs, splicing headers into one shared buffer (`Der`,
`DerWriter`, `DerReader`). `DerParser` and `X509Reader` are a second description of the result:
a reader of certificates written from section 4.1 of RFC 5280, which shares nothing with the
encoder. `X509Meaning` shows that this reader finds every field of the certificate in its place,
and `X509Errors` which certificates have no X.509 form, and why. `CivilTime` compares the
converter from Unix seconds with the Gregorian calendar written from its rules. `X509Fields`,
`X509KeyUsage` and `X509Theorems` show that the to-be-signed bytes determine the certificate.
`CertificateTlv`, `CertificateReader` and `CertificateWriter` are the TLV form, at the level of
the events a TLV reader hands out; `CertificateTlvMeaning` says which streams are accepted and
as what, `CertificateTlvErrors` for what the others are refused, `CertificateTlvTheorems` when
reading inverts writing and that the order of fields does not matter, `CertificateTlvForm` when
writing inverts reading. `Chain` is the path validator and `Issuer` the builder, the role
constructors, what the RFC 5280 reader finds in the certificates they issue, and the proof that
these chains validate.

**Bulk data exchange (BDX).** `BdxMessages` and `BdxCodec` are the bit-packed messages, with
their layout by position; `BdxSender` is the block sender, its whole-transfer properties and its
answer to every call after every history.

**The trace comparer.** `TraceTree` builds trees with an explicit stack, `TraceCompare` compares
them with struct fields in any order, `TraceVerdict` says for which pairs of payloads each
verdict is given and what it lists, `TraceFirsts` what a match means, repeated tags included, and
`TraceAlign` aligns two dialogues.

Left open, as parameters: the clock, the outcome of each GATT write, ECDSA verification and
signing, key loading, SHA-1, and the trace comparer's rule table. What is assumed of ECDSA is
that a signature verifies under its own key (`Issuer.Sound`).

Where the code differs from what is said about it, the model follows the code:

- `unix_to_ymdhms` is documented for any Unix second; the 32-bit year makes it wrong from the
  start of the year 2^32 on. `CivilTime.YearFitsExactlyBelow` gives the exact second.
- `to_tlv` is documented to reproduce the bytes that were parsed. It does so exactly for streams
  in the form `CertificateTlvForm.InWrittenForm`, a check on the events alone; these are accepted
  and not reproduced: top-level fields out of tag order, events after the certificate, extensions
  out of tag order, key-usage bits above the nine defined ones (0x260 comes back as 0x60), a
  basic-constraints body that is not the CA flag followed by at most one path length, and
  extended key usages with a tag. `CertificateTlvForm.IdentityIff` is the theorem;
  `ReorderedIsNotWrittenBack`, `UndefinedBitsAreNotWrittenBack`, `TrailingIsNotWrittenBack` and
  `SampleIsNotWrittenBack` exhibit the failures.
- An empty key usage is written as eight zero bits, and a path length from 128 on as a negative
  INTEGER. `X509KeyUsage.KeyUsageIsMinimal` and `X509Theorems.PathLengthDenotes` say when the
  encodings are right.
- The receiver's reassembly cap (2048 bytes) is below the sender's limit (65535 bytes).
  `BtpSegments.OversizeSduIsRefused` says exactly which SDUs are refused; runs are taken with
  SDUs the receiver accepts.

## Model

| member | source | states |
|---|---|---|
| BtpTheorems.RunsDeliverInOrder | crates/matter-ble/src/session.rs:229-332 | in every run, whatever the interleaving and even after sequence numbers wrap, no indication is rejected and the SDUs delivered at each side are a prefix of those queued at the other |
| BtpTheorems.QuietLinkHasDeliveredAll | crates/matter-ble/src/session.rs:229-332 | with the link empty and nothing pending, everything queued has been delivered |
| BtpTheorems.PacketsAreNumberedAndAcknowledge | crates/matter-ble/src/session.rs:465-541 | packet i carries sequence number i reduced to a byte, and acknowledges the newest packet received exactly when one was received since the packet before |
| BtpTheorems.WindowAccounting | crates/matter-ble/src/session.rs:361-429 | the remote window never exceeds the negotiated one, outstanding packets plus window make the negotiated window or one more, and an ack is expected exactly while packets are outstanding |
| BtpTheorems.NoMutualDeadlock | crates/matter-ble/src/session.rs:465-541 | with both channels empty, the two remote windows are never both zero, before or after the wrap |
| BtpTheorems.QuietRunCanAcknowledge | crates/matter-ble/src/session.rs:602-658 | with both channels empty, some side owes an acknowledgement and has the window to send it |
| BtpTheorems.DueAckIsEmitted | crates/matter-ble/src/session.rs:602-658 | such a side emits exactly that acknowledgement when its timer is served |
| BtpNetwork.RunKeepsInv | crates/matter-ble/src/session.rs:157-658 | every step of every run keeps the two-party invariant: counters, windows, numbering, links and streams in both directions |
| BtpNetwork.ReceiveKeepsInv | crates/matter-ble/src/session.rs:229-332 | receiving the head of a channel is accepted and keeps the invariant |
| BtpNetwork.WriteKeepsInv | crates/matter-ble/src/session.rs:465-541 | taking a fragment to write keeps the invariant |
| BtpNetwork.TimeoutKeepsInv | crates/matter-ble/src/session.rs:602-658 | serving the timers keeps the invariant |
| BtpNetwork.GateGivesDeparture | crates/matter-ble/src/session.rs:472-479 | the send gate lets the window reach zero only with a packet that carries an acknowledgement |
| BtpSequence.AckTestIsExact | crates/matter-ble/src/session.rs:361-393 | the byte test accepts every packet of a true outstanding interval of up to 256, and recognises the newest exactly |
| BtpSequence.AckTestIsSound | crates/matter-ble/src/session.rs:361-393 | a byte the test accepts is the byte of exactly one outstanding packet |
| BtpSequence.CreditAfterAck | crates/matter-ble/src/session.rs:402-413 | the credit is the window less what is still outstanding, plus one in the wrap branch |
| BtpSequence.AckOutcome | crates/matter-ble/src/session.rs:361-393 | what an acceptable acknowledgement does to the whole session |
| BtpSequence.NoMutualClosure | crates/matter-ble/src/session.rs:472-479 | two histories in which every window-closing packet acknowledges cannot both end closed |
| BtpPacket.NextPacketIsEncoded | crates/matter-ble/src/session.rs:482-541 | the bytes of the next fragment are the encoding of the packet it stands for |
| BtpPacket.IndicationIsFeed | crates/matter-ble/src/session.rs:229-332 | receiving an encoded packet peels its ack, checks its number and feeds its fragment to reassembly |
| BtpReception.RefusedIff | crates/matter-ble/src/session.rs:229-332 | for any bytes in any state: a packet is refused exactly when it is too short for what it announces, acknowledges outside the outstanding interval, carries another number than the one expected, begins or continues a message out of turn, is too long, or ends a message that is not whole; and each error is given exactly for its own case |
| BtpReception.RefusedAtOnce | crates/matter-ble/src/session.rs:229-252 | a packet without its header or with a bad acknowledgement changes nothing at all |
| BtpReception.RefusedByNumber | crates/matter-ble/src/session.rs:253-258 | a missing or unexpected number applies the acknowledgement and leaves the expected number, the buffer and everything else received as they were; the error names both numbers |
| BtpReception.RefusedByFragment | crates/matter-ble/src/session.rs:259-332 | a fragment that is refused uses up its number and changes nothing else that is received |
| BtpReception.OthersAreTaken | crates/matter-ble/src/session.rs:259-332 | every other packet uses up its number, makes its acknowledgement owed, narrows the local window and sets the deadline; it starts, extends or completes the message with exactly its bytes, and an end with too little data drops the message |
| BtpReception.AckTestIsCircular | crates/matter-ble/src/session.rs:361-393 | the acknowledgement test is membership in a circular interval of bytes |
| BtpReception.WrongNumberIsRefused | crates/matter-ble/src/session.rs:253-258 | an acknowledgement under a wrong number, in every state that waits for another |
| BtpSegments.SduIsSegmented | crates/matter-ble/src/session.rs:465-541 | for every SDU up to 65535 bytes, every segment size from 6 and every course of events, fragments fit the segment, are numbered consecutively, carry START and length on the first only and END on the last only, and make up the SDU |
| BtpSegments.LogIsWhatWasEmitted | crates/matter-ble/src/session.rs:482-541 | the packets the segmentation result speaks of are, byte for byte, what the engine emitted |
| BtpSegments.OversizeSduIsRefused | crates/matter-ble/src/session.rs:94-94 | of the SDUs the sender accepts, exactly those over 2048 bytes are refused, on their first fragment |
| BtpTimers.DeathIsOutstandingForFifteenSeconds | crates/matter-ble/src/session.rs:602-658 | in every run, the session is declared dead exactly when some packet has been outstanding in every state for the last 15 seconds of its own clock |
| BtpTimers.DeathIsExactlyFifteenSeconds | crates/matter-ble/src/session.rs:602-658 | the same for any indications whatever, over the engine's own record of waiting |
| BtpTimers.DeferralLosesNothing | crates/matter-ble/src/session.rs:602-658 | an acknowledgement held back by flow control changes nothing; however the run goes on, until the side's next departure it stays owed and due, it is emitted once window and slot are free, and the next packet to depart carries it |
| BtpTimers.OwedUntilDeparture | crates/matter-ble/src/session.rs:561-575 | over every run without a departure of that side, an owed acknowledgement stays owed and its deadline never moves later |
| BtpDeadlines.PollIsLeast | crates/matter-ble/src/session.rs:344-356 | the deadline given is the least time at which serving the timers does anything, unless flow control holds an acknowledgement back; then the least such time is the end of the 15 s |
| BtpDeadlines.LocalWindowAccounting | crates/matter-ble/src/session.rs:561-575 | in every run the local window is the negotiated one less the packets received since the last departure |
| BtpDeadlines.NearlyFullIsDueAtOnce | crates/matter-ble/src/session.rs:561-575 | in every run, a packet that leaves one slot or none makes the acknowledgement due at once, and it stays due until the next departure |
| BtpDeadlines.FirstDeadlines | crates/matter-ble/src/session.rs:167-212 | a new Central owes the acknowledgement of packet 0 within 2.5 s, a new Peripheral waits 15 s for it |
| BtpDeadlines.QueueIff | crates/matter-ble/src/session.rs:439-449 | exactly when an SDU is taken, and when it is refused with which error and no change |
| BtpDrain.CanDrain | crates/matter-ble/src/session.rs:465-658 | from every state of every run in which both sides have more than 2.5 s left on the 15 s timer, a continuation without further SDUs ends with both channels empty, nothing being sent, and each side having delivered exactly what the other queued |
| BtpDrain.Drain | crates/matter-ble/src/session.rs:465-658 | the sides taking turns, each packet acknowledging all that was heard, drain the session |
| BtpDrain.RunIsDueSoon | crates/matter-ble/src/session.rs:561-575 | in every run an owed acknowledgement is due within 2.5 s of the side's clock |
| BtpSession.Session.constructor | crates/matter-ble/src/session.rs:167-212 | a new session, with segment size and window raised to their minimum |
| BtpSession.Session.OnIndication | crates/matter-ble/src/session.rs:229-332 | the new state and outcome for any packet whatever, including every error |
| BtpSession.Session.ReceiveAck | crates/matter-ble/src/session.rs:361-393 | the interval test with wrap-around and its effect |
| BtpSession.Session.AdjustRemoteWindow | crates/matter-ble/src/session.rs:402-413 | the credit formula in 16-bit arithmetic cut to its low byte |
| BtpSession.Session.RegisterOutboundSeq | crates/matter-ble/src/session.rs:421-429 | the new outstanding interval and its timer |
| BtpSession.Session.QueueMessage | crates/matter-ble/src/session.rs:439-449 | one SDU at a time |
| BtpSession.Session.NextGattWrite | crates/matter-ble/src/session.rs:465-541 | the next fragment, or nothing when the slot, the window or the queue says so |
| BtpSession.Session.GattWriteCompleted | crates/matter-ble/src/session.rs:554-556 | the write slot is free again |
| BtpSession.Session.ArmAckTimer | crates/matter-ble/src/session.rs:561-574 | the acknowledgement deadline |
| BtpSession.Session.PollTimeout | crates/matter-ble/src/session.rs:344-356 | the earlier of the two deadlines |
| BtpSession.Session.HandleTimeout | crates/matter-ble/src/session.rs:602-658 | death, a standalone acknowledgement, a deferral, or nothing |
| BtpCentral.WriteFragment | crates/matter-ble/src/central.rs:1107-1125 | a completed write frees the slot, a failed one keeps it |
| BtpCentral.DriveOutbound | crates/matter-ble/src/central.rs:1147-1167 | the packets written are those the engine gives when asked again after each completed write, the session is left as those requests leave the engine, there are at most as many writes as the remote window allows, with the slot free unless a write failed, after at most one standalone ack; Idle only with nothing owed or outstanding, a time only if it is ahead, Retry only with the window closed before a due acknowledgement, death only after 15 seconds |
| BtpHandshake.NegotiatedSession | crates/matter-ble/src/handshake.rs:90-116 | exactly which responses are accepted; the size and window negotiated are the smaller of the one offered and 244 and 6, and a session takes them unchanged; every other response is refused with the error of the first reason |
| BtpHandshake.RequestIsReadBack | crates/matter-ble/src/handshake.rs:44-57 | a request begins with the two check bytes, offers exactly version 4 among its eight nibbles and carries MTU and window |
| CivilTime.CivilIsExact | crates/matter-cert/src/x509.rs:725-753 | for every second count the converter gives a valid Gregorian date and time whose own second count is the input |
| CivilTime.CivilInvertsCalendar | crates/matter-cert/src/x509.rs:725-753 | every valid date is the one its seconds are converted to |
| CivilTime.CivilIsMonotone | crates/matter-cert/src/x509.rs:725-753 | the conversion is strictly monotone |
| CivilTime.CutoffIsEndOf2049 | crates/matter-cert/src/x509.rs:234-243 | the UTCTime cutoff holds exactly for years up to 2049 |
| CivilTime.YearFitsExactlyBelow | crates/matter-cert/src/x509.rs:748-752 | keeping the year in 32 bits is harmless exactly below second 135536014634284800 |
| CivilTime.YearOfEraIsExact | crates/matter-cert/src/x509.rs:742-744 | the year-of-era formula gives the one year of the 400 that contains the day |
| CivilTime.MonthIsExact | crates/matter-cert/src/x509.rs:745-747 | the month formula gives the one month that contains the day |
| Der.EncodingDetermines | crates/matter-cert/src/x509.rs:640-714 | an encoding determines its tree and where it ends |
| Der.LengthIsPrefixFree | crates/matter-cert/src/x509.rs:699-714 | no length is the beginning of another |
| DerWriter.DefiniteLengthPrefix | crates/matter-cert/src/x509.rs:640-662 | the nine-byte buffer holds the shortest definite length |
| DerWriter.Buffer.EncodeDefiniteLength | crates/matter-cert/src/x509.rs:699-714 | the appending encoder writes the same bytes |
| DerWriter.Buffer.WrapTagged | crates/matter-cert/src/x509.rs:674-688 | splicing the header in front of appended content gives tag, length and content after the old buffer |
| DerWriter.Buffer.WrapPrimitive | crates/matter-cert/src/x509.rs:560-564 | a primitive element is appended, with the same length bytes as a wrapper's |
| DerWriter.Buffer.Write | crates/matter-cert/src/x509.rs:674-696 | any nesting of wrappers appends exactly the pure encoding of its tree |
| DerReader.DerElement | xtask/src/capture_cert_chip.rs:280-303 | the content and total length of the first element, or the error, with the length accumulated byte by byte |
| DerReader.ExtractTbs | xtask/src/capture_cert_chip.rs:269-276 | the first element inside the first element |
| DerReader.ElementInvertsTlv | xtask/src/capture_cert_chip.rs:280-303 | an encoded element is taken off exactly when its content is below 2^32 bytes |
| DerReader.TbsIsRecovered | xtask/src/capture_cert_chip.rs:269-276 | the first part of a certificate is recovered byte for byte, exactly when the content is below 2^32 bytes |
| DerReader.ElementIff | xtask/src/capture_cert_chip.rs:280-303 | for any bytes: which of the four errors is given exactly when, and otherwise the content and total length by position |
| DerParser.NodeIsReadBack | crates/matter-cert/src/x509.rs:640-714 | an independent parser reads every encoding back as its tree and leaves what follows |
| X509Writer.MatterCertToX509TbsDer | crates/matter-cert/src/x509.rs:135-188 | the in-place encoder gives exactly the bytes that TbsMeans reads, or the error that TbsIff names |
| X509Writer.EncodeSerialNumber | crates/matter-cert/src/x509.rs:276-293 | the serial INTEGER is appended, the empty serial refused |
| X509Writer.EncodeOneTime | crates/matter-cert/src/x509.rs:225-244 | UTCTime before the cutoff, GeneralizedTime from it on, the sentinel for no expiry |
| X509Writer.EncodeValidity | crates/matter-cert/src/x509.rs:202-211 | on any buffer, appends the sequence of the two times, the beginning first, that TimeIsReadBack reads and TbsMeans finds |
| X509Writer.EncodeSubjectPublicKeyInfo | crates/matter-cert/src/x509.rs:335-350 | on any buffer, appends the key, whole, with its two identifiers |
| X509Writer.EncodeDnAttribute | crates/matter-cert/src/x509.rs:401-523 | one attribute, or the reason it has no X.509 form |
| X509Writer.VerifyText | crates/matter-cert/src/x509.rs:530-556 | the fault of a string, found by scanning it |
| X509Writer.EncodeDn | crates/matter-cert/src/x509.rs:582-617 | one set per attribute, stopping at the first that fails |
| X509Writer.EncodeExtension | crates/matter-cert/src/x509.rs:768-783 | identifier, criticality only when set, and the value in an octet string |
| X509Writer.EncodeBasicConstraints | crates/matter-cert/src/x509.rs:792-814 | the CA flag, and the path length only for a CA |
| X509Writer.EncodeKeyUsage | crates/matter-cert/src/x509.rs:843-883 | on any buffer, appends the key-usage extension whose bit string KeyUsageMeans reads |
| X509Writer.EncodeExtendedKeyUsage | crates/matter-cert/src/x509.rs:925-942 | one identifier per known purpose, others skipped |
| X509Writer.EncodeSubjectKeyIdentifier | crates/matter-cert/src/x509.rs:951-961 | the doubly wrapped key identifier |
| X509Writer.EncodeAuthorityKeyIdentifier | crates/matter-cert/src/x509.rs:978-992 | the implicitly tagged key identifier |
| X509Writer.EncodeExtensionsBlock | crates/matter-cert/src/x509.rs:1001-1024 | the present extensions in their fixed order under two wrappers |
| X509Fields.TimeIsReadBack | crates/matter-cert/src/x509.rs:225-244 | a reader that follows section 4.1.2.5 of RFC 5280 gets back the exact date and time of every 32-bit Matter time, or the sentinel |
| X509Fields.SerialIsNonNegative | crates/matter-cert/src/x509.rs:276-293 | the two's complement value of the INTEGER is the serial's big-endian value |
| X509Fields.SerialDetermines | crates/matter-cert/src/x509.rs:276-293 | two serials have the same INTEGER exactly when they are equal after dropping a redundant zero byte |
| X509Fields.EntryDetermines | crates/matter-cert/src/x509.rs:401-523 | identifier, string type and value determine the attribute |
| X509Fields.AttributeOidIs | crates/matter-cert/src/x509.rs:41-105 | a reader of object identifiers gets back, component by component, the dotted identifier of every attribute |
| X509Fields.CurveOidsAre | crates/matter-cert/src/x509.rs:122-124 | the same for the key type, the curve and the signature algorithm |
| X509Fields.JointArcIs | crates/matter-cert/src/x509.rs:111-116 | the same for the extension identifiers |
| X509Fields.PurposeArcIs | crates/matter-cert/src/x509.rs:896-901 | the same for the purposes |
| X509Fields.NameDetermines | crates/matter-cert/src/x509.rs:582-617 | the encoded name determines the name |
| X509Fields.HexIsReadBack | crates/matter-cert/src/x509.rs:401-446 | zero-padded upper-case hexadecimal is read back as the identifier |
| X509KeyUsage.KeyUsageMeans | crates/matter-cert/src/x509.rs:843-883 | usage bit i is bit i of the BIT STRING, for all 16 bits |
| X509KeyUsage.KeyUsageIsMinimal | crates/matter-cert/src/x509.rs:843-883 | the BIT STRING stops at its last set bit, exactly when some bit is set |
| X509KeyUsage.KeyUsageDetermines | crates/matter-cert/src/x509.rs:843-883 | the BIT STRING determines the usage bits |
| X509Theorems.TbsDetermines | crates/matter-cert/src/x509.rs:135-188 | two certificates have the same to-be-signed bytes exactly when they have the same canonical form |
| X509Meaning.TbsMeans | crates/matter-cert/src/x509.rs:135-188 | a reader that follows section 4.1 of RFC 5280 finds, each in its place, version 3, the serial, the signature algorithm, the issuer, both times, the subject, the key and every extension with its criticality |
| X509Meaning.CanonicalMeansTheSame | crates/matter-cert/src/x509.rs:135-188 | a certificate and its canonical form are read alike |
| X509Errors.TbsIff | crates/matter-cert/src/x509.rs:135-188 | a certificate has an X.509 form exactly when it has a serial and every attribute of both names has one; otherwise the error is that of the serial, or of the first attribute without one of the issuer, then of the subject |
| X509Errors.EntryIff | crates/matter-cert/src/x509.rs:401-556 | which attributes have an X.509 form, and the error of every other |
| X509Theorems.CanonicalTbsDetermines | crates/matter-cert/src/x509.rs:135-188 | certificates in canonical form with equal bytes are equal up to the signature |
| X509Theorems.CanonicalForm | crates/matter-cert/src/x509.rs:276-293 | canonical means no redundant serial zero, a path length only for a CA, and purposes in 1 to 6 |
| X509Theorems.TbsIgnoresSignature | crates/matter-cert/src/x509.rs:135-188 | the bytes do not depend on the signature |
| X509Theorems.ExtensionsDetermine | crates/matter-cert/src/x509.rs:1001-1024 | the extensions, present or absent, are determined by the block |
| X509Theorems.PathLengthDenotes | crates/matter-cert/src/x509.rs:800-805 | a path length is read back as itself exactly below 128 |
| CertificateReader.ParseCertificate | crates/matter-cert/src/certificate.rs:81-230 | the slot-filling loop gives, for any stream of events, the certificate that AcceptedIff describes, or the error that ErrorIff describes |
| CertificateReader.ReadOneField | crates/matter-cert/src/certificate.rs:105-207 | one field stored in its slot, or its error |
| CertificateReader.ReadNameFrom | crates/matter-cert/src/name.rs:202-223 | the attributes up to the end of the list |
| CertificateReader.ReadExtensionsFrom | crates/matter-cert/src/extensions.rs:205-265 | the extensions up to the end of the list |
| CertificateReader.ReadOneExtension | crates/matter-cert/src/extensions.rs:211-259 | one extension, duplicates and wrong types refused |
| CertificateReader.ReadConstraintsBody | crates/matter-cert/src/extensions.rs:299-328 | the basic-constraints body, a repeated field overwriting |
| CertificateReader.ReadUintArray | crates/matter-cert/src/extensions.rs:343-362 | the unsigned integers up to the end of the array |
| CertificateWriter.SerializeCertificate | crates/matter-cert/src/certificate.rs:245-287 | the events of the eleven fields in order, or the error of a name that has none |
| CertificateWriter.WriteName | crates/matter-cert/src/name.rs:230-237 | the attributes between the ends of a list |
| CertificateWriter.WriteEachExtension | crates/matter-cert/src/extensions.rs:272-295 | the present extensions in order |
| CertificateTlvTheorems.RoundTrip | crates/matter-cert/src/certificate.rs:81-287 | writing then reading gives the certificate back, exactly for the well-formed ones |
| CertificateTlvTheorems.AttributeRoundTrip | crates/matter-cert/src/name.rs:252-374 | an attribute comes back exactly when it has a TLV form and an untyped one uses an untyped tag |
| CertificateTlvTheorems.NameRoundTrip | crates/matter-cert/src/name.rs:202-237 | a well-formed name comes back, and the events after it are untouched |
| CertificateTlvTheorems.ExtensionsRoundTrip | crates/matter-cert/src/extensions.rs:205-295 | extensions come back up to undefined key-usage bits, hence exactly when there are none, and the events after them are untouched |
| CertificateTlvTheorems.ReadsBackStored | crates/matter-cert/src/certificate.rs:81-287 | a certificate with an acceptable serial and names comes back with the nine defined key-usage bits |
| CertificateTlvTheorems.ReadIsWellFormed | crates/matter-cert/src/certificate.rs:81-230 | only well-formed certificates are read |
| CertificateTlvTheorems.OrderDoesNotMatter | crates/matter-cert/src/certificate.rs:105-207 | the same fields in any order are accepted or refused alike, and give the same certificate |
| CertificateTlvTheorems.AcceptedIsFields | crates/matter-cert/src/certificate.rs:81-230 | every accepted stream is a list of fields between the ends of a structure |
| CertificateTlvMeaning.AcceptedIff | crates/matter-cert/src/certificate.rs:81-230 | a stream is accepted as a certificate exactly when it is a structure of eleven fields, in any order, each saying one part of that certificate, with anything after the structure |
| CertificateTlvMeaning.NameIff | crates/matter-cert/src/name.rs:202-374 | events are read as a name exactly when they are one event per attribute, with its tag and type, and the end |
| CertificateTlvMeaning.ExtensionsIff | crates/matter-cert/src/extensions.rs:205-265 | events are read as extensions exactly when they say each of them once, in any order, and the end |
| CertificateTlvErrors.ErrorIff | crates/matter-cert/src/certificate.rs:81-230 | a stream is refused exactly for the first event that is wrong where it stands (undecodable, wrong tag or type, repeated, or out of range, in this order), for ending early, or for the first missing field |
| CertificateTlvErrors.WriteErrorIff | crates/matter-cert/src/certificate.rs:245-287 | a certificate is not written exactly when a name holds a vendor or product identifier, with that error |
| CertificateTlvTheorems.CanonicalStream | crates/matter-cert/src/certificate.rs:245-287 | writing what was read gives a stream that is read as the same certificate and written again unchanged |
| CertificateTlvForm.IdentityIff | crates/matter-cert/src/certificate.rs:245-287 | writing what was read gives the same events exactly when they are in the written form: nothing after the structure, fields 1 to 11 in order, extensions ascending, constraints the CA flag and at most a path length, key usage below 0x200, extended key usages untagged |
| CertificateTlvForm.WrittenIsInForm | crates/matter-cert/src/certificate.rs:245-287 | a certificate is written in that form exactly when its key usage has only defined bits |
| CertificateTlvForm.NameRewrites | crates/matter-cert/src/name.rs:202-374 | a name is always written back as it was read |
| CertificateTlvForm.ReorderedIsNotWrittenBack | crates/matter-cert/src/certificate.rs:105-207 | every well-formed certificate is also accepted with its validity fields exchanged, and then not written back |
| CertificateTlvForm.UndefinedBitsAreNotWrittenBack | crates/matter-cert/src/extensions.rs:205-295 | undefined key-usage bits are accepted, dropped and not written back |
| CertificateTlvForm.TrailingIsNotWrittenBack | crates/matter-cert/src/certificate.rs:105-108 | trailing events are accepted and not written back |
| CertificateTlvForm.SampleIsNotWrittenBack | crates/matter-cert/src/extensions.rs:205-295 | a concrete certificate for every key usage from 0x200 on that comes back different |
| CertificateTlvTheorems.TrailingIsIgnored | crates/matter-cert/src/certificate.rs:105-108 | events after the certificate's structure are not looked at |
| CertificateTlvTheorems.GatherPermutes | crates/matter-cert/src/certificate.rs:105-207 | the slots that a list of fields fills, and whether two fill the same, do not depend on their order |
| Chain.Validate | crates/matter-cert/src/chain.rs:163-281 | the two loops give the verdict that AcceptedIff and ErrorIff describe |
| Chain.FindAnchor | crates/matter-cert/src/chain.rs:254-280 | an anchor is found exactly when one has the top certificate's issuer as its name, no key identifier or the authority key identifier of the certificate, and a key that verifies its signature |
| Chain.AcceptedIff | crates/matter-cert/src/chain.rs:163-281 | a chain is accepted exactly when every certificate is in time and in its role, every issuer may sign keys and has room left on its path, every certificate is named and signed by the next, and the last by an anchor |
| Chain.ErrorIff | crates/matter-cert/src/chain.rs:163-281 | every error, with its position, is the first thing wrong with the chain in the order of the checks, and the first thing wrong is the error |
| Chain.AcceptedTimes | crates/matter-cert/src/chain.rs:173-189 | the accepted times are all of one interval, from the latest beginning to the earliest end, or none |
| Chain.MoreAnchors | crates/matter-cert/src/chain.rs:254-280 | more anchors never turn an acceptance into an error, and change no error but the missing root |
| Chain.TrustedRoots.Add | crates/matter-cert/src/chain.rs:95-97 | the anchor is added and no other is lost, which is what MoreAnchors speaks of |
| Issuer.BuildNoc | crates/matter-cert/src/operational.rs:322-350 | the push loop gives the profile that IssuedNodeIs reads |
| Issuer.BuildIff | crates/matter-cert/src/builder.rs:107-133 | what the builder answers: the fields as they were set, the serial refused unless it has 1 to 20 bytes, or the first missing field |
| Issuer.IssuedNodeIs | crates/matter-cert/src/operational.rs:322-350 | the RFC 5280 reader finds in the signed bytes of a node: the serial, issuer, window and key given, the subject fabric, node and the tags in order, no CA, digital signature, client and server authentication, and the two key identifiers |
| Issuer.IssuedIntermediateIs | crates/matter-cert/src/operational.rs:275-295 | the same for an intermediate: subject its id, a CA with path length 0 that signs keys and lists |
| Issuer.IssuedRootIs | crates/matter-cert/src/operational.rs:236-257 | the same for a root: issuer and subject its own id, a CA with the path length given that signs keys and lists, both key identifiers its own |
| Issuer.TbsIgnoresPlaceholder | crates/matter-cert/src/builder.rs:161-176 | the bytes to sign, taken with a placeholder, are those of the assembled certificate |
| Issuer.SignedVerifies | crates/matter-cert/src/operational.rs:374-395 | a signed certificate verifies under the key that signed it |
| Issuer.SignIff | crates/matter-cert/src/operational.rs:374-395 | signing is refused for the first field without an X.509 form, then for a key that does not load, and for nothing else |
| Issuer.RootIssuingSucceeds | crates/matter-cert/src/operational.rs:236-257 | a root is issued exactly when its serial has 1 to 20 bytes and the key loads |
| Issuer.IntermediateIssuingSucceeds | crates/matter-cert/src/operational.rs:275-295 | an intermediate is issued exactly when its serial has 1 to 20 bytes, every attribute of the issuer's name has an X.509 form, and the key loads |
| Issuer.NodeIssuingSucceeds | crates/matter-cert/src/operational.rs:322-350 | a node certificate is issued, for all ids and tags, exactly when its serial has 1 to 20 bytes, every attribute of the issuer's name has an X.509 form, and the key loads |
| Issuer.IssuedChainValidates | crates/matter-cert/src/operational.rs:236-395 | node and intermediate under a trusted root validate at exactly the times inside both windows |
| Issuer.IssuedNodeValidates | crates/matter-cert/src/operational.rs:236-395 | a node directly under a trusted root validates at exactly the times inside its window |
| BdxCodec.ParseInit | crates/matter-bdx/src/messages.rs:144-182 | on any body, cut or malformed, the moving cursor gives what the value-level decoder gives |
| BdxCodec.ParseReceiveAccept | crates/matter-bdx/src/messages.rs:230-265 | the same for ReceiveAccept |
| BdxCodec.BuildInit | crates/matter-bdx/src/messages.rs:116-138 | pushing the fields one after another gives the encoding the round trips speak of |
| BdxCodec.BuildProposal | crates/matter-bdx/src/messages.rs:205-224 | the fields the two transfer messages share, offset and length present only when not zero and cut to four bytes when both fit |
| BdxCodec.Reader.Take | crates/matter-bdx/src/messages.rs:70-75 | the next bytes, or nothing and an unmoved cursor |
| BdxMessages.InitRoundTrip | crates/matter-bdx/src/messages.rs:116-182 | a TransferInit comes back exactly when its version fits four bits, its control leaves them free and its designator is at most 65535 bytes |
| BdxMessages.OversizedDesignator | crates/matter-bdx/src/messages.rs:133-136 | a longer designator is cut at 65535 bytes and its rest read as metadata |
| BdxMessages.ReceiveAcceptRoundTrip | crates/matter-bdx/src/messages.rs:205-265 | a ReceiveAccept comes back under the same condition on version and control |
| BdxMessages.InitLayout | crates/matter-bdx/src/messages.rs:144-182 | any bytes are read as an initiation exactly when they are as long as they announce, each field at its position, and are Truncated otherwise |
| BdxMessages.AcceptLayout | crates/matter-bdx/src/messages.rs:230-309 | the same for both acceptances |
| BdxMessages.WrittenRanges | crates/matter-bdx/src/messages.rs:205-224 | the range byte announces a length and an offset exactly when they are not zero, eight bytes each exactly when one of them needs more than four, and nothing else; the ranges follow |
| BdxMessages.InitIsShortest | crates/matter-bdx/src/messages.rs:116-182 | no bytes that are read as an initiation are shorter than its encoding |
| BdxMessages.SendAcceptRoundTrip | crates/matter-bdx/src/messages.rs:284-309 | so does a SendAccept |
| BdxMessages.BlockRoundTrip | crates/matter-bdx/src/messages.rs:322-366 | counters and data blocks come back |
| BdxMessages.InitCut | crates/matter-bdx/src/messages.rs:144-182 | every cut inside the fixed part is Truncated, every later cut only shortens the metadata |
| BdxMessages.ReceiveAcceptCut | crates/matter-bdx/src/messages.rs:230-265 | the same for ReceiveAccept |
| BdxSender.BlockSender.AcceptInit | crates/matter-bdx/src/sender.rs:95-120 | the new state and the acceptance, or the abort |
| BdxSender.BlockSender.BlockQuery | crates/matter-bdx/src/sender.rs:125-158 | the new state and the next block, or the abort |
| BdxSender.BlockSender.BlockAckEof | crates/matter-bdx/src/sender.rs:163-172 | completion, or the abort |
| BdxSender.QuerySends | crates/matter-bdx/src/sender.rs:138-142 | the hand-built payload is a data block's encoding and is read back as one |
| BdxSender.WholeTransfer | crates/matter-bdx/src/sender.rs:125-172 | querying the counters in order gives max(1, ceil(len / size)) blocks that make up the image, exactly the last marked, then completion |
| BdxSender.DeliveredIsPrefix | crates/matter-bdx/src/sender.rs:95-177 | over every sequence of calls, what was sent is a beginning of the image, and all of it once the end was announced |
| BdxSender.RunAnswers | crates/matter-bdx/src/sender.rs:95-177 | after every sequence of calls, told from the answers so far alone, which calls are served and which are refused with which status |
| BdxSender.NothingAfterTheEnd | crates/matter-bdx/src/sender.rs:95-177 | after an abort or completion every call is refused and nothing is sent |
| BdxSender.TransferBegins | crates/matter-bdx/src/sender.rs:95-120 | an accepted proposal leaves the sender where the transfer begins, with the smaller block size |
| BdxSender.AcceptanceIsReadBack | crates/matter-bdx/src/sender.rs:104-119 | the acceptance is read back as receiver drive, version 0, the smaller size, no offset and the image's length |
| BdxSender.TransferCanEnd | crates/matter-bdx/src/sender.rs:132-136 | a transfer can come to its end exactly when the size is not zero or the image is empty |
| TraceTree.ParseTree | xtask/src/trace_diff.rs:438-483 | the stack loop gives the forest, or the error, of any stream |
| TraceTree.ParseInvertsFlatten | xtask/src/trace_diff.rs:438-483 | parsing succeeds exactly on balanced streams and is inverse to flattening |
| TraceTree.ParseErrorIff | xtask/src/trace_diff.rs:438-483 | each error exactly when: the first undecodable event, an end with nothing open, or containers left open |
| TraceCompare.ComparePayloads | xtask/src/trace_diff.rs:1244-1263 | the verdict that VerdictIs describes |
| TraceVerdict.VerdictIs | xtask/src/trace_diff.rs:979-1263 | for all payloads and rules: Divergent exactly when some pair of corresponding places differs, or one is missing, without a rule that excuses it, a starred match exactly when all differences are excused, and the paths listed are exactly those places |
| TraceCompare.ReportChildren | xtask/src/trace_diff.rs:979-1017 | fields by tag, other children by position |
| TraceCompare.ReportPair | xtask/src/trace_diff.rs:1046-1150 | what is found between two nodes, appended to the lists, as VerdictIs lists it |
| TraceCompare.ReportOneSided | xtask/src/trace_diff.rs:1027-1043 | a field on one side only is explained or a difference |
| TraceFirsts.MatchMeans | xtask/src/trace_diff.rs:979-1150 | for all payloads and under any rules: a match means the two are the same up to the order of struct fields once only the first field of each tag is kept at every depth, and every repeat of ours is the same as our first |
| TraceFirsts.MatchIff | xtask/src/trace_diff.rs:979-1150 | without repeated struct tags, two payloads match under any rules exactly when they are equal up to the order of struct fields at every depth |
| TraceFirsts.SameIsSymmetric | xtask/src/trace_diff.rs:979-1017 | sameness of trees without repeated tags is symmetric |
| TraceFirsts.SameIsTransitive | xtask/src/trace_diff.rs:979-1017 | and transitive |
| TraceFirsts.RepeatedTagMatches | xtask/src/trace_diff.rs:990-999 | with a repeated tag a match does not mean equality |
| TraceAlign.Align | xtask/src/trace_diff.rs:290-314 | the alignment keeps both dialogues whole and in order, pairs equal keys only, pairs each of ours with the first of theirs ahead that has its key, and leaves one of ours alone only when none of theirs ahead has it |

## Left out

- BLE scanning, GATT, and the pump and teardown around the send loop: input and output over libraries that are not part of this model.
- The byte level of TLV: certificates and traces are streams of reader events; a stream that cannot be decoded is an event of its own.
- ECDSA, SHA-1, key files and the encoder of object identifiers: foreign code; identifiers are given by their content bytes, which are proved to be those of the dotted identifiers.
- Links that lose, repeat or reorder packets: the transport runs over reliable GATT, so channels are FIFO.
- SDUs above 2048 bytes in whole runs: the receiver refuses them, as `BtpSegments.OversizeSduIsRefused` states.
- Sizes above a machine word: lengths in the DER encoders are reduced modulo 2^64, and the properties that need it say so.
- UTF-8 validity and floating-point equality: strings are bytes, and floats are compared by their bits, so NaN and signed zero compare differently than in the trace comparer.
- The text of error messages and of the trace comparer's findings: errors keep their kind and data, findings keep their paths.
- The rule tables, hex loading and printing of the trace comparer, and its alignment keys: the rules and the key are arbitrary functions.
- Dispatch on the BDX message type, generated data types, advertisements and error conversions: they would only add one-branch members.
