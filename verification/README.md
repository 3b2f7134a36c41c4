# CONNEX coordination pipeline: a Dafny model

CONNEX takes an ISO 8583 card message, enriches it by rules, assembles an ISO 20022
(pacs.008) document, chains the hashes of both into an append-only ledger, has the new chain
hash signed by independent witnesses, and lets anyone check the resulting bundle offline.
This project models that path from the raw bytes to the auditor's verdict and proves what
each part keeps and how the parts fit together.

`dafny verify dfyconfig.toml` checks everything. One module per component:

| modules | component |
|---|---|
| `Bytes`, `Text`, `Amount`, `AmountLaws` | hex, decimal text, trimming, amounts in cents and what their digits denote |
| `FieldTable`, `Bitmap`, `Iso8583`, `ParserLaws`, `AsciiCodec`, `BcdCodec` | the ISO 8583 parser, its laws, and the encoder the repository does not have |
| `Enrichment`, `ConditionLaws`, `RuleMeaning`, `ShippedRules`, `ShippedForms` | the rules engine, its tests one by one, its declarative meaning, the 27 shipped rules and their closed forms |
| `Sanitize`, `Xml`, `Assembler`, `Acceptance` | escaping, what a decoder can read, defaults, native validation, the exact acceptance condition |
| `Ledger`, `Storage` | the hash chain and the table that holds it |
| `Witness`, `Collect`, `Verifier`, `Verdicts`, `Agreement` | signing, the collection protocol, the auditor, what its verdicts mean, and their agreement |
| `Gateway`, `Pipeline`, `Refinement`, `Faults`, `EndToEnd` | concurrent handlers as a step machine, the work before the lock, refinement to atomic appends, which answers are deserved, the whole path |

## How to read it

Code that the source writes as loops and updates is a method here (`Bitmap.ListBits`,
`Iso8583.Parse`, `Enrichment.Enrich`, `Assembler.AssembleData`, `Storage.DB`,
`Collect.ReceiveLoop`, `Verifier.VerifyBundle`, ...), each proved against a specification
function; the laws are then proved about those functions. The two concurrent parts, the
handlers under the gateway's mutex and the senders and receiver of `collectSignatures`, are
step machines, and their theorems quantify over every schedule of moves.

A byte is a character below 256, so that Go's `string` and `[]byte` are one thing. Amounts
are integer cents. A Go panic is an outcome (`Panicked`, `Aborted`), not a precondition.
SHA-256 (section 6.2 of FIPS 180-4), Ed25519 (section 5.1 of RFC 8032) and base64 are
parameters of type `Suite`; the only laws ever assumed of them are that a signature made with
a key pair verifies and that either base64 decoder, Go's strict one and Python's lenient one,
returns what was encoded (`Witness.Lawful`). No hash is
assumed injective: `Ledger.HeadCommitment` hands back the colliding strings instead. The
template's text and Go's date parser are parameters too (`Pipeline.Outside`).

## Where the code and its documentation differ

The model follows the code.

- `cmd/gateway/main.go:5-6` says the database write happens in the background; lines 254-272
  insert synchronously, under the lock, before the answer.
- `internal/iso8583/parser.go:35` says unlisted fields are read as LLLVAR; lines 203-206
  reject the message.
- `internal/iso8583/parser.go:157` allows BCD messages from 10 bytes; line 146 has already
  required 12 in both modes.
- In ASCII mode the declared maximum of an LLLVAR field is never consulted
  (`internal/iso8583/parser.go:324-339`), so F54 is bounded by 999, not 120.
- `strconv.Atoi` accepts a sign, so an ASCII length prefix such as `-1` makes a slice with
  invalid bounds (`internal/iso8583/parser.go:310-321`, `330-338`) and the parser panics.
  `ParserLaws.PanicIffNegativePrefix` proves this is its only panic.
- In BCD mode F2 is read only when its length byte is 2 (`internal/iso8583/parser.go:210-216`),
  F11 may not touch the last two bytes (219-223), and F18 is overwritten (344-349). So the
  packed round trip is false in general; `BcdCodec.BcdRoundTrip` gives the exact condition and
  `BcdCodec.LongPanDoesNotSurvive` the family of account numbers that always fails.
- `README.md:77` speaks of 30+ rules; `internal/enrichment/rules.yaml` has 27.
- The verifier prints `n/3 witnesses verified` (`verify/verify.py:153-158`) but counts
  entries: one honest entry listed twice is a quorum (`Agreement.RepeatedEntryCountsTwice`).
  `Agreement.CountIsKeysIffUnshared` and `Agreement.ValidIsTwoKeysIffMixed` say exactly when
  the count is one of keys and when Valid means two of them.
- `internal/iso20022/assembler.go:137` calls the sanitising strict, but control characters and
  bytes that are not UTF-8 pass through it; the document is then refused with 422
  (`Pipeline.ControlsAreRefused`). An inner carriage return is read back as a line feed.
- A negative F4 prints as text like `0.-7`; the validator's search for a minus sign still
  rejects exactly the negative amounts (`Amount.MinusIffNegative`).

## Model

| member | source | states |
|---|---|---|
| Bytes.HexRoundTrip | cmd/gateway/main.go:125-137 | what is printed as hex is read back exactly, both by Go's decoder and by the auditor's `bytes.fromhex` |
| Bytes.NibbleDigits | cmd/gateway/main.go:131-133 | a hex digit of either case stands for its place in the digit list, and nothing else is one |
| Amount.ReadingsAgree | internal/enrichment/engine.go:265-277 | for every text of F4, empty, unparseable or overflowing, the printed amount denotes the integer the rules compare |
| Amount.RenderReadsBack | internal/enrichment/engine.go:274-276 | a non-negative amount prints with exactly two fraction digits and reads back as the same number of cents |
| Amount.MinusIffNegative | internal/iso20022/assembler.go:260-262 | the minus sign the validator looks for is printed exactly for negative amounts |
| AmountLaws.DigitsDenoteThemselves | internal/iso8583/parser.go:91-101 | digits, behind any run of blanks and zeros, denote their number of cents for the rules and in the document while below 2^63, and zero beyond |
| AmountLaws.AmountFieldDenotes | internal/enrichment/engine.go:264-277 | up to eighteen digits always fit: the document's amount reads back as exactly the field's number |
| AmountLaws.SignedDigits | internal/iso8583/parser.go:96-99 | a sign and digits denote the signed number, while it fits 64 bits |
| AmountLaws.OtherTextIsZero | internal/enrichment/engine.go:266-273 | blank, zeros only, or anything else behind the padding denotes zero and prints 0.00 |
| AmountLaws.NegativePrints | internal/enrichment/engine.go:274-276 | a negative amount prints a minus before each non-zero part, such as 0.-7 |
| FieldTable.Def | internal/iso8583/parser.go:36-79 | the field table: numbers lie between 1 and 128, lengths between 1 and 999, LLVAR maxima fit two digits, fixed lengths reach at most 42 |
| FieldTable.KnownFields | internal/iso8583/parser.go:36-79 | exactly these 42 fields are known |
| FieldTable.FixedFields | internal/iso8583/parser.go:36-79 | which fields have each fixed length |
| FieldTable.VariableFields | internal/iso8583/parser.go:36-79 | which fields have each variable kind and maximum |
| Bitmap.ListBits | internal/iso8583/parser.go:116-127 | the nested loops return the announced fields in increasing order |
| Bitmap.WeightsHalve | internal/iso8583/parser.go:119-121 | the bits of a byte weigh 128 down to 1, halving |
| Bitmap.AscendingSpec | internal/iso8583/parser.go:116-127 | that list is strictly increasing and holds exactly the set's members in range |
| Bitmap.BitsOfEncoded | internal/iso8583/parser.go:116-127 | listing an encoded set of any byte length gives the set back, and bit k stands for field offset+1+k |
| Bitmap.EncodeOfBits | internal/iso8583/parser.go:116-127 | any byte string is rebuilt from the fields it announces |
| Bitmap.PrimaryThenSecondary | internal/iso8583/parser.go:177-190 | primary and secondary lists concatenate to one strictly increasing list |
| Bitmap.HasSecondaryIffField1 | internal/iso8583/parser.go:180 | the big-endian test agrees with field 1 being in the list, and with bit 0 |
| Iso8583.SecondaryIndicated | internal/iso8583/parser.go:180 | the test as executed, against membership of field 1 |
| Iso8583.DecodeBcdText | internal/iso8583/parser.go:131-141 | the builder loop yields the first `digits` hex digits of the bytes |
| ParserLaws.BcdReadLength | internal/iso8583/parser.go:208-291 | a value read in BCD mode, F11 with its adjusted digits included, never exceeds its table length |
| Iso8583.ReadAsciiField | internal/iso8583/parser.go:293-341 | the three ASCII kinds with every error, and a crash where the slice bounds are invalid |
| Iso8583.ParseHeader | internal/iso8583/parser.go:145-190 | mode, MTI, bitmaps and their errors; the cursor lies inside the message |
| Iso8583.ScanFields | internal/iso8583/parser.go:198-342 | cursor safety: a completed scan ends between its start and the end of input, and BCD mode never panics |
| Iso8583.Parse | internal/iso8583/parser.go:145-352 | the whole cursor machine; its invariants keep header <= pos <= length and every slice in range |
| ParserLaws.HeaderRejectedIff | internal/iso8583/parser.go:145-190 | which headers are rejected, in terms of length, first byte, digits and the bitmap's high bit |
| ParserLaws.ModeAndMti | internal/iso8583/parser.go:150-174 | a printable first byte means four digits as they stand; any other, the hex text of two bytes |
| ParserLaws.ReadVarAscii | internal/iso8583/parser.go:304-340 | a length prefix is digits after an optional sign; the four errors, the invalid slice, and otherwise exactly that many bytes |
| ParserLaws.ReadFixedAscii | internal/iso8583/parser.go:296-302 | a fixed field is its bytes, or an error when they are not all there |
| ParserLaws.ParsedShape | internal/iso8583/parser.go:192-351 | on success the keys are exactly the set bits other than 1 (plus 18 in BCD mode), and every length is one its table entry allows |
| ParserLaws.ScanKeys | internal/iso8583/parser.go:198-342 | a completed scan gives a value to exactly the listed fields and disturbs no other |
| ParserLaws.ScanLengths | internal/iso8583/parser.go:230-340 | fixed fields exact in ASCII, LLVAR and all BCD fields within the table, ASCII LLLVAR within 999 |
| ParserLaws.HeaderIncreasing | internal/iso8583/parser.go:176-190 | the present list of any accepted header is strictly increasing |
| ParserLaws.PanicIffNegativePrefix | internal/iso8583/parser.go:304-339 | the parser panics if and only if, in ASCII mode, the scan reaches a length prefix read as negative |
| ParserLaws.MinusOnePanics | internal/iso8583/parser.go:304-322 | it does panic: on MTI 0200, a bitmap of F2 alone and the length prefix -1 |
| ParserLaws.BcdFieldsAreHex | internal/iso8583/parser.go:131-141 | every field of a message parsed in BCD mode is text of hexadecimal digits |
| ParserLaws.TrailingBytesIgnored | internal/iso8583/parser.go:293-341 | bytes behind an accepted ASCII message change nothing |
| AsciiCodec.ReadEncodedField | internal/iso8583/parser.go:293-341 | one encoded field, wherever it stands, is read back and the cursor lands right behind it |
| AsciiCodec.AsciiRoundTrip | internal/iso8583/parser.go:145-341 | for every carriable message and any trailing bytes, parsing its encoding returns exactly the message and stops at the encoding's end |
| AsciiCodec.EncodeInjective | internal/iso8583/parser.go:145-341 | two different messages never share an encoding |
| AsciiCodec.ReencodeFields | internal/iso8583/parser.go:293-341 | the cursor moves by exactly prefixes plus data; those bytes are the re-encoding if and only if every prefix is plain digits |
| AsciiCodec.AsciiConservation | internal/iso8583/parser.go:176-341 | every accepted ASCII input yields an encodable message and a final cursor equal to header plus fields |
| AsciiCodec.AsciiConverse | internal/iso8583/parser.go:176-341 | re-encoding gives the consumed bytes if and only if prefixes are plain and bit 1 is set only when a field above 64 is present |
| AsciiCodec.CanonicalIffEncoding | internal/iso8583/parser.go:145-341 | the exact language: canonical accepted inputs are precisely encodings of messages followed by anything |
| BcdCodec.PackRoundTrip | internal/iso8583/parser.go:131-141 | unpacking packed digits gives them back for any number of digits, odd or even |
| BcdCodec.BcdRoundTrip | internal/iso8583/parser.go:208-349 | a packed message comes back with all its fields and only the F18 override, if and only if its F2 is two digits (or is empty and no byte 2 follows) and at least two bytes stand behind its F11 |
| BcdCodec.BcdIdentity | internal/iso8583/parser.go:344-349 | with the F18 its trailer spells, it comes back unchanged, under the same condition |
| BcdCodec.LongPanDoesNotSurvive | internal/iso8583/parser.go:210-216 | no message with more than two digits in F2 survives this mode |
| BcdCodec.MerchantTypeIsLastBytes | internal/iso8583/parser.go:344-349 | F18 of every accepted BCD message is the hex text of its last two bytes |
| BcdCodec.MerchantTypeIsLastDigits | internal/iso8583/parser.go:344-349 | when the last field written has an even number of digits, four or more, its last four come back as F18 |
| BcdCodec.ReadFixedPacked | internal/iso8583/parser.go:230-248 | a fixed field reads its bytes, or those that are left, as that many digits |
| BcdCodec.ReadF11Packed | internal/iso8583/parser.go:218-248 | F11 reads at most three bytes and stops short of the last two |
| BcdCodec.ReadVarPacked | internal/iso8583/parser.go:250-267 | one packed length byte; too long is an error, cut short reads what is left |
| BcdCodec.ReadLongVarPacked | internal/iso8583/parser.go:269-290 | the same with two packed length bytes, which must be there |
| BcdCodec.ReadShortF11 | internal/iso8583/parser.go:219-247 | F11 with fewer than two bytes behind it comes back short |
| BcdCodec.ReadOddF2 | internal/iso8583/parser.go:210-216 | F2 whose length is not two comes back empty and leaves its bytes to the next field |
| BcdCodec.ReadPhantomF2 | internal/iso8583/parser.go:210-216 | an omitted F2 in front of a byte 2 swallows it |
| Enrichment.MatchesRule | internal/enrichment/engine.go:109-156 | the guard sequence, loop included, against its specification |
| ConditionLaws.WithoutTests | internal/enrichment/engine.go:109-112 | a condition without tests, or marked always, holds of everything |
| ConditionLaws.MinimumTest | internal/enrichment/engine.go:113-115 | adding a minimum keeps exactly the amounts that reach it, the bound included |
| ConditionLaws.MaximumTest | internal/enrichment/engine.go:116-118 | adding a maximum keeps exactly the amounts up to it, the bound included |
| ConditionLaws.CurrencyTest | internal/enrichment/engine.go:119-121 | adding a currency keeps exactly that currency |
| ConditionLaws.OtherCurrencyTest | internal/enrichment/engine.go:122-124 | adding an excluded currency keeps exactly the others |
| ConditionLaws.ProcessingTest | internal/enrichment/engine.go:125-130 | adding a processing code or a prefix keeps exactly what equals it or starts so |
| ConditionLaws.MerchantTest | internal/enrichment/engine.go:131-145 | adding a merchant type or a list keeps exactly those |
| ConditionLaws.CrossTest | internal/enrichment/engine.go:146-148 | adding the cross-institutional test keeps exactly such inputs |
| ConditionLaws.AcquirerTest | internal/enrichment/engine.go:149-151 | adding an acquirer prefix keeps exactly acquirers that start so |
| ConditionLaws.PurposeTest | internal/enrichment/engine.go:152-154 | adding the guard keeps exactly partial results without a purpose |
| ConditionLaws.EntryRecords | internal/enrichment/engine.go:170-186 | what the log entry of a rule records, with the precedence of source and confidence |
| Enrichment.Enrich | internal/enrichment/engine.go:162-242 | the loop over rules and the defaults, against its specification |
| RuleMeaning.StepSlot | internal/enrichment/engine.go:166-220 | one iteration changes the value, instrument and log entry of the rule's own field only, and only while that field is empty |
| RuleMeaning.PurposeTracked | internal/enrichment/engine.go:152-153 | the partial result's purpose code is set exactly when an earlier eligible purpose rule speaks, guarded or not |
| RuleMeaning.RunMeans | internal/enrichment/engine.go:162-221 | after any number of rules every field has its declarative meaning |
| RuleMeaning.EnrichedMeans | internal/enrichment/engine.go:162-242 | for every rule list and input, each field and log entry comes from the first applicable rule with a value, else its default, else the last applicable silent rule |
| RuleMeaning.MeaningIsUnique | internal/enrichment/engine.go:162-242 | that meaning determines the field and its log entry |
| RuleMeaning.WithoutRules | internal/enrichment/engine.go:223-241 | without rules the result is the four defaults with their log entries |
| RuleMeaning.LogExplainsResult | internal/enrichment/engine.go:165-239 | for every rule list and input, the log has entries for the six fields only, each equal to what the result ended up with, and for every field that is not empty |
| RuleMeaning.RunByColumn | internal/enrichment/engine.go:165-221 | with guards only on purpose rules, a field depends only on its own rules |
| RuleMeaning.ResultFromSlots | internal/enrichment/engine.go:48-57 | six slots and a log over the six names determine a result |
| RuleMeaning.ColumnsDetermineResult | internal/enrichment/engine.go:165-242 | any two rule lists with the same rules per field, in the same order per field and guards aside, give equal results and logs |
| RuleMeaning.ErasingGuards | internal/enrichment/engine.go:152-153 | erasing the guards changes neither result nor log |
| RuleMeaning.SwappingNeighbours | internal/enrichment/engine.go:165-221 | neighbouring rules for different fields may change places |
| ShippedRules.GuardElsewhereMatters | internal/enrichment/engine.go:152-153 | a concrete list with the guard on another field where erasing it changes the result |
| ShippedRules.ShippedGuards | internal/enrichment/rules.yaml:8-278 | the shipped rules carry the guard on purpose rules only, so the transformations above apply |
| ShippedRules.ProperShipped | internal/enrichment/rules.yaml:8-278 | every shipped rule has a non-empty value from its field's code list |
| ShippedRules.ShippedFromRule | internal/enrichment/engine.go:232-239 | purpose, rail, charge bearer and service level always come from a shipped rule; the last two fallbacks are never reached |
| ShippedRules.ShippedCurrency | internal/enrichment/engine.go:228-231 | the result's currency is always the built-in table's reading of the input |
| ShippedRules.ShippedRegulatory | internal/enrichment/engine.go:224-227 | the reporting code is always one of the shipped rules' codes, the default included |
| ShippedRules.CurrencyRulesAgreeWithTable | internal/enrichment/rules.yaml:183-217 | the four currency rules repeat the table |
| ShippedForms.RailForm | internal/enrichment/rules.yaml:139-176 | the shipped method and instrument, and the rule credited, as a function of amount, institutions and acquirer |
| ShippedForms.RegulatoryForm | internal/enrichment/rules.yaml:12-76 | the shipped reporting code, and the rule or default credited, as a function of the input |
| ShippedForms.PurposeForm | internal/enrichment/rules.yaml:82-133 | the shipped purpose, and the rule or deferral credited, as a function of the input |
| ShippedForms.ChargeForm | internal/enrichment/rules.yaml:221-264 | the shipped charge bearer and service level, and the rules credited, as a function of the input |
| ShippedForms.CurrencyForm | internal/enrichment/engine.go:251-262 | the shipped currency is the letters of twelve listed codes or the text as it came, with the rule or default credited |
| Sanitize.SanitizeIsEscape | internal/iso20022/assembler.go:310-319 | five sequential passes equal one per-character escape of the trimmed text |
| Text.TrimSpaceSplits | internal/iso20022/assembler.go:312 | trimming removes a run of white space in front and one behind, and what is left has none at either end |
| Text.SpaceRunesAreSpaceCodes | internal/iso20022/assembler.go:312 | the runes removed are exactly the UTF-8 encodings of the white-space code points |
| Sanitize.UnescapeEscape | internal/iso20022/assembler.go:310-319 | unescaping the five predefined entities (section 4.6 of XML 1.0) inverts the escape |
| Sanitize.ReaderSeesTrimmed | internal/iso20022/assembler.go:310-319 | a reader of the document sees the trimmed original; it is empty exactly when that is |
| Sanitize.SanitizedIsSafe | internal/iso20022/assembler.go:310-319 | no markup character, and every ampersand opens a predefined entity |
| Assembler.AssembleData | internal/iso20022/assembler.go:134-180 | fill then overwrite gives the stated field values |
| Assembler.CheckCurrency | internal/iso20022/assembler.go:246-254 | no complaint exactly for three letters A to Z, else the right one of two |
| Assembler.CheckPurpose | internal/iso20022/assembler.go:264-276 | no complaint exactly for empty or four alphanumerics, else the right one of two |
| Xml.LegalLineEnds | internal/iso20022/assembler.go:209-228 | text is legal XML (sections 2.2 and 2.11 of XML 1.0) after its line ends are normalised exactly when it was before |
| Xml.XmlCharsAreXmlCodes | internal/iso20022/assembler.go:209-228 | the legal characters are exactly the UTF-8 encodings of the code points section 2.2 of XML 1.0 allows |
| Xml.ReturnsAreFeeds | internal/iso20022/assembler.go:224-228 | a line ended by a carriage return, alone or before a line feed, is read as ended by a line feed |
| Assembler.ValidateNative | internal/iso20022/assembler.go:224-296 | accepts exactly the documents that can be decoded and pass the checks, and otherwise reports the first failure, the decoding error included |
| Assembler.EachCheck | internal/iso20022/assembler.go:233-293 | each check on its own: the texts that may stand in an otherwise acceptable document |
| Assembler.PurposeCheck | internal/iso20022/assembler.go:264-276 | a purpose code may be absent or four letters and digits |
| Acceptance.AcceptedIffSendable | internal/iso20022/assembler.go:189-197 | for every message, with the shipped rules: read and accepted if and only if the trimmed currency is three letters, F4 is not negative, and the trimmed texts of 11, 32, 33, 37, 103 and 102 (or 2 when 102 is blank) are legal XML |
| Acceptance.AcceptedIsSendable | internal/iso20022/assembler.go:189-197 | whatever the identifier and the dates, nothing else is accepted |
| Acceptance.GraphicIsPrintable | internal/iso20022/assembler.go:143-156 | a message of graphic ASCII fields always meets the character condition |
| Acceptance.CoveredField | internal/enrichment/rules.yaml:8-278 | fields the rules always fill reach the reader as the rule's word |
| Acceptance.AmountField | internal/iso20022/assembler.go:256-262 | the amount check sees the printed cents, never empty, with a minus exactly when negative |
| Acceptance.DebtorField | internal/iso20022/assembler.go:172-177 | the reader sees field 102, or field 2 when that is blank, or UNKNOWN; it can be read exactly when that text is legal |
| Acceptance.ReaderSees | internal/iso20022/assembler.go:138-180 | when the document can be read, each element is the trimmed message text with line ends normalised, or the stated substitute |
| Acceptance.ReaderSeesDates | internal/iso20022/assembler.go:141-142 | the creation and settlement dates are read as written |
| Acceptance.ReaderSeesCodes | internal/iso20022/assembler.go:145-152 | the coded fields, the instrument and the reporting code reach the reader unchanged, the currency as the table reads it, trimmed |
| Acceptance.SettlementOfMessage | cmd/gateway/main.go:175-183 | the method, instrument, bearer and level a reader sees, from the message's amount, currency and institutions |
| Acceptance.CodesOfMessage | cmd/gateway/main.go:175-183 | the purpose and reporting code a reader sees, from the message's fields 3, 4, 18, 32, 33 and 49 |
| Acceptance.BundleIdsClash | cmd/gateway/main.go:198 | two identifiers clash only if both stamps and random parts do |
| Acceptance.TableCodesAreSendable | internal/enrichment/engine.go:251-262 | every numeric code the table translates is sendable |
| Ledger.GenesisIsZeros | internal/storage/db.go:83-85 | the genesis hash is 64 zeros, the text of the zero digest |
| Ledger.HeadIsHex | internal/storage/db.go:78-90 | the head of a valid chain is always the text of a digest |
| Ledger.AppendKeepsChain | cmd/gateway/main.go:214-267 | appending a row linked to the head keeps the chain valid |
| Ledger.PreimageParts | cmd/gateway/main.go:130-137 | the 96 hashed bytes determine original, enriched and previous hash |
| Ledger.CommitLast | cmd/gateway/main.go:130-137 | equal heads agree on the last rows and the heads before them, or the last rows are a collision |
| Ledger.HeadCommitment | cmd/gateway/main.go:130-137 | ledgers of any lengths with equal heads agree on every hash of every row, or two colliding 96-byte strings or a preimage of zero are returned, both taken from the ledgers |
| Storage.DB.Insert | internal/storage/db.go:53-74 | appends, or on a known id or a fault leaves the table alone |
| Storage.DB.LatestChainHash | internal/storage/db.go:78-90 | the last row's chain hash, or the genesis hash |
| Storage.DB.Count | internal/storage/db.go:93-97 | the number of rows |
| Storage.InsertKeepsIdsUnique | internal/storage/schema.sql:6-18 | identifiers stay unique |
| Collect.ReceiveLoop | cmd/gateway/main.go:105-120 | the loop gathers the successful results up to the deadline, in order, at most n |
| Collect.InvAlways | cmd/gateway/main.go:87-121 | over every schedule, replies received or buffered are exactly those sent, once each |
| Collect.SendersNeverBlock | cmd/gateway/main.go:92-103 | the channel never exceeds its capacity and a sender always finds room, also after an early return |
| Collect.AtMostOneEach | cmd/gateway/main.go:107-118 | at most n receives and at most one entry per witness |
| Collect.CompleteMeansAll | cmd/gateway/main.go:107-120 | a return without the deadline yields exactly the successful replies of all witnesses |
| Collect.CompleteGathers | cmd/gateway/main.go:107-120 | entry by entry: every successful reply's entry and nothing else, one for each witness that succeeded |
| Witness.HandleSign | cmd/witness/main.go:106-151 | when it refuses, with which error, and the exact entry it signs otherwise |
| Witness.RequestSignature | cmd/gateway/main.go:57-83 | gateway and witness composed: an entry over this digest exactly when reachable and the tokens agree |
| Witness.EntryVerifies | cmd/witness/main.go:135-150 | an honest entry verifies under the witness's key |
| Verifier.FindKey | verify/verify.py:46-58 | the first key file of 32 bytes with the fingerprint, or none when there is none |
| Verifier.FindPublicKey | verify/verify.py:46-58 | the directory scan with early return, against it |
| Verifier.CheckPayloads | verify/verify.py:61-110 | passes exactly when each supplied file has its recorded hash, the message as it stands or as the base64 it may be |
| Verifier.CountSignatures | verify/verify.py:129-151 | raises exactly on an entry that is not base64, or whose key is found and whose signature is not 64 bytes, else counts the valid ones |
| Verifier.VerifyBundle | verify/verify.py:72-159 | the verdict, with early returns and exceptions, against its specification |
| Verdicts.VerdictMeans | verify/verify.py:72-159 | Valid if and only if the supplied files hash as recorded, the chain hash is the digest of the three, no entry raises, and at two places a signature verifies, by the directory's key of that fingerprint, over that digest and time stamp; Raised exactly when it raises |
| Verdicts.CountIsVerified | verify/verify.py:129-151 | the count is the number of places whose signature verifies |
| Verdicts.UnverifiedIsNotValid | verify/verify.py:145-159 | signatures that do not verify never make a bundle Valid |
| Agreement.SameDigest | verify/verify.py:31-43 | the verifier recomputes exactly the digest the gateway had signed |
| Agreement.CollectedAreHonest | cmd/gateway/main.go:87-121 | over every schedule, the entries gathered from honest replies come from different witnesses |
| Agreement.ReturnedAreHonest | cmd/gateway/main.go:225 | the same for whatever a call of `collectSignatures` may return |
| Agreement.VerifierAgrees | verify/verify.py:112-159 | it counts exactly the collected signatures, answers Valid if and only if the gateway wrote QUORUM_MET, and then two different witnesses signed |
| Agreement.CountIsKeysIffUnshared | verify/verify.py:129-159 | for entries of any origin: the count is the number of different keys that signed if and only if no two valid entries share a fingerprint, and never less |
| Verdicts.KeysAreSigners | verify/verify.py:137-151 | the keys compared with the count are exactly those whose signature on some entry verifies |
| Agreement.ValidIsTwoKeysIffMixed | verify/verify.py:153-159 | for bundles of any origin: a Valid verdict means two different keys signed if and only if two valid entries carry different fingerprints; pairwise different fingerprints suffice |
| Agreement.RepeatedEntryCountsTwice | verify/verify.py:129-159 | one honest entry listed twice is answered Valid, with one key behind it |
| Gateway.StepMutex | cmd/gateway/main.go:210-212 | the mutex is held by exactly the one handler between lock and exit |
| Gateway.StepLedger | cmd/gateway/main.go:214-272 | every step extends the ledger by nothing or a well-linked row with a fresh id, and only the lock holder extends it |
| Gateway.StepFrame | cmd/gateway/main.go:148-285 | a step touches one handler; what a handler was asked is recorded on arrival and never changes |
| Gateway.InvStep | cmd/gateway/main.go:148-285 | every step of every handler, error exits included, keeps the whole invariant |
| Gateway.RunIsSafe | cmd/gateway/main.go:206-277 | over every interleaving of any number of handlers the invariant holds and the ledger only grows |
| Pipeline.PrepareRequest | cmd/gateway/main.go:166-208 | parse, enrich, assemble, check that the document can be read, validate and hash, as one preparation with its error codes |
| Pipeline.PipelineIsSound | cmd/gateway/main.go:206-208 | what reaches the lock carries two digest texts |
| Pipeline.ReadyIffAdmissible | cmd/gateway/main.go:166-208 | a request reaches the lock exactly when its message parses, is sendable and is printable |
| Pipeline.ReadyIsAdmissible | cmd/gateway/main.go:166-208 | whatever the stamps, no other request reaches it |
| Pipeline.PreparationCodes | cmd/gateway/main.go:166-204 | 400 exactly for a rejected message, a panic exactly for a negative length prefix reached in ASCII mode, 422 exactly for one parsed but not admissible |
| Pipeline.BcdIsPrintable | cmd/gateway/main.go:166-208 | for a message in BCD mode only amount and currency matter |
| Pipeline.ControlsAreRefused | internal/iso20022/assembler.go:189-197 | an ASCII message whose F37 is twelve bytes 1 parses, is sendable, and is answered 422 |
| Refinement.StepRefines | cmd/gateway/main.go:148-285 | every step is, in the sequential specification, an arrival, one atomic append of the request's own bundle, one failure for a reason that holds of the request, or invisible |
| Refinement.RunRefines | cmd/gateway/main.go:148-285 | every interleaving, error exits included, is a run of the sequential specification |
| Refinement.SpecKeepsAccount | cmd/gateway/main.go:148-285 | the specification keeps its account: every new row is somebody's 200 answer and conversely, no bundle is answered twice, as many new rows as 200 answers, every failure warranted |
| Refinement.RunKeepsAccount | cmd/gateway/main.go:148-285 | by refinement every interleaving keeps that account |
| Refinement.ReachableLedger | cmd/gateway/main.go:211-272 | from any opened ledger with a valid chain and unique ids, in every reachable state: genesis first, each row linked to the one before, each chain hash the hash of 96 bytes, unique ids, the opened ledger a prefix |
| Refinement.AnsweredExactlyOnce | cmd/gateway/main.go:256-277 | the bundle of every 200 answer is the handler's own request's and sits at exactly one index, among the rows added since opening |
| Refinement.RowsAreAnswers | cmd/gateway/main.go:256-277 | conversely every added row is the 200 answer of exactly one handler, and the two are equal in number |
| Refinement.FailuresExplained | cmd/gateway/main.go:148-272 | any other answer has a reason that holds: the request's own preparation refused it with that code or panicked, its identifier is in the ledger, or a named fault |
| Faults.FaultsHappened | cmd/gateway/main.go:148-272 | in every interleaving, a fault that an answer names has struck that very handler |
| Faults.SparedIsDeserved | cmd/gateway/main.go:148-277 | a handler that no fault struck, whatever befell the others, is answered with its own bundle, its own refusal or panic, or a taken identifier |
| Faults.FaultCodes | cmd/gateway/main.go:149-270 | the status code of each fault |
| Refinement.HolderIsUndisturbed | cmd/gateway/main.go:211-212 | while a handler holds the lock nobody else changes ledger, mutex or holder |
| Refinement.HolderAdvances | cmd/gateway/main.go:211-285 | every move of the holder brings it nearer to the release |
| Refinement.LockIsReleased | cmd/gateway/main.go:211-212 | from every reachable state at most seven enabled moves of the holder free the lock |
| Refinement.Coordinate | cmd/gateway/main.go:214-277 | the locked section on a real store: 200 exactly without fault and with a fresh id, one row appended, else 500 for the stated reason and an unchanged table |
| EndToEnd.FaultlessRun | cmd/gateway/main.go:211-277 | a handler left alone with a fresh id appends its row and answers 200 |
| EndToEnd.AdmissibleIsServed | cmd/gateway/main.go:148-277 | every admissible message can be served: with the lock free and a fresh id, from arrival to a 200 answer and an appended row linked to the head |
| EndToEnd.StatusByMessage | cmd/gateway/main.go:148-277 | over every interleaving, a handler no fault struck answers 400, nothing, 422, or 200 (500 for a taken id) exactly as its message is rejected, panicked on, not admissible, or admissible |
| EndToEnd.AnswerIsAboutTheRequest | cmd/gateway/main.go:206-208 | the bundle answered to a handler carries the hashes of the message that handler was sent and of the document made from it, and that message was admissible |
| EndToEnd.AuditorAgrees | verify/verify.py:72-159 | in every reachable ledger of a gateway with honest witnesses, every row added since opening answers one handler and stands for its message, and an auditor holding message, document and keys gets the recorded quorum status; a quorum has two different signers |

## Left out

- HTTP, JSON, flags, logging and request size limits: plumbing around the modelled steps; a failure there is the step `GiveUp` with the fault's name.
- SQLite, WAL, connection pooling and several gateways on one database: the table is a sequence with unique ids and insert faults; the mutex covers one process.
- The update and delete triggers (`internal/storage/schema.sql:20-31`): the store has no operation that updates or deletes.
- The internals of SHA-256, Ed25519 and base64, key generation and key files.
- The template's text beyond what is put into it, the rest of `encoding/xml`, and `xmllint`: a document is its pieces of character data, each read by the five entities, normalised line ends and the legal characters.
- Floating point: amounts are cents; the shipped thresholds are whole shillings and F4 has at most twelve characters. Confidences are `real`.
- The clock, the 150 ms value and bundle timestamps: the deadline may come at any moment; identifiers and dates are inputs.
- `enrichment.Enrich`'s error result, `rand.Read` failures and marshalling of the log: the first cannot happen, the others are the steps `GiveUp` and `MarshalFault`.
- The wording of error messages: errors are told apart by kind.
- Text.TrimSpace: trims the UTF-8 encodings of white space; invalid UTF-8 is never white space.
- Pipeline.ReadyIffAdmissible: assumes that the stamps the handler makes itself are letters, digits, `-`, `:` and `.`, and that its own date parser accepts the creation date it prints.
- `ParseHex`, `handleHealth`, `handlePubkey`, `cmd/bench`, `scripts/` and the sandbox: only easy claims.
