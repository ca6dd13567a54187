# A verified model of the Swarm Pointer Protocol v1 core

The Swarm Pointer Protocol (SPP) lets agents publish small signed JSON assertions through relays. Whether an
assertion is valid is decided by one predicate (section 20 of the SPP v1 specification), which the repository
implements several times over; relays, miners and federation workers are built on top of it. This project models
that core in Dafny and proves what the parts promise to each other:

1. **Strict JSON and RFC 8785.** Python's one-pass phase machine and Go's tokenizer-plus-builder decide the same
   grammar. It accepts exactly the texts that spell a value by RFC 8259, as written down here without a reader, unless a
   name is repeated, a string holds a noncharacter, or a number overflows or is a negative zero. Both explicit-stack
   printers write the recursive RFC 8785 text, in which every character and number has its one canonical spelling;
   parsing and printing are inverse, so canonical text identifies a value up to member order.
2. **Validity and mining.** With one signature check the two fail-fast pipelines return the same verdict on every text,
   valid exactly when the conditions of section 20 hold; said again of octets, numbers and texts, exactly when the object
   writes one typed assertion that meets them. With its own signature check Go returns that verdict on every text, and
   Python differs exactly when it accepts a text whose key or R is one particular encoding. Mined assertions are valid;
   the agent's template miner agrees with the naive one.
3. **Relays and federation.** What the durable relay admits, refuses and stores, in terms of the assertion submitted;
   invariants over every run of it and over every history of a network of relays; cursor traversals among insertions;
   what a sync moves and counts, and when two or any number of relays converge; agreement of the durable and the
   in-memory relay; when a poll completes, and what the client then has learned and stored.
4. **SPP-Ed25519-1** over an abstract commutative group with its octet encoding of points: completeness of signing,
   equivalence of the exact and the cofactored equation, and which signatures each implementation accepts compared with
   section 8A.

## How to read it

| files | what they hold |
|---|---|
| `Values`, `Lists`, `Utf16`, `Sorting` | JSON values, stacks, the UTF-16 name order, sorted members, equality up to member order |
| `Decimals`, `Numbers`, `NumberFormats`, `NumberShape` | numerals, the JSON number grammar, the two number printers, the one canonical text of a number |
| `Lexing`, `Grammar`, `Machine`, `Scanners`, `PythonParser`, `GoParser`, `CleanText`, `Documents` | the grammar as a recursive definition, the stack machine between it and the programs, the two parsers |
| `Printing`, `Printers`, `RoundTrip` | the recursive printer, the two stack printers, parse after print |
| `TextGrammar`, `Texts`, `Utf8` | which texts spell which values, by RFC 8259 and without a reader; the shortest spelling; octets of a text |
| `Bytes`, `Protocol`, `GoVerify`, `Validation`, `Revalidation`, `Assertions` | section 20 condition by condition, both pipelines, whole texts, reordering, and section 20 said of a typed assertion |
| `Ed25519`, `Conformance`, `SignatureInputs`, `Verdicts`, `Mining`, `Template`, `TemplateMiner` | signatures, section 8A and the two verifiers, the two miners |
| `Relay`, `RelayRuns`, `Admission`, `Cursor`, `Pages`, `Federation`, `Fates`, `Convergence`, `Rounds`, `Spellings`, `SyncWorker`, `MemoryRelay`, `Polling`, `Objects` | the durable relay, what it admits, cursors, the federation worker and its counters, the in-memory relay, the polling client and what it stores |

Text is a sequence of Unicode scalar values; `Utf8` gives its octets and their number. Objects are sequences of members,
in source order; `SameValue` compares them as maps. What the programs take from libraries is a parameter:

- `Binary64` holds rounding to binary64 and shortest digits. `Faithful` says what is relied on: rounding lands on
  representable numbers, negation and zero are representable, shortest digits are well formed and round back, and those
  of an integer below 2^53 denote it.
- `Suite` adds SHA-256 of a text and the signature check. Nothing is assumed about SHA-256; where a result depends on
  two texts not colliding, that is a hypothesis about those texts (`Separates`, `NoClash`).
- `Curve` holds point addition, the square root that recovers x from y, and SHA-512. `GroupLaws` says that reduced curve
  points form a commutative group and that addition reads coordinates modulo P, `BaseOrder` that the base point has
  order L, `RootLaws` that the roots are those of curve points and that (0, -1) has order two. Encoding and decoding of
  points are modelled as the code does them.

Code that works by changing things step by step is imperative here too: both parsers and both printers are loops over
explicit stacks, the miners are nested loops over a buffer, the two stores, Go's parser and the server are classes.

## Where code and expectation differ

- `decode_point` tests `x == 0` after it has replaced x by P - x, so a zero root with the sign bit set gives x = P
  (`Ed25519.UnreducedIff`), where section 8A refuses the octets. Of the two encodings concerned, the one with y = -1 is
  refused later, as its point is not killed by L. The one with y = 1, the octets 1, 0, ..., 0, 128, is admitted as key
  and as R. `Conformance.KeyDiffers`, `NonceDiffers` and `BothDiffer` show inputs at which Python and section 8A differ;
  `Conformance.VerifyConformsIff` and `ConformsIff` say that they differ for no other encodings. Go reduces x before it
  compares the octets and decides section 8A exactly (`Conformance.GoConforms`). `Verdicts.ProgramsAgreeIff` carries this
  to whole texts, and `Verdicts.TextDiffers` shows a text on which they differ.
- `mine_and_sign` passes a `u` that carries `id` or `sig` through its schema check (`Mining.SchemaIgnoresSigned`), and
  with a negative start value it tries nonces with a sign. What it returns then is not valid (`Mining.SignedInputFails`,
  `Mining.NegativeNeverValid`). A signature whose nonce scalar is zero modulo L is refused (`Ed25519.SignVerifies`).
  `Mining.MinedValidIff` gives the exact condition.
- `sync` handles each id once. If a source serves two valid texts with one id, only the first is submitted, even when
  the destination would refuse it and accept the second (`Federation.SecondTextLost`; `Spellings.SpellingLost` gives two
  such texts, one with its version written 1 and one with 1.0). `Federation.SyncStores` says what
  the destination then holds, and `Federation.GainsAllIff` when it gains everything it would admit. Honest relays serve
  one text per id, and for them everything admissible arrives.
- `sync` counts a reply with status 200 whose body it cannot read as forwarded, also for a duplicate
  (`Federation.DuplicateForwarded`). `Federation.ForwardedRows` says for every link by how much `forwarded` differs from
  the rows gained, and `RepeatForwardsNothing` what an immediate repeat counts.
- `cmd_poll` hands every element of a page to `consider`, which asks a refused one for its `id`. An element that is not
  an object ends the program before the state is saved, so the ids learned from all relays are forgotten
  (`Polling.OneItemLosesAll`). `Polling.CompletesIff` says when a poll completes. The worker filters such elements.

## Model

| member | source | states |
|---|---|---|
| Utf16.BytesLessIsLess | implementations/python/jcs.py:171 | Python's bytewise order on big-endian UTF-16 is lexicographic order on UTF-16 code units, for all scalar-value strings |
| Utf16.CharDecides | implementations/go/jcs.go:133-168 | two different characters already differ at a shared unit, so the branch for equal units of unequal number is unreachable |
| Utf16.GoLess | implementations/go/jcs.go:149-168 | Go's decode-and-compare loop decides the reference order |
| Utf16.LessTotal | implementations/go/jcs.go:149-168 | the order is total and irreflexive |
| Utf16.LessTransitive | implementations/go/jcs.go:149-168 | the order is transitive |
| Utf16.UnitsMean | implementations/python/json_input.py:282-295 | the code units of a character are itself, or a high and a low surrogate that stand for it by the arithmetic the parsers use |
| Utf16.FirstDifference | implementations/go/jcs.go:133-168 | the order of unit sequences is decided by the first unit at which they differ, or at which the first one ends |
| Utf16.LessMeans | implementations/go/jcs.go:149-168 | so names are ordered by the first UTF-16 code unit in which they differ |
| Sorting.SortedArrangementUnique | implementations/python/jcs.py:171 | a list of distinct names has one sorted arrangement, so the sorting algorithm does not matter |
| Sorting.SortOrderIndependent | implementations/go/jcs.go:42-56 | two orders of the same distinct members sort to the same list |
| Sorting.CanonDecidesSame | implementations/python/jcs.py:125-180 | sorting every object is a normal form: equal normal forms if and only if equal as maps at every depth |
| Numbers.EsTokenDenotes | implementations/python/json_input.py:310-342 | the ECMAScript spelling of a decimal, read with the JSON number grammar, denotes exactly that decimal |
| Numbers.EsNumberReadsBack | implementations/python/json_input.py:310-342 | the canonical text of a number reads back as that number whatever follows it |
| NumberFormats.GoRewriteCorrect | implementations/go/jcs.go:184-219 | Go's rewriting of the e-form gives the ECMAScript text for every shortest decimal |
| NumberFormats.PyRewriteCorrect | implementations/python/jcs.py:50-96 | Python's rewriting of either form of repr gives the ECMAScript text for every shortest decimal |
| NumberFormats.SafeIntegerCorrect | implementations/python/jcs.py:46-48 | the fast path for integers below 2^53 prints the same characters |
| NumberFormats.FormatsAgree | implementations/go/jcs.go:173-219 | both number printers print the canonical text of every binary64 number |
| NumberShape.EsIsTheText | implementations/python/jcs.py:73-96 | the canonical text of a decimal is the one text that denotes it exactly, has no idle zeros, shows an exponent if and only if the number is below 1e-6 or not below 1e21, and then has one digit before the point |
| NumberShape.NumberIsTheText | implementations/go/jcs.go:173-219 | so the text of a binary64 number is "0", or that one text of its shortest decimal after the sign |
| Lexing.NoncharsAgree | implementations/go/value.go:87-92 | Go's bit test and Python's character class name the same noncharacters |
| TextGrammar.UnescapeIff | implementations/python/json_input.py:262-302 | what follows a backslash is read as a character if and only if it is one of the spellings of section 7 of RFC 8259: a short escape, or the UTF-16 units of the character in hexadecimal of either case |
| TextGrammar.RawSound | implementations/go/value.go:447-544 | a string body that is read is a sequence of such spellings up to the closing quote |
| TextGrammar.RawComplete | implementations/python/json_input.py:247-302 | and every sequence of such spellings before a quote is read as its characters |
| TextGrammar.NumberComplete | implementations/python/json_input.py:310-335 | every text of the number grammar of section 6 of RFC 8259 is read as its parts, up to a character that cannot continue it |
| TextGrammar.NumberScanSound | implementations/python/json_input.py:310-335 | and only such texts are read |
| Texts.DenotesIff | implementations/python/json_input.py:336-342 | a number text is converted to x if and only if its exact value rounds to x without overflow and is no negative zero |
| Texts.ParseIff | implementations/go/value.go:139-151 | a text parses to v if and only if it spells the tokens of v, as RFC 8259 writes them, with white space around them, and no object in v names a member twice |
| Grammar.DocumentIff | implementations/go/value.go:256-410 | the recursive grammar accepts a token list with value v if and only if it is the flattening of v and v has no duplicate names at any depth |
| Scanners.EscapeAt | implementations/python/json_input.py:262-302 | one escape, with surrogate pairs, is decoded as the grammar defines |
| Scanners.NumTokenAt | implementations/python/json_input.py:310-335 | the index-advancing number scan finds the longest match of the number grammar |
| PythonParser.StringAt | implementations/python/json_input.py:247-302 | the string loop returns the string of the grammar, refusing noncharacters |
| PythonParser.ParseDocument | implementations/python/json_input.py:68-245 | the one-pass phase machine returns exactly the grammar's result for every text; the unread text shrinks on every turn |
| GoParser.Parser.ParseString | implementations/go/value.go:447-544 | Go's string loop, checking each character as it goes, returns the same string and position |
| GoParser.Parser.Tokenize | implementations/go/value.go:174-234 | the token list of the text, or failure exactly when the text has a lexical error |
| GoParser.BuildValue | implementations/go/value.go:256-410 | the pushdown builder accepts exactly the token lists of the grammar, with the same value |
| GoParser.ParseDocument | implementations/go/value.go:139-151 | tokenize-then-build decides the same texts with the same values as the one-pass machine |
| GoParser.ErrorNeverParses | implementations/go/value.go:174-234 | a lexical error anywhere makes the document fail, so eager and lazy lexing agree |
| CleanText.TokensClean | implementations/python/json_input.py:353-365 | a text that lexes without error has no noncharacter outside strings either, so the whole-text scan refuses nothing more |
| Documents.PyParseObject | implementations/python/json_input.py:353-371 | noncharacter scan, parser and object requirement together give the grammar's object |
| Documents.GoParseIJson | implementations/go/value.go:98-121 | byte order mark check, parser and object requirement together give the same object |
| Printing.PrintCanon | implementations/python/jcs.py:125-180 | a value and its sorted form have the same canonical text |
| Printing.SameValueSameText | implementations/go/jcs.go:17-88 | values equal up to member order have the same canonical text |
| Printers.PyEscapeString | implementations/python/jcs.py:99-122 | the string printer writes the escapes of section 3.2.2.2 of RFC 8785 |
| Printers.GoWriteString | implementations/go/jcs.go:93-125 | Go's string printer appends the same text |
| Printers.PyCanonicalize | implementations/python/jcs.py:125-180 | the marker-stack printer writes the recursive RFC 8785 text of every value; the pending text shrinks on every turn |
| Printers.GoCanonicalize | implementations/go/jcs.go:17-88 | the frame-stack printer writes the same text; the remaining text shrinks on every turn |
| Texts.EscapeShortest | implementations/python/jcs.py:99-122 | the printed form of a character is one of its spellings, none is shorter, and with lower-case digits no other is as short |
| Texts.PrintIsTokens | implementations/go/jcs.go:17-88 | the canonical text is the tokens of the sorted value one after the other with nothing between them |
| RoundTrip.ParsedValues | implementations/python/json_input.py:68-245 | every parsed value is free of duplicate names and noncharacters and holds only binary64 numbers |
| RoundTrip.ParseOfPrint | implementations/python/jcs.py:99-180 | parsing the canonical text of such a value gives it back, members in canonical order |
| RoundTrip.RoundTripOfText | implementations/python/jcs.py:99-180 | for every accepted text, printing and parsing again gives an equal value with the same canonical text |
| RoundTrip.PrintInjective | implementations/python/jcs.py:125-180 | two such values have one canonical text if and only if they are equal as maps |
| Bytes.HexIntIsBigEndian | implementations/relay/server.py:102-104 | the hexadecimal text of a digest, read as a number, is its big-endian value |
| Utf8.DecodeEncode | implementations/python/protocol.py:107-107 | strict UTF-8 decoding (section 3 of RFC 3629) gives back every text from its octets |
| Utf8.EncodeDecode | implementations/python/protocol.py:107-107 | and only the octets of a text decode to it |
| Utf8.LengthIsOctets | implementations/python/protocol.py:107-107 | the length that verifiers, miners and relays compare with their limits is the number of those octets |
| GoVerify.StringOrderIsNumeric | implementations/go/ident.go:33-51 | on numerals of one length Go's string order is the order of the numbers |
| GoVerify.NonceAgrees | implementations/go/ident.go:33-51 | Go's nonce test accepts exactly the texts Python's pattern and integer bound accept |
| GoVerify.PySchemaMeans | implementations/python/protocol.py:111-158 | check_schema passes if and only if conditions 2 to 5 and the counts of condition 6 hold |
| GoVerify.GoSchemaMeans | implementations/go/ident.go:102-178 | validateSchema passes if and only if the structural schema holds, for the two types |
| GoVerify.GoIdentifiersMeans | implementations/go/ident.go:181-206 | validateIdentifiers decides the identifier condition |
| GoVerify.VerdictsAgree | spec/SPP-v1-Core-Protocol-Specification.md:750-764 | for every parsed object both pipelines return one verdict: valid if and only if the nine conditions hold, unsupported if and only if v is a number other than 1 |
| Validation.PyValidateBytes | implementations/python/protocol.py:161-206 | Python's verifier, with its own parser and printer, decides the specified verdict on every text |
| Validation.GoVerifyBytes | implementations/go/verify.go:66-208 | Go's verifier, with its own parser, printer and order of checks, and any signature check, returns the specified verdict for that check on every text |
| Assertions.IdForm | implementations/python/protocol.py:90-92 | a text is an identifier if and only if it is "sha256:" and the lower-case hexadecimal of some 32 octets |
| Assertions.NonceForm | implementations/go/ident.go:33-51 | a text is a nonce if and only if it is the numeral of a number below 2^64 |
| Assertions.CreatedForm | implementations/python/protocol.py:129-133 | a number is a creation time if and only if it is a whole number below 2^53 |
| Assertions.RefForm | implementations/python/protocol.py:95-108 | a value is a reference object with an identifier if and only if it writes some 32 octets and some locators, and nothing else |
| Assertions.OneReading | implementations/python/protocol.py:111-158 | an object writes at most one assertion |
| Assertions.ValidIff | spec/SPP-v1-Core-Protocol-Specification.md:750-764 | an object is valid if and only if it writes an assertion (key, time, nonce, ext, and a pointer or a channel description) within the limits, under its own id, with digest times units times 2^16 below 2^256, and a signature that the key verifies |
| Assertions.ValidGives | implementations/python/protocol.py:67-79 | the id and the units of a valid object, counted on the assertion and on the octets of its canonical U |
| Assertions.HoldsOne | implementations/python/protocol.py:161-206 | a valid text holds exactly one assertion |
| Revalidation.CanonValid | implementations/relay/server.py:224-228 | reordering the members of a valid assertion keeps verdict, id and units |
| Revalidation.CanonicalRevalidates | implementations/relay/server.py:224-228 | the canonical text of a valid envelope is valid with the same id and units |
| Ed25519.PointMul | implementations/python/ed25519_spp.py:42-50 | the double-and-add loop is n-fold addition |
| Ed25519.ClampedNotMultiple | implementations/python/ed25519_spp.py:130-137 | a clamped scalar is never a multiple of L |
| Ed25519.SignVerifies | implementations/python/ed25519_spp.py:104-153 | a signature verifies under the signer's public key if and only if its nonce scalar is not zero modulo L |
| SignatureInputs.Primes | implementations/python/ed25519_spp.py:7-8 | P is 2^255 - 19 and L is 2^252 + 27742317777372353535851937790883648493 |
| SignatureInputs.LittleIsReversed | implementations/python/ed25519_spp.py:108-108 | octets read with the first one least are the reversed octets read as a big-endian number |
| SignatureInputs.ClampIsOctets | implementations/python/ed25519_spp.py:133-135 | the clamped scalar is that of the octets with the bits of section 5.1.5 of RFC 8032 cleared and set |
| SignatureInputs.PublicKeyReads | implementations/python/ed25519_spp.py:148-153 | the public key depends only on the first half of the hash of the private key |
| SignatureInputs.NonceReads | implementations/python/ed25519_spp.py:136-139 | the nonce scalar depends only on the second half, and on the hash of that half, the tag and the digest |
| SignatureInputs.SignReads | implementations/python/ed25519_spp.py:130-145 | a signature depends on SHA-512 only at the key, at that text, and at R, A, the tag and the digest |
| Ed25519.CofactorAgrees | spec/SPP-v1-Core-Protocol-Specification.md:417-417 | on points killed by L two points are equal if and only if their multiples by 8 are |
| Ed25519.EquationForms | spec/SPP-v1-Core-Protocol-Specification.md:414-417 | for admitted A and R the exact equation holds if and only if the equation times 8 does, with k reduced or not |
| Ed25519.UniqueS | implementations/python/ed25519_spp.py:104-127 | for one key, digest and R at most one S is accepted |
| Ed25519.EncodesTo | implementations/python/ed25519_spp.py:59-64 | 32 octets are the encoding of a point exactly when they hold its y and the parity of its x |
| Ed25519.DecodeMeans | implementations/python/ed25519_spp.py:67-86 | the checks after the square root never fail: decoding is choosing the sign of the root |
| Ed25519.UnreducedIff | implementations/python/ed25519_spp.py:79-82 | decoding gives x = P if and only if the sign bit is set and the root is zero; reduced, it is always a curve point |
| Ed25519.DecodeEncode | implementations/python/ed25519_spp.py:59-86 | every curve point is decoded from its encoding |
| Ed25519.MulRed | implementations/python/ed25519_spp.py:32-50 | multiples of a point do not depend on whether its coordinates are reduced |
| Ed25519.VerifySignature | implementations/python/ed25519_spp.py:104-127 | the verifier with its double-and-add loops decides the specified predicate on every input |
| Conformance.StrictDecodeIff | spec/SPP-v1-Core-Protocol-Specification.md:406-411 | section 8A's decoding accepts exactly the encodings of curve points, each as its point |
| Conformance.GoConforms | implementations/go/ed25519.go:44-107 | Go's signature check decides section 8A on every input |
| SignatureInputs.ConformsMeans | spec/SPP-v1-Core-Protocol-Specification.md:404-414 | the profile holds if and only if the key and R are the encodings of two points of order L with S below L and the equation, the scalar k being SHA-512 of R, A, "SPP/1/assertion", a zero octet and the digest, read with the first octet least, modulo L |
| SignatureInputs.VerifyReads | implementations/go/ed25519.go:92-101 | every verification depends on SHA-512 only at R, A, the tag and the digest in that order |
| Conformance.SignedOneIff | implementations/python/ed25519_spp.py:70-72 | the octets 1, 0, ..., 0, 128 are exactly those with y = 1 and the sign bit set |
| Conformance.DecodesAlike | implementations/python/ed25519_spp.py:67-86 | decode_point differs from section 8A's decoding exactly for a zero root with the sign bit set |
| Conformance.AdmitsAlike | implementations/python/ed25519_spp.py:112-121 | a point admitted by Python and not by section 8A comes from that one encoding, and from it always |
| Conformance.VerifyAgainstProfile | implementations/python/ed25519_spp.py:104-127 | Python accepts whatever section 8A accepts; what it accepts conforms if and only if neither key nor R is that encoding |
| Conformance.VerifyConformsIff | spec/SPP-v1-Core-Protocol-Specification.md:404-413 | for every input the decisions are equal unless Python accepts with that encoding as key or R |
| Conformance.KeyDiffers | implementations/python/ed25519_spp.py:112-127 | inputs with that encoding as key at which Python accepts and section 8A refuses |
| Conformance.NonceDiffers | implementations/python/ed25519_spp.py:112-127 | the same with that encoding as R, under every key that is a multiple of the base point |
| Conformance.BothDiffer | implementations/python/ed25519_spp.py:112-127 | the same with that encoding as both |
| Conformance.ConformsIff | spec/SPP-v1-Core-Protocol-Specification.md:404-413 | for a key and an R that are multiples of the base point or that encoding, Python decides section 8A for every S and digest if and only if neither is that encoding |
| Conformance.SignConforms | spec/SPP-v1-Core-Protocol-Specification.md:419-419 | a signature made by sign conforms to section 8A if and only if its nonce scalar is not zero modulo L |
| Verdicts.PyVerdictIff | implementations/python/protocol.py:161-206 | Python's verdict on a text is section 20's unless it is valid with that encoding as key or R, where section 20 says invalid |
| Verdicts.GoVerdict | implementations/go/verify.go:66-208 | Go's verdict, with its own signature check, is section 20's on every text |
| Verdicts.ProgramsAgreeIff | implementations/go/verify.go:66-208 | the two programs, each with its own signature check, agree on a text unless Python accepts it with that encoding as key or R |
| Verdicts.TextDiffers | implementations/python/protocol.py:161-206 | a whole text that Python accepts and Go refuses, for every U that does its work with that encoding as the actor's key |
| Verdicts.BothVerdicts | implementations/python/protocol.py:161-206 | both verifiers end to end on one text: equal verdicts whenever key and R are not that encoding |
| Mining.TryNonce | implementations/python/protocol.py:213-226 | one candidate is too large, above the target of its own units, or within it |
| Mining.MineAndSign | implementations/python/protocol.py:209-232 | each outcome with its meaning: a found envelope has the first nonce from the start value that meets its own target |
| Mining.SealedVerdict | implementations/python/protocol.py:169-206 | for a candidate that does its work, sealed with any signature, the verdict is the signature check's |
| Mining.SealedValidIff | implementations/python/protocol.py:209-232 | for a U that passes the schema, the envelope of a nonce is valid under a signature if and only if the miner would take that nonce and the signature verifies |
| Mining.MinedIsValid | implementations/python/protocol.py:209-232 | what is mined for a U without id and sig with the signer's key validates with the id and units it was mined for, or is invalid exactly when the nonce scalar is zero modulo L |
| Mining.SignedBodyNeverValid | implementations/python/protocol.py:209-232 | what is mined for a U that carries id or sig is not valid, unless two named texts collide |
| Mining.SchemaIgnoresSigned | implementations/python/protocol.py:111-158 | putting an id or sig into any U changes nothing for the schema check |
| Mining.SignedInputFails | implementations/python/protocol.py:209-232 | so a U that mines well is still taken once it carries id or sig, and what is found is then not valid |
| Mining.NegativeNeverValid | implementations/python/protocol.py:209-232 | what is mined for a negative nonce is not valid |
| Mining.MinedValidIff | implementations/python/protocol.py:209-232 | the mined envelope is valid if and only if U carries neither id nor sig, the nonce is not negative, and the nonce scalar is not zero modulo L |
| Template.TextAroundNonce | examples/agent-a/agent.py:119-126 | the canonical text of a candidate is a fixed text around the digits of its nonce |
| Template.Find | examples/agent-a/agent.py:121-121 | the first occurrence of a pattern, or -1 when there is none |
| Template.MarkerFirst | examples/agent-a/agent.py:120-125 | for a U as the agent builds it the first textual marker is the top-level nonce |
| Template.PatchIsCandidate | examples/agent-a/agent.py:128-131 | writing other digits of one width over the nonce gives the other candidate's canonical text, of the same length |
| Template.WidthDigits | examples/agent-a/agent.py:112-130 | within the range of its width a number needs no padding |
| Template.WidthsMeet | examples/agent-a/agent.py:112-118 | the ranges of consecutive widths join without gap or overlap |
| Template.CheckedIsBuilt | examples/agent-a/agent.py:245-254 | whatever passes the naive miner's schema check without ext, id and sig is such a U |
| TemplateMiner.UnitsTwoValues | implementations/python/protocol.py:67-83 | over all nonces the units take at most two, consecutive, values |
| TemplateMiner.Overwrite | examples/agent-a/agent.py:131-131 | slice assignment changes exactly the digits in the buffer |
| TemplateMiner.MineWidth | examples/agent-a/agent.py:112-134 | one template decides for each nonce of its width whether the candidate meets its own target; the first that does is returned |
| TemplateMiner.Mine | examples/agent-a/agent.py:103-144 | each outcome with its meaning: the first nonce from 0 that meets its target, or none in 0..2^64-1; what is returned revalidates under its own id |
| TemplateMiner.ObjectText | examples/agent-a/agent.py:139-142 | validating the canonical text of an object gives the object's own verdict under its own id, so the id comparison never fails |
| TemplateMiner.MinersAgree | examples/agent-a/agent.py:103-144 | whenever the naive loop from 0 succeeds the agent stops at the same nonce and makes the same envelope |
| TemplateMiner.AgentSucceeds | examples/agent-a/agent.py:103-144 | with the signer's key and a non-zero nonce scalar the agent does return that envelope, and it is valid |
| Relay.Store.Add | implementations/relay/store.py:72-115 | a known id changes nothing; otherwise one row is added at the end and a channel type advertises its own id |
| Relay.Store.GetAssertion | implementations/relay/store.py:117-126 | an envelope stored under the id, if and only if there is one |
| Relay.Server.Post | implementations/relay/server.py:217-264 | the early returns and the one state change give the specified admission, new table and reply |
| RelayRuns.AdmittedIsAuthentic | implementations/relay/server.py:224-263 | what is stored revalidates to the id of the submission, its columns are the ones derived from it, and it is within local policy |
| RelayRuns.PostedKeeps | implementations/relay/server.py:217-264 | one submission keeps the relay invariant and every earlier row |
| RelayRuns.ChangesIffNew | implementations/relay/server.py:217-264 | the tables change if and only if the reply reports a new assertion; invalid, refused and repeated submissions change nothing |
| RelayRuns.RunKeeps | implementations/relay/schema.sql:7-22 | every run keeps: authentic rows, derived columns, unique ids, increasing sequence numbers, advertised ids; rows never change or vanish |
| RelayRuns.RunStoresAdmitted | implementations/relay/store.py:90-113 | after a run the stored ids are the earlier ones and those of admitted submissions, no others |
| RelayRuns.RunFromEmpty | implementations/relay/schema.sql:7-22 | a relay that started empty satisfies the invariant after every run and holds exactly the ids of its admitted submissions |
| RelayRuns.AdvertisesChannels | implementations/relay/store.py:105-113 | a relay advertises exactly the ids of the channel-type assertions it stores |
| RelayRuns.LocalWorkMeans | implementations/relay/server.py:102-104 | the local work check is the protocol's work check for the multiplied units |
| Admission.PermitsMeans | implementations/relay/server.py:230-247 | local policy passes if and only if the actor is not the blocked one, a pointer is not in the blocked channel, the digest times the multiplied units stays below 2^256, and locators, their octets and parents are within the limits |
| Admission.AdmittedIff | implementations/relay/server.py:212-263 | a valid text is refused for its size, refused as policy if and only if one of these fails, and otherwise stored with the columns of its assertion |
| Admission.OthersRefused | implementations/relay/server.py:212-222 | any other text is refused for its size, its version or its invalidity, in that order |
| Admission.RunLawful | implementations/relay/server.py:230-263 | every row of every run from an empty relay holds an assertion within all limits of that relay, with its columns |
| Admission.NothingBlocked | implementations/relay/server.py:230-235 | so no row of any run has a blocked actor, and no pointer row a blocked channel |
| Admission.ListedWhere | implementations/relay/store.py:134-178 | a row is listed under the channel of its pointer or its own id, under the object it refers to, and as advertised if and only if it describes a channel |
| RelayRuns.IdPinsU | implementations/python/protocol.py:62-64 | two valid texts with one id carry equal U, unless their canonical texts collide |
| Cursor.Base64RoundTrip | implementations/relay/store.py:29-42 | base64url decoding inverts encoding for every octet string, all three residues |
| Cursor.PaddingRestored | implementations/relay/store.py:29-39 | the stripped token is over the unpadded alphabet and its padding can be computed from its length |
| Cursor.SymbolsAreBits | implementations/relay/store.py:29-31 | each symbol of an unpadded token is the base64url letter of the next six bits of the octets |
| Cursor.CursorRoundTrip | implementations/relay/store.py:29-48 | every cursor handed out is a non-empty token of the alphabet and decodes to the same sequence number |
| Pages.FetchIsSelect | implementations/relay/store.py:134-178 | the three queries, with the join of the advertised listing, select the matching rows beyond a sequence number |
| Pages.PageMeans | implementations/relay/store.py:128-132 | a page is the next rows of the listing, and its cursor, if any, stands for the last of them |
| Pages.SelectSplit | implementations/relay/store.py:134-147 | continuing beyond any selected row selects exactly the rest |
| Pages.ReadPages | implementations/relay/federation/sync.py:115-132 | the cursor loop among insertions and failing requests: the listing of the table at the last request, or its beginning when a request failed; it ends once insertions stop |
| Pages.Traverse | implementations/relay/federation/sync.py:115-132 | with every request answered, exactly the matching rows of the table at the last request, in order without repeats |
| Pages.RunGrows | implementations/relay/schema.sql:8-8 | the tables of any run, however many submissions fall between two requests, are such a growing history, settled once the submissions stop |
| Pages.ReadDuringRun | implementations/relay/store.py:128-178 | reading a listing while a relay handles any submissions gives exactly the matching rows of the table the run has reached at the last request |
| Federation.Forward | implementations/relay/federation/sync.py:178-248 | the loop over gathered items, from any source and over a link that loses requests and replies or garbles replies, has the specified effect and counters |
| Federation.Accounts | implementations/relay/federation/sync.py:178-248 | valid + invalid = discovered, and forwarded + duplicates + rejected = number of distinct valid ids |
| Fates.CountersMean | implementations/relay/federation/sync.py:178-248 | for every link each counter is a number of gathered items: invalid those that do not validate, valid the others; of the first valid item of each id, rejected those lost or refused, duplicates those answered under an id held before, forwarded the rest |
| Federation.SendsOnlyValid | implementations/relay/federation/sync.py:192-220 | a sync is a run of ordinary submissions, all valid, all gathered, whatever the source serves |
| Federation.ForwardedRows | implementations/relay/federation/sync.py:220-228 | for every link: rows gained plus duplicates misread as forwarded equal `forwarded` plus new rows whose reply was lost |
| Federation.ForwardedWhenHeard | implementations/relay/federation/sync.py:220-228 | with readable replies the destination gains at least `forwarded` rows, with every reply heard exactly that many |
| Federation.DuplicateForwarded | implementations/relay/federation/sync.py:80-86 | a stored id submitted over a link that garbles the reply is counted as forwarded, and nothing is new |
| Federation.SyncStores | implementations/relay/federation/sync.py:178-248 | when every request arrives, whatever becomes of the replies, the destination then holds its old ids and, for each id gathered, the first valid text if it admits that |
| Federation.SyncStoresAll | implementations/relay/federation/sync.py:178-248 | from a source that serves one text per id it gains exactly what it admits of everything gathered |
| Federation.FirstsAdmitted | implementations/relay/federation/sync.py:216-218 | an id is submitted and admitted if and only if its first valid text is admitted |
| Federation.GainsAllIff | implementations/relay/federation/sync.py:178-248 | the destination gains everything it would admit if and only if, for each such id, it admits the first valid text or holds the id already |
| Federation.SecondTextLost | implementations/relay/federation/sync.py:216-218 | two texts with one id, the first refused and the second admissible: the second does not arrive |
| Spellings.SpelledOutAgrees | implementations/relay/federation/sync.py:184-196 | the canonical text of a valid envelope and the text with its version written 1.0 denote one object with one verdict, and differ in length by two |
| Spellings.SpellingLost | implementations/relay/federation/sync.py:216-218 | with the record limit between the two lengths, the assertion does not arrive when the longer spelling is served first |
| Federation.RepeatForwardsNothing | implementations/relay/federation/sync.py:178-248 | an immediate repeat over any link changes nothing, and counts as forwarded exactly the duplicates whose replies it cannot read |
| Federation.HistoryKeeps | implementations/relay/federation/sync.py:143-248 | over every history of publishing and syncing among any number of relays, with any sources, every stored row stays authentic and no row changes or vanishes |
| Convergence.CanonicalKeepsValue | implementations/relay/federation/sync.py:183-184 | serializing in canonical form keeps the value of what a relay served, so the assumption on serialization can be met |
| Convergence.ItemJudged | implementations/relay/federation/sync.py:182-220 | the destination admits an item exactly by its size and policy, and then stores the very record the source stores |
| Convergence.NewRowsCopied | implementations/relay/federation/sync.py:178-248 | a row that appears at the destination is, record for record, one the worker gathered at the source |
| Convergence.AdvertisedMovesOnlyAdvertised | implementations/relay/federation/sync.py:157-176 | a sync of what was gathered in advertised mode moves only assertions whose channel the source advertises |
| Convergence.SameIdSameColumns | implementations/relay/store.py:90-104 | two relays that store one id store the same columns, unless texts collide |
| Convergence.Converges | implementations/relay/federation/sync.py:143-248 | syncing a channel makes the destination's set its old set united with what its policy admits of the source's |
| Convergence.OpenPermits | implementations/relay/server.py:230-247 | a relay without local restrictions permits every valid assertion |
| Convergence.BothWays | implementations/relay/federation/sync.py:143-248 | with accept-all policies, one sync each way leaves both relays with the union |
| Convergence.ChannelRepeat | implementations/relay/federation/sync.py:143-248 | repeating a channel sync changes nothing and, with readable replies, forwards zero; the first inserted exactly `forwarded` rows when every reply was heard |
| Rounds.RoundConverges | implementations/relay/federation/sync.py:143-248 | among any number of accept-all relays, syncing the channel over all pairs in any order leaves every relay with the union |
| Rounds.RoundSets | implementations/relay/federation/sync.py:143-248 | syncs in any order only add to each relay's set, carry at least the source's set at the start, and never add an id no relay listed |
| SyncWorker.ChannelIsId | implementations/relay/federation/sync.py:135-140 | both accepted spellings of a channel argument name one well-formed identifier |
| SyncWorker.Gather | implementations/relay/federation/sync.py:162-176 | from a source that changes and fails while it is read: only stored rows of the channels asked for; without errors every row that was there at the start; from a still source exactly the specified rows |
| SyncWorker.ChannelGather | implementations/relay/federation/sync.py:162-169 | in channel mode what is gathered is exactly the channel's listing, the setting of Converges |
| SyncWorker.SyncRelays | implementations/relay/federation/sync.py:143-248 | an invalid channel argument changes nothing; otherwise tables and counters are those of forwarding what was gathered, which is as Gather states, under the channel asked for or the advertised ones |
| MemoryRelay.MemoryStore.Put | implementations/python/relay.py:39-60 | a known digest changes nothing; otherwise dictionary, order and the three indexes are extended together |
| MemoryRelay.MemoryIndexed | implementations/python/relay.py:39-60 | for every history the maintained channel, object and advertised lists are filters of it |
| MemoryRelay.SameLists | implementations/relay/store.py:134-178 | on every accepted history both relays serve the same list for every query |
| MemoryRelay.AdmittedHistory | implementations/relay/server.py:217-264 | every run of admitted submissions is such a history, with the table the run leaves |
| MemoryRelay.WalkOffsets | implementations/python/relay.py:66-74 | following the offset cursors reads exactly the list, for every page size |
| MemoryRelay.ReadBoth | implementations/relay/store.py:128-178 | on every accepted history, for every query and any two page sizes, the offset pages of the one relay and the cursor pages of the other concatenate to the same list |
| Polling.Client.FetchFirst | examples/agent-a/agent.py:517-536 | the locators are tried in order and the first data with the wanted hash is returned |
| Polling.Client.Consider | examples/agent-a/agent.py:470-541 | one element changes the client's state and report as specified, or ends the program |
| Polling.Client.ReadRelay | examples/agent-a/agent.py:545-563 | the page loop of one relay meets the elements of its pages in order until a reply fails, the cursors end, or the program ends |
| Polling.Client.Run | examples/agent-a/agent.py:450-567 | a poll over any number of relays completes or dies as specified; the state on disk is the new one or, if it died, the old one |
| Polling.CompletesIff | examples/agent-a/agent.py:474-488 | a poll completes if and only if everything it meets is an object that can be encoded, and is then considering the objects in order |
| Polling.OneItemLosesAll | examples/agent-a/agent.py:557-567 | after a valid item a string in the page makes the client forget the id it would have learned |
| Polling.SeenAfter | examples/agent-a/agent.py:470-500 | after a completed poll the client has seen, each once, what it had seen and the ids of all valid items, whichever relays served them and in whatever order; after one that died, what it had seen |
| Polling.MatchMeans | examples/agent-a/agent.py:517-536 | data is found if and only if some locator serves data with the wanted hash |
| Polling.FilesStayOk | examples/agent-a/agent.py:517-536 | whatever relays and locators answer, and whether or not the poll completes, no file is stored under a hash it does not have, and every listed object has its file |
| Polling.ObjectsAfter | examples/agent-a/agent.py:470-567 | the objects after a completed poll are the earlier ones and those brought by the first valid text of an unseen id, no others; after one that died, the earlier ones |
| Objects.BringsMeans | examples/agent-a/agent.py:512-536 | what a text brings is the object of the pointer it holds, if one of the locators of that pointer serves data with its hash |
| Objects.MatchIsFirst | examples/agent-a/agent.py:517-536 | the data kept is that of the first locator that serves the hash |
| Objects.ObjectsMean | examples/agent-a/agent.py:470-567 | the objects after a completed poll, said of the hash and locators of the pointers in the texts |
| Polling.ReportAdds | examples/agent-a/agent.py:568-583 | in the report of a completed poll the number new is the number of ids learned, and every refused item and distinct valid id is reported once |
| Objects.ReportMeans | examples/agent-a/agent.py:470-541 | the report of a completed poll: each new id with whether its object was found, each known id as known, and as many refused items as were not valid |
| Polling.PollAgain | examples/agent-a/agent.py:470-500 | polling again items whose ids are all known leaves the state on disk as it was |

## Left out

- UTF-8 on the way in: the programs get texts, so refusing malformed octets is not part of them; `Utf8` defines the octets for lengths. Go's position in octets is a position in characters.
- Internals of SHA-256, SHA-512, IEEE-754 rounding and shortest-digit generation: parameters, with the hypotheses named above.
- Field arithmetic, point addition and square-root recovery of edwards25519: the group laws and the laws of the roots are hypotheses. Go's edwards25519 library is modelled as reducing y, recovering x and negating it modulo P.
- GoParser.BuildValue: the original attaches a child node to its parent by reference when it opens; the model keeps a placeholder and writes the finished child back when it closes, so aliasing inside the tree is not captured.
- The library sorts: modelled by insertion with each program's own comparison; on distinct names every sort gives that result.
- HTTP routing, headers, status codes, sockets, threads and SQLite: each submission and each page query is one atomic step on the tables; the acceptance time column is not modelled.
- Template mining of a U with ext: the marker search takes the first textual match, and ext sorts before nonce.
- Reasons and stages of refusals: verdict classes are compared, not their texts.
- Python's json re-serialization in the worker: any function that keeps the value of what a relay served (`KeepsValues`); the worker's log and per-item results are not modelled.
- Convergence.Converges: the source does not change while it is read, and nobody else writes to the destination meanwhile; without these `HistoryKeeps`, `SyncStores` and `Gather` hold.
- SyncWorker.SyncRelays: reads honest relays, whose pages it follows to the end; a source that serves cursors without end, or a page at which the worker stops with an exception before it submits anything, is not modelled; whatever else a source serves is covered by `Federation.Forward`.
- Cursor.DecodeCursor: tokens that no relay handed out are decoded as the code does it, but nothing is stated about them.
- Cursor.CursorRoundTrip: Python's limit on the number of digits of an integer text is not modelled; sequence numbers stay far below it.
- MemoryRelay.WalkOffsets: the list does not change while it is read.
- Admission by the in-memory relay: the same checks as the durable relay's with fewer limits.
- Polling.Client.Run: takes the replies of each relay as a list, and a relay with no more replies as one whose request fails, so a relay that serves cursors without end is not modelled; report details are not modelled, and a locator answers the same whenever it is asked within a poll.
- The TypeScript implementation and Agent B, suite drivers, fuzzers, packaging and deployment: they repeat modelled parts or only move files.
