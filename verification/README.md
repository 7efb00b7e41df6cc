# Models of the FreeRDP helper programs

Three programs of `freerdp-3.28.0` are modelled here and proved to do what they are for.

**The tagged hash of the RDP 6.0 Huffman code tables** (`scripts/LECHash.c`, `scripts/LOMHash.c`). One array
of 16-bit words holds primary cells (index and tag) and overflow cells (a bare index). Both programs are one
`Scheme` (`TaggedHash`) with other widths, hash and slot functions; `Scheme.WellFormed` lists what the
proofs need of them, and `LecHash` and `LomHash` prove it of the programs' own expressions. The main result
is an equivalence: for any array of codes, the build loop stays inside its tables and the lookup inverts it
if and only if the codes are `Admissible`, a condition on the codes that mentions no table (distinct, at
most two per bucket, second codes with a slot in `tab`, those slots pairwise different and not the bucket of
any code). `HashSufficiency` proves one direction through the class of every cell after every turn;
`HashNecessity` proves the other by following which turn wrote a cell last. `HashTable` is the loop and the
lookup on an array updated in place. An access outside a table or `tab`, undefined in C, is the result
`None` or `ok == false`. `LecCodes` and `LomCodes` hold the 293 and 32 codes of the programs and prove that
both self-checks pass.

**The smartcard log interpreter** (`tools/smartcard-interpreter.py`). `Tlv` is the walk shared by all its
tag-length-value loops, `CardData` the four loops with their branches, `CardReadable` the bodies they read
without an exception, `CardRoundTrip` what they make of encoded templates, `CardLines` what they print, as
tables of labels. `Session` is the command/response machine as a step function, with Python exceptions as
`Error` values; `SessionHistory` is a second definition of its state, read off the log without running it;
`CommandBytes` says what each command does over its bytes, `SessionOutput` what each response prints or
raises; `SessionSafety` says which logs are survived; `SessionLoop` is the program's main loop on objects
updated in place. Where the code and a reader's expectation differ, the code is followed: an empty
capability element takes its flags from the byte after it, the tag of its successor (`TokensMeantIff`), a
last element without a value is not seen (`WholeIffLastSeen`), MSE and PSO read the length variable of an
earlier command, an unknown tag in a PIV FCI response ends the program (`UnknownTagExample`). Two fields are
encoded where the code should decode them: any application label in a GIDS FCI template and any DF name in
an FCP template ends the program (`LabelAndNameExample`). A GET DATA, MSE or PSO before any SELECT by AID
uses an application that is not there (`NoApplicationExample`); `EndsUndefinedIff` says exactly when that
happens. The codec name of the PIN has a stray parenthesis, which CPython's codec lookup drops, so it is
modelled as UTF-8.

**The table writer** (`scripts/fetch_language_identifiers.py`). `NumberText` is its number formats,
`LanguageLine` the line of a row and `LanguageTable` the row loop with the carried list. `padhexa` of a negative number is no hexadecimal literal;
the theorem says exactly when it is.

## Model

| member | source | states |
|---|---|---|
| HashTable.InvertsIffAdmissible | freerdp-3.28.0/scripts/LECHash.c:54-81 | for every code array, build and lookup are inverse to each other, with no access out of range, if and only if the codes meet the table-free condition |
| HashNecessity.InvertsOnlyIfAdmissible | freerdp-3.28.0/scripts/LECHash.c:54-81 | the necessary half: a table that inverts its codes had at most two codes per bucket, and free, distinct, existing overflow slots |
| HashNecessity.OwnsItsPlace | freerdp-3.28.0/scripts/LECHash.c:60-69 | in a table that inverts its codes every index is still the last one written into its cell |
| HashNecessity.OwnerHoldsCell | freerdp-3.28.0/scripts/LECHash.c:60-69 | in any run without an access out of range the low bits of a cell are those of the last index written into it, however often it was retagged |
| HashNecessity.HostIsHome | freerdp-3.28.0/scripts/LECHash.c:60-64 | in a run whose final table inverts the codes, a code only ever collides with the first code of its own bucket, never with an overflow entry |
| HashSufficiency.AdmissibleInverts | freerdp-3.28.0/scripts/LECHash.c:56-70 | for admissible codes, after every turn every code inserted so far looks up to its own index |
| HashSufficiency.Classification | freerdp-3.28.0/scripts/LECHash.c:60-69 | for admissible codes no turn leaves the table, and every cell holds exactly what its class says: empty, lone with all-ones tag, first of a pair with the second's tag, or bare index |
| HashSufficiency.KindExists | freerdp-3.28.0/scripts/LECHash.c:60-69 | every cell has a class |
| HashSufficiency.KindUnique | freerdp-3.28.0/scripts/LECHash.c:60-69 | and, for admissible codes, only one |
| HashOccupancy.OneCellPerCode | freerdp-3.28.0/scripts/LOMHash.c:27-40 | for admissible codes every turn, colliding or not, takes exactly one empty cell |
| HashOccupancy.FullTable | freerdp-3.28.0/scripts/LOMHash.c:9-40 | as many admissible codes as cells leave no cell empty |
| HashOccupancy.BucketServesTwo | freerdp-3.28.0/scripts/LECHash.c:73-81 | whatever the table holds, of two codes in one bucket at most one is looked up in its overflow slot; those that are not share one value |
| HashOccupancy.AnyTableServesTwo | freerdp-3.28.0/scripts/LECHash.c:73-98 | so no table, whoever built it, gives every code its index if two codes are equal or three share a bucket |
| HashTable.Table.constructor | freerdp-3.28.0/scripts/LECHash.c:32 | every cell starts as the empty marker |
| HashTable.Table.InsertCode | freerdp-3.28.0/scripts/LECHash.c:58-69 | one turn of the loop on the array: collision test, XOR of the tag, overflow write, or primary write |
| HashTable.Table.BuildHashTable | freerdp-3.28.0/scripts/LECHash.c:54-71 | the loop on the array ends with the table of the specification, or at the first access out of range |
| HashTable.Table.GetValue | freerdp-3.28.0/scripts/LECHash.c:73-81 | the lookup reads the array as the specification does |
| HashTable.Table.Failures | freerdp-3.28.0/scripts/LECHash.c:96-98 | exactly the codes that do not look up to their index are reported |
| HashTable.SelfCheck | freerdp-3.28.0/scripts/LECHash.c:83-101 | the self-check of both programs reports nothing if and only if the codes are admissible |
| LecHash.TagDeterminesKey | freerdp-3.28.0/scripts/LECHash.c:36-41 | for all 16-bit keys, same bucket and same bits from 9 up mean the same key |
| LecHash.IndexWords | freerdp-3.28.0/scripts/LECHash.c:60-69 | index and tag bits never mix; a retagged lone cell has the code's tag, a retagged bare index has another |
| LecHash.InstanceWellFormed | freerdp-3.28.0/scripts/LECHash.c:32-81 | the program's own hash, minihash, masks and slots are an instance of the scheme |
| LecHash.InstanceInvertsIff | freerdp-3.28.0/scripts/LECHash.c:54-98 | the equivalence for up to 512 codes below 0x2000 |
| LecHash.InstanceOneCellPerCode | freerdp-3.28.0/scripts/LECHash.c:54-71 | n of at most 511 admissible codes occupy exactly n cells |
| LecCodes.AllAdmissible | freerdp-3.28.0/scripts/LECHash.c:4-34 | the program's 293 codes are admissible |
| LecCodes.SelfCheckPasses | freerdp-3.28.0/scripts/LECHash.c:54-98 | after every turn of the build the codes inserted so far look up to their indices; after the last turn this is the self-check of the program |
| LomHash.TagDeterminesKey | freerdp-3.28.0/scripts/LOMHash.c:13-16 | same bucket and same bits from 5 up mean the same key |
| LomHash.InstanceWellFormed | freerdp-3.28.0/scripts/LOMHash.c:9-56 | the program's own hash, minihash, masks, slots and byte-wide result are an instance of the scheme |
| LomHash.InstanceInvertsIff | freerdp-3.28.0/scripts/LOMHash.c:25-56 | the equivalence for up to 32 codes below 0x400 |
| LomHash.InstanceTableIsFull | freerdp-3.28.0/scripts/LOMHash.c:25-40 | 32 admissible codes fill the table |
| LomCodes.AllAdmissible | freerdp-3.28.0/scripts/LOMHash.c:4-11 | the program's 32 codes are admissible |
| LomCodes.SelfCheckPasses | freerdp-3.28.0/scripts/LOMHash.c:58-74 | after every turn of the build the codes inserted so far look up to their indices; after the last turn this is the self-check of the program |
| Tlv.WalkIsTheReading | freerdp-3.28.0/tools/smartcard-interpreter.py:324-375 | on any bytes the walk is the one lossless reading: headers, values and a rest of at most two bytes give the input back, and only the last value can be cut short |
| Tlv.RoundTrip | freerdp-3.28.0/tools/smartcard-interpreter.py:324-375 | walking an encoded list visits exactly the list |
| Tlv.RoundTripButLast | freerdp-3.28.0/tools/smartcard-interpreter.py:324-375 | except that a last element without a value is left behind |
| Tlv.WholeIffLastSeen | freerdp-3.28.0/tools/smartcard-interpreter.py:324-375 | the list comes back whole if and only if its last value is not empty |
| Tlv.SeenAreWalked | freerdp-3.28.0/tools/smartcard-interpreter.py:324-375 | walking the encoding of any list visits its elements in order, all of them or all but an empty last one |
| CardData.PivSelectResult | freerdp-3.28.0/tools/smartcard-interpreter.py:235-274 | the loop prints the lines of the elements in order, up to the first exception |
| CardData.PivGetDataResult | freerdp-3.28.0/tools/smartcard-interpreter.py:316-377 | likewise, with lines chosen by the tag last asked for |
| CardData.ParseFcp | freerdp-3.28.0/tools/smartcard-interpreter.py:416-444 | likewise for the FCP template |
| CardData.ParseFci | freerdp-3.28.0/tools/smartcard-interpreter.py:446-492 | likewise for the FCI template with its nested loop |
| CardData.DiscretionaryData | freerdp-3.28.0/tools/smartcard-interpreter.py:467-484 | the innermost loop collects the flags after every capability header |
| CardReadable.CollectAll | freerdp-3.28.0/tools/smartcard-interpreter.py:324-377 | a loop raises an exception if and only if one of the elements it visits does; otherwise it prints the lines of all of them in order |
| CardReadable.PivSelectReadable | freerdp-3.28.0/tools/smartcard-interpreter.py:235-274 | a PIV response to SELECT is read without exception if and only if it has a header and, for FCI, every visited element has a tag the loop knows, with a label that decodes or a tag allocation of two bytes |
| CardReadable.PivDataReadable | freerdp-3.28.0/tools/smartcard-interpreter.py:316-377 | a PIV response to GET DATA is read without exception if and only if it is empty, or has a header and, for the card holder identifier, every expiration date decodes |
| CardReadable.GidsFcpReadable | freerdp-3.28.0/tools/smartcard-interpreter.py:416-444 | an FCP response is read without exception if and only if it has a header and, under tag 0x62, no visited element is a DF name |
| CardReadable.GidsFciReadable | freerdp-3.28.0/tools/smartcard-interpreter.py:446-492 | an FCI response is read without exception if and only if it has a header and, under tag 0x61, no visited element is an application label |
| CardRoundTrip.PivReadsTemplate | freerdp-3.28.0/tools/smartcard-interpreter.py:235-377 | an encoded template of any elements is read element by element, each with its own tag, length and value; only an empty last element is not seen |
| CardRoundTrip.FlagsAreTopBits | freerdp-3.28.0/tools/smartcard-interpreter.py:475-481 | two capability bytes print the same flags if and only if their top three bits agree |
| CardRoundTrip.FlagsInOrder | freerdp-3.28.0/tools/smartcard-interpreter.py:475-481 | which flags a capability byte prints and in which order, for each value of its top three bits |
| CardRoundTrip.TokensMeantIff | freerdp-3.28.0/tools/smartcard-interpreter.py:468-484 | on any bytes the capability tokens are the flags of the first value byte of each capability element if and only if the loop meets no empty one followed by a byte with a flag bit |
| CardRoundTrip.TokensIntendedIff | freerdp-3.28.0/tools/smartcard-interpreter.py:468-484 | for an encoded list the tokens are those of its elements if and only if no empty element is followed by a tag with a flag bit |
| CardRoundTrip.BorrowedFlagExample | freerdp-3.28.0/tools/smartcard-interpreter.py:474-481 | an input on which they are not |
| CardRoundTrip.FciIsRead | freerdp-3.28.0/tools/smartcard-interpreter.py:446-492 | any bytes with the FCI tag, cut short or not, are read as their elements through all three levels if and only if none is an application label and none borrows a flag for an empty capability element |
| CardRoundTrip.FciTemplateIsRead | freerdp-3.28.0/tools/smartcard-interpreter.py:446-492 | for an encoded FCI template, in terms of what was encoded: children with their own values, discretionary ones with the tokens of their own grandchildren, if and only if no visited child is a label and none has an empty capability element before a tag with a flag bit |
| CardRoundTrip.LabelAndNameExample | freerdp-3.28.0/tools/smartcard-interpreter.py:427-465 | an FCI template with a label, and an FCP template with a DF name, that end the program |
| CardRoundTrip.UnknownTagExample | freerdp-3.28.0/tools/smartcard-interpreter.py:241-274 | a PIV FCI response with an unknown tag that ends the program |
| CardLines.PayloadIs | freerdp-3.28.0/tools/smartcard-interpreter.py:237-240 | of a response the bytes the length announces are read, or as many as there are, and the bytes behind them are ignored |
| CardLines.PivSelectIsRead | freerdp-3.28.0/tools/smartcard-interpreter.py:235-274 | a PIV response to SELECT prints a line for every visited element, with the label of its tag and its own bytes (or NIST RID), if and only if every element fits; with a type that is not FCI the same line for each |
| CardLines.PivDataIsRead | freerdp-3.28.0/tools/smartcard-interpreter.py:316-377 | a PIV response to GET DATA prints, under 5fc102 and 5fc107, every visited element with the label of its tag (a capability of length 0 not at all), under 5fc105 nothing, otherwise every element as unimplemented, if and only if every expiration date decodes |
| CardLines.FcpIsRead | freerdp-3.28.0/tools/smartcard-interpreter.py:416-444 | an FCP response prints a heading and every visited element with the label of its tag and its own bytes if and only if none is a DF name; under a tag other than 0x62 it prints nothing |
| CardLines.FcpTemplateIsRead | freerdp-3.28.0/tools/smartcard-interpreter.py:416-444 | an encoded FCP template is read back element by element if and only if no visited element is a DF name |
| CardLines.FciPrints | freerdp-3.28.0/tools/smartcard-interpreter.py:446-492 | an FCI response likewise, unless an element is an application label; under a tag other than 0x61 it prints nothing |
| CardLines.TokensAreGiven | freerdp-3.28.0/tools/smartcard-interpreter.py:468-484 | on any bytes the capability tokens are exactly the flags of the byte after each capability header |
| CardLines.CollectStops | freerdp-3.28.0/tools/smartcard-interpreter.py:324-377 | a reading that fails raises the exception of the first element that does not fit |
| SessionHistory.RunReadsOff | freerdp-3.28.0/tools/smartcard-interpreter.py:585-726 | on every log without exception, last command, select type, length, application and its memory are what a backward look at the log gives, with the bytes of a command read as `CommandBytes` says |
| SessionHistory.RememberedSnoc | freerdp-3.28.0/tools/smartcard-interpreter.py:653-678 | memory is kept while the same AID stays selected, replaced by a GET DATA that stores, and lost with the application |
| SessionHistory.StillSelectedIsSelected | freerdp-3.28.0/tools/smartcard-interpreter.py:653-654 | an application whose AID every later SELECT repeats is the one selected now |
| CommandBytes.CommandNames | freerdp-3.28.0/tools/smartcard-interpreter.py:627-628 | which instruction bytes are SELECT, VERIFY, GET DATA, GET RESPONSE, MSE and PSO, and that no other byte is |
| CommandBytes.SelectsByAid | freerdp-3.28.0/tools/smartcard-interpreter.py:630-654 | after any surviving log, a SELECT by AID, over its bytes: the AID, the type for p2 of 0, 4 and 8, the length, and memory kept only for the same AID |
| CommandBytes.SelectsOtherwise | freerdp-3.28.0/tools/smartcard-interpreter.py:630-636 | any other SELECT sets the length and nothing else; one by file fails without the two bytes of the file |
| CommandBytes.Kinds | freerdp-3.28.0/tools/smartcard-interpreter.py:553-563 | which AIDs are PIV, GIDS and GlobalPlatform |
| CommandBytes.PivRemembers | freerdp-3.28.0/tools/smartcard-interpreter.py:276-314 | a PIV application remembers the three bytes of the tag it is asked for, or those there are |
| CommandBytes.PivKeeps | freerdp-3.28.0/tools/smartcard-interpreter.py:276-314 | any other PIV GET DATA keeps the memory, or fails exactly when a byte it prints is not there |
| CommandBytes.GidsRemembers | freerdp-3.28.0/tools/smartcard-interpreter.py:506-518 | a GIDS application remembers the data object of the length given, or the bytes there are |
| CommandBytes.GidsKeeps | freerdp-3.28.0/tools/smartcard-interpreter.py:506-518 | any other GIDS GET DATA keeps the memory, or fails without two data bytes |
| CommandBytes.OthersRemember | freerdp-3.28.0/tools/smartcard-interpreter.py:144-198 | a GlobalPlatform application remembers p1 * 256 + p2, an unknown one nothing, and neither fails |
| CommandBytes.Verifies | freerdp-3.28.0/tools/smartcard-interpreter.py:657-671 | a VERIFY fails exactly when its data bytes but the last two are not text |
| CommandBytes.KeepsState | freerdp-3.28.0/tools/smartcard-interpreter.py:680-697 | every other command leaves the state but for the name of the command; MSE and PSO fail exactly without an application |
| SessionSafety.SurvivesIff | freerdp-3.28.0/tools/smartcard-interpreter.py:624-726 | a log is read without exception if and only if every line fits the lines before it, by guards on its bytes and on the earlier lines: lengths, selected application, select type, decodable PIN, the elements in the body, and a VERIFY response only for applications that have one |
| SessionSafety.EndsUndefinedIff | freerdp-3.28.0/tools/smartcard-interpreter.py:630-723 | a run ends on an application, select type or length that was never set if and only if a line reached without exception is a GET DATA, MSE or PSO, or a response with a body to a dispatched command, with no application selected, or such a response to SELECT with no known select type |
| SessionSafety.NoApplicationExample | freerdp-3.28.0/tools/smartcard-interpreter.py:653-678 | a log of one GET DATA does |
| SessionSafety.NeverUndefined | freerdp-3.28.0/tools/smartcard-interpreter.py:630-723 | so if the first command is a SELECT by AID with a known type, it never does |
| SessionSafety.CommandsDecide | freerdp-3.28.0/tools/smartcard-interpreter.py:598-726 | a log is read without exception if and only if its commands alone are and every response fits the commands before it; then leaving out all responses and skipped lines leaves the state as it is |
| SessionSafety.ReadingDependsOnCommands | freerdp-3.28.0/tools/smartcard-interpreter.py:699-726 | a response is read the same after any two surviving logs with the same commands |
| SessionOutput.ReceiveShows | freerdp-3.28.0/tools/smartcard-interpreter.py:699-726 | in every state a response ending in sw1 and sw2 prints the status sw1 * 256 + sw2, alone, with the body as it is, or with the lines its application reads it as, or it raises the exception of that reading |
| SessionOutput.LineIsRead | freerdp-3.28.0/tools/smartcard-interpreter.py:585-726 | after any surviving log, what the next line prints or the exception it raises, in terms of its bytes and of what can be read off the log |
| SessionLoop.Application.GetData | freerdp-3.28.0/tools/smartcard-interpreter.py:276-518 | the four getData methods store what the specification says and raise an exception exactly when the bytes are too short; `CommandBytes` says what that is over the bytes |
| SessionLoop.Application.SelectResult | freerdp-3.28.0/tools/smartcard-interpreter.py:141-504 | selectResult of the four applications, changing nothing |
| SessionLoop.Application.GetDataResult | freerdp-3.28.0/tools/smartcard-interpreter.py:147-531 | getDataResult of the four applications, changing nothing |
| SessionLoop.Interpreter.SendCommand | freerdp-3.28.0/tools/smartcard-interpreter.py:625-697 | a command updates the variables and the application object as the step function says |
| SessionLoop.Interpreter.ReadResponse | freerdp-3.28.0/tools/smartcard-interpreter.py:699-726 | a response is dispatched on the last command and modifies nothing |
| SessionLoop.Interpreter.Interpret | freerdp-3.28.0/tools/smartcard-interpreter.py:585-726 | the main loop ends with the state read off the log, or at the first exception; each output is the one the bytes of its line and the lines before it call for (status, body or lines; nothing of its own for a command), and so is the exception |
| NumberText.PadHexaReadsBack | freerdp-3.28.0/scripts/fetch_language_identifiers.py:54-56 | padhexa read as hexadecimal gives the number back if and only if it is not negative |
| NumberText.PadHexaWidth | freerdp-3.28.0/scripts/fetch_language_identifiers.py:54-56 | a number of k hexadecimal digits (the least power of 16 above it is the k-th) is printed with k digits, or with eight if k is smaller; of a negative one the x counts as a digit |
| NumberText.HexDigitsAreDigits | freerdp-3.28.0/scripts/fetch_language_identifiers.py:54-56 | every number has exactly one such k, and its hexadecimal digit string has that length |
| NumberText.PadHexaInjective | freerdp-3.28.0/scripts/fetch_language_identifiers.py:54-56 | different integers print differently, negative ones included |
| NumberText.RenderReadsBack | freerdp-3.28.0/scripts/fetch_language_identifiers.py:81-88 | in every base with a format the printed number reads back, except exactly the negative numbers of bases 0 and 16 |
| NumberText.DigitsDenote | freerdp-3.28.0/scripts/fetch_language_identifiers.py:81-87 | the digits printed in a base denote the number in that base |
| NumberText.DigitsWidth | freerdp-3.28.0/scripts/fetch_language_identifiers.py:81-87 | and as few digits as that takes: no leading zero |
| LanguageTable.IntColumnFillsDown | freerdp-3.28.0/scripts/fetch_language_identifiers.py:73-97 | in an integer column a cell that cannot be parsed is written as the most recent number parsed above it |
| LanguageTable.IntColumnStartsWithNone | freerdp-3.28.0/scripts/fetch_language_identifiers.py:73-97 | such a cell is written as the word None while no number has been parsed above it |
| LanguageTable.TextColumnFillsDown | freerdp-3.28.0/scripts/fetch_language_identifiers.py:98-104 | elsewhere an empty cell is written as the most recent text above it |
| LanguageTable.TextColumnStartsWithNone | freerdp-3.28.0/scripts/fetch_language_identifiers.py:98-104 | and as the word None in quotes while there is none |
| LanguageTable.NumberIsWritten | freerdp-3.28.0/scripts/fetch_language_identifiers.py:79-94 | a cell that parses is written as its number in the format of the base |
| LanguageTable.TextIsWritten | freerdp-3.28.0/scripts/fetch_language_identifiers.py:98-104 | in a text column any other cell that is not empty is written as it is, in quotes |
| LanguageTable.UntypedRowFits | freerdp-3.28.0/scripts/fetch_language_identifiers.py:73-105 | without a typemap a row ends in an index error if and only if there is a cell other than the word None beyond the 32nd |
| LanguageTable.TypedRowFits | freerdp-3.28.0/scripts/fetch_language_identifiers.py:73-105 | with a typemap of at most 32 columns if and only if a cell beyond it is no number or is beyond the 32nd |
| LanguageTable.WriteCell | freerdp-3.28.0/scripts/fetch_language_identifiers.py:79-105 | one cell changes at most its own entry of the carried list, and fails exactly when an index is out of range |
| LanguageTable.WriteLine | freerdp-3.28.0/scripts/fetch_language_identifiers.py:76-105 | after a row the carried list is the column-wise history of all rows so far |
| LanguageTable.WriteStruct | freerdp-3.28.0/scripts/fetch_language_identifiers.py:73-106 | the text is that of the rows from first to last, each with its pieces as they are written below the rows before it, or the run ends at the first cell out of range |
| LanguageTable.RowIsWritten | freerdp-3.28.0/scripts/fetch_language_identifiers.py:74-106 | a row is written as an opening bracket, its pieces with a comma and a space after a number and a comma and a tab after a text but nothing after the last, and a closing bracket |
| LanguageTable.TableIsWritten | freerdp-3.28.0/scripts/fetch_language_identifiers.py:73-106 | the table is the rows from any row on, one after the other, behind the rows before it |
| LanguageLine.LineIsOrdered | freerdp-3.28.0/scripts/fetch_language_identifiers.py:91-102 | with inv the numbers come first, reversed, then the other cells in order; without it every cell is in its place |
| LanguageLine.OrderedIsPermutation | freerdp-3.28.0/scripts/fetch_language_identifiers.py:91-102 | the reordering loses and adds no cell |
| LanguageLine.TrimmedLine | freerdp-3.28.0/scripts/fetch_language_identifiers.py:106 | for any row with a cell, dropping two characters drops the last separator and nothing else |
| LanguageLine.LineIsSeparated | freerdp-3.28.0/scripts/fetch_language_identifiers.py:91-106 | the printed line is the ordered pieces with the separator of each between it and the next |

## Left out

- SessionLoop.Interpreter.Interpret: does not model the lines printed for a command, which are texts looked up in tables; every state change a command makes is modelled.
- Keys that are no codes, and keys of 0x2000 or more (LEC) or 0x400 or more (LOM), for which the programs define no value.
- Printing of the tables, and the Huffman code lengths, which these files do not hold.
- Reading log files, finding the hexadecimal part of a line and decoding it: a log is a sequence of commands, responses and skipped lines.
- Printed wording: a line printed by a response is an `Item` with its label and bytes; the length byte and the tag asked for, which some lines repeat, are not in it.
- UTF-8 decoding: which bytes decode is a parameter.
- getErrorCode, the texts of commands, identifiers and error codes.
- The four application classes are one class with the kind of its AID; its `memory` stands for `lastGet`, `lastDo` or `lastGetData`.
- Fetching and parsing the web pages, and the struct header: rows are the input. Integer parsing in a base is a parameter.
- specBytesToCode.py, conv_to_ewm_prop.py, update-windows-zones.py and test-scard.cpp are not part of this model.
