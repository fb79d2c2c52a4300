# Printers and readers of the IMS REST service, verified

The service turns REST requests into IMS commands, sends them to an IMSplex, and turns the responses into JSON, tables
and lists of records. This project models the four places where that is done by hand-written printers and readers, and
proves what they keep, what they undo and where they fail to.

- **JSON** (`json/java`). `JsonPrinter` is the serializer class with its layout hooks and its sanitising override,
  `JsonTokenizer` and `JsonParser` are the repository's own reader, `OrderedJsonObject` is the object that keeps a key
  list beside its hash map, `JsonNumbers` and `JsonValues` are what they work on. `StringRoundTrip`, `TokenRoundTrip`,
  `JsonRoundTrip` and `JsonFidelity` connect printer and reader; `Rfc8259` is a second reader, written from RFC 8259;
  `StandardJson` connects the printer to that one, and `ParserAgreement` the two readers. `TokenGrammar`,
  `TokenizerLaws` and `ParserGrammar` say which texts the repository's reader takes, and as what. `VerboseLayout` says
  what the verbose printer's lines are, `Redaction` what the sanitising serializers hide, `InsertionOrder` what a history
  of operations leaves.
- **Commands** (`utils`, `application/rest`). `Type2Command` and `Type1Command` build command texts, `EssentialCommand`
  is the bracket-counting extractor, `CommandMeaning`, `CommandReading` and `CommandWords` say what a command means and
  that its text can be read in only one way. `CommandTokens` is a reader for command texts, with which `CommandReader` and
  `Type1Reading` read back what was put into them.
- **Fixed-width responses** (`om/fid`). `FidReader` holds the reader class, `FidTags`, `FidColumns`, `FidContinuation`
  and `FidLookups` what its parts mean, `FidDisplay` what the whole does.
- **Tables** (`om/result`). `ResultTable` normalises keys, lays out columns and prints a type-2 response;
  `TableReading` reads the printed table back.

Code that changes things step by step is a class or a method with loops, proved equal to a specification function; the
laws are lemmas about those functions. A method's error results are values of `Result`. Text is ASCII in commands,
responses and printed JSON; JSON strings are sequences of UTF-16 code units, lone surrogates included. A number is a
64-bit integer, or any other numeral of section 6 of RFC 8259 by its text, or NaN or an infinity, apart from which of
the Java number classes holds it. Reflection over annotated fields is an ordered list of optional fields; the four
serializer classes are one class with a `Style` (layout hooks, and whether values are cleansed), which is what virtual
dispatch selects between. The map iteration order of an unordered JSON object is the order of the entries in the
model's object, whatever that is.

What a reader may not expect of the code. Where a law holds only on a condition, the condition is proved exact:

- The serializer writes U+0000 as backslash zero (`Serializer.java:160`). RFC 8259 has no such escape, so the output is
  standard JSON if and only if no string has that character; and the tokenizer takes backslash zero for the start of an
  octal escape, so the repository's own round trip fails exactly when U+0000 stands right before an octal digit. Of three
  octal digits the tokenizer reads the third again as text (`Tokenizer.java:206-225`).
- NaN and infinities are written as null and so do not come back. Nor does an integer beyond 64 bits, such as 2^63 held
  by a `BigInteger`, or a numeral that starts with a zero and has an exponent and no point, such as `0E+3`: the tokenizer
  takes them for a `Long` and for an octal numeral and throws (`Tokenizer.java:275-308`). Every other finite number comes
  back, decimals by their text: see below on rounding.
- `OrderedJSONObject.clone` assigns the copied list inside its loop (`OrderedJSONObject.java:166-177`): the clone of an
  empty object shares the order list with the original, and a first put on the clone leaves the original listing a key
  that it does not hold.
- The extractor gives back what was wrapped if and only if that is balanced.
- The type-1 commands delete the last character after the route loop (`RegionService.java:165`, `PgmService.java:290`).
  When the parameter is only commas and blanks, such as `","`, no route is appended and the deleted character is the
  bracket after ROUTE.
- A SET, LIKE or QCNT clause without a populated attribute has no space after it, so that the next clause follows
  without a separator: the words of a command are separated by single spaces exactly when no clause but the last is such
  a one. The text can still be read in only one way.
- An underscore in a clause becomes a dash, so a meaning is told in dashes; verb, resource and routes keep theirs.
- Of the rewrites of a header key only the first that applies is done, so a key with a dash and a slash keeps the slash.
- A header line is looked at in its ninth place, so that a shorter one makes `parseResults` throw
  (`FIDReader.java:142`); so does a first header line that is blank there, and a later one that is, when the first one
  has no key to lend. With the tags in their places and their widths known, nothing else does.
- A header text is trimmed before it is cut, so that a blank column before the first name shifts all the others.
- Continuation lines merge into the records of their members, one record a continuation line, if and only if no two
  consecutive members have the same name; a group line in between does not separate them. A member on a single line gives
  no record at all, and a line without MEMBER makes the merging throw.
- A STOP REGION command that names regions and a job and cancels both has no blank between CANCEL and JOBNAME
  (`RegionService.java:139-143`), so that they are read as one word; for any other parameters it says what it should.
- The parser looks at one token behind the object it reads, so that a text is refused for what follows its object.
- `toStringAsTable` ends if and only if some row has text under some header. A header whose label is not trimmed lower
  case never finds its column, because the keys of the rows have been normalised. With no rows, a width of `*` stays as
  it is and is no number, so the method fails instead (`OmResultSet.java:211-233`).

## Model

| member | source | states |
|---|---|---|
| JsonPrinter.Serializer.WriteString | ims/src/main/java/json/java/Serializer.java:146-183 | appends exactly the quoted, escaped form of the string, whatever code units it holds, lone surrogates included |
| JsonPrinter.Serializer.WriteNumber | ims/src/main/java/json/java/Serializer.java:86-106 | null for NaN and both infinities, and for any other number the text of section 6 of RFC 8259 that denotes exactly that number |
| JsonNumbers.TextDenotes | ims/src/main/java/json/java/Serializer.java:103 | what `toString` gives for a finite number, read as a numeral of section 6, is that number: integers of any sign and size, and decimals |
| JsonPrinter.Serializer.PadWithZeros | ims/src/main/java/json/java/Serializer.java:127-139 | inserting zeros at the front one by one gives the text aligned to the asked width; longer text is kept whole |
| JsonPrinter.Serializer.Write | ims/src/main/java/json/java/Serializer.java:190-199 | appends the text of any value at the current depth in the style of the serializer, changes nothing written before, and restores the indent depth |
| JsonPrinter.Serializer.WriteObject | ims/src/main/java/json/java/Serializer.java:206-249 | one line an entry in visiting order, a comma after all but the last, for the plain and (with cleansing) the sanitising classes; depth as found, popped never below zero |
| JsonPrinter.Serializer.WriteArray | ims/src/main/java/json/java/Serializer.java:256-282 | the same for arrays; objects nested in arrays go through the same overridable object writer |
| JsonPrinter.Serializer.IndentPop | ims/src/main/java/json/java/internal/SerializerVerbose.java:78-82 | lowers the depth by one; its precondition, met at both calls, is that the exception for a negative depth is never thrown |
| StringRoundTrip.WrittenStringsAreEscaped | ims/src/main/java/json/java/Serializer.java:146-183 | every written string uses only characters 32 to 126, has no bare quote but the two around it, and after every escaping backslash there is one more character, or `u` and four hex digits |
| StringRoundTrip.HexDigits | ims/src/main/java/json/java/Serializer.java:127-139 | the digits after `u` are exactly four hex digits and denote the code unit |
| JsonTokenizer.Tokenizer.Next | ims/src/main/java/json/java/internal/Tokenizer.java:80-137 | reads exactly the token, and leaves exactly the rest, that the token grammar of the model gives, or fails with the same error |
| JsonTokenizer.Tokenizer.ReadString | ims/src/main/java/json/java/internal/Tokenizer.java:145-241 | reads a quoted string with its escapes up to the closing quote, for any text, unterminated and malformed ones included |
| JsonTokenizer.Tokenizer.ReadOctal | ims/src/main/java/json/java/internal/Tokenizer.java:205-230 | reads up to three octal digits, of which a third one stays to be read again |
| JsonTokenizer.Tokenizer.ReadHex | ims/src/main/java/json/java/internal/Tokenizer.java:177-204 | reads the asked number of hex digits or fails |
| JsonTokenizer.Tokenizer.ReadNumber | ims/src/main/java/json/java/internal/Tokenizer.java:255-316 | takes the longest run of number characters and converts it as decimal, octal, hexadecimal or floating point, or fails |
| TokenizerLaws.CharactersAreKept | ims/src/main/java/json/java/internal/Tokenizer.java:157-162 | any text between quotes of either kind without that quote and a backslash is read as UTF-16 code units that a decoder of its own turns back into exactly this text, and the rest is not touched |
| TokenGrammar.EscapesTaken | ims/src/main/java/json/java/internal/Tokenizer.java:163-230 | which characters may follow a backslash: nine letters and marks, an octal digit, x with two hex digits, u with four; anything else is refused |
| TokenizerLaws.LetterEscapesRead | ims/src/main/java/json/java/internal/Tokenizer.java:163-176 | the unit that each escape of one letter stands for |
| TokenizerLaws.HexEscapesRead | ims/src/main/java/json/java/internal/Tokenizer.java:177-204 | the escapes of two and of four hex digits stand for the number of these digits |
| TokenGrammar.OctalEscapesRead | ims/src/main/java/json/java/internal/Tokenizer.java:205-230 | one, two or three octal digits stand for their number, and a third one is read again as a character |
| TokenGrammar.OpenStringsRefused | ims/src/main/java/json/java/internal/Tokenizer.java:145-156 | a string without its closing quote is refused |
| TokenGrammar.WordsTaken | ims/src/main/java/json/java/internal/Tokenizer.java:118-130 | a word of letters is true, false, or null, which `undefined` means too, or is refused |
| TokenGrammar.FirstCharacters | ims/src/main/java/json/java/internal/Tokenizer.java:80-137 | the characters with which a token can start; with any other the text is refused as unexpected |
| TokenizerLaws.OtherRadixesRead | ims/src/main/java/json/java/internal/Tokenizer.java:275-308 | hexadecimal and octal numerals, signed or not, are read as the number they denote if it fits in 64 bits and refused otherwise |
| TokenGrammar.DecimalsTaken | ims/src/main/java/json/java/internal/Tokenizer.java:262-273 | the numerals with a point or an exponent that are taken are exactly those with a sign or none, digits before or behind the point, and an exponent or none |
| JsonParser.Parser.Parse | ims/src/main/java/json/java/internal/Parser.java:58-61 | the recursive-descent run over the held token and the tokenizer is the parse function on the whole text, for any text |
| JsonParser.Parser.ParseObject | ims/src/main/java/json/java/internal/Parser.java:80-128 | entries in order, later ones of a key replacing the value in place; trailing commas accepted; the same errors |
| JsonParser.Parser.ParseArray | ims/src/main/java/json/java/internal/Parser.java:145-178 | elements in order, trailing commas accepted; the same errors |
| JsonParser.Parser.ParseValue | ims/src/main/java/json/java/internal/Parser.java:197-237 | dispatch on the held token, containers recursively, for every token |
| ParserGrammar.ParserTakes | ims/src/main/java/json/java/internal/Parser.java:58-237 | the parser takes a text if and only if it starts with the tokens of an object by a grammar told without the parser, where one comma may stand behind the last item, and nothing unreadable follows; the result is then what the grammar says the object means |
| StringRoundTrip.StringRead | ims/src/main/java/json/java/internal/Tokenizer.java:145-241 | what the tokenizer makes of every written string, and that it touches nothing after the closing quote: U+0000 before an octal digit swallows that digit |
| TokenRoundTrip.NumberRead | ims/src/main/java/json/java/Serializer.java:86-106 | for any number and anything after it that ends a token: NaN and the infinities are read as null; a finite number is read as itself if it is a 64-bit integer, has a point, or has an exponent and no leading zero, and is refused otherwise |
| JsonRoundTrip.ValueRead | ims/src/main/java/json/java/Serializer.java:190-282 | for every tree, any blank layout, any depth and any rest that ends a token: the parser reads the tree as read back and then looks at one token of the rest, or stops with a number error if some number cannot be converted |
| JsonRoundTrip.StylesArePlain | ims/src/main/java/json/java/internal/SerializerVerbose.java:46-82 | the compact and the verbose serializer are two such layouts |
| VerboseLayout.VerboseLines | ims/src/main/java/json/java/internal/SerializerVerbose.java:46-82 | the verbose text of any value is the lines of its parts, one below the other, each indented by three blanks a bracket it stands in |
| JsonFidelity.WrittenThenParsed | ims/src/main/java/json/java/internal/Parser.java:58-128 | the same for whole objects, with both errors: a number that cannot be converted, or the one token of lookahead |
| JsonFidelity.RoundTrip | ims/src/main/java/json/java/Serializer.java:206-249 | in any blank layout an object comes back unchanged if and only if every number is finite and is a 64-bit integer, or has a point, or has an exponent and no leading zero, and no string has U+0000 right before an octal digit |
| JsonFidelity.WriteAndParse | ims/src/main/java/json/java/JSONObject.java:227-233 | the two classes run one after the other: result and exactness condition as in the two rows above |
| JsonFidelity.LossIsWeighed | ims/src/main/java/json/java/internal/Tokenizer.java:145-241 | whatever does not survive makes the tree read back strictly lighter, so no loss is ever made up for elsewhere |
| JsonFidelity.LayoutIsIrrelevant | ims/src/main/java/json/java/internal/SerializerVerbose.java:46-82 | overriding the whitespace hooks with any JSON whitespace changes nothing in what is parsed |
| JsonFidelity.NulBeforeDigitIsLost | ims/src/main/java/json/java/Serializer.java:160 | the concrete key U+0000 followed by the digit 1 is written as backslash, 0, 1 and comes back as U+0001 |
| JsonFidelity.BigIntegerIsRefused | ims/src/main/java/json/java/internal/Tokenizer.java:275-308 | every object that holds an integer beyond 64 bits, 2^63 for one, is written and then refused |
| JsonFidelity.ZeroWithExponentIsRefused | ims/src/main/java/json/java/internal/Tokenizer.java:287-290 | the number 0E+3 is written and then refused as an octal numeral |
| ParserAgreement.ParserAgrees | ims/src/main/java/json/java/internal/Parser.java:58-237 | on every text that starts with a standard object the parser gives what the RFC 8259 reader gives, repeated keys put one over the other, or the number error, exactly when some number is an integer beyond 64 bits or has a leading zero, an exponent and no point |
| StandardJson.StandardReading | ims/src/main/java/json/java/Serializer.java:146-282 | for every tree, a strict reader for RFC 8259 returns the tree, with null for numbers that are not finite, and exactly the rest, if and only if no string holds U+0000; and always when it also takes backslash zero |
| StandardJson.PrinterIsInjective | ims/src/main/java/json/java/Serializer.java:146-282 | equal texts, even in different blank layouts and with different rests that end a token, come from equal trees and rests, up to null standing for a number that is not finite |
| StandardJson.SameText | ims/src/main/java/json/java/Serializer.java:146-282 | in one layout, texts are equal if and only if the trees are, up to that same null |
| Redaction.SanitizedText | ims/src/main/java/json/java/SanitizeSerializer.java:36-86 | the sanitising printer on any value prints what the plain one prints on the tree with every value under a password key masked, at every depth |
| Redaction.RedactionMasks | ims/src/main/java/json/java/Sanitizer.java:19-33 | the redacted tree has the mask under every key that contains "password" in any case, and redaction changes nothing if and only if that was so before |
| Redaction.SecretMeans | ims/src/main/java/json/java/Sanitizer.java:27-30 | an entry is hidden if and only if the eight letters of "password", each small or capital, stand in its key one after the other |
| Redaction.EntryWritten | ims/src/main/java/json/java/SanitizeSerializer.java:84-86 | what a sanitising serializer writes for an entry: eight asterisks in quotes under such a key, and the value as it is under any other |
| Redaction.AgreeMeansSameRedaction | ims/src/main/java/json/java/SanitizeSerializer.java:84-86 | two trees have the same redaction if and only if they are the same but for what is below secret keys |
| Redaction.NothingElseIsHidden | ims/src/main/java/json/java/SanitizeSerializerVerbose.java:37-87 | two trees print identically when sanitised if and only if they differ only below secret keys, or in null and numbers that are not finite standing for each other |
| OrderedJsonObject.OrderedObject.Put | ims/src/main/java/json/java/OrderedJSONObject.java:100-125 | map and order list stay in agreement; the visible entries change as in an insertion-ordered association list; previous value returned |
| OrderedJsonObject.OrderedObject.Remove | ims/src/main/java/json/java/OrderedJSONObject.java:131-151 | the same for removal, absent keys included |
| OrderedJsonObject.OrderedObject.RemoveAll | ims/src/main/java/json/java/OrderedJSONObject.java:157-161 | leaves an agreeing, empty object, whatever the state before |
| OrderedJsonObject.OrderedObject.Perform | ims/src/main/java/json/java/OrderedJSONObject.java:100-161 | any sequence of put, remove and clear does to the object what it does to the association list |
| OrderedJsonObject.OrderedObject.Clone | ims/src/main/java/json/java/OrderedJSONObject.java:166-177 | equal entries and order; a list of its own if and only if the object is not empty |
| OrderedJsonObject.History | ims/src/main/java/json/java/OrderedJSONObject.java:100-186 | after every run from the empty object, each key is visited once, in order of its first put since it was last removed, with its last value |
| InsertionOrder.RunIsChronicle | ims/src/main/java/json/java/OrderedJSONObject.java:94-151 | the same as a law of the association list, told from the history alone and not from the operations |
| OrderedJsonObject.CloneIsIndependent | ims/src/main/java/json/java/OrderedJSONObject.java:166-177 | for a non-empty object any later operations on original and copy leave each other alone |
| OrderedJsonObject.CloneThenPut | ims/src/main/java/json/java/OrderedJSONObject.java:166-177 | one put of a new key on the copy leaves the original intact if and only if it was not empty; an empty original is left listing a key it does not hold |
| OrderedJsonObject.OrderedObject.WriteTo | ims/src/main/java/json/java/Serializer.java:213-240 | the printer emits the visited entries in that order |
| Type2Command.Type2CommandSerializable.FromType2CommandObject | ims/src/main/java/utils/Type2CommandSerializable.java:79-158 | the whole command text for any command object, ROUTE suffix included |
| Type2Command.Type2CommandSerializable.Parse | ims/src/main/java/utils/Type2CommandSerializable.java:167-222 | appends the clauses of a sub-command in declaration order with every underscore turned into a dash |
| Type2Command.Type2CommandSerializable.ParseField | ims/src/main/java/utils/Type2CommandSerializable.java:167-222 | one field: nothing for null, a nested object for SET, LIKE and QCNT of the right resource, a list or a single value otherwise |
| Type2Command.Type2CommandSerializable.RetrieveSetSingle | ims/src/main/java/utils/Type2CommandSerializable.java:413-460 | appending with separators and stripping the last one is a clean join of the populated entries |
| Type2Command.Type2CommandSerializable.RetrieveLikeSingle | ims/src/main/java/utils/Type2CommandSerializable.java:469-517 | the same, with its third formatting call |
| Type2Command.Type2CommandSerializable.RetrieveQCNT | ims/src/main/java/utils/Type2CommandSerializable.java:362-403 | the same with a bare comma between the values |
| Type2Command.Type2CommandSerializable.RetrieveRouteCommand | ims/src/main/java/utils/Type2CommandSerializable.java:284-295 | ROUTE with the routes joined by commas |
| Type2Command.Type2CommandSerializable.RetrieveListCommand | ims/src/main/java/utils/Type2CommandSerializable.java:271-278 | a list clause joined by comma and space |
| Type2Command.StripsToJoin | ims/src/main/java/utils/Type2CommandSerializable.java:413-460 | dropping the trailing separator characters of an appended list leaves the join, whatever the items contain |
| Type2Command.ThirdFormatDoesNothing | ims/src/main/java/utils/Type2CommandSerializable.java:469-517 | the last formatting call of LIKE never changes anything |
| CommandText.StringBuilder.Format | ims/src/main/java/utils/Type2CommandSerializable.java:559-563 | drops one trailing comma or space and nothing else |
| CommandMeaning.BodyIs | ims/src/main/java/utils/Type2CommandSerializable.java:79-222 | between the outer brackets stand verb, resource and the written clauses, one space before each clause except after one with nothing in it |
| CommandReading.CommandIsBalanced | ims/src/main/java/utils/Type2CommandSerializable.java:96-129 | every clean command is balanced, ROUTE included, and its first bracket closes right after the body |
| CommandReading.ExtractsWords | ims/src/main/java/application/rest/OMServlet.java:306-324 | the extractor returns verb, resource and clauses separated by single spaces, with or without ROUTE, if and only if every clause but the last has an item |
| CommandReading.EmptyClauseJoins | ims/src/main/java/utils/Type2CommandSerializable.java:234-263 | a clause without items is followed by the next one without a space |
| CommandReading.UniqueReadability | ims/src/main/java/utils/Type2CommandSerializable.java:79-158 | equal texts come from commands with the same verb, resource, clauses in order with their items, and routes |
| CommandWords.PlainWordsAreClean | ims/src/main/java/utils/Type2CommandSerializable.java:167-295 | a command whose words are free of brackets, commas and spaces is clean, so that the three rows above apply |
| CommandWords.WordsDetermineMeaning | ims/src/main/java/utils/Type2CommandSerializable.java:79-295 | unique readability from that condition on what the caller put in |
| CommandReader.CommandIsReadBack | ims/src/main/java/utils/Type2CommandSerializable.java:79-295 | reading the text of any command made of words with a reader of words, brackets and commas gives back verb, resource, the clauses in declaration order with each populated attribute as its name before the bracket and its value inside, dashes for underscores, and the routes |
| CommandReader.ListField | ims/src/main/java/utils/Type2CommandSerializable.java:271-278 | the exact text of a list clause: a comma and a space between items, and a space behind the bracket |
| CommandReader.SingleField | ims/src/main/java/utils/Type2CommandSerializable.java:260-262 | the exact text of a single value, whatever it holds |
| CommandReader.SetField | ims/src/main/java/utils/Type2CommandSerializable.java:413-460 | the exact text of a SET clause of two populated attributes and one that is not, digits of the field name left out |
| CommandReader.QcntField | ims/src/main/java/utils/Type2CommandSerializable.java:362-403 | the exact text of a QCNT clause: values with a bare comma between them |
| CommandReader.TwoRoutes | ims/src/main/java/utils/Type2CommandSerializable.java:284-295 | the exact text of a ROUTE with two routes |
| EssentialCommand.ExtractEssentialCommand | ims/src/main/java/application/rest/OMServlet.java:306-324 | the bracket-counting loop returns the text up to where the opening bracket closes, trimmed, for any text, unclosed ones included |
| EssentialCommand.ExtractsExactlyBalanced | ims/src/main/java/application/rest/OMServlet.java:306-324 | the extractor gives back the wrapped text, trimmed, if and only if that text is balanced |
| EssentialCommand.UnclosedIsTrimmed | ims/src/main/java/application/rest/OMServlet.java:306-324 | a text whose opening bracket is never closed, or a shorter one, comes back whole and trimmed |
| EssentialCommand.UnbalancedIsCut | ims/src/main/java/application/rest/OMServlet.java:306-324 | a concrete body that closes a bracket it did not open, and does not come back |
| Type1Command.Stop | ims/src/main/java/application/rest/services/RegionService.java:123-167 | the STOP REGION text for any parameters, region ranges and a missing or empty route list included |
| Type1Command.Start | ims/src/main/java/application/rest/services/RegionService.java:225-251 | the START REGION text |
| Type1Command.Display | ims/src/main/java/application/rest/services/RegionService.java:306-323 | the DIS ACT REGION text |
| Type1Command.StartPgm | ims/src/main/java/application/rest/services/PgmService.java:273-292 | the STA PGM text |
| Type1Command.SplitIsEmpty | ims/src/main/java/application/rest/services/RegionService.java:161 | splitting the route parameter gives no route at all if and only if it is made of commas with blanks between, and has a comma |
| Type1Command.Type1IsExtracted | ims/src/main/java/application/rest/services/RegionService.java:123-167 | for bracket-balanced words the extractor returns the bracketed words and the option, whatever the route |
| Type1Command.Type1Balance | ims/src/main/java/application/rest/services/RegionService.java:123-167 | the whole text is balanced if and only if the route parameter, if given, is not only commas and blanks: otherwise the bracket of ROUTE is deleted |
| Type1Command.CommaIsNoRoute | ims/src/main/java/application/rest/services/RegionService.java:306-323 | the route parameter of one comma gives no route and an unbalanced command |
| Type1Reading.SplitOfSpread | ims/src/main/java/application/rest/services/RegionService.java:125-132 | splitting a list at its commas gives back its items, whatever blanks stand around the commas |
| Type1Reading.TokensOfType1 | ims/src/main/java/application/rest/services/RegionService.java:123-167 | read as words, brackets and commas, any type-1 text is the words given in two brackets, the option, and the routes of the parameter in order |
| Type1Reading.StopTold | ims/src/main/java/application/rest/services/RegionService.java:123-152 | the words of a STOP REGION command for any parameters, one region or the first two of a list with a dash between |
| Type1Reading.StopSaysWhatItShould | ims/src/main/java/application/rest/services/RegionService.java:123-152 | these are keywords and parameters one by one if and only if the command does not name regions and a job and cancel both: then CANCEL and JOBNAME run into one word |
| Type1Reading.StartTold | ims/src/main/java/application/rest/services/RegionService.java:225-240 | the words of a START REGION command: a job is named only where a member is |
| Type1Reading.StartPgmTold | ims/src/main/java/application/rest/services/PgmService.java:273-280 | the words of STA PGM, ALL if no names are given, and of DIS ACT REGION |
| FidTags.TagsMean | ims/src/main/java/om/fid/FIDReader.java:516-526 | the tags are distinct, are those of the lines without an asterisk, and each is first seen on a line of its own |
| FidTags.TagsInOrder | ims/src/main/java/om/fid/FIDReader.java:516-526 | the tags stand in the order in which they are first seen |
| FidTags.ReverseInPlace | ims/src/main/java/om/fid/FIDReader.java:541-546 | the swapping loop over the first half reverses the array, for odd and even lengths |
| FidReading.FidReader.ProcessFids | ims/src/main/java/om/fid/FIDReader.java:514-571 | the number of header lines, and all links afterwards: what was there, overwritten by the links of this response and nothing else; the errors for short lines and for no tag at all |
| FidReading.FidReader.PairInHalves | ims/src/main/java/om/fid/FIDReader.java:530-562 | reversing, placeholders and the counting loop together link every tag of the later half, odd counts included, and leave no placeholder |
| FidTags.LinksPairValuesWithHeaders | ims/src/main/java/om/fid/FIDReader.java:530-562 | for 2n or 2n + 1 tags of an OTMA command: n headers, every tag behind them linked to the tag n places before it, so that with 2n tags the i-th value tag leads to the i-th header tag; all other links unchanged |
| FidTags.LinksLeadToTheHeader | ims/src/main/java/om/fid/FIDReader.java:530-562 | for any other command: one header, to which every later tag is linked, all other links unchanged |
| FidReading.FidReader.CutKeys | ims/src/main/java/om/fid/FIDReader.java:145-212 | the key loop cuts, normalises and collects exactly the non-blank cuts; no cut is out of range |
| FidReading.FidReader.NormalKey | ims/src/main/java/om/fid/FIDReader.java:181-208 | the branches that rewrite a key, and that blank cuts give none |
| FidColumns.KeysHaveNoDash | ims/src/main/java/om/fid/FIDReader.java:181-208 | no key has a dash; a key keeps a slash if and only if its cut has both a slash and a dash, because only one of the rewrites is done |
| FidColumns.KeyMeans | ims/src/main/java/om/fid/FIDReader.java:181-208 | what the key of a cut is, from what can be seen of the cut: underscores for dashes; STRUCTURE_NAME and MEMBER for two names; else the text without its slashes; else the text itself |
| FidColumns.KeysOfLayout | ims/src/main/java/om/fid/FIDReader.java:145-212 | names laid out in the columns of a header text have exactly the keys of these names, in order |
| FidLookups.OwnKeys | ims/src/main/java/om/fid/FIDReader.java:145-212 | a header line has a key of its own if and only if its tag has widths and something stands behind its tag |
| FidLookups.HeaderKeysAre | ims/src/main/java/om/fid/FIDReader.java:124-213 | a header line of laid-out names has their keys in order, and in front of them the first key of the first header if and only if its ninth place is blank |
| FidLookups.HeadersHold | ims/src/main/java/om/fid/FIDReader.java:117-213 | in a whole response, each header tag stands for the keys of its own names in order, behind the first key of the first header line if its ninth place is blank |
| FidReading.FidReader.ReadHeader | ims/src/main/java/om/fid/FIDReader.java:117-213 | the keys of a header line, the borrowed first key when the ninth place is blank, and the errors |
| FidColumns.SlicesKeepTheText | ims/src/main/java/om/fid/FIDReader.java:145-180 | for any non-empty width list the cuts of a header text concatenate to exactly that text |
| FidColumns.SlicesAreAsWide | ims/src/main/java/om/fid/FIDReader.java:145-180 | no cut is wider than its column, and one that is narrower has nothing after it |
| FidColumns.CutsRecoverNames | ims/src/main/java/om/fid/FIDReader.java:145-180 | header names laid out in their columns are cut out again if and only if no column with a width stands blank before the first name, since the text is trimmed before it is cut |
| FidColumns.SlicingInvertsLayout | ims/src/main/java/om/fid/FIDReader.java:222-256 | values laid out in columns, trailing blanks kept or cut, are read back if and only if they are trimmed and fit; keys beyond the columns get the empty value |
| FidReading.FidReader.PutValues | ims/src/main/java/om/fid/FIDReader.java:222-256 | the value loop gives every key its value, later duplicates overriding |
| FidReading.FidReader.ReadValues | ims/src/main/java/om/fid/FIDReader.java:217-261 | one value line to one new record with the member added, or the error of a failed lookup |
| FidLookups.RecordHoldsTheValues | ims/src/main/java/om/fid/FIDReader.java:217-261 | a value line that was laid out with fitting values has each key hold the value of its column, of equal keys the last, for fewer or more keys than columns |
| FidLookups.HeaderLinesFound | ims/src/main/java/om/fid/FIDReader.java:124-213 | given the header tags on their lines and widths for all tags: the header lines are read if and only if all have a ninth place, the first one not a blank there, and the first one has a key if a later one is blank there; the key lists are then those of exactly the header tags |
| FidLookups.LookupsNeverMiss | ims/src/main/java/om/fid/FIDReader.java:117-261 | on that same condition, and only then, the response is read; every value line before the first asterisk then finds header and keys and gives one record, in line order, whose keys are that header's and MBR |
| FidLookups.HeaderRefused | ims/src/main/java/om/fid/FIDReader.java:142 | any response whose only header line ends before its ninth place or is blank there throws, and which exception it is |
| FidLookups.BlankNinthPlace | ims/src/main/java/om/fid/FIDReader.java:142 | two concrete responses of that kind |
| FidContinuation.CoalesceContinuationLine | ims/src/main/java/om/fid/FIDReader.java:277-308 | the merging loop with its shared, still changing record objects: the contents of the returned objects for any list of lines |
| FidContinuation.MergesMembers | ims/src/main/java/om/fid/FIDReader.java:277-308 | for group lines and members of a first line and any number of continuation lines: one record a continuation line, with the first line, GROUP the last group seen, and all continuation lines laid over each other, if and only if consecutive members have different names |
| FidContinuation.MergingFails | ims/src/main/java/om/fid/FIDReader.java:283-284 | merging throws if and only if some line has no MEMBER, whatever else the lines hold |
| FidContinuation.RepeatedNamesAddRecords | ims/src/main/java/om/fid/FIDReader.java:289-303 | a member named like the one before it adds a record for its first line as well |
| FidContinuation.TwoMembersOfOneName | ims/src/main/java/om/fid/FIDReader.java:277-308 | two adjacent members of one name with one continuation line each give three records instead of two, all alike because they are one object |
| FidContinuation.SingleLineIsDropped | ims/src/main/java/om/fid/FIDReader.java:277-308 | a member without a continuation line gives no record at all |
| FidReading.FidReader.ParseResults | ims/src/main/java/om/fid/FIDReader.java:98-270 | the whole reader for any lines and command: the single-line error response, records in order, merging for OTMA displays, every failing lookup or cut, and the links afterwards |
| FidDisplay.CommandDecides | ims/src/main/java/om/fid/FIDReader.java:265-269 | what the command text decides: lines are merged if and only if both DIS and OTMA occur in it, and half of the tags head the response if and only if OTMA does |
| FidDisplay.DisplayIsTold | ims/src/main/java/om/fid/FIDReader.java:98-270 | a display in whose command DIS or OTMA does not occur, from its text to its result: one record a value line before the first asterisk, in line order and unmerged, telling what the line was laid out with, key by key |
| FidDisplay.DisplayIsMerged | ims/src/main/java/om/fid/FIDReader.java:98-308 | an OTMA display of laid-out lines, from its text to its result: the records of its members, telling what their lines and the group above them tell, if and only if no two consecutive members have one name |
| FidDisplay.OneLineIsAnError | ims/src/main/java/om/fid/FIDReader.java:106-113 | a response of one line gives one record that holds the line under the member and nothing else |
| FidDisplay.NothingToRead | ims/src/main/java/om/fid/FIDReader.java:98-120 | no line at all, a line without an asterisk that has no tag, or only lines with an asterisk in a command without OTMA: the response is refused as out of range |
| FidDisplay.LinksAreLeft | ims/src/main/java/om/fid/FIDReader.java:514-571 | the links that a response leaves to the next one: those of its own tags, told from the text of the command, and what was there before |
| ResultTable.ModifyKeys | ims/src/main/java/om/result/OmResultSet.java:120-142 | every slot of the array gets a new table with trimmed, lower-case keys and their values; the old tables are untouched |
| ResultTable.NormalisedTwice | ims/src/main/java/om/result/OmResultSet.java:120-142 | whatever the iteration order, normalising a second time changes nothing |
| ResultTable.NormalMeans | ims/src/main/java/om/result/OmResultSet.java:120-142 | a normal key is the key without what cannot be seen at its ends, its capitals made small and nothing else changed |
| ResultTable.Formatter.MeasureColumn | ims/src/main/java/om/result/OmResultSet.java:207-229 | the width of a column with an asterisk: the longest value, 4 if all are empty, and the asterisk itself when there are no rows |
| ResultTable.StarWidthIsParsed | ims/src/main/java/om/result/OmResultSet.java:207-233 | that width is a number exactly when there are rows |
| ResultTable.PadLoop | ims/src/main/java/om/result/OmResultSet.java:231-236 | the padding loops fill up to the width with blanks and never cut |
| ResultTable.Formatter.AddRow | ims/src/main/java/om/result/OmResultSet.java:261-282 | a trimmed, padded value or blanks for a missing or blank one, and whether the column has any text |
| ResultTable.FillIn | ims/src/main/java/om/result/OmResultSet.java:242-284 | all rows go into all columns, in order |
| ResultTable.StarColumnsAlign | ims/src/main/java/om/result/OmResultSet.java:207-280 | every cell of a column with an asterisk is as long as the longest value of the column, or 4 if no row has one that is not empty; so is the heading, unless its key is longer |
| ResultTable.NumberColumnsAlign | ims/src/main/java/om/result/OmResultSet.java:207-280 | every cell and heading of a column with a number is as long as the number says, or as its text if that is longer |
| ResultTable.OtherWidthsAreNumbers | ims/src/main/java/om/result/OmResultSet.java:231-233 | any width but an asterisk counts if and only if it is digits with a sign or none and fits in 32 bits, as the number it denotes |
| TableReading.TableIsReadBack | ims/src/main/java/om/result/OmResultSet.java:242-312 | cutting the printed table at line breaks and tabs and trimming the pieces gives back the names under which some row has something to see, in header order, and then, row by row, the trimmed values of the row under these names |
| ResultTable.UnmatchedLabel | ims/src/main/java/om/result/OmResultSet.java:60-67 | after key normalising, a label that is not itself trimmed lower case always names an empty column |
| ResultTable.StopsUnlessAllEmpty | ims/src/main/java/om/result/OmResultSet.java:295-312 | the round-by-round loop stops if and only if some column has text, then after exactly one round a row, with every access in range |
| ResultTable.TablePrintingStops | ims/src/main/java/om/result/OmResultSet.java:242-312 | the same told from headers and rows: it stops if and only if some row has text under some header |
| ResultTable.BlankTableNeverEnds | ims/src/main/java/om/result/OmResultSet.java:295-312 | one row with a blank under the only header keeps the loop running for any number of rounds |
| ResultTable.Print | ims/src/main/java/om/result/OmResultSet.java:286-312 | the loop itself, proved to end, leaves the heading line and one line a row |
| ResultTable.ToStringAsTable | ims/src/main/java/om/result/OmResultSet.java:183-312 | the type-2 table for any headers and rows: an error if a width is no number, otherwise the complete table when there is text to print |

## Left out

- Nested objects and arrays are values: the model's trees are immutable, so what a caller changes inside a nested
  `JSONObject` that is shared between two trees, and cyclic structures, are not modelled; the ordered object's own map
  and list are.
- The copy of `JSONObject.put` for embedded `HashMap`s, `parse(false)` into an unordered object, and the order in which
  an unordered object or the sorted verbose property list visits its keys, depend on library behaviour.
- JsonFidelity.RoundTrip: does not model the rounding of `Double.valueOf`, which is identified with its text; a decimal
  with more digits than a double holds, or beyond its range, comes back in the model and is rounded, or infinite, in the
  code. The class of a number is not compared either: an `Integer` comes back as a `Long`.
- Subclasses of `Number` whose `toString` is no numeral of section 6 of RFC 8259.
- Decoding UTF-8: the parser is given text.
- Line and column numbers in error messages, and the wording of errors: an error is a kind.
- `Character.isLetter` beyond ASCII, and raw lone surrogates in text given to the tokenizer.
- Lower and upper case beyond ASCII, in keys and in field names.
- LIKE on program resources: its text is the default text of an object.
- Null strings as keys, values or parameters where the source would throw at once; a header of a table without label or
  width is one of these.
- `FIDReader.buildFIDObjects` and its macro files: the map from tags to widths is an input.
- The type-1 branch of `toStringAsTable`, and `toStringAsTable_batch`, a copy of the branch that is modelled.
- Other commands of the REST services, IMS Connect, sockets, security, logging and resource bundles.
- ResultTable.ToStringAsTable: can be called only where it ends; that the loop does not end otherwise is
  ResultTable.TablePrintingStops.
