# A verified model of the chime device

The repository holds the software of a small network door chime: a web daemon (`webd`) that edits the
device's configuration, the chime daemon that reads that configuration, listens to MQTT and plays sounds,
and the scripts that update the device over the air. This project models the parts where branching, state
and arithmetic meet, and proves what they are for.

Bytes of text files and of JSON are `char` values; packets and WAV files are sequences of octets. A file is
its content, or its lines where that is what a program works on, and both views are related by lemmas.
Code that works step by step is a method or a class, proved against a function; the theorems are about the
functions. What the code cannot control (failing writes, the way bytes arrive, power cuts, thread
interleavings, rounding of exact ties) is nondeterministic or an arbitrary input.

## What is modelled

| files | subject |
|---|---|
| `Text`, `Splitting`, `Csv`, `Bytes`, `Wrappers` | trimming, lines, numerals and `strtol`, separators, comma lists |
| `KeyFile`, `DaemonConfig`, `ChimeFile` | `/etc/chime.conf`: webd's in-place save, and the two parsers that read it |
| `Wpa` | `wpa_supplicant.conf`: quoting, block scan, in-place edit |
| `Configuration` | validation, the password rule, saving and reloading both files |
| `Json`, `JsonParser`, `JsonGrammar`, `JsonRfc`, `JsonPrint` | the JSON parser, its grammar as syntax trees, RFC 8259, the printers |
| `ConfigApi`, `ConfigPost` | GET and POST of the configuration, end to end; what a posted form means |
| `HttpRequest`, `HttpMessage` | reading one request from arbitrarily fragmented reads; what a message is read as |
| `OtaFiles`, `Ota`, `OtaOutcomes`, `OtaScripts` | A/B updates with a power cut possible between any two writes, and how whole updates end |
| `Mdns` | DNS names on the wire, the question matcher, the answer |
| `Wav`, `WavFile` | in-place volume scaling of a PCM file; which file has which layout |
| `TopicFilter`, `ObservedTopics`, `StartupNotification` | state of the chime service |
| `ApplyManager` | the restart job under all interleavings |
| `SemVer` | version precedence in the release script |

## Findings

Each of these is backed by the lemmas it names: the exact condition under which the code meets the property,
and a concrete or reachable case in which it does not.

- Before a save the two readers of `chime.conf` can disagree: a blank before `=` hides the line from webd
  (`KeyFile.ReadersCanDisagree`, on `mqtt_host`). They agree on a key exactly if its last assigning line has
  no such blank or repeats what webd has read until then (`KeyFile.ReadersAgree`). After a save they agree
  exactly if none of the four texts that webd replaces by a default is blank
  (`ChimeFile.ReadersAgreeAfterSave`). An empty number is 0 for the daemon and the default for webd
  (`ChimeFile.NumberReadersAgree`).  In a file without the managed keys they differ in the port alone: webd shows
  1883, the daemon holds 0 and does not start (`ChimeFile.DefaultsAgree`).
- Validation lets line feeds, outer blanks and commas inside topics through; a saved configuration reloads as
  requested exactly without them (`Configuration.SaveReloadsExactly`). The valid topic `,` even stops the
  chime daemon from starting (`Configuration.ValidRequestCanStopTheDaemon`).
- Posting back what GET returned is a no-op exactly if no shown string has a control character that printing
  replaces by `?` and no MQTT password is stored without a user name (`ConfigApi.RepostIsNoOp`). Valid
  reposts on both failing sides exist (`ConfigApi.RepostCanChange`).
- The JSON parser accepts every text of RFC 8259, and of other texts exactly those that are not UTF-8 or have a
  unicode escape without four hexadecimal digits where `strtol` sees a number (`JsonRfc.ParserIsExact`,
  `JsonRfc.LooseUnicodeEscape`, `JsonRfc.RawByteIsAccepted`). It reads the strings of such a text as the RFC does
  exactly if every unicode escape is below 0x80 (`JsonRfc.StringsAreExact`, `JsonRfc.StringTextIsExact`); any other
  one becomes `?`, so an SSID posted as `Caf\u00e9` is stored as `Caf?` (`JsonRfc.AccentIsLost`).
- How a request is fragmented matters exactly near the two limits (`HttpRequest.FragmentationDoesNotMatter`):
  if the header block ends less than one read past 64 KiB, or if the body ends less than one read before
  2 MiB and more than 2 MiB follow the header. A header that ends later than that is always refused.
- The update scripts do not check when they are started. An install is crash safe exactly in a good slot that
  is also the next to boot and under a version none of whose lines after the first assigns the record another
  slot; a manual rollback exactly towards a good slot (`Ota.InstallSafetyCondition`,
  `Ota.RollbackSafetyCondition`). A board with a staged update that is not yet booted fails both
  (`Ota.StagedBoardIsFragile`). Under the version `1`, line feed, `PREVIOUS_SLOT=B`, which the here-document of the
  record takes as it is, the automatic rollback goes to the unconfirmed slot itself and drops the record
  (`Ota.BadVersionIsKept`, `Ota.PendingReadsBack`). On a command line with two root arguments
  `set_next_root_device` has no effect (`OtaFiles.NextRootIsSet`).
- The DNS decoder takes the reserved length bytes 64 to 191 as lengths (`Mdns.LongLabelIsDecoded`), lets a name
  end with the packet (`Mdns.CutOffNameIsDecoded`), follows pointers forward (`Mdns.ForwardPointerIsDecoded`) and
  knows no limit of 255 octets, nor does the encoder (`Mdns.OverlongNameIsAccepted`). A decoded name is one of
  RFC 1035 exactly if none of the four happened (`Mdns.DecodedRfcName`). A name behind more than eight pointers is
  refused, although the RFC allows it (`Mdns.RfcNameIsDecoded`, `Mdns.ManyJumpsAreRefused`).

Where code and intent differ, the model follows the code, with one exception: `parse_int` of `kv_config.h`
compares `strtol`'s end pointer with a string that no longer exists; the model compares it with the text that
was parsed.

## Model

| member | source | states |
|---|---|---|
| Text.TrimUnique | common/include/vc/config/kv_config.h:14-21 | trimming gives the only text without outer blanks that the input is made of, up to outer blanks |
| Text.WrittenLinesReadBack | chime/src/webd/config_store.cpp:31-70 | lines written by webd are read back as the same lines if and only if there is one and none contains a line feed |
| Text.StrtolOfInt | common/include/vc/config/kv_config.h:55-64 | `strtol` reads back every 32-bit number that `std::to_string` prints, to its end |
| Text.StrtolOfText | common/include/vc/config/kv_config.h:55-64 | blanks, a sign and decimal digits are read to their number in the range of `long`, and the rest is left |
| Text.LinesAreTheText | chime/src/webd/config_store.cpp:31-50 | the lines of any file, each with its line feed, are the file, up to one line feed at its end |
| Text.LowerTexts | chime/src/webd/string_utils.cpp:8-13 | two texts are equal in lower case if and only if they differ in the case of letters alone |
| Csv.SplitCsvLoop | common/include/vc/config/kv_config.h:23-40 | the consuming loop returns the trimmed, non-empty items in order |
| Csv.CsvRoundTrip | chime/src/webd/config_store.cpp:145-154 | a list survives joining and splitting if and only if every item is non-empty, trimmed and free of commas |
| Csv.JoinedListIsRead | common/include/vc/config/kv_config.h:66-70 | a joined list is accepted as non-empty if and only if some item has a character other than comma and blank |
| Csv.ItemsAreRead | common/include/vc/config/kv_config.h:23-40 | items without commas, joined by commas, are read as they are without outer blanks, the blank ones dropped |
| KeyFile.ReadersAgree | chime/src/webd/config_store.cpp:297-313 | webd's reader gives the last of the values that the daemon's loop meets if and only if the last line that assigns the key is canonical, or repeats what webd has read until then, or there is none |
| KeyFile.ReadersCanDisagree | chime/src/webd/config_store.cpp:297-313 | a concrete `mqtt_host` line that the daemon reads and webd does not |
| KeyFile.BlankHidesLine | chime/src/webd/config_store.cpp:297-313 | the same for every key and value: with a blank before `=` the daemon reads the value and webd ignores the line |
| KeyFile.AssignmentIsRead | chime/src/webd/config_store.cpp:297-313 | `key = value` with blanks anywhere around its parts is that key and value for the daemon, and for webd if and only if no blank stands before the sign |
| KeyFile.OtherLinesAssignNothing | common/include/vc/config/kv_config.h:114-124 | a comment, and a line without a sign, assign nothing for either reader |
| KeyFile.LastLineCounts | chime/src/webd/config_store.cpp:297-313 | an assigning line at the end of any file gives its key the last value for both readers, and leaves the other keys |
| KeyFile.RewriteInPlace | chime/src/webd/config_store.cpp:590-640 | the rewriting loop replaces exactly the managed lines where they stand and records the keys it met |
| KeyFile.ValuesAfterSave | chime/src/webd/config_store.cpp:582-656 | after a save the daemon's loop meets only the new value of a managed key, and of every other key exactly the old values |
| KeyFile.ExtractedAfterSave | chime/src/webd/config_store.cpp:582-656 | webd reads back the trimmed new value of every managed key, whatever the old file was |
| KeyFile.SaveKeepsOtherLines | chime/src/webd/config_store.cpp:590-655 | comments, blanks and foreign keys keep their line and place; managed lines become the new assignment |
| KeyFile.SaveIsIdempotent | chime/src/webd/config_store.cpp:590-655 | saving the same values twice gives the file of saving once |
| KeyFile.SavedFileReadsBackExactly | chime/src/webd/config_store.cpp:582-656 | through the written file, webd reads exactly the requested values if and only if all are trimmed and free of line feeds |
| DaemonConfig.Load | common/include/vc/config/kv_config.h:99-149 | every field ends up with the fold of its own key's values alone, and the load fails exactly for the required fields never accepted |
| DaemonConfig.FieldsAreDistinct | chime/src/config/chime_config.cpp:5-33 | no two fields of the daemon's table share a key, so the first match is the only one |
| DaemonConfig.FlagsAreRead | common/include/vc/config/kv_config.h:72-89 | a flag is true for `true`, `yes`, `1`, `on` in any case, false for `false`, `no`, `0`, `off`, and refused otherwise |
| DaemonConfig.NumbersAreRead | common/include/vc/config/kv_config.h:55-64 | sign and digits are taken as their number if it is in range and nothing follows |
| DaemonConfig.LastAcceptedCounts | common/include/vc/config/kv_config.h:99-137 | a further line of a field replaces a text or list in any case, a number or flag if it is well formed |
| DaemonConfig.ManagedFieldAfterSave | common/include/vc/config/kv_config.h:99-149 | after a save a managed field holds what its setter makes of the new value, however often the key occurs |
| DaemonConfig.OtherFieldAfterSave | common/include/vc/config/kv_config.h:99-149 | a save changes no other field that the daemon loads |
| ChimeFile.ReloadIsExact | chime/src/webd/config_store.cpp:486-580 | webd reloads exactly the saved configuration if and only if it is storable (trimmed, no line feeds, plain topics) |
| ChimeFile.LoadedIsStorable | chime/src/webd/config_store.cpp:486-580 | whatever the file contains, webd loads a configuration that is storable and in range |
| ChimeFile.NumberReadersAgree | common/include/vc/config/kv_config.h:55-64 | for the same text and default both readers hold the same number if and only if the text is not empty, or the default is 0, or 0 is out of range |
| ChimeFile.DaemonAfterSave | chime/src/config/chime_config.cpp:5-38 | what the chime daemon holds for each of the seventeen managed keys after a save |
| ChimeFile.ReadersAgreeAfterSave | chime/src/webd/config_store.cpp:582-656 | after any save without line feeds daemon and webd hold the same seventeen values if and only if no defaulted text is blank |
| ChimeFile.DefaultsAgree | chime/src/webd/config_store.cpp:486-580 | without any managed key in the file both readers hold the same defaults, except for the port: 1883 and 0 |
| ChimeFile.BothReadersReturnTheRequest | chime/src/webd/config_store.cpp:582-656 | for storable requests both readers return the requested values, and the daemon's other settings are untouched |
| ChimeFile.DaemonStartsAfterSave | common/include/vc/config/kv_config.h:128-148 | after a save the daemon's load succeeds if and only if some topic has substance |
| ChimeFile.SecondSaveChangesNothing | chime/src/webd/config_store.cpp:582-656 | a second save of the same configuration leaves the file as it is |
| Wpa.QuoteRoundTrip | chime/src/webd/config_store.cpp:203-248 | stripping undoes quoting for every value, with quotes, backslashes and outer blanks |
| Wpa.QuotedIsOneString | chime/src/webd/config_store.cpp:228-239 | a quoted value ends at its last quote: no other one stands without a backslash before it |
| Wpa.CredentialLineIsRead | chime/src/webd/config_store.cpp:250-295 | a line `ssid = value` or `psk = value`, quoted or bare, with blanks anywhere around its parts, gives that credential |
| Wpa.BlockIsRead | chime/src/webd/config_store.cpp:250-295 | the first block counts, closed or not, and in it the last ssid line and the last psk line |
| Wpa.ParseWpaData | chime/src/webd/config_store.cpp:250-295 | the scanning loop finds the first block and its last credentials, closed or not |
| Wpa.SaveWpaLines | chime/src/webd/config_store.cpp:658-745 | the three editing loops build the specified edit, or fail when no passphrase is given or stored; which one is written is `Configuration.CredentialsAfterSave` |
| Wpa.SavedCredentials | chime/src/webd/config_store.cpp:658-745 | any old file, once saved, scans to the requested SSID and the chosen passphrase in a closed block |
| Wpa.SaveKeepsOtherLines | chime/src/webd/config_store.cpp:658-745 | every line outside the block and every other line in it is kept, in order |
| Wpa.SavedFileReadsBackExactly | chime/src/webd/config_store.cpp:658-745 | through the written file the credentials are exact if and only if neither contains a line feed |
| Wpa.FreshLines | chime/src/webd/config_store.cpp:658-745 | the whole file that is written where there was none |
| Configuration.ValidateRequest | chime/src/webd/config_store.cpp:371-484 | reports no error if and only if every field meets its rule; the fields that the errors name are exactly those that break theirs, and each message begins with its field |
| Configuration.PasswordRule | chime/src/webd/config_store.cpp:590-603 | a given password is stored; otherwise the old one is kept exactly for an unchanged, non-empty user name, else cleared |
| Configuration.ConfigStore.LoadCoreConfig | chime/src/webd/config_store.cpp:486-580 | returns the typed reading of both files and changes neither |
| Configuration.ConfigStore.SaveCoreConfig | chime/src/webd/config_store.cpp:338-369 | an invalid request writes nothing and is answered with the fields at fault; nor does an unloadable or passphrase-less one; success writes both files and answers with their reload |
| Configuration.CredentialsAfterSave | chime/src/webd/config_store.cpp:658-745 | after a save the file has the requested SSID, and the given passphrase or, if none is given, the one it had before, if and only if both are free of line feeds; with neither nothing is saved |
| Configuration.SaveReloadsExactly | chime/src/webd/config_store.cpp:338-369 | the reload after a save is the request, with the chosen passphrase, if and only if everything is storable |
| Configuration.ChosenPskIsNotEmpty | chime/src/webd/config_store.cpp:658-690 | a passphrase is chosen exactly when one is given or stored, and it is never empty |
| Configuration.ValidRequestCanStopTheDaemon | chime/src/webd/config_store.cpp:315-336 | a request that validation accepts and after which the daemon's load fails, for every old file |
| JsonParser.Parser.Parse | chime/src/webd/json.cpp:98-123 | the cursor-moving parser ends, stays within the text, and computes the parsing function, trailing text refused |
| JsonParser.Parser.ParseStringAt | chime/src/webd/json.cpp:265-345 | the character loop consumes exactly one string and returns its meaning, or the same error |
| JsonParser.Parser.ParseObjectAt | chime/src/webd/json.cpp:172-223 | the member loop consumes one object; a repeated key keeps its last value |
| JsonParser.ParseText | chime/src/webd/json.cpp:451-454 | running the parser class computes the parsing function on every text |
| JsonGrammar.ParserAcceptsTheGrammar | chime/src/webd/json.cpp:98-447 | parsing succeeds with a value if and only if the text is a document of the parser's grammar with that value |
| Json.WholeIsItself | chime/src/webd/json.cpp:347-447 | the value of a numeral of digits alone is their number |
| Json.FractionDigit | chime/src/webd/json.cpp:347-447 | one more digit after the point adds its tenth, hundredth and so on |
| Json.ExponentMoves | chime/src/webd/json.cpp:347-447 | an exponent multiplies by that power of ten, of either sign, and a minus negates |
| JsonRfc.RfcTextsAreAccepted | chime/src/webd/json.cpp:98-447 | every RFC 8259 text with numbers in double range is accepted, whatever its unicode escapes |
| JsonRfc.ParserIsExact | chime/src/webd/json.cpp:98-447 | acceptance: a text is one of RFC 8259 if and only if it is accepted, is UTF-8, and every unicode escape, found by scanning from the left, has four hexadecimal digits |
| JsonRfc.EscapesOfTree | chime/src/webd/json.cpp:306-330 | the scan over a printed syntax tree succeeds if and only if the tree's escapes are of that level and the rest scans |
| JsonRfc.StringIsReadAsRfc | chime/src/webd/json.cpp:306-330 | value: a string is read as the UTF-8 bytes that section 7 gives it, surrogate pairs included, if and only if every unicode escape in it is below 0x80 |
| JsonRfc.StringsAreExact | chime/src/webd/json.cpp:98-447 | all strings of a text, names included, are read as the RFC's if and only if it is accepted, is UTF-8, and every unicode escape is below 0x80 |
| JsonRfc.AsciiTextsAreExact | chime/src/webd/json.cpp:98-447 | with every unicode escape below 0x80 a text is in UTF-8 and accepted with a value if and only if it has that value under RFC 8259 |
| JsonRfc.StringTextIsExact | chime/src/webd/json.cpp:98-447 | for an accepted RFC text that is one string, its value is the RFC's if and only if every unicode escape is below 0x80 |
| JsonRfc.PlainTextsAreExact | chime/src/webd/json.cpp:98-447 | in UTF-8 without unicode escapes, nothing but RFC 8259 is accepted, all of it is, and with its values |
| JsonRfc.LooseUnicodeEscape | chime/src/webd/json.cpp:306-330 | a whole text that the parser accepts and that is none of RFC 8259: a sign among the digits of an escape |
| JsonRfc.RawByteIsAccepted | chime/src/webd/json.cpp:265-345 | another one: a string that is not UTF-8 |
| JsonRfc.AccentIsLost | chime/src/webd/json.cpp:306-330 | a text of RFC 8259 that is read with another value: the escape of `é` becomes `?` |
| JsonRfc.ShadowedEscape | chime/src/webd/json.cpp:172-223 | why the value of a whole text may still be the RFC's with such an escape: a later member of the same name replaces it |
| JsonPrint.JsonEscape | chime/src/webd/json.cpp:456-492 | the escaping loop writes each character as its escape, control characters without one as `?` |
| JsonPrint.StringIsPrinted | chime/src/webd/json.cpp:494-496 | a printed string is a valid JSON string that denotes the original up to replaced control characters |
| JsonPrint.NumberIsPrinted | chime/src/webd/json.cpp:500 | a printed integer is a valid number that denotes it, within double range |
| JsonPrint.ListIsPrinted | chime/src/webd/web_server.cpp:474-499 | printed values with commas between them, in brackets, form the array of these values |
| JsonPrint.TopicsArePrinted | chime/src/webd/web_server.cpp:489-499 | a printed topic list denotes the list of its topics in order |
| JsonPrint.ObjectIsPrinted | chime/src/webd/web_server.cpp:501-510 | members printed one after the other form an object with exactly these members |
| JsonPrint.PrintedParses | chime/src/webd/json.cpp:451-454 | what is printed is parsed back to the value it denotes, and is a text of RFC 8259 with that value if and only if it is UTF-8 |
| ConfigApi.HandleGetCoreConfig | chime/src/webd/web_server.cpp:1034-1070 | the answer's body is the printed snapshot of the two files, which stay as they are |
| ConfigApi.ReadRequest | chime/src/webd/web_server.cpp:1090-1160 | reports exactly the members that are missing or mistyped, and else gives the posted request |
| ConfigApi.MembersAreTyped | chime/src/webd/web_server.cpp:351-472 | each reader takes exactly the members of its JSON type, with their value: of the numbers those that are integers in 32 bits, of the arrays those of strings |
| ConfigApi.HandlePostCoreConfig | chime/src/webd/web_server.cpp:1072-1212 | a body that is no well-typed object changes nothing; any other does what a save of its request does (what that is: `ConfigPost.PostIsStored`) |
| ConfigApi.SerializeValidationErrors | chime/src/webd/web_server.cpp:474-487 | the loop prints the list of the error objects |
| ConfigApi.RespondToPost | chime/src/webd/web_server.cpp:1072-1212 | the status and body for each outcome of a POST |
| ConfigApi.PostResponseParses | chime/src/webd/web_server.cpp:1072-1212 | every such body, refusals with their error lists included, is parsed back to an object with exactly the printed members |
| ConfigApi.AnswerParses | chime/src/webd/web_server.cpp:1034-1070 | the body of a GET parses to an object with exactly the twenty printed members |
| ConfigApi.AnswerIsRead | chime/src/webd/web_server.cpp:1090-1160 | the POST readers rebuild the shown configuration from that object |
| ConfigApi.RepostIsNoOp | chime/src/webd/web_server.cpp:1034-1212 | saving what GET showed keeps the passphrase, and leaves everything as it was if and only if strings are shown as they are and a stored password has a user |
| ConfigApi.RepostCanChange | chime/src/webd/web_server.cpp:1034-1212 | two pairs of stored files, one for each failing side, whose repost is valid and has a passphrase, and after which the snapshot differs |
| ConfigApi.PostedAnswer | chime/src/webd/web_server.cpp:1072-1212 | the outcomes of posting an answer back: refused without any change, or applied with that exact condition for a no-op |
| ConfigApi.GetThenPost | chime/src/webd/web_server.cpp:1034-1212 | the same for the two handlers run one after the other on a store |
| ConfigPost.FormParses | chime/src/webd/web_server.cpp:1072-1100 | the printed body of any request with numbers in `int`, with each password and sound path sent or left out, is parsed to its object |
| ConfigPost.FormIsRead | chime/src/webd/web_server.cpp:1090-1175 | every such object is read back to its request: each field and each password in its own place, an absent sound path from the loaded configuration |
| ConfigPost.PostIsStored | chime/src/webd/web_server.cpp:1072-1212 | after a POST without line feeds that succeeds each of the seventeen keys of chime.conf holds the member of the same name, with the broker password kept or cleared as its rule says, and wpa_supplicant.conf the SSID and the posted passphrase, or the old one if none is posted |
| ConfigPost.StatusTells | chime/src/webd/web_server.cpp:1072-1212 | the status is 200, 400 or 500; 400 means that nothing changed, 200 that the answer is the reload of both files; what is no well-typed object gets 400 |
| ConfigPost.AnswerShowsTheBroker | chime/src/webd/web_server.cpp:1034-1070 | a GET shows the SSID, whether passwords are set, and the broker keys under their own names, with the defaults spelled out |
| ConfigPost.AnswerShowsTls | chime/src/webd/web_server.cpp:1034-1070 | the same for the TLS keys and the topics |
| ConfigPost.AnswerShowsTheSounds | chime/src/webd/web_server.cpp:1034-1070 | the same for the ring topic, sound paths and volumes |
| ConfigPost.AnswerShowsTheJob | chime/src/webd/web_server.cpp:1034-1070 | the job of the last save is shown with its id, state, times and error |
| HttpRequest.ReadHttpRequest | chime/src/webd/web_server.cpp:821-934 | the two reading loops compute what the delivered chunks determine; what that is for a message: `HttpMessage.MessageIsReceived` |
| HttpRequest.ReceivedIsWhole | chime/src/webd/web_server.cpp:821-934 | for every delivery the result is that of the bytes as a whole, except exactly when a needed read leaves 64 KiB without a complete header, or more than 2 MiB of body, in the buffer |
| HttpRequest.FragmentationDoesNotMatter | chime/src/webd/web_server.cpp:821-934 | all deliveries of the same bytes give the same result if and only if the header ends within 64 KiB or at least one read later, and in the first case the announced body ends one read before 2 MiB or no more than 2 MiB follow |
| HttpRequest.ClearIsReceived | chime/src/webd/web_server.cpp:821-934 | under that condition the result is that of the bytes, or the refusal of the header, for every delivery |
| HttpRequest.HeadNearTheLimit | chime/src/webd/web_server.cpp:832-836 | for every request whose header ends less than one read past 64 KiB, one delivery that is refused as too large and one that is not |
| HttpRequest.BodyNearTheLimit | chime/src/webd/web_server.cpp:904-918 | for every request whose body ends less than one read before 2 MiB with more than 2 MiB behind the header, one delivery that is refused as too large and one that is not |
| HttpMessage.MessageIsRead | chime/src/webd/web_server.cpp:821-934 | a message of any method, target, version, header lines and body is read as its method, its target up to the query, as much of the body as its last content-length, decimal digits if there is one, announces, and its last content-type; names count in any letter case, and too little or too much body is refused |
| HttpMessage.MessageIsReceived | chime/src/webd/web_server.cpp:821-934 | and so is it received however it is delivered, clear of the two limits |
| HttpMessage.TwoWordsAreRefused | chime/src/webd/web_server.cpp:857-870 | a request line without its third word is refused |
| HttpMessage.BadLengthIsRefused | chime/src/webd/web_server.cpp:887-899 | a length that is negative or not followed by its end is refused |
| OtaFiles.ReadEnvValue | buildroot/board/raspberrypi0w/rootfs_overlay/usr/local/sbin/ota-common.sh:89-94 | returns the value of the last line of the file that assigns the key |
| OtaFiles.EnvIsAMap | buildroot/board/raspberrypi0w/rootfs_overlay/usr/local/sbin/ota-common.sh:89-110 | on any old file, setting a key and reading it gives the value if and only if the value has no line feed, and leaves another key as it was if and only if no line that the value adds assigns that key anew |
| OtaFiles.NextRootIsSet | buildroot/board/raspberrypi0w/rootfs_overlay/usr/local/sbin/ota-common.sh:56-155 | the new root is read back if there is at most one root argument, and is without effect otherwise; all other arguments stay in place |
| Ota.PendingReadsBack | buildroot/board/raspberrypi0w/rootfs_overlay/usr/local/sbin/ota-common.sh:112-132 | the record of an install reads back from its file field by field if and only if no line that the version adds assigns another slot |
| Ota.CountdownReadsBack | buildroot/board/raspberrypi0w/rootfs_overlay/etc/init.d/S42otaguard:41-42 | on any record file, counting down changes the attempts and nothing else that is read |
| Ota.InstallIsSafe | buildroot/board/raspberrypi0w/rootfs_overlay/usr/local/sbin/ota-install:71-116 | from a good slot that is next to boot, under such a version: whatever is written and wherever it is cut off, an install keeps the next boot safe and never writes the running slot |
| Ota.InstallSafetyCondition | buildroot/board/raspberrypi0w/rootfs_overlay/usr/local/sbin/ota-install:71-116 | for every version, every install is crash safe if and only if the running slot is good and the next to boot, and no line of the version assigns the record another slot |
| Ota.GuardIsSafe | buildroot/board/raspberrypi0w/rootfs_overlay/etc/init.d/S42otaguard:15-45 | the guard keeps the next boot safe at every cut, in whichever slot it runs |
| Ota.ConfirmIsSafe | buildroot/board/raspberrypi0w/rootfs_overlay/usr/local/sbin/ota-confirm:8-36 | so does confirming |
| Ota.RollbackIsSafe | buildroot/board/raspberrypi0w/rootfs_overlay/usr/local/sbin/ota-rollback:72-79 | going to a good slot is safe at every cut, ends there, and leaves no record |
| Ota.RollbackSafetyCondition | buildroot/board/raspberrypi0w/rootfs_overlay/usr/local/sbin/ota-rollback:72-79 | a rollback is crash safe if and only if its target is good |
| Ota.StagedBoardIsFragile | buildroot/board/raspberrypi0w/rootfs_overlay/usr/local/sbin/ota-install:71-116 | the failing side of both conditions is reachable: a run from the shipped board to a safe disk on which neither a second install nor a rollback to the staged slot is crash safe |
| Ota.EveryRunIsSafe | buildroot/board/raspberrypi0w/rootfs_overlay/usr/local/sbin/ota-install:71-116 | in every run of scripts started under these conditions, with power cuts anywhere, the next boot is a good slot or the verified target of a record whose previous slot is good; neither the running nor the next slot is ever overwritten |
| Ota.FactoryDiskIsSafe | buildroot/board/raspberrypi0w/rootfs_overlay/usr/local/sbin/ota-common.sh:56-67 | such runs can start: a freshly flashed board is safe and boots slot A, wherever the root argument stands on its command line |
| Ota.ShippedDiskIsSafe | buildroot/board/raspberrypi0w/cmdline.txt:1 | in particular with the command line that the board is shipped with, given word by word |
| Ota.UnconfirmedUpdateRollsBack | buildroot/board/raspberrypi0w/rootfs_overlay/etc/init.d/S42otaguard:20-45 | on a safe disk with N attempts left, N - 1 guarded boots only count down, and the N-th makes the other slot, which is good, the next root and drops the record |
| Ota.CountdownEnds | buildroot/board/raspberrypi0w/rootfs_overlay/etc/init.d/S42otaguard:20-45 | the same on any disk, towards whatever slot the record names, and without making any slot good |
| Ota.BadVersionIsKept | buildroot/board/raspberrypi0w/rootfs_overlay/usr/local/sbin/ota-install:71-116 | the failing side of the version's condition: after an install on the shipped board under a version with a line feed, three unconfirmed boots end with the new slot next for good, unconfirmed and without a record |
| Ota.PassesAreBounded | buildroot/board/raspberrypi0w/rootfs_overlay/etc/init.d/S42otaguard:20-45 | over any sequence of boots and power cuts, the boots that pass the guard and those still allowed never exceed those allowed at the start |
| OtaOutcomes.ConfirmEnds | buildroot/board/raspberrypi0w/rootfs_overlay/usr/local/sbin/ota-confirm:8-36 | confirming the slot that the record names removes the record, makes exactly that slot good too, and leaves the next boot |
| OtaOutcomes.NothingToConfirm | buildroot/board/raspberrypi0w/rootfs_overlay/usr/local/sbin/ota-confirm:11-29 | in any other case it changes the status alone |
| OtaOutcomes.GuardSparesOthers | buildroot/board/raspberrypi0w/rootfs_overlay/etc/init.d/S42otaguard:20-30 | the guard of a slot that the record does not name changes nothing |
| OtaOutcomes.ConfirmedStays | buildroot/board/raspberrypi0w/rootfs_overlay/usr/local/sbin/ota-confirm:8-36 | a confirmed slot boots after any number of guarded boots |
| OtaOutcomes.RollbackLeads | buildroot/board/raspberrypi0w/rootfs_overlay/usr/local/sbin/ota-rollback:53-79 | a rollback leads to the requested slot, else to the recorded one, else to the one that does not run, and drops the record; a record that names no slot is refused without a write |
| OtaOutcomes.UnverifiedIsNotStaged | buildroot/board/raspberrypi0w/rootfs_overlay/usr/local/sbin/ota-install:71-116 | an image that does not verify changes neither the record nor the next boot |
| OtaOutcomes.ConfirmedUpdateIsKept | buildroot/board/raspberrypi0w/rootfs_overlay/usr/local/sbin/ota-install:71-116 | with at most one root argument and a version that keeps its record, a whole update that is confirmed at its first boot: the new slot boots from then on, and both slots are good |
| OtaOutcomes.UnconfirmedUpdateIsUndone | buildroot/board/raspberrypi0w/rootfs_overlay/etc/init.d/S42otaguard:20-45 | under the same conditions, a whole update that no boot confirms: after three boots the old slot boots again, still good, without a record |
| OtaOutcomes.ConfirmationIsReported | buildroot/board/raspberrypi0w/rootfs_overlay/usr/local/sbin/ota-confirm:31-35 | the status file then reads `confirmed` and the slot as the last good one |
| OtaOutcomes.RollbackIsReported | buildroot/board/raspberrypi0w/rootfs_overlay/usr/local/sbin/ota-rollback:76-79 | and after a rollback `rollback_requested` and its target |
| OtaScripts.Board.Install | buildroot/board/raspberrypi0w/rootfs_overlay/usr/local/sbin/ota-install:71-116 | the script makes exactly the writes of the proof, in that order; it stages if and only if both checksums match |
| OtaScripts.Board.SetNextRootDevice | buildroot/board/raspberrypi0w/rootfs_overlay/usr/local/sbin/ota-common.sh:134-155 | replaces the first root argument in place, or appends one |
| OtaScripts.Board.RollBack | buildroot/board/raspberrypi0w/rootfs_overlay/usr/local/sbin/ota-rollback:53-79 | makes the writes of a rollback to the requested, recorded or other slot, or none for an invalid record |
| OtaScripts.Board.Guard | buildroot/board/raspberrypi0w/rootfs_overlay/etc/init.d/S42otaguard:15-45 | makes the guard's writes for the record at hand |
| OtaScripts.Board.Confirm | buildroot/board/raspberrypi0w/rootfs_overlay/usr/local/sbin/ota-confirm:8-36 | makes the writes of a confirmation, and succeeds if and only if there is no record or it names the running slot; then the record is gone and the slot is good |
| OtaScripts.Board.ConfirmIfHealthy | buildroot/board/raspberrypi0w/rootfs_overlay/etc/init.d/S99otaconfirm:6-24 | writes nothing unless there is a record and both services are up |
| OtaScripts.Board.WritesLead | buildroot/board/raspberrypi0w/rootfs_overlay/usr/local/sbin/ota-install:71-116 | the writes that a script logs lead from the board's old disk to its new one, so each outcome above holds of the board |
| OtaScripts.Board.ScriptKeepsBoardSafe | buildroot/board/raspberrypi0w/rootfs_overlay/usr/local/sbin/ota-install:71-116 | whichever script ran on a safe board, started as the machine allows, every disk since its first write was safe |
| Mdns.EncodeDnsName | chime/src/webd/mdns.cpp:89-110 | the loop computes the encoding, empty for a refused name |
| Mdns.EncodeOfLabels | chime/src/webd/mdns.cpp:89-110 | a dotted name of labels of 1 to 63 bytes, with or without a final dot, becomes its wire form (section 3.1 of RFC 1035) |
| Mdns.EncodeAcceptsHostNames | chime/src/webd/mdns.cpp:89-110 | exactly those names are encoded |
| Mdns.DecodeDnsName | chime/src/webd/mdns.cpp:112-176 | the jumping loop ends, stays within the packet, and computes the decoding with the bytes consumed before the first pointer |
| Mdns.DecodeFrom | chime/src/webd/mdns.cpp:112-176 | labels have 1 to 191 bytes, and start plus consumed stays within every packet |
| Mdns.DecodeUndoesEncode | chime/src/webd/mdns.cpp:89-176 | anywhere in a packet, an encoded name decodes to itself (up to a final dot) and consumes exactly its bytes |
| Mdns.DecodeCompressed | chime/src/webd/mdns.cpp:135-153 | labels that end in a pointer read as those labels and the name pointed to, and consume two bytes more (section 4.1.4 of RFC 1035) |
| Mdns.PointerLoopsFail | chime/src/webd/mdns.cpp:112-153 | pointers that only lead to each other are refused, however many they are |
| Mdns.DecodedRfcName | chime/src/webd/mdns.cpp:112-176 | a decoded name is one of sections 3.1 and 4.1.4 of RFC 1035 if and only if no label is longer than 63 bytes, it stops at a root byte, every pointer leads back, and it has at most 255 octets |
| Mdns.RfcNameIsDecoded | chime/src/webd/mdns.cpp:112-176 | a name of RFC 1035 is decoded if and only if it takes at most eight pointers, and then to its labels |
| Mdns.ForwardPointerIsDecoded | chime/src/webd/mdns.cpp:135-153 | a packet whose pointer leads forward and is followed |
| Mdns.OverlongNameIsAccepted | chime/src/webd/mdns.cpp:89-176 | every name of more than 255 octets with proper labels is encoded and decoded, although none of RFC 1035 is that long |
| Mdns.ManyJumpsAreRefused | chime/src/webd/mdns.cpp:136-153 | a name of RFC 1035 behind nine pointers that is refused |
| Mdns.LongLabelIsDecoded | chime/src/webd/mdns.cpp:155-171 | a label of 64 to 191 bytes is decoded, although no name of RFC 1035 stands there and it cannot be encoded |
| Mdns.CutOffNameIsDecoded | chime/src/webd/mdns.cpp:126-175 | labels that end with the packet are decoded, although no root byte ends them |
| Mdns.QueryRequestsHost | chime/src/webd/mdns.cpp:178-212 | the loop searches the questions of any packet in order until one cannot be read |
| Mdns.QueryIsAnswered | chime/src/webd/mdns.cpp:178-212 | for a header, its questions and any tail: true if and only if some question has type A or ANY, class IN without the top bit, and a name that differs from the host's in the case of letters alone |
| Mdns.AnswerReadsBack | chime/src/webd/mdns.cpp:214-258 | a receiver decodes the answer to id 0, the flags of an authoritative response, the host's name, one address record, the lifetime and the address, and nothing more |
| Mdns.AnswersAreNotQueries | chime/src/webd/mdns.cpp:214-258 | an answer is never taken for a request |
| Wav.ScalePcmWav | chime/src/audio/aplay_audio_player.cpp:104-221 | on failure the buffer is untouched and the error is that of the first failed test; on success only the samples of the last data chunk change, each to its scaled value; which file has which layout is `WavFile.FileHasLayout` |
| Wav.ScalingIsFaithful | chime/src/audio/aplay_audio_player.cpp:187-213 | for 0 to 100 percent a sample is within half a step of the product, never louder, never of the other sign, hence never clamped |
| Wav.LayoutIsKept | chime/src/audio/aplay_audio_player.cpp:127-172 | the chunk walk over the scaled file gives the same result again |
| Wav.ScaledSamples | chime/src/audio/aplay_audio_player.cpp:187-213 | every sample of a scaled file is faithful, and silent at volume 0 |
| Wav.FullVolumeIsIdentity | chime/src/audio/aplay_audio_player.cpp:187-213 | at volume 100 every byte stays as it is |
| WavFile.FileHasLayout | chime/src/audio/aplay_audio_player.cpp:104-184 | every file of chunks, padded to even sizes and in any order, has the layout that the bytes of its last format chunk and the place of its last data chunk give, or the refusal that they call for; the span holds exactly the payload |
| WavFile.BadChunkIsRefused | chime/src/audio/aplay_audio_player.cpp:134-172 | behind any chunks, a chunk that is cut off, a format of fewer than 16 bytes, and an odd chunk without its last byte are refused, each with its own error |
| WavFile.OtherFilesAreRefused | chime/src/audio/aplay_audio_player.cpp:104-125 | so are fewer than 44 bytes, and a file without the tags of RIFF and WAVE |
| WavFile.WideSamplesAreRead | chime/src/audio/aplay_audio_player.cpp:187-213 | the samples are those that the payload was made of, in 16 bits with the low byte first and in two's complement |
| WavFile.NarrowSamplesAreRead | chime/src/audio/aplay_audio_player.cpp:187-213 | the same in 8 bits, which stand 128 above the sample |
| Splitting.JoinOfSplit | chime/src/service/chime_service.cpp:40-57 | every topic is the join of its levels, none of which has a slash |
| Splitting.SplitOfJoin | chime/src/service/chime_service.cpp:40-57 | splitting undoes joining, so no other levels give the same topic |
| TopicFilter.SplitTopic | chime/src/service/chime_service.cpp:40-57 | the loop computes the levels, with an empty last one after a final slash |
| TopicFilter.TopicMatchesFilter | chime/src/service/chime_service.cpp:59-78 | the index loop computes the recursive meaning of section 4.7.1 of MQTT 3.1.1 |
| TopicFilter.MatchesExactly | chime/src/service/chime_service.cpp:59-78 | a filter matches if and only if `#` is at most its last level, the levels before it match one by one, and without it the lengths agree |
| TopicFilter.SubtreeFilter | chime/src/service/chime_service.cpp:59-78 | `f/#` matches exactly the topics with a level prefix that `f` matches |
| TopicFilter.PlainFilter | chime/src/service/chime_service.cpp:59-78 | a filter without wildcards matches its own topic only |
| ObservedTopics.TopicLog.RecordObservedTopic | chime/src/service/chime_service.cpp:349-372 | the list becomes the old one with a new topic last and the oldest evicted, list and index stay equal, and the file is written exactly then |
| ObservedTopics.TopicLog.LoadObservedTopics | chime/src/service/chime_service.cpp:374-398 | loads the last 256 of the distinct trimmed topics of the file |
| ObservedTopics.TopicLog.PersistObservedTopics | chime/src/service/chime_service.cpp:400-438 | the file becomes the list, one topic a line, or stays |
| ObservedTopics.ListIsTheLatest | chime/src/service/chime_service.cpp:349-372 | over every history the list has no duplicates, and is the last 256 of all insertions, the oldest of them first |
| ObservedTopics.NothingIsForgottenEarly | chime/src/service/chime_service.cpp:349-372 | up to 256 distinct topics the list is all of them in order of first appearance |
| ObservedTopics.StoredListIsLoaded | chime/src/service/chime_service.cpp:374-438 | a stored list loads again if and only if every topic is trimmed, non-empty and free of line feeds |
| ObservedTopics.LoadedIsStorable | chime/src/service/chime_service.cpp:374-438 | whatever the file held, a loaded list can be stored and loaded again |
| StartupNotification.Run | chime/src/service/chime_service.cpp:164-268 | the loop with its three flags plays the first sound that is due by a stateless rule, and no other |
| StartupNotification.SoundIsJustified | chime/src/service/chime_service.cpp:222-268 | success is played exactly at the first turn with both connections up, failure only after 10 seconds without them, or 40 with the Wi-Fi state unknown |
| StartupNotification.SoundIsPlayedInTime | chime/src/service/chime_service.cpp:222-268 | a sound has been played by the first turn 30 seconds after the first one past the timeout |
| StartupNotification.SilentExactly | chime/src/service/chime_service.cpp:222-268 | no sound is played exactly as long as every turn is a quiet one, a condition on the connections and times seen so far |
| ApplyManager.ApplyManager.StartApply | chime/src/webd/apply_manager.cpp:45-61 | starts a new job exactly when none is pending or running, and answers with the resulting status |
| ApplyManager.StepKeepsInv | chime/src/webd/apply_manager.cpp:45-109 | every step of any thread keeps the invariant, and a worker that enters finds its own id |
| ApplyManager.EveryRunIsSingleFlight | chime/src/webd/apply_manager.cpp:45-109 | in every interleaving: pending or running exactly while one worker with that id lives, ids increase, restarts never overlap, the chime restart only follows its job's successful network restart, and the shown outcome is that of the last command |
| ApplyManager.JobRuns | chime/src/webd/apply_manager.cpp:45-109 | whenever no job is busy, the run of a whole job is possible, restarts the network and then, if that succeeded, the chime, and ends with its outcome, error and times |
| ApplyManager.BusyStays | chime/src/webd/apply_manager.cpp:45-61 | while a job is busy another request changes nothing |
| SemVer.ParseOfText | scripts/check_version_bump.sh:23-33 | every text of a version with any build metadata parses to that version |
| SemVer.ParsedText | scripts/check_version_bump.sh:23-33 | nothing else parses |
| SemVer.SemverComparePrerelease | scripts/check_version_bump.sh:35-103 | the index loop computes the comparison of the identifier lists |
| SemVer.SemverCompare | scripts/check_version_bump.sh:105-139 | the chain of tests computes the comparison of two versions |
| SemVer.CompareIsATotalPreorder | scripts/check_version_bump.sh:35-139 | antisymmetric in sign, total and transitive |
| SemVer.CompareIsPrecedence | scripts/check_version_bump.sh:35-139 | the sign is the precedence of section 11 of Semantic Versioning 2.0.0, in both directions |
| SemVer.GreaterIsAStrictOrder | scripts/check_version_bump.sh:141-143 | irreflexive, asymmetric and transitive on version texts |
| SemVer.GreaterIgnoresBuild | scripts/check_version_bump.sh:141-143 | build metadata never changes the answer |

## Left out

- JsonParser.Parser.ParseNumberAt: numbers are exact decimals instead of doubles; only overflow to infinity is modelled, at the magnitude that rounds to it.
- JsonRfc.RfcText: for a surrogate on its own, which section 8.2 of RFC 8259 leaves open, the three bytes of its code are formed.
- JsonParser.ParseText: the call stack is unbounded, so a document that is nested too deeply for the real one is not modelled.
- ConfigApi.ReadRequest: a number outside the range of `int` is rejected, where the source converts it with undefined behaviour before comparing; a decimal such as 1883.00000000000000001, whose nearest double is an integer, is reported as not an integer, where the source takes it.
- Configuration.ConfigStore.SaveCoreConfig: an atomic write either happens or leaves the old file; partial writes to the temporary file are not modelled.
- Ota.EveryRunIsSafe: each write is durable before the next one begins, although the scripts sync only after writing a slot and at the end of `set_next_root_device`, and the record and the command line are on different partitions.  The running slot is A or B, renames are atomic, and scripts run one at a time; mounting and a missing command line file are not modelled.
- Ota.GuardIsSafe: attempts that are not a plain decimal number, which no script writes, make the model's guard do nothing; the shell's own error handling and its octal reading of leading zeros are not modelled.
- Ota.InstallIsSafe: the digest of a slot stands for its content, so SHA-256 itself and the size of the image are not part of this model.
- OtaFiles.NextRootIsSet: the command line is a list of arguments separated by single spaces.
- Mdns.RfcName: that a pointer leads to the start of a label of another name of the message is not looked at.
- Wav.ScalePcmWav: `lround` of the double product is any integer within half of the exact product, so only exact ties are left open.
- Wpa.SavedCredentials: a kept passphrase is written in quotes, also if it was a raw 64-digit key before; the model follows the code.
- ApplyManager.EveryRunIsSingleFlight: job ids do not wrap at 64 bits, and starting a thread does not fail.
- StartupNotification.Run: times are whole milliseconds since the start of the loop.
- SemVer.Greater: what the script answers for texts that are not versions, which its callers refuse first, is not modelled.
- SemVer.SemverCompare: numbers do not overflow the shell's integers, and strings compare in byte order.
- TopicFilter.TopicMatchesFilter: the rule for topics that begin with `$` is not in the source.
- Sockets, TLS and certificates, interface lookup, the MQTT library, running commands, Wi-Fi scanning, audio devices: calls into code that is not part of this model.
- Static files, directory listing, sound upload and the remaining routes: single branches without state.
- Log texts, timestamps and messages that no decision reads.
