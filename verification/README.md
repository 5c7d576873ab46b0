# UPELIB core, modelled in Dafny

UPELIB is the common library of a family of minicomputer peripheral emulators. Its terminal server lets an emulated terminal multiplexer accept Telnet logins in place of serial lines. This project models its portable
core as immutable datatypes and pure functions, and proves properties of that model. The core covers:

- the command-line and command-language parsers;
- the address formats the parsers accept;
- the safe string routines;
- the tape, disk, card and text image files;
- the Xilinx bit-stream reader;
- the log file, the message queue and the circular buffer;
- the Telnet line engine and the terminal server's line table.

Modules, following the source files:

| module | source | what it models |
|---|---|---|
| `Bytes`, `Chars` | src/UPELIB.hpp | byte and word packing (LOBYTE, HIBYTE, MKWORD, MKLONG), ISSET, MAX/MIN, upper-case folding |
| `SafeStrings` | src/SafeCRT.c | `strcpy_s` and `strcat_s` on NUL-terminated buffers of a fixed size, with their STRUNCATE results |
| `StandardUI` | src/StandardUI.cpp | `Abbreviate`, which shortens a file name with "..." |
| `Decimal`, `Scanners` | src/CommandParser.cpp | digit values, white-space skipping, and the token, quoted, name and number scanners |
| `Keywords` | src/CommandParser.cpp | keyword tables with the `*` abbreviation mark, and keyword search |
| `CommandArguments` | src/CommandParser.hpp, src/CommandParser.cpp | the typed command arguments (token, name, number, keyword, text, PCI address, disk address, network address): reset, parse and validity |
| `Addresses` | src/UPELIB.cpp | `FormatIPaddress`, `ParseIPaddress`, `MakePath`, `FullPath` |
| `AddressScanners` | src/CommandParser.cpp | the PCI bus:slot.function, disk (c,h,s) and network scanners, with the network scanner both as written and corrected |
| `Aliases`, `CommandParser` | src/CommandParser.cpp, src/CommandParser.hpp | the alias table, alias expansion, the prompt and script position |
| `CommandVerbs` | src/CommandParser.cpp | verb and modifier tables, modifier and argument parsing, validation, and the whole command parse including indirect `@` commands |
| `CommandLine` | src/CommandLine.cpp | Unix-style option parsing of argv, option lookup and `BuildCommand` |
| `CircularBuffer` | src/CircularBuffer.hpp | the fixed-size ring buffer |
| `TapeImage`, `DiskImage`, `TextOutput`, `CardImage` | src/ImageFile.cpp, src/ImageFile.hpp | SIMH tape records and marks, sector reads and writes, fixed-length text lines, 12-bit card packing |
| `BitSwap`, `BitStream` | src/BitStream.cpp, src/BitStream.hpp | the bit-reversal table, byte swapping and the Xilinx .bit header reader |
| `LogFile` | src/LogFile.cpp | severity names, per-thread console and file levels, queued threads, multi-line messages, closing the log |
| `MessageQueue` | src/MessageQueue.cpp | the linked message queue with its free list |
| `TelnetLine` | src/TerminalLine.cpp | one Telnet connection's option negotiation and receive state machine |
| `TerminalServer` | src/TerminalServer.cpp | the table of lines against sockets: accept, disconnect, read, start, stop and the server address |
| `Results` | (shared) | the `Option` and `Result` wrappers |

Image files are byte sequences. Sockets are an input sequence and an output log. Clocks and thread ids
are parameters. Machine integers are subset types of `int` (`byte`, `uint16` and `uint32` in bytes.dfy), and a value is reduced explicitly where the source wraps or truncates.

## Model

| member | source | states |
|---|---|---|
| Bytes.LoByte | src/UPELIB.hpp:53 | LOBYTE keeps the value modulo 256: the byte differs from its argument by a multiple of 256 |
| Bytes.LoWord | src/UPELIB.hpp:55 | LOWORD keeps the value modulo 65536: the word differs from its argument by a multiple of 65536 |
| Bytes.MkWord | src/UPELIB.hpp:53-67 | MKWORD(h, l) is the word whose HIBYTE is the low byte of h and whose LOBYTE is the low byte of l |
| Bytes.MkLong | src/UPELIB.hpp:55-68 | MKLONG(h, l) is the longword whose HIWORD is the low word of h and whose LOWORD is the low word of l |
| Bytes.WordRoundTrip | src/UPELIB.hpp:53-67 | every 16-bit word is rebuilt by MKWORD from its HIBYTE and LOBYTE |
| Bytes.LongRoundTrip | src/UPELIB.hpp:55-68 | every 32-bit longword is rebuilt by MKLONG from its HIWORD and LOWORD |
| Bytes.IsSetEmpty | src/UPELIB.hpp:80 | ISSET with the empty mask is false for every value |
| Bytes.IsSetUnion | src/UPELIB.hpp:80 | ISSET of a union of masks holds exactly when it holds for one of them |
| Bytes.Max | src/UPELIB.hpp:83 | MAX is one of its arguments and no less than either |
| Bytes.Min | src/UPELIB.hpp:84 | MIN is one of its arguments and no greater than either |
| Chars.UpperCase | src/CommandParser.cpp:1021-1029 | CCmdAliases::ToUpper keeps the length and upper-cases each character in place, leaving non-letters alone |
| Chars.UpperCaseIdempotent | src/CommandParser.cpp:1021-1029 | folding a name to upper case twice is the same as folding it once |
| SafeStrings.Strcpy | src/SafeCRT.c:63-82 | strcpy_s copies the source string, cut to cbDst-1 characters, always NUL-terminates, leaves the rest of the buffer alone, and reports STRUNCATE exactly when characters were dropped |
| SafeStrings.StrcpyFits | src/SafeCRT.c:63-82 | a source shorter than the buffer is copied whole without truncation |
| SafeStrings.Strcat | src/SafeCRT.c:85-97 | strcat_s refuses (STRUNCATE, buffer unchanged) when the destination has no free byte; otherwise the result string is the old string followed by as much of the source as fits, STRUNCATE exactly when some was dropped |
| SafeStrings.StrcatIsCopyOfJoin | src/SafeCRT.c:85-97 | strcat_s gives the same string and status as strcpy_s of the joined string into the whole buffer |
| SafeStrings.CStringOfTerminated | src/SafeCRT.c:63-82 | a string followed by NUL reads back as that string, whatever follows the NUL |
| StandardUI.Abbreviate | src/StandardUI.cpp:378-396 | a string of at most nMax characters is returned unchanged; a longer one becomes exactly nMax characters: its first nMax/2-2 characters, "...", and its last characters |
| StandardUI.AbbreviateIdempotent | src/StandardUI.cpp:378-396 | the result is at most nMax long, so abbreviating it again changes nothing |
| StandardUI.AbbreviateKeepsEnds | src/StandardUI.cpp:378-396 | an abbreviated string is a head of the original, "..." and a tail of the original, the tail no shorter than the head |
| StandardUI.AbbreviateFive | src/StandardUI.cpp:378-396 | at the smallest allowed nMax (5) nothing of the head survives: "..." and the last two characters |
| Decimal.FromNatValue | src/CommandParser.hpp:156-157 | the decimal numeral SetNumber writes for n has the value n |
| Decimal.FromNatHexValue | src/CommandParser.cpp:360-386 | the hexadecimal numeral of n, the form a PCI bus, slot and function is written in, has the value n and no leading zero |
| Decimal.RunEndDigits | src/CommandParser.cpp:334-357 | the run a digit scan stops at consists of digits of the radix only |
| Scanners.SkipWhite | src/CommandParser.cpp:236-242 | SpanWhite stops at the first character that is not white space, or at the end |
| Scanners.SkipWhiteOf | src/CommandParser.cpp:236-242 | after a run of blanks and a non-blank, SpanWhite stops exactly at the non-blank |
| Scanners.ScanToken | src/CommandParser.cpp:249-265 | ScanToken skips white space, then takes the longest run of characters that are not delimiters, stopping at a delimiter or the end; an empty token leaves the position after the white space |
| Scanners.ScanTokenOf | src/CommandParser.cpp:249-265 | blanks, a token and then a delimiter scan as exactly that token, the position left at the delimiter |
| Scanners.ScanQuoted | src/CommandParser.cpp:268-284 | without an opening quote ScanQuoted is ScanToken; with one it takes everything up to the closing quote (or the end), the quote itself consumed |
| Scanners.ScanQuotedOf | src/CommandParser.cpp:268-284 | a quoted string scans as its contents, the position left after the closing quote |
| Scanners.ScanName | src/CommandParser.cpp:316-331 | ScanName skips white space and takes the longest run of name characters, returned in upper case |
| Scanners.ScanNameOf | src/CommandParser.cpp:316-331 | blanks, a name and a non-name character scan as the name in upper case |
| Scanners.ScanNumber | src/CommandParser.cpp:334-357 | ScanNumber skips white space and takes the longest run of decimal digits |
| Keywords.Match | src/CommandParser.cpp:519-556 | Match holds exactly when both are given and the token abbreviates the key: it is a case-insensitive prefix of the key without its '*', at least as long as the part before the '*', or the whole key when there is no '*' |
| Keywords.MatchRestMeaning | src/CommandParser.cpp:519-556 | the character-by-character comparison loop agrees with that prefix-and-length description |
| Keywords.ExactKeyword | src/CommandParser.cpp:519-556 | a key without '*' matches only the whole key, in either case |
| Keywords.MatchTooShort | src/CommandParser.cpp:519-556 | "E" does not match "ex*amine": fewer characters than the '*' requires |
| Keywords.MatchShortest | src/CommandParser.cpp:519-556 | "EX" matches "ex*amine": exactly the required characters |
| Keywords.MatchAbbreviation | src/CommandParser.cpp:519-556 | "EXAM" matches "ex*amine" |
| Keywords.MatchMisspelt | src/CommandParser.cpp:519-556 | "EXIT" does not match "ex*amine": a character past the '*' differs |
| Keywords.Search | src/CommandParser.cpp:559-571 | Search returns the first key the token matches, or -1 exactly when it matches none |
| CommandArguments.Reset | src/CommandParser.hpp:98-387 | Reset clears the value, the keyword index (-1) and the valid flag and zeroes the PCI and disk fields; a network address goes back to its default port and address |
| CommandArguments.GetNumber | src/CommandParser.hpp:158-159 | GetNumber is the decimal value of the text as strtoul returns it into a uint32_t on 64-bit Linux: the value itself below 2^32, the value modulo 2^32 up to ULONG_MAX, and all ones above |
| CommandArguments.IsValid | src/CommandParser.hpp:97-380 | validity per class: always for tokens, names and text; a number absent and optional, or present and within its bounds; a keyword present with a match; a PCI, disk or network address parsed, or absent and optional |
| CommandArguments.GetKeyIndex | src/CommandParser.hpp:207 | GetKeyIndex is the matched index when the keyword is valid and -1 otherwise |
| CommandArguments.ResetValidity | src/CommandParser.hpp:97-387 | after Reset nothing is present, a keyword is invalid with index -1, and a number or address is valid exactly when optional |
| CommandArguments.Parse | src/CommandParser.hpp:104-244 | every Parse moves forward; it succeeds exactly when a value was stored (for the address classes, exactly when the address is valid), and success consumes at least one character |
| CommandArguments.ParseToken | src/CommandParser.hpp:104-105 | stores the scanned token as the value and succeeds exactly when it is non-empty |
| CommandArguments.ParseName | src/CommandParser.hpp:134-135 | stores the scanned name, upper-cased, and succeeds exactly when it is non-empty |
| CommandArguments.ParseNumber | src/CommandParser.hpp:168-169 | stores the scanned decimal digits and succeeds exactly when there are some |
| CommandArguments.ParseKeyword | src/CommandParser.cpp:574-589 | stores the scanned name; on success the index is the first key it matches (Search), on failure only the value is cleared |
| CommandArguments.ParseText | src/CommandParser.hpp:243-244 | stores the quoted-or-plain string ScanQuoted returns and succeeds exactly when it is non-empty |
| CommandArguments.ParsePCI | src/CommandParser.cpp:389-404 | keeps ScanBDF's bus, slot and function and position; valid exactly when the scan succeeded with bus and slot within 0..255; the value is the text consumed |
| CommandArguments.ParseDisk | src/CommandParser.cpp:433-451 | a leading digit means a block number (always valid, cylinder, head and sector zero); otherwise ScanCHS decides validity and the three fields; the value is the text consumed |
| CommandArguments.ParseNetwork | src/CommandParser.cpp:505-516 | keeps the port, address, end and validity that the code's scan (ScanAsWritten) produces, with the scanned text as the value; a failure keeps the port, though the address may already have changed |
| CommandArguments.ParseNetworkIntended | src/CommandParser.cpp:505-516 | the same parse with the corrected scan: a failure leaves port and address as they were |
| CommandArguments.ParseNetworkAgrees | src/CommandParser.cpp:454-516 | whatever the corrected parse accepts, other than a bare number, the code parses identically |
| CommandArguments.ParseNumberFormatted | src/CommandParser.hpp:156-169 | the numeral SetNumber writes for n parses back as n, valid exactly when n lies within the bounds |
| CommandArguments.ParsePCIFormatted | src/CommandParser.cpp:360-404 | the "bus:slot.function" text of a PCI address parses back to the same three numbers, valid exactly when bus and slot are within 0..255 |
| CommandArguments.ParseDiskFormatted | src/CommandParser.cpp:407-451 | the "(c,h,s)" text of a disk address parses back to the same cylinder, head and sector |
| CommandArguments.ParseBlockFormatted | src/CommandParser.cpp:433-451 | a decimal block number parses back as that logical block |
| CommandArguments.ParseNetworkFormatted | src/CommandParser.cpp:454-516 | the text FormatIPaddress writes parses back through the code's scan to the same address, and to the same port when it is non-zero |
| CommandArguments.ParseKeywordValid | src/CommandParser.hpp:205 | a parsed keyword is valid exactly when the token matches one of the keys |
| Addresses.AssembleIP | src/UPELIB.cpp:307-346 | the address assembled from four numbers has their low bytes as its octets, most significant first |
| Addresses.AssembleOctets | src/UPELIB.cpp:276-346 | every address is reassembled from its four octets |
| Addresses.Strtoul | src/UPELIB.cpp:307-346 | strtoul of decimal digits stored in the uint32_t `l` on 64-bit Linux: the value itself below 2^32, the value modulo 2^32 up to ULONG_MAX, and all ones above |
| Addresses.StrtoulKeepsLowBits | src/UPELIB.cpp:333-336 | "4294967296" is 2^32, which the 32-bit variable holds as 0, so the bare-number form sets the port to 0 |
| Addresses.ParseIPaddress | src/UPELIB.cpp:307-346 | an empty string fails; a failed parse changes neither address nor port; ":port" keeps the address; a bare number keeps the address and sets the port to the low 16 bits of its value |
| Addresses.ParseDotted | src/UPELIB.cpp:307-346 | a dotted quad, optionally with ":port", sets the address from the low bytes of the four numbers as `%d` reads them (saturating at LONG_MAX), and the port when one is given |
| Addresses.ParseFormatted | src/UPELIB.cpp:276-346 | ParseIPaddress reads back what FormatIPaddress writes: the same address, and the same port unless the port was 0 and so not written |
| Addresses.ParsePortOnly | src/UPELIB.cpp:319-328 | ":digits" and bare digits set only the port, to the low 16 bits of the number |
| Addresses.MakePath | src/UPELIB.cpp:199-223 | the Linux path is the directory, a slash, the file name and the extension, each found in its place |
| Addresses.FullPath | src/UPELIB.cpp:226-257 | an empty relative path gives an empty result; any other path gives the file system's answer |
| AddressScanners.ScanBDF | src/CommandParser.cpp:360-386 | a successful "bus:slot.function" scan starts at a hexadecimal digit after the white space and stops where the last hexadecimal numeral ends |
| AddressScanners.ScanFormattedBDF | src/CommandParser.cpp:360-386 | the "bus:slot.function" text written in hexadecimal scans back to the same three numbers, ending where the text ends |
| AddressScanners.ScanCHS | src/CommandParser.cpp:407-430 | a successful "(c,h,s)" scan ends just after the closing parenthesis |
| AddressScanners.ScanFormattedCHS | src/CommandParser.cpp:407-430 | the "(c,h,s)" text written in decimal scans back to the same cylinder, head and sector, ending at the ')' |
| AddressScanners.Scan | src/CommandParser.cpp:454-502 | the corrected network address scan: a failure leaves port and address untouched, and a success consumes at least one character after the white space |
| AddressScanners.ScanFormattedEndpoint | src/CommandParser.cpp:454-502 | the corrected scan reads back what FormatIPaddress writes: the same address, and the same port unless the port was 0 and so not written; the code as written reads that text identically |
| AddressScanners.ScanAsWritten | src/CommandParser.cpp:454-502 | the network address scan as the source writes it; it never reads past the end, a failure never changes the port, and a success consumes at least one character after the white space |
| AddressScanners.AsWrittenAgrees | src/CommandParser.cpp:454-502 | wherever the corrected scan succeeds on anything but a bare number, the code's scan gives the same port, address and end |
| AddressScanners.AsWrittenSkipsThirdSeparator | src/CommandParser.cpp:488-495 | as written, "1.2.3x4" is accepted as address 1.2.3.4, because the separator after the third number is never checked; the corrected scan rejects it |
| AddressScanners.AsWrittenIgnoresBarePort | src/CommandParser.cpp:480-484 | as written, a bare "80" is accepted but the port is not changed; the corrected scan sets port 80 |
| AddressScanners.AsWrittenFailureChangesAddress | src/CommandParser.cpp:494-500 | as written, "1.2.3.4:x" fails yet leaves the address set to 1.2.3.4; the corrected scan leaves it unchanged |
| AddressScanners.DottedOneTwoThreeFour | src/CommandParser.cpp:486-495 | the dotted part of "1.2.3.4" reads as the address 1.2.3.4, and so does "1.2.3x4" when the third separator is not checked |
| Aliases.GetDefinition | src/CommandParser.hpp:595-596 | the definition of a defined alias, looked up by its upper-case name, and the empty string for an undefined one |
| Aliases.CaseInsensitive | src/CommandParser.cpp:1021-1029 | an alias name is defined, and has the same definition, in any mixture of cases |
| Aliases.Define | src/CommandParser.cpp:1032-1049 | Define succeeds exactly when redefinition is allowed or the name is new; success binds the upper-case name to the substitution and keeps every other alias; failure changes nothing |
| Aliases.Undefine | src/CommandParser.cpp:1052-1062 | Undefine reports whether the name was defined, removes exactly that name, and afterwards it is undefined |
| Aliases.DefineThenGet | src/CommandParser.cpp:1032-1049 | after a successful Define, looking the name up in any case gives the substitution |
| Aliases.DefineUndefine | src/CommandParser.cpp:1032-1062 | defining a new alias and then undefining it gives back the original table |
| Aliases.Expand | src/CommandParser.cpp:1065-1105 | Expand keeps the buffer size and succeeds exactly when the line starts with a defined alias name; a failure leaves the buffer alone; a line with more after the name is cleared to NULs; a line with only the name is replaced by its definition, cut to fit as strcpy_s cuts it |
| Aliases.ExpandAlias | src/CommandParser.cpp:1065-1105 | a line holding just a defined alias name, with blanks around it, expands to the definition |
| Aliases.ExpandWithArguments | src/CommandParser.cpp:1095-1100 | a defined alias name followed by anything other than blanks expands to an empty line |
| Aliases.ExpandCleared | src/CommandParser.cpp:1095-1100 | the same for any buffer: a defined alias with something after it leaves an empty line |
| CommandParser.GetPrompt | src/CommandParser.hpp:642 | the prompt is the parser's prompt string followed by '>' |
| CommandParser.GetScriptName | src/CommandParser.hpp:647-648 | the name of the innermost script being read, or empty when no script is open |
| CommandParser.GetScriptLine | src/CommandParser.hpp:650-651 | the line number in the innermost script, or 0 when no script is open |
| CommandParser.DefineAlias | src/CommandParser.cpp:1271-1286 | an alias is refused exactly when its name abbreviates a verb; otherwise it is defined (replacing any earlier one) and every other alias is kept |
| CommandParser.UndefineAlias | src/CommandParser.cpp:1289-1298 | the alias is removed and the answer is whether it was defined |
| CommandParser.DefinedAliasExpands | src/CommandParser.cpp:1271-1286 | an alias defined through the parser expands, on a line holding only its name, to its substitution |
| CommandVerbs.ResetArguments | src/CommandParser.cpp:872-879 | every argument of the table is reset, and nothing else |
| CommandVerbs.ResetModifiers | src/CommandParser.cpp:882-889 | every modifier is reset: not present, not negated, its argument cleared |
| CommandVerbs.SearchModifier | src/CommandParser.cpp:633-661 | the first modifier the token names, by its name or by its negated ("NO") name, is marked present, and negated exactly when its plain name does not match; the search fails when no modifier is named or the first one named was already given |
| CommandVerbs.SearchModifierNone | src/CommandParser.cpp:633-661 | the search fails exactly when no modifier is named or the first one named is already present |
| CommandVerbs.SearchModifierTwice | src/CommandParser.cpp:633-661 | the same modifier cannot be given twice on one command |
| CommandVerbs.ParseModifierArgument | src/CommandParser.cpp:664-695 | a modifier without an argument consumes nothing; a missing "=value" is accepted exactly when the argument is optional; a parsed value is present and took at least one character after '=' |
| CommandVerbs.ParseModifier | src/CommandParser.cpp:764-779 | a successful modifier starts with '/' and a letter or digit, and makes one modifier present that was not present before |
| CommandVerbs.ModifierKeepsReset | src/CommandParser.cpp:764-779 | a modifier that is not present after the parse is exactly as it was before |
| CommandVerbs.ParseArgument | src/CommandParser.cpp:738-761 | an argument succeeds exactly when the table has room for another and that argument parses; success stores it in the next slot only and counts it |
| CommandVerbs.ParseTail | src/CommandParser.cpp:782-800 | after the tail of a command every argument past the count is still reset and every absent modifier is still reset |
| CommandVerbs.BlankTail | src/CommandParser.cpp:782-800 | a blank tail leaves all arguments and modifiers reset and counts no arguments |
| CommandVerbs.ValidateArguments | src/CommandParser.cpp:892-916 | the arguments are accepted exactly when each is present and valid, or absent and optional |
| CommandVerbs.ValidateModifiers | src/CommandParser.cpp:919-941 | the modifiers are accepted exactly when each given one has a valid argument and each missing one is optional |
| CommandVerbs.ResetArgumentsAccepted | src/CommandParser.cpp:872-916 | freshly reset arguments are accepted exactly when every argument is optional |
| CommandVerbs.ResetModifiersAccepted | src/CommandParser.cpp:882-941 | freshly reset modifiers are accepted exactly when every modifier is optional |
| CommandVerbs.SearchVerb | src/CommandParser.cpp:720-735 | the first verb whose name the token abbreviates, and none exactly when no verb matches |
| CommandVerbs.ParseVerb | src/CommandParser.cpp:803-844 | a missing verb name fails; a command that runs names a verb without sub-verbs whose arguments and modifiers are all accepted |
| CommandVerbs.ParseIndirect | src/CommandParser.cpp:847-869 | "@file" runs the DO verb (and fails when the table has none), with arguments and modifiers accepted |
| CommandVerbs.ParseCommand | src/CommandParser.cpp:1316-1330 | a blank line or a comment is ignored and nothing else is; a line starting with '@' can only run DO; whatever runs has its arguments and modifiers accepted |
| CommandVerbs.BareVerb | src/CommandParser.cpp:803-844 | a line holding only a verb name runs that verb with everything reset when all its arguments and modifiers are optional, and fails otherwise |
| CommandLine.GetOptionType | src/CommandLine.cpp:96-111 | an option letter is illegal exactly when it is not among the declared options |
| CommandLine.DeclaredTypes | src/CommandLine.cpp:96-111 | a letter declared with ':' requires a value, with '+' may take one, and alone takes none |
| CommandLine.ParseValue | src/CommandLine.cpp:114-132 | an option word of two characters has no attached value; a longer one's value is what follows the letter, after a ':' or '=' when there is one |
| CommandLine.ParseOption | src/CommandLine.cpp:135-188 | an option sets only its own (case-fixed) letter and advances; illegal letters fail; a plain option fails when it carries a value; an optional-value option always succeeds on this word; a required value comes from the word or the next one, and fails only when neither exists |
| CommandLine.Parse | src/CommandLine.cpp:191-223 | the parse succeeds exactly when every option parses and the argument count lies between the minimum and the maximum |
| CommandLine.GetOptionValue | src/CommandLine.cpp:226-236 | the value of a given option, and the empty string for one not given |
| CommandLine.GetArgument | src/CommandLine.cpp:239-248 | the n-th argument, or the empty string past the last one |
| CommandLine.BuildCommandJoins | src/CommandLine.cpp:251-282 | the rebuilt command is its option words followed by its arguments, separated by single spaces |
| CommandLine.ParseBuildWords | src/CommandLine.cpp:191-282 | parsing the words BuildCommand writes (one option per word, then the arguments) gives back the same options and arguments |
| CommandLine.ParseWords | src/CommandLine.cpp:191-223 | any argument vector holding those option words and then those arguments parses to that command line |
| BitStream.Clear | src/BitStream.cpp:84-93 | Clear empties the header strings and the bit stream, zeroes its length, marks the stream not loaded and keeps the file name |
| BitStream.ReadBytes | src/BitStream.cpp:116-125 | reading n bytes succeeds exactly when that many remain, and gives exactly those bytes |
| BitStream.LengthWordSwapped | src/BitStream.cpp:128-142 | the block length is the two bytes read as a word with its bytes swapped, that is, big-endian |
| BitStream.ReadBlock | src/BitStream.cpp:128-142 | a counted block is read exactly when its big-endian length fits the buffer and the file holds that many bytes, and it is exactly the bytes after the count |
| BitStream.ReadString | src/BitStream.cpp:145-156 | a counted string is read exactly when it is non-empty, fits MAXSTRING and lies within the file; its value is the bytes up to the first NUL |
| BitStream.ReadBitsLength | src/BitStream.cpp:202-206 | the bit stream length is found exactly when the 'e' token comes next, and is the following four bytes as a big-endian longword |
| BitStream.ReadFileAsWritten | src/BitStream.cpp:159-219 | as written, the stream is marked loaded whenever the read succeeds |
| BitStream.OpenAsWritten | src/BitStream.cpp:222-258 | the file name is the given one, or the old one when none is given |
| BitStream.ShortFileStaysLoaded | src/BitStream.cpp:208-217 | as written, a file whose bit stream is shorter than its stated length fails to open yet leaves the stream marked loaded, holding the stated length and no bits |
| BitStream.CutFields | src/BitStream.cpp:159-212 | such a file exists: dropping the last byte of any well-formed file keeps the header and the stated length intact |
| BitStream.Open | src/BitStream.cpp:222-258 | the corrected Open: it succeeds exactly when the stream is loaded, and then the stream holds exactly as many bytes as its length says; a failure leaves the stream cleared |
| BitStream.OpenReadsHeader | src/BitStream.cpp:159-219 | a successful Open holds the header the file's fields give and exactly the bit stream bytes the 'e' length counts |
| BitStream.LayoutFields | src/BitStream.cpp:159-219 | in a file written in the layout the reader expects (magic, the four fields 'a' to 'd', then 'e' and the bits) every field and the bits read back |
| BitStream.OpenFields | src/BitStream.cpp:222-258 | when every field and the bits read back, Open succeeds with exactly those header strings and bits under the given name |
| BitStream.BadMagicFails | src/BitStream.cpp:159-219 | a file that does not start with the magic preamble never opens |
| BitSwap.TableReverses | src/BitStream.cpp:49-66 | every entry of the 256-byte table is its index with the bit order reversed |
| BitSwap.SwapBitsTwice | src/BitStream.cpp:49-66 | swapping the bits of a byte twice gives the byte back |
| BitSwap.SwapBytes | src/BitStream.hpp:61-62 | SwapBytes exchanges the high and low bytes of a word |
| BitSwap.SwapBytesTwice | src/BitStream.hpp:61-62 | swapping the bytes twice gives the word back |
| CardImage.Pack | src/ImageFile.cpp:1083-1099 | packing three bytes per two columns gives two thirds as many columns, each of twelve bits |
| CardImage.Unpack | src/ImageFile.cpp:1182-1197 | unpacking two columns per three bytes gives three halves as many bytes |
| CardImage.GroupRoundTrip | src/ImageFile.cpp:1083-1197 | a group of three bytes packed into two columns unpacks to the same bytes |
| CardImage.ColumnsRoundTrip | src/ImageFile.cpp:1083-1197 | two twelve-bit columns unpacked into three bytes pack back to the same columns |
| CardImage.UnpackPack | src/ImageFile.cpp:1083-1197 | Unpack undoes Pack for any whole number of three-byte groups |
| CardImage.PackUnpack | src/ImageFile.cpp:1083-1197 | Pack undoes Unpack for any even number of twelve-bit columns |
| CardImage.WideColumnLost | src/ImageFile.cpp:1182-1197 | a column with a bit above the twelfth does not survive unpacking and packing |
| CardImage.WriteCardAsWritten | src/ImageFile.cpp:1200-1227 | as written, Write hands Unpack a byte count of COLUMNS, so Unpack's size check fails for every card |
| CardImage.WriteCardGuard | src/ImageFile.cpp:1182-1221 | Unpack's check refuses 80 bytes for 80 columns and accepts CARDBYTES (120) |
| CardImage.WriteCard | src/ImageFile.cpp:1200-1227 | the corrected card record: three header bytes with the top bit set, then the 120 bytes of the unpacked columns |
| CardImage.ReadCard | src/ImageFile.cpp:1102-1138 | a card is read exactly when a whole record remains and its three header bytes have the top bit set; its columns are the packed record bytes |
| CardImage.CardRoundTrip | src/ImageFile.cpp:1102-1227 | a card written by the corrected Write is read back, column for column, wherever it stands in a file |
| CardImage.WriteDeck | src/ImageFile.cpp:1052-1179 | the file written for a deck starts with the "H80" header that Open checks |
| CardImage.DeckRoundTrip | src/ImageFile.cpp:1052-1227 | every card of a written deck is read back from its own place after the file header |
| CircularBuffer.Items | src/CircularBuffer.hpp:62-66 | the contents of a valid buffer, oldest first, as many as its count |
| CircularBuffer.Increment | src/CircularBuffer.hpp:93 | the next index, wrapping from the last slot to the first |
| CircularBuffer.Clear | src/CircularBuffer.hpp:71 | Clear empties the buffer and keeps its storage |
| CircularBuffer.NewBuffer | src/CircularBuffer.hpp:52 | a new buffer has the requested size and is empty |
| CircularBuffer.Put | src/CircularBuffer.hpp:84-88 | Put succeeds exactly when the buffer is not full, and then appends the value to the contents; a full buffer is left unchanged |
| CircularBuffer.Get | src/CircularBuffer.hpp:73-77 | Get returns nothing exactly when the buffer is empty; otherwise it returns the oldest value and removes only it |
| CircularBuffer.Next | src/CircularBuffer.hpp:79-82 | Next returns the oldest value, or nothing when the buffer is empty |
| CircularBuffer.NextIsGet | src/CircularBuffer.hpp:73-82 | Next peeks at exactly the value Get would take |
| CircularBuffer.PutAllItems | src/CircularBuffer.hpp:84-88 | values put while there is room are appended in order |
| CircularBuffer.GetAllItems | src/CircularBuffer.hpp:73-77 | n values got are the n oldest, and the rest stay in order |
| CircularBuffer.FirstInFirstOut | src/CircularBuffer.hpp:73-88 | values put into an empty buffer come out in the order they went in, leaving it empty |
| DiskImage.SeekSector | src/ImageFile.cpp:321-337 | the offset is the sector number times the sector size, wrapped to 32 bits as the unsigned product wraps; on 64-bit Linux `fseek`'s long offset holds every such product |
| DiskImage.ReadSector | src/ImageFile.cpp:340-364 | reading past the end of the file gives a sector of zeros, a sector inside the file gives its bytes, and a sector cut off by the end of the file is an error |
| DiskImage.WriteSector | src/ImageFile.cpp:367-378 | writing fails exactly on a read-only image, which is then unchanged; otherwise the sector's bytes are replaced, the file growing (zero-filled) as needed |
| DiskImage.WriteThenRead | src/ImageFile.cpp:340-378 | a sector written is read back unchanged |
| DiskImage.WriteKeepsOthers | src/ImageFile.cpp:340-378 | writing one sector leaves every other readable sector as it was |
| DiskImage.ReadPastEnd | src/ImageFile.cpp:340-364 | a sector beyond the end of the file reads as zeros |
| TextOutput.Repeat | src/ImageFile.cpp:962-972 | Write(ch, cb) writes exactly cb copies of the character |
| TextOutput.WriteFixed | src/ImageFile.cpp:985-1012 | WriteFixed appends exactly cbLine characters: the line padded with spaces, or cut off when longer |
| TextOutput.WriteLine | src/ImageFile.hpp:302-304 | WriteLine appends the string and one newline |
| TextOutput.WriteRecord | src/ImageFile.hpp:306 | a record is the fixed-length line followed by a newline |
| TextOutput.FixedExact | src/ImageFile.cpp:985-1012 | a line of exactly the record length is written unchanged |
| TextOutput.FixedIdempotent | src/ImageFile.cpp:985-1012 | writing a fixed line of what a fixed line wrote gives the same text |
| LogFile.LevelToString | src/LogFile.cpp:120-136 | every known severity has a name of at most seven characters, and "UNKNOWN" is given to exactly the other values |
| LogFile.LevelNamesDistinct | src/LogFile.cpp:120-136 | no two severities share a name |
| LogFile.SetThreadConsoleLevel | src/LogFile.cpp:166-177 | sets the console level of one thread (0 meaning the calling thread) and changes nothing else |
| LogFile.SetThreadFileLevel | src/LogFile.cpp:180-187 | sets the file level of one thread (0 meaning the calling thread) and changes nothing else |
| LogFile.GetThreadConsoleLevel | src/LogFile.cpp:190-200 | a thread with no console level of its own reports NOLOG |
| LogFile.GetThreadFileLevel | src/LogFile.cpp:203-211 | a thread with no file level of its own reports NOLOG |
| LogFile.SetThenGetConsole | src/LogFile.cpp:166-200 | a thread reads back the console level set for it, and other threads' levels are unaffected |
| LogFile.SetThenGetFile | src/LogFile.cpp:180-211 | a thread reads back the file level set for it, and other threads' levels are unaffected |
| LogFile.RemoveThreadLevels | src/LogFile.cpp:214-226 | removes both levels of exactly one thread |
| LogFile.RemoveThenGet | src/LogFile.cpp:190-226 | after removal the thread reports NOLOG for both levels, and other threads are unaffected |
| LogFile.GetConsoleLevel | src/LogFile.cpp:229-238 | the calling thread's console level, or the default when it has none |
| LogFile.GetFileLevel | src/LogFile.cpp:241-248 | the calling thread's file level, or the default when it has none |
| LogFile.OverrideWins | src/LogFile.cpp:166-248 | a level set for the calling thread overrides the default, and removing it restores the default |
| LogFile.SetThreadQueued | src/LogFile.cpp:139-153 | adds or removes exactly one thread in the queued set |
| LogFile.SetThenIsQueued | src/LogFile.cpp:139-163 | a thread reads back the queued flag set for it, and other threads are unaffected |
| LogFile.JoinLines | src/LogFile.cpp:442-462 | cutting a message at its newlines gives lines without newlines that join back to the message |
| LogFile.LinesJoin | src/LogFile.cpp:442-462 | joining newline-free lines and cutting them again gives the same lines |
| LogFile.LogSingleLine | src/LogFile.cpp:428-439 | an open log file gains exactly one line with the stamp, the level prefix and the text; a closed one is unchanged |
| LogFile.SendLog | src/LogFile.cpp:442-462 | a message is logged as one line per newline-separated piece, each with the same stamp and level name |
| LogFile.CloseLog | src/LogFile.cpp:377-389 | with a file open, the DEBUG message "log <name> closed" is written to it first when the file level admits DEBUG and the message is not queued (one line when the name has no newline), then the file is closed, its name forgotten and the default file level set to NOLOG, keeping every other setting; an already closed log is unchanged |
| LogFile.ClosedLogsNothing | src/LogFile.cpp:377-439 | after closing, nothing more is written, the file level is NOLOG unless a thread overrides it, and closing again changes nothing, not even a second closing message |
| MessageQueue.Init | src/MessageQueue.cpp:68-76 | a new queue is empty, with no free list and no messages allocated |
| MessageQueue.NewEntry | src/MessageQueue.cpp:95-114 | a new message is blank and taken from the head of the free list when there is one, otherwise freshly allocated and counted; nothing else changes |
| MessageQueue.NewMessage | src/MessageQueue.cpp:117-145 | the new message carries the level, destinations and stamp, and its text is the given string cut to fit MAXMSG with its NUL |
| MessageQueue.AddEntry | src/MessageQueue.cpp:148-166 | the message becomes the tail, and the head too when the queue was empty |
| MessageQueue.RemoveEntry | src/MessageQueue.cpp:169-196 | the head is removed and returned, its successor becomes the head, and an emptied queue has no tail; an empty queue returns nothing |
| MessageQueue.FreeEntry | src/MessageQueue.cpp:199-215 | the message goes to the head of the free list |
| MessageQueue.InitShape | src/MessageQueue.cpp:68-76 | a new queue is a well-formed empty list with an empty free list |
| MessageQueue.AddKeepsShape | src/MessageQueue.cpp:148-166 | adding a detached message to a well-formed queue appends it to the order |
| MessageQueue.RemoveKeepsShape | src/MessageQueue.cpp:169-196 | removing from a well-formed non-empty queue returns the oldest message and leaves the rest in order |
| MessageQueue.RemoveEmpty | src/MessageQueue.cpp:169-196 | removing from an empty queue returns nothing and changes nothing |
| MessageQueue.FreeKeepsShape | src/MessageQueue.cpp:199-215 | freeing a detached message pushes it on the free list and keeps the queue well formed |
| MessageQueue.NewKeepsShape | src/MessageQueue.cpp:95-114 | allocating reuses the first free message, or a new one when the free list is empty, and returns it detached |
| MessageQueue.MessageKeepsShape | src/MessageQueue.cpp:117-145 | the same holds for a message built from a level and a text |
| MessageQueue.DrainAll | src/MessageQueue.cpp:169-196 | removing as many times as there are messages returns them in queue order |
| MessageQueue.FirstInFirstOut | src/MessageQueue.cpp:148-196 | a message added last comes out after all those already queued |
| TapeImage.CodesDistinct | src/ImageFile.hpp:174-182 | the tape mark, EOT/BOT and bad tape codes differ from each other and from every legal record length |
| TapeImage.MetaOfEncode | src/ImageFile.cpp:643-685 | a length written little-endian in four bytes reads back as the same length |
| TapeImage.ShiftedMeta | src/ImageFile.cpp:463-543 | a record length cannot also be read one byte later, so the pad byte test cannot mistake one for the other |
| TapeImage.Rewind | src/ImageFile.cpp:450-460 | Rewind goes to the load point and zeroes the record count, keeping the image |
| TapeImage.ReadForward | src/ImageFile.cpp:463-543 | at the end of the image EOT is returned and nothing moves; a tape mark moves past its four bytes; a record returns its data, which is no longer than the buffer, and moves past the trailing length and any pad byte; everything else is bad tape, which leaves the file past where the read started, and a header longer than the buffer is consumed |
| TapeImage.ReadReverse | src/ImageFile.cpp:546-627 | a reverse read keeps the image and returns bad tape, BOT, a tape mark or a record no longer than the buffer; a record's data is the bytes after the header word where the tape is left |
| TapeImage.ReverseMeaning | src/ImageFile.cpp:546-627 | BOT is returned exactly at the load point; a tape mark exactly when the trailer word (before the position, or at it when a seek back four bytes would pass the load point) is zero, the tape moving to that word; every other result counts one record less |
| TapeImage.ReverseRecord | src/ImageFile.cpp:575-627 | a zero length is a tape mark; a length longer than the buffer is bad tape; a record returns the data after a header equal to the trailer, found right before the data, one pad byte further back, or, when the seek back would pass the load point, at the trailer itself or at the word after the first |
| TapeImage.PaddedData | src/ImageFile.cpp:605-615 | when the word before the data is not the header, the header is looked for one byte further back (or, when that seek would pass the start of the file, in the word after it); a match returns the data after it, anything else is bad tape with no data |
| TapeImage.ForwardThenReverse | src/ImageFile.cpp:463-627 | reading a record or tape mark backwards after reading it forwards returns the same result and restores the position and record count |
| TapeImage.ReverseAfterRefusedForward | src/ImageFile.cpp:475-627 | after a forward read refuses a first record too long for its buffer, a reverse read with a larger buffer returns that record's data and goes back to the load point: the seek back fails and the trailer is read again as the header |
| TapeImage.WriteRecord | src/ImageFile.cpp:643-685 | writing fails exactly on a read-only image; otherwise the tape is cut at the position and the length, the data and the length again are appended, counting one record |
| TapeImage.WriteMark | src/ImageFile.cpp:688-712 | writing a tape mark fails exactly on a read-only image; otherwise the tape is cut and a zero length appended |
| TapeImage.WriteThenReadForward | src/ImageFile.cpp:463-685 | a record written is read forwards from where it was written, with the same data |
| TapeImage.WriteThenReadReverse | src/ImageFile.cpp:546-685 | a record just written is read backwards with the same data, back to where it was written |
| TapeImage.MarkReadsBack | src/ImageFile.cpp:463-712 | a tape mark written is read as a tape mark in both directions |
| TelnetLine.NewLine | src/TerminalLine.cpp:78-98 | a new line is in the normal state, echoes locally and has go-ahead suppression off both ways |
| TelnetLine.SendCommand | src/TerminalLine.cpp:176-187 | a command is the three bytes IAC, verb, option |
| TelnetLine.Send | src/TerminalLine.cpp:135-145 | data is sent unchanged, neither NUL-stuffed nor IAC-escaped |
| TelnetLine.HandleWill | src/TerminalLine.cpp:190-211 | WILL SGA turns remote suppression on, answering DO unless we asked for it; any other WILL is refused with DONT |
| TelnetLine.HandleWont | src/TerminalLine.cpp:214-225 | WONT is ignored |
| TelnetLine.HandleDo | src/TerminalLine.cpp:228-263 | DO SGA turns local suppression on, answering WILL unless we offered it; DO ECHO completes our offer, or is refused while we echo and accepted otherwise; any other DO is refused with WONT |
| TelnetLine.HandleDont | src/TerminalLine.cpp:266-290 | DONT ECHO turns local echo back on; any other DONT is ignored |
| TelnetLine.Receive | src/TerminalLine.cpp:293-387 | data passes through unchanged except that NUL is dropped and a LF or NUL after CR is dropped; IAC IAC is a literal 255; IAC and a negotiation verb select the option handler for the next byte; other commands are ignored |
| TelnetLine.SetLocalEcho | src/TerminalLine.cpp:390-433 | a change of echo is offered (WILL ECHO to stop echoing, WONT ECHO to echo) and the line waits for the answer; a request that changes nothing, or one made while waiting, sends nothing |
| TelnetLine.SuppressGoAhead | src/TerminalLine.cpp:436-469 | WILL SGA and DO SGA are sent for whichever direction is not yet suppressed, and those directions wait for the answer |
| TelnetLine.CommandTripleReturnsToNormal | src/TerminalLine.cpp:293-347 | IAC, a negotiation verb and an option leave the line in the normal state and deliver nothing |
| TelnetLine.UnsupportedOptionsRefused | src/TerminalLine.cpp:190-263 | WILL and DO for an option other than ECHO and SGA are answered DONT and WONT and change nothing |
| TelnetLine.DisableEchoOnNewLine | src/TerminalLine.cpp:390-433 | turning echo off on a new line sends IAC WILL ECHO (255 251 1) |
| TelnetLine.EchoOffHandshake | src/TerminalLine.cpp:228-433 | offering WILL ECHO and receiving DO ECHO ends with echo off and nothing more sent |
| TelnetLine.EchoOnHandshake | src/TerminalLine.cpp:266-433 | offering WONT ECHO and receiving DONT ECHO ends with echo on and nothing more sent |
| TelnetLine.SuppressGoAheadHandshake | src/TerminalLine.cpp:190-469 | asking for suppression and receiving WILL SGA and DO SGA ends with suppression on both ways and no further replies |
| TelnetLine.ReceiveNvtEncode | src/TerminalLine.cpp:293-387 | data with IAC doubled and CR followed by NUL is received as the original data, with nothing sent |
| TelnetLine.ReceiveNvtByte | src/TerminalLine.cpp:293-387 | the same for one byte |
| TelnetLine.CrLfDeliversCr | src/TerminalLine.cpp:293-347 | CR LF is delivered as a single CR |
| TerminalServer.NewServer | src/TerminalServer.cpp:149-177 | a new server has every line free, no sockets, the default port and is not running |
| TerminalServer.ConnectedIffMapped | src/TerminalServer.cpp:218-307 | in a consistent server a line is connected exactly when one socket maps to it |
| TerminalServer.SocketToLine | src/TerminalServer.cpp:310-337 | a mapped socket gives its line; an unknown one is entered in the map as line 0, as the map's operator[] does |
| TerminalServer.FirstFree | src/TerminalServer.cpp:247-307 | the lowest free line at or after the start, or none |
| TerminalServer.Accept | src/TerminalServer.cpp:247-307 | a connection takes the lowest free line with a new Telnet line; it is closed when select fails, when no line is free, or when the connect callback refuses it, and then nothing changes |
| TerminalServer.AcceptValid | src/TerminalServer.cpp:247-307 | accepting keeps the socket map and the line table consistent |
| TerminalServer.Disconnect | src/TerminalServer.cpp:218-244 | the line is freed and its socket unmapped and closed, after the disconnect callback when there is one |
| TerminalServer.DisconnectValid | src/TerminalServer.cpp:218-244 | disconnecting keeps the tables consistent, frees exactly that line and counts one active line less |
| TerminalServer.SocketRead | src/TerminalServer.cpp:310-337 | a read error is ignored and a zero-byte read disconnects. Data is handed to the line's Telnet receiver one byte at a time. Each delivered byte is its own receive callback for that line, and each negotiation reply is its own non-empty send on the line's socket, in the order the bytes cause them. Together the callbacks carry what the receiver delivers and the sends what it answers. A read that does neither causes no event |
| TerminalServer.FeedMatchesRun | src/TerminalServer.cpp:333-335 | feeding the bytes one by one leaves the line as the receiver run over the whole buffer leaves it, and the callbacks and sends carry exactly its delivered bytes and replies |
| TerminalServer.FeedPerByte | src/TerminalLine.cpp:350-387 | through the Telnet receiver, each event is one callback with a single byte or one non-empty send, since Receive delivers at most one byte per call |
| TerminalServer.FeedAppend | src/TerminalServer.cpp:333-335 | feeding two pieces in turn gives the same line and the same events, in order, as feeding them joined |
| TerminalServer.SilentIsEmpty | src/TerminalLine.cpp:350-387 | per-byte events that carry no callback byte and no reply byte are no events at all |
| TerminalServer.SocketReadValid | src/TerminalServer.cpp:310-337 | reading keeps the tables consistent |
| TerminalServer.SocketReadSplit | src/TerminalServer.cpp:310-337 | data arriving in two reads leaves the server as one read of the joined data does, and the two reads' events are that read's events in the same order |
| TerminalServer.DisconnectFrom | src/TerminalServer.cpp:589-603 | disconnecting every line from a given one on frees those lines and keeps the earlier ones and the settings |
| TerminalServer.DisconnectFromValid | src/TerminalServer.cpp:589-603 | that keeps the tables consistent |
| TerminalServer.StopServer | src/TerminalServer.cpp:589-603 | stopping a running server frees every line and clears the running flag; a stopped server is unchanged |
| TerminalServer.StopServerEmpties | src/TerminalServer.cpp:589-603 | after stopping no socket is mapped and no line is active |
| TerminalServer.StartServer | src/TerminalServer.cpp:569-586 | a running server reports success unchanged, whatever port is given (0 included, since the check for a positive port comes after); otherwise the address is set and the server runs exactly when its thread starts |
| TerminalServer.SetServerPort | src/TerminalServer.cpp:378-389 | the port changes exactly when the server is not running |
| TerminalServer.SetServerIP | src/TerminalServer.cpp:392-406 | the address changes exactly when the server is not running |
| TerminalServer.SetServerAddress | src/TerminalServer.cpp:409-418 | a running server refuses; otherwise the text is parsed as ParseIPaddress parses it |
| TerminalServer.ServerAddressRoundTrip | src/TerminalServer.cpp:409-418 | the address one server formats sets another stopped server to the same address and port (the port only when non-zero) |

## Left out

- File-system and socket I/O (`fopen`, `fseek`, `fread`, `fwrite`, `ftruncate`, `flock`, `recv`, `send`, `accept`, `getpeername`, `realpath`, `GetFileAttributes`) are not modelled. Image files are byte sequences. A socket is an input sequence and an output log. The file-system answer `FullPath` receives is a parameter. Failures of these calls are not modelled, other than a read that reaches the end of the file and a seek that would pass its start.
- The errno and `strerror_s` paths of `CImageFile::Error` and of the socket code are not modelled, because they only format a message.
- Addresses.ParseIPaddress: a number may not start with white space or a sign. `strtoul` (src/UPELIB.cpp:333) and sscanf's `%d` (src/UPELIB.cpp:340) skip leading white space and read a sign, so " 80", "+80" and "1. 2.3.4" parse in the code and fail in the model. Numbers follow 64-bit Linux with glibc: `strtoul` saturates at 2^64-1 before the 32-bit store, and `%d` saturates at 2^63-1.
- Addresses.Strtoul: the conversion is the 64-bit Linux one. With a 32-bit unsigned long, as on Windows, values of 2^32 and above would saturate at 2^32-1 instead of wrapping.
- AddressScanners.ScanBDF, AddressScanners.ScanCHS, AddressScanners.Scan, AddressScanners.ScanAsWritten: numbers are converted with the same 64-bit Linux `strtoul`. Every call there comes after a digit test, so white space and signs never reach it.
- CommandArguments.GetNumber: the same 64-bit Linux `strtoul`, applied to the decimal digits ScanNumber kept, so white space and signs do not arise.
- Scanners.ScanNumber: the radix is fixed at 10. The sign, the hexadecimal digits and the `0x`/`0` prefixes that `strtoul` accepts for other radixes (including the default radix 0) are not read. Number arguments declared with another radix are therefore not modelled.
- TapeImage: `SpaceForward`/`SpaceReverse`, `Truncate` and the `m_fWriteLast` flag are left out. They are file-position bookkeeping around the read and write paths that are modelled.
- TapeImage.ReadReverse: the record count saturates at 0 where the source asserts a positive count (src/ImageFile.cpp:589) and, under NDEBUG, wraps the 32-bit count.
- ImageFile.hpp's `IsOpen` is not modelled: every image operation takes the image contents as a value, so an unopened file is not representable.
- Text input files (`CTextInputFile`) are not modelled, and neither are text write errors.
- BitStream: `SetDefaultExtension` is not modelled. `fopen` is a parameter that either gives the file contents or fails. The header strings left partly filled by a failed read are not modelled, and the header getters have no contracts beyond their `IsLoaded` precondition.
- LogFile: thread ids and timestamps are parameters. `TimeStampToString`, `SendConsole`, `Print`, `OpenLog`, `LogOperator` and `LogScript` are left out because they format times or write to the console or a file. LogFile.hpp is not part of this model. Severities other than the named ones are kept as `Other(code)`.
- LogFile.CloseLog: whether the closing DEBUG message reaches the file is the parameter `direct`, because `IsLoggedToFile` is declared in LogFile.hpp and the logging thread that would take a queued message is not modelled. The console copy of that message is not modelled.
- MessageQueue: locks, the logging thread and the destructor are left out. MAXMSG is a parameter.
- CommandLine.hpp is not part of this model. The prefix characters, the valid-option list, the argument bounds and case sensitivity are a configuration parameter. The model also assumes that adding an option whose letter is already present replaces the earlier value. Whether m_OptionList keeps the first or the last value is decided in CommandLine.hpp.
- Help text (`ShowHelp` and the `Show*` commands) and the console and script I/O (`ReadConsole`, `AreYouSure`, `OpenScript`, `ReadScript`, `CommandLoop`) are left out because they only read from or print to a terminal or a file.
- The file-name arguments that open a file while parsing (`OpenRead`, `OpenWrite`) are left out. So are `SplitPath` and `FileExists`, which ask the file system.
- `DecodeCommand`, `DecodeOption`, `SendFile`, `DetachProcess` and `ParseOptions` are left out, as are the Windows and Linux console windows and the `SET WINDOW`/`SET LOG` user-interface verbs. They are debugging tables, file transfer or operating-system plumbing.
- The action routine a verb names is not called: a parsed command returns the verb it found.
- TerminalServer: the hidden window, the message pump, `WSAAsyncSelect` and the server thread are left out. Locks are left out too, including the unmatched unlock in `Disconnect` (src/TerminalServer.cpp:242). Host callbacks are parameters.
- TerminalServer.SocketRead: what the host does inside its receive callback is not modelled. A host that sends on the line there (src/TerminalServer.cpp:83-86) would put its sends between the events of the read.
- TelnetLine.Send writes data bytes without doubling 0xFF, as the code does (src/TerminalLine.cpp:144).
- The FPGA and PLX hardware wrappers (UPE.cpp, MESA.h), the checkpoint files, and the thread and mutex classes are not modelled, because they wrap hardware or operating-system services.

## Findings

| source | as written | input that shows it | evidently intended | confidence | as-written member | corrected member |
|---|---|---|---|---|---|---|
| src/CommandParser.cpp:492 | the third separator of a dotted address is skipped without checking that it is a '.' | "1.2.3x4" is accepted as 1.2.3.4 | only "a.b.c.d" is accepted | high; not executed | AddressScanners.AsWrittenSkipsThirdSeparator | AddressScanners.Scan |
| src/CommandParser.cpp:482-484 | a bare number returns success without storing it as the port, although the comment above the routine says it sets the port | "80" leaves the port unchanged | "80" sets the port to 80 | medium; not executed | AddressScanners.AsWrittenIgnoresBarePort | AddressScanners.Scan |
| src/CommandParser.cpp:494-500 | the address is stored before the port is scanned, so a bad port fails but still changes the address | "1.2.3.4:x" fails with the address set to 1.2.3.4 | a failed scan leaves both outputs unchanged | medium; not executed | AddressScanners.AsWrittenFailureChangesAddress | AddressScanners.ScanFormattedEndpoint |
| src/ImageFile.cpp:1221 | `Unpack` is given the output size COLUMNS (80) instead of CARDBYTES (120), so its size assertion fails for every card written in builds with assertions enabled | any 80-column card | unpack the 80 columns into 120 bytes | high; not executed | CardImage.WriteCardGuard | CardImage.CardRoundTrip |
| src/BitStream.cpp:209-210 | the bit buffer is allocated before the bits are read, so a file cut short inside the bit data fails but still reports IsLoaded | a valid header whose 'e' length exceeds the bytes that remain | a failed read leaves the stream not loaded | medium; not executed | BitStream.ShortFileStaysLoaded | BitStream.Open |

The command parser keeps the network scan as the code has it: CommandArguments.ParseNetwork, and through it CommandArguments.Parse and the CommandVerbs parsers, use AddressScanners.ScanAsWritten. The corrected scan backs CommandArguments.ParseNetworkIntended. AddressScanners.AsWrittenAgrees shows that the two agree wherever the corrected scan accepts anything but a bare number.
