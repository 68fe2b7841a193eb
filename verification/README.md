# SMBTA tools: a verified model

This project models four parts of the SMBTA tools in Dafny and proves what they are for. Every loop and every
in-place update of the source is a method over arrays, objects or sequences; each is proved against a function, and
the lemmas say what that function means.

**Rijndael, AES and CBC.** `Tables` holds the ten 256-word tables as literals, entry by entry (as decisions over the
index bits). `Gf256`, `SBox` and `Fips197` hold the byte-level arithmetic and the ciphers of FIPS 197 (sections 4.2,
5.1, 5.2, 5.3 and 5.3.5), independent of the tables except that the S-boxes are read from Te4 and Td4 and then proved
to be the affine image of the field inverse and inverse to each other. `Words`, `Rijndael` and `KeySchedule` are the
word code: table look-ups, rolled and unrolled rounds, key expansion, in-place key reversal. `Cbc`, `Aes` and
`CommonCrypt` are the layers above it. `AesExample` holds the examples of FIPS 197, which tie all of it to known
answers.

**INI files over a hand-written dictionary.** `Dictionary` is the slot array with cached hashes, growth and slot
reuse; `DictionaryRuns` relates whole sequences of calls to a map. `IniText` holds blanks, case and the scansets of
`sscanf` (section 7.19.6.2 of ISO C99), `IniLine` the parser of one line, `IniLoad` the reader, `IniDump` the writer,
`IniMeaning` what lines mean in terms of their characters, `IniExample` a file and a dictionary written out,
`IniRoundTrip` their composition on dictionaries that survive it. `IniJoin` (lines that are continued), `IniExact`
(lines that are taken for something else) and `IniReload` lead to the exact condition under which any dictionary
survives. Where the C code writes behind a buffer on its stack, the result is an outcome of its own.

**The protocol, version 2.** `Numbers` and `Protocol` are the decimal, header and sub-block codecs, the identify
patterns and the registration message. `Receive` is the receiving state machine over a socket whose `Recv` returns an
arbitrary non-empty piece of what has arrived, or nothing when the other side has closed. `MonitorList` is the linked
list and its dispatcher, `Network` the endless loop, `Registration` the request for a new monitor (encrypted when there
is a key), and `EndToEnd` composes all of it. `Traffic` takes the text that is passed on apart again, and
`MonitorWindow` is the reader that the monitor's window has for it.

**Tokenizers and escapers.** `Tokenizer` and `TokenizerRoundTrip` are the query tool's command language, and
`TokenizerExact` says exactly which typed lines it reads as they were meant, `TokenizerEndings` exactly how runs end;
`ShellQuoting` and `ShellEscapes` are the quoting routines of the SQL shell.

## What the proofs found

- The rolled double-round loop halves `Nr` first, so an odd `Nr` loses a round: the loop computes the cipher with
  `Nr / 2 * 2` rounds (`Rijndael.RijndaelEncrypt`). For the supported sizes this is `Nr`.
- `common_encrypt` prepares a filler of dots and then encrypts the bytes of the string itself. The prepared block is
  never what is sent (`CommonCrypt.FillerNeverSent`), and the ciphertext depends on the memory behind the string.
- "A syntax error makes loading fail" is false: storing any later line overwrites the error count.
  `IniLoad.ErrorForgotten` is a file for which it fails; `IniLoad.LoadFailsWhen` says exactly when loading fails.
- A printed entry or section header does not always read back as itself. `IniLine.EntrySurvives` and
  `IniLine.SectionSurvives` say exactly which do, and `IniReload.ReloadExactly` says exactly which dictionaries do.
- Section and key are put together in a buffer of 1025 characters without a check. `IniLoad.OverrunWhen` says exactly
  for which lines that buffer overflows, `IniDump.IniparserDumpIni` for which section names the writer's buffer does.
- The header of `common_create_header` has 26 characters with the length at characters 9 to 25. The table in
  `vfs_smb_traffic_analyzer.h` numbers them 10 to 27; the model follows the code.
- A length is read two digits into its field and cut to an int, so it is recovered exactly below 2^31
  (`Protocol.HeaderRoundTrip`). A frame with an empty body, and a connection that is closed within a frame, leave
  the receiver turning for ever without reading (`STUCK`).
- `network_register_monitor` writes the length of the function number as the constant 1, which is right exactly for
  numbers below ten (`Protocol.FunctionBlock`).
- The monitor's window cuts the last digit off every value before it adds it up, so it shows the sum of the tenths
  (`MonitorWindow.WindowShowsTenths`), which is right exactly when nothing was moved (`MonitorWindow.WindowRightWhen`).
- Preparation of a statement puts a blank before the first comma, so the first of several commands gets an empty
  argument more (`TokenizerRoundTrip.AsInterpreted`).
- An argument is not always handed over as it was typed, because preparation works within quotes too: blanks are
  halved (`TokenizerExact.QuotedBlankLost` is a line on which this happens) and commas separate commands.
  `TokenizerExact.LineExact` says exactly which lines come through: those whose quoted arguments have no comma, no
  quote and no two blanks in a row, and whose other arguments have no comma, no blank and no quote in front.

## Model

| member | source | states |
|---|---|---|
| SBox.SIsAffineOfInverse | src/common/rijndael-alg-fst.c:318-383 | Te4 is the S-box of section 5.1.1 of FIPS 197: S(0) is 63, and otherwise S(x) is the affine image of a byte whose product with x is 1 |
| SBox.SiOfS | src/common/rijndael-alg-fst.c:649-714 | the table Td4 inverts the table Te4 on every byte |
| SBox.SOfSi | src/common/rijndael-alg-fst.c:649-714 | the table Te4 inverts the table Td4 on every byte |
| SBox.Te0Entry | src/common/rijndael-alg-fst.c:40-118 | every literal of Te0 is S[x].[02, 01, 01, 03] |
| SBox.Te1Entry | src/common/rijndael-alg-fst.c:41-184 | every literal of Te1 is S[x].[03, 02, 01, 01] |
| SBox.Te2Entry | src/common/rijndael-alg-fst.c:42-250 | every literal of Te2 is S[x].[01, 03, 02, 01] |
| SBox.Te3Entry | src/common/rijndael-alg-fst.c:43-317 | every literal of Te3 is S[x].[01, 01, 03, 02] |
| SBox.Te4Entry | src/common/rijndael-alg-fst.c:44-383 | every literal of Te4 is S[x] four times |
| SBox.Td0Entry | src/common/rijndael-alg-fst.c:46-449 | every literal of Td0 is Si[x].[0e, 09, 0d, 0b] |
| SBox.Td1Entry | src/common/rijndael-alg-fst.c:47-515 | every literal of Td1 is Si[x].[0b, 0e, 09, 0d] |
| SBox.Td2Entry | src/common/rijndael-alg-fst.c:48-582 | every literal of Td2 is Si[x].[0d, 0b, 0e, 09] |
| SBox.Td3Entry | src/common/rijndael-alg-fst.c:49-648 | every literal of Td3 is Si[x].[09, 0d, 0b, 0e] |
| SBox.Td4Entry | src/common/rijndael-alg-fst.c:50-714 | every literal of Td4 is Si[x] four times |
| Gf256.InvMixOfMix | src/common/rijndael-alg-fst.c:39-51 | the column coefficients of the decryption tables undo those of the encryption tables, for all four bytes |
| Gf256.MixOfInvMix | src/common/rijndael-alg-fst.c:39-51 | and the other way round |
| Fips197.EqInvCipherUndoesCipher | src/common/rijndael-alg-fst.c:862-1222 | for every number of rounds and all round keys, the equivalent inverse cipher with reversed, unmixed keys undoes the cipher |
| Fips197.CipherUndoesEqInvCipher | src/common/rijndael-alg-fst.c:862-1222 | the cipher undoes the equivalent inverse cipher |
| Fips197.EqInvCipherIsInvCipher | src/common/rijndael-alg-fst.c:1043-1222 | with those keys the equivalent inverse cipher of section 5.3.5 is the inverse cipher of section 5.3 |
| Fips197.KeyWordStart | src/common/rijndael-alg-fst.c:745-758 | byte by byte for every key: a word that starts a group is the word a group before it, plus the S-box of the rotated word before, plus a power of {02} |
| Fips197.KeyWordMiddle | src/common/rijndael-alg-fst.c:801-809 | in keys of more than six words the word in the middle of a group is substituted without rotation |
| Fips197.KeyWordOther | src/common/rijndael-alg-fst.c:754-756 | any other word is the sum of the word before it and the word a group before it |
| AesExample.Expansion128 | src/common/rijndael-alg-fst.c:736-760 | the ten round keys of Appendix A.1 of FIPS 197 |
| AesExample.Expansion192 | src/common/rijndael-alg-fst.c:764-783 | the first expanded word of Appendix A.2 |
| AesExample.Expansion256 | src/common/rijndael-alg-fst.c:786-812 | words 8, 11 and 12 of Appendix A.3 |
| AesExample.CipherExample | src/common/rijndael-alg-fst.c:862-1040 | the example of Appendix B: under its key, its block enciphers to its ciphertext |
| AesExample.EncryptExample | src/common/aes.c:39-61 | key setup and block routine give that ciphertext |
| Words.EncColumnMixes | src/common/rijndael-alg-fst.c:952-1007 | four table look-ups and a round-key word are MixColumn of the substituted bytes, with the key column added |
| Words.DecColumnUnmixes | src/common/rijndael-alg-fst.c:1133-1188 | the same for the inverse tables and InvMixColumn |
| Words.EncLastColumnSubstitutes | src/common/rijndael-alg-fst.c:1009-1040 | the masked look-ups of the last round substitute the four bytes and add the key column |
| Words.DecLastColumnSubstitutes | src/common/rijndael-alg-fst.c:1190-1221 | the same for decryption |
| Rijndael.EncColumnsRound | src/common/rijndael-alg-fst.c:952-1007 | the four word assignments of a round are SubBytes, ShiftRows, MixColumns and AddRoundKey |
| Rijndael.DecColumnsRound | src/common/rijndael-alg-fst.c:1133-1188 | the four word assignments of an inverse round are its four layers on bytes |
| Rijndael.RijndaelEncrypt | src/common/rijndael-alg-fst.c:862-1040 | for every Nr of at least 2 and all keys, the rolled word loop writes the bytes of the FIPS 197 cipher with Nr / 2 * 2 rounds, and nothing else |
| Rijndael.RijndaelDecrypt | src/common/rijndael-alg-fst.c:1043-1222 | likewise for the equivalent inverse cipher |
| Rijndael.RijndaelEncryptUnrolled | src/common/rijndael-alg-fst.c:876-946 | the FULL_UNROLL code computes the same cipher for 10, 12 and 14 rounds |
| Rijndael.RijndaelDecryptUnrolled | src/common/rijndael-alg-fst.c:1057-1127 | the FULL_UNROLL code computes the same inverse cipher |
| Rijndael.BlocksInverse | src/common/rijndael-alg-fst.c:862-1222 | decryption undoes encryption and encryption undoes decryption, on every block under every schedule |
| KeySchedule.RconEntry | src/common/rijndael-alg-fst.c:715-719 | every entry of rcon is a power of x in the first byte |
| KeySchedule.RoundsOf | src/common/rijndael-alg-fst.c:744-799 | the number of rounds is the number of key words plus six, for the three sizes |
| KeySchedule.RijndaelKeySetupEnc | src/common/rijndael-alg-fst.c:736-815 | for 128, 192 and 256 bits the array begins with the expanded key of section 5.2 of FIPS 197, words behind it are untouched, and the number of rounds is returned; any other size returns 0 |
| KeySchedule.UnmixWordIsInvMixColumn | src/common/rijndael-alg-fst.c:835-858 | Td tables over Te4 apply InvMixColumn to a round-key word |
| KeySchedule.RijndaelKeySetupDec | src/common/rijndael-alg-fst.c:822-860 | the in-place swaps and the unmixing leave exactly the inverse keys of section 5.3.5 |
| Cbc.EncryptAppend | src/common/aes.c:77-94 | encrypting two pieces with the carried chaining block is encrypting their concatenation |
| Cbc.DecryptAppend | src/common/aes.c:95-112 | decrypting two pieces is decrypting their concatenation |
| Cbc.DecryptOfEncrypt | src/common/aes.c:77-113 | for every length, decryption restores the plaintext; behind a partial last block stand the bytes of the chaining block before it |
| Cbc.EncryptedBlock | src/common/aes.c:78-85 | every ciphertext block is the cipher of its plaintext block masked with the ciphertext block before it, or with the initial vector |
| Cbc.EncryptedRest | src/common/aes.c:86-94 | a short last block is filled up with the end of the ciphertext block before it |
| Cbc.DecryptedBlock | src/common/aes.c:96-104 | every plaintext block is the deciphered block unmasked with the ciphertext block before it |
| Aes.AesKey.SetEncryptKey | src/common/aes.c:39-46 | key setup with -1 for an unsupported size |
| Aes.AesKey.SetDecryptKey | src/common/aes.c:48-55 | inverse key setup with -1 for an unsupported size |
| Aes.AesKey.Encrypt | src/common/aes.c:57-61 | one block is replaced by its encryption, the rest of the buffer kept; in may be out |
| Aes.AesKey.Decrypt | src/common/aes.c:63-67 | one block is replaced by its decryption |
| Aes.EncryptAndDecrypt | src/common/aes.c:39-67 | for every key of a supported size a block encrypted and decrypted in place is unchanged |
| Aes.CbcForward | src/common/aes.c:77-94 | the loop writes the CBC encryption of the input as it was, even in place, and leaves the last ciphertext block in iv |
| Aes.CbcBackward | src/common/aes.c:95-112 | the loop writes the CBC decryption of the input as it was, even in place, and leaves the last ciphertext block in iv |
| Aes.CbcEncrypt | src/common/aes.c:69-113 | both directions of the routine |
| Aes.CbcRoundTrip | src/common/aes.c:69-113 | CBC under a key schedule and its inverse restores every plaintext |
| CommonCrypt.CommonEncrypt | src/common/common.c:224-247 | the output is the block-wise encryption of the string's bytes up to the end of the block that holds its NUL, of that length |
| CharBytes.ByteIs | src/common/common.c:224-247 | the bytes of a text have the numbers of its characters |
| CommonCrypt.CommonDecrypt | src/common/common.c:199-212 | whole blocks are decrypted, and a NUL stands one place beyond the length |
| CommonCrypt.MappedBlock | src/common/common.c:206-243 | blocks are enciphered and deciphered one by one, each on its own |
| CommonCrypt.EncryptThenDecrypt | src/common/common.c:199-247 | the receiver's buffer begins with the sender's bytes and holds the same C string |
| CommonCrypt.SameCiphertext | src/common/common.c:224-247 | buffers encrypt alike if and only if they agree on every covered byte, slack included |
| CommonCrypt.FillerNeverSent | src/common/common.c:229-243 | the prepared dot filler is never the block that is encrypted last |
| Dictionary.DictionaryHash | iniparser3.0b/src/dictionary.c:94-110 | the loop computes the hash function with 32-bit wrap-around |
| Dictionary.HashExample | iniparser3.0b/src/dictionary.c:94-110 | the hashes of two keys, one of them with a character of the upper half |
| Dictionary.Dictionary.constructor | iniparser3.0b/src/dictionary.c:123-138 | an empty dictionary of at least 128 free slots |
| Dictionary.MemDouble | iniparser3.0b/src/dictionary.c:44-55 | the old contents, then as many zero entries |
| Dictionary.Dictionary.Find | iniparser3.0b/src/dictionary.c:187-197 | the scan with cached hashes finds the slot of a key exactly when the map has it, and the slot has the map's value |
| Dictionary.Dictionary.Get | iniparser3.0b/src/dictionary.c:181-199 | the value of the map, or the default |
| Dictionary.Dictionary.Grow | iniparser3.0b/src/dictionary.c:253-267 | twice the slots, the same associations and count |
| Dictionary.Dictionary.Insert | iniparser3.0b/src/dictionary.c:269-281 | when fewer slots are taken than exist, the first free slot takes the association |
| Dictionary.Dictionary.Set | iniparser3.0b/src/dictionary.c:227-282 | the map is updated, keys stay unique, hashes cached, the count right; a NULL key is refused with -1 |
| Dictionary.Dictionary.Unset | iniparser3.0b/src/dictionary.c:295-330 | the key leaves the map, every other association and slot stays |
| DictionaryRuns.Run | iniparser3.0b/src/dictionary.c:181-330 | every sequence of set, unset and get answers like a plain map, and n is the number of its keys |
| DictionaryRuns.CountIsSize | iniparser3.0b/src/dictionary.c:227-330 | distinct keys in the slots are as many as the associations of the map |
| DictionaryRuns.IniparserGetString | iniparser3.0b/src/iniparser.c:268-279 | the value under the lower-case key; the default for a NULL dictionary or key |
| DictionaryRuns.IniparserSet | iniparser3.0b/src/iniparser.c:425-428 | the map is updated under the lower-case name, whether or not the entry was there; a NULL dictionary or name is refused with -1 |
| DictionaryRuns.IniparserUnset | iniparser3.0b/src/iniparser.c:440-443 | the lower-case name leaves the map |
| IniText.Strlwc | iniparser3.0b/src/iniparser.c:51-65 | lower case, cut to 1024 characters |
| IniText.ToLowerIs | iniparser3.0b/src/iniparser.c:60-60 | exactly the twenty-six capitals change, each to its own small letter |
| IniText.LowerAt | iniparser3.0b/src/iniparser.c:57-63 | character by character, up to 1024 characters |
| IniText.IsSpaceIs | iniparser3.0b/src/iniparser.c:88-95 | the six characters that count as blanks |
| IniText.Strstrip | iniparser3.0b/src/iniparser.c:81-99 | blanks removed at both ends |
| IniText.StripParts | iniparser3.0b/src/iniparser.c:81-99 | a string is blanks, its stripped middle with no blank at either end, and blanks |
| IniText.StripOf | iniparser3.0b/src/iniparser.c:81-99 | such a middle is determined by the string |
| IniText.SpanOf | iniparser3.0b/src/iniparser.c:477-497 | a scanset conversion takes the longest run of its characters |
| IniLine.ParseKeyValueOf | iniparser3.0b/src/iniparser.c:481-507 | a line with a key before its first equals sign is a value line, whatever follows; which value the five formats read |
| IniLine.ParseKeyValueError | iniparser3.0b/src/iniparser.c:508-511 | a line without such a key is a syntax error |
| IniLine.ReadKey | iniparser3.0b/src/iniparser.c:484-486 | whatever line it comes from, a key that is read is lower-case, not empty, without equals sign, blank or hash in front, and a printed line can give it again |
| IniLine.ReadSection | iniparser3.0b/src/iniparser.c:475-480 | whatever header it comes from, a section that is read is empty or one that its printed header restores |
| IniLine.EntryReads | iniparser3.0b/src/iniparser.c:236-248 | a printed entry with a good key gives that key and the value without its blanks and quotes |
| IniLine.SectionSurvives | iniparser3.0b/src/iniparser.c:475-480 | a printed header reads back as its section if and only if the name is a good one, or was the section already |
| IniLine.EntrySurvives | iniparser3.0b/src/iniparser.c:236-248 | a printed entry reads back as itself if and only if key and value are good ones |
| IniMeaning.LineKinds | iniparser3.0b/src/iniparser.c:465-511 | blank, comment, header, value or error: decided by the first and last characters that are no blanks, and by the first equals sign |
| IniMeaning.ErrorExactly | iniparser3.0b/src/iniparser.c:508-511 | a line is an error if and only if it is not blank, no comment, no header, and has no key before an equals sign; likewise for lines that are stored |
| IniMeaning.HeaderLine | iniparser3.0b/src/iniparser.c:475-480 | a header names the text up to its first closing bracket, in lower case and stripped |
| IniMeaning.QuotedValue | iniparser3.0b/src/iniparser.c:481-488 | a value between double or single quotes is taken as it stands, whatever follows the closing quote |
| IniMeaning.PlainValue | iniparser3.0b/src/iniparser.c:483-499 | any other value ends before a semicolon or a hash, or with the line |
| IniMeaning.EmptyQuotes | iniparser3.0b/src/iniparser.c:488-494 | a pair of quotes is the empty value |
| IniLoad.IniparserLine | iniparser3.0b/src/iniparser.c:455-513 | the parser of one line, format by format |
| IniLoad.StoreLine | iniparser3.0b/src/iniparser.c:590-614 | one logical line stored, counted as an error or ignored; a store overwrites the count; section and key that do not fit into `tmp` overrun it |
| IniLoad.IniparserLoad | iniparser3.0b/src/iniparser.c:529-628 | the loop over physical lines and continuations computes the fold over the logical lines of the text, with its overrun; NULL for a file that cannot be opened |
| IniLoad.SplitLine | iniparser3.0b/src/iniparser.c:563-589 | a short line without a continuation mark is a logical line of its own |
| IniLoad.ErrorsRemembered | iniparser3.0b/src/iniparser.c:590-614 | after any lines without an overrun the error count is positive if and only if a syntax error has no stored line after it |
| IniLoad.LoadFailsWhen | iniparser3.0b/src/iniparser.c:563-627 | when no buffer is overrun, loading fails if and only if a line does not end in time or an error has no stored line after it |
| IniLoad.OverrunWhen | iniparser3.0b/src/iniparser.c:599-602 | the buffer is overrun if and only if some line's key does not fit behind the section that it is read in |
| IniLoad.ErrorForgotten | iniparser3.0b/src/iniparser.c:595-609 | a file with a syntax error that loads all the same |
| IniMeaning.CommentIgnored | iniparser3.0b/src/iniparser.c:591-593 | a comment changes nothing, whatever was read before |
| IniMeaning.CommentLine | iniparser3.0b/src/iniparser.c:563-614 | a file with a comment anywhere among lines that fit loads as the file without it |
| IniMeaning.ContinuedLine | iniparser3.0b/src/iniparser.c:582-589 | a backslash at the end of a line joins the next line to it |
| IniMeaning.LostLine | iniparser3.0b/src/iniparser.c:582-589 | a line that is continued at the end of the file is lost |
| IniMeaning.TooLong | iniparser3.0b/src/iniparser.c:563-575 | nothing is loaded when the first line has 1023 characters or more |
| IniMeaning.OneEntry | iniparser3.0b/src/iniparser.c:599-601 | a section with an entry is loaded while both names and the colon have 1024 characters at most, and overruns beyond |
| IniExample.LoadExample | iniparser3.0b/src/iniparser.c:529-628 | a file with a comment, capitals, blanks, quoted, plain and empty values, written out |
| IniDump.IniparserGetNSec | iniparser3.0b/src/iniparser.c:119-134 | the number of colon-free keys, -1 for NULL |
| IniDump.IniparserGetSecName | iniparser3.0b/src/iniparser.c:150-170 | the n-th colon-free key in slot order, or NULL |
| IniDump.IniparserDumpIni | iniparser3.0b/src/iniparser.c:213-251 | the loops write the text of the slots: sections, or plain lines when there is no section; nothing for NULL; `keym` is overrun if and only if a section name with its colon does not fit |
| IniMeaning.NamesFitWhen | iniparser3.0b/src/iniparser.c:236-236 | `keym` takes section names of 1023 characters |
| IniMeaning.PlainEntry | iniparser3.0b/src/iniparser.c:224-231 | without sections an entry is one line of its own, with `(null)` for NULL |
| IniExample.DumpExample | iniparser3.0b/src/iniparser.c:233-250 | the text of a dictionary with two sections, written out |
| IniRoundTrip.NamesOf | iniparser3.0b/src/iniparser.c:119-170 | the section names are exactly the colon-free keys |
| IniRoundTrip.LogicalOfUnlines | iniparser3.0b/src/iniparser.c:563-589 | printable lines come back as they were, but for blanks at their ends |
| IniRoundTrip.FoldSections | iniparser3.0b/src/iniparser.c:233-249 | reading the printed sections stores each section and its entries without error |
| IniRoundTrip.LoadOfReadable | iniparser3.0b/src/iniparser.c:213-251 | slots whose lines are read under their own keys load, and yield what is read for their values |
| IniRoundTrip.LoadOfDump | iniparser3.0b/src/iniparser.c:213-251 | for every writable dictionary, no buffer is overrun and loading the printed text yields exactly its associations |
| IniRoundTrip.DumpAndLoad | iniparser3.0b/src/iniparser.c:529-628 | the two routines one after the other overrun nothing and give an equal dictionary |
| IniJoin.LogicalOfLines | iniparser3.0b/src/iniparser.c:563-589 | any lines without newlines: when reading comes to their end, each was short, and the logical lines are the lines joined at their backslashes |
| IniJoin.StoredLines | iniparser3.0b/src/iniparser.c:590-614 | every association that is stored takes a line of its own that is not blank |
| IniJoin.JoinShears | iniparser3.0b/src/iniparser.c:574-583 | when joining leaves as many lines that are not blank, it did no more than take backslashes off their ends |
| IniExact.DumpWeight | iniparser3.0b/src/iniparser.c:224-250 | a dictionary is printed on no more lines that are not blank than it has associations |
| IniExact.NoneFalse | iniparser3.0b/src/iniparser.c:233-249 | when the printed sections store as many associations with brackets as the slots hold, no entry was taken for a header |
| IniExact.LinesReadable | iniparser3.0b/src/iniparser.c:213-251 | when printed lines store the keys of the slots, every section and entry is read under its own key |
| IniReload.ReloadExactly | iniparser3.0b/src/iniparser.c:213-251 | any dictionary at all comes back from its printed text if and only if it is writable, which is a condition on each slot |
| Numbers.DecimalLength | src/common/common.c:170-171 | a number has at most k digits if and only if it is below the k-th power of ten |
| Numbers.DecimalDigit | src/common/common.c:170-171 | every digit that is printed, counted from the last |
| Numbers.PrintedAs | src/monitor/network.c:60-61 | a minus sign in front of negative numbers, zeros in front of padded ones |
| Numbers.NumberOfPadded | src/common/common.c:306-317 | strtoll undoes zero-padded decimal printing |
| Numbers.NumberOfSigned | src/monitor/monitor-list.c:93-107 | strtol undoes signed decimal printing |
| Numbers.NumberAmong | src/common/common.c:306-317 | signs are read, and nothing behind the digits |
| Numbers.ReadBack | src/common/common.c:306-317 | strtoll and strtol at the limits of 64 bits |
| Protocol.HeaderRoundTrip | src/common/common.c:167-173 | a header has 26 characters; the length read back is the int of its unsigned cut, and is the length if and only if that is below 2^31 |
| Protocol.HeaderText | src/common/common.c:167-173 | letter by letter: the version, the flags, and seventeen digits with the value of the length |
| Protocol.ResultGetMonitorElement | src/common/common.c:369-398 | the loop finds the sub-block that its number counts |
| Protocol.ElementOfBlocks | src/common/common.c:369-398 | for any texts of 1 to 9999 characters, number i finds text i whatever follows, and a zero length after the last gives NULL |
| Protocol.ElementInMore | src/common/common.c:378-392 | memory behind the data does not change what is found |
| Protocol.ElementPastEnd | src/common/common.c:378-392 | without four more characters the sub-block after the last leads out of the data |
| Protocol.FitsExactly | src/common/common.c:378-392 | the lengths that four digits hold |
| Protocol.PatternIsFields | src/common/common.c:625-666 | every identify pattern is exactly five sub-blocks |
| Protocol.PatternDecodes | src/common/common.c:637-660 | the name is in its own place among user, SID, share, file and domain, a star in every other |
| Protocol.SqlPattern | src/common/common.c:632-635 | the pattern for SQL is the same for every object and holds no sub-block |
| Protocol.FunctionBlock | src/monitor/network.c:60-61 | the constant length in front of the function number is right if and only if the number has one digit |
| Protocol.RegistrationDecodes | src/monitor/network.c:55-62 | after two tildes a registration decodes to function, parameter and the five fields |
| Receive.CommonReceiveData | src/common/common.c:263-275 | a piece of the stream goes to its place in the buffer, which is never overrun, and the position moves by its length; on a closed connection the position falls back to zero |
| Receive.ReceiveFrame | src/monitor/network.c:124-198 | however the stream is cut into pieces, the states lead to the first complete frame's body, consume that frame and no byte more, or block until more arrives, or turn for ever when the other side has closed |
| Receive.EndTurnRepeats | src/monitor/network.c:133-197 | on a closed connection every turn after the first leaves the state as it is, and none completes a header or a body |
| Receive.NextOfWire | src/common/common.c:183-193 | a sent frame is received whole and nothing behind it is touched |
| Receive.NextOfPart | src/monitor/network.c:135-197 | no part of an incomplete frame is delivered |
| Receive.NextOfHeader | src/monitor/network.c:147-197 | for every length in a header: an empty frame, one without a buffer, one that is not complete, and one that is received |
| Receive.DeliverOfWire | src/monitor/network.c:114-207 | any number of frames and part of one more deliver exactly their bodies, in order |
| MonitorList.MonitorList.Add | src/monitor/monitor-list.c:27-62 | the new item is last, without a value; every other item is as it was |
| MonitorList.MonitorList.GetById | src/monitor/monitor-list.c:68-78 | the first item of that identifier, or NULL |
| MonitorList.MonitorList.ChangeResults | src/monitor/monitor-list.c:81-114 | a value that is not zero is kept with its own item and sent under its tag; a zero changes and sends nothing |
| MonitorList.UpToNulIs | src/monitor/monitor-list.c:99-99 | the value that is kept ends before its first NUL |
| MonitorList.ReportTagged | src/monitor/monitor-list.c:89-111 | a report in canonical decimals is sent as that very value under the tag of its monitor |
| MonitorList.ReportExample | src/monitor/monitor-list.c:81-114 | `00017` `00041234` for a read monitor with the identifier 7 is passed on as `R:1234#` |
| Network.OpenedSealed | src/common/common.c:199-247 | with or without a key, the receiver opens what begins with the string that the sender sealed |
| Network.NetworkHandleData | src/monitor/network.c:113-207 | the endless loop sends the tagged texts of all delivered bodies in order and ends where the stream, closed or not, leaves it |
| Registration.ConnectMonitor | src/common/common.c:460-598 | header and sealed query are sent, and the first frame that comes back is opened; a connection that is closed before gives no reply |
| Registration.NetworkRegisterMonitor | src/monitor/network.c:55-71 | the registration is sent and the identifier of the reply is added with its function |
| Registration.FnNumberText | src/monitor/include/monitor-fn-enum.h:12-22 | the functions are sent as 0, 1, 2, 3, 4 and 255 in the order of the enumeration |
| Registration.FnOfNumber | src/monitor/include/monitor-fn-enum.h:12-22 | every function but the undefined one is known from its number |
| Registration.PlainRequest | src/common/common.c:494-598 | without a key the request is `V2.000000`, the length in seventeen digits, and the text |
| Registration.KeyedRequest | src/common/common.c:494-598 | with a key it is `V2.00E000`, the length of the encrypted blocks in seventeen digits, and those blocks |
| Registration.RegistrationExample | src/monitor/network.c:60-61 | the text that registers a monitor of what a user reads, written out |
| Registration.ServerReads | src/monitor/network.c:55-62 | a server that reads the request from the wire, opens it and decodes it finds function, parameter and the five fields |
| Registration.ServerStarts | src/monitor/network.c:55-62 | the function that such a server starts is the very one that was asked for |
| EndToEnd.SealedReports | src/common/common.c:224-247 | any identifier and value, sealed in a buffer, is a report for the receiver |
| EndToEnd.HandleReports | src/monitor/network.c:113-207 | for every run over reports of registered monitors, the text sent is the in-order concatenation of the tagged values that are not zero, and a reader that takes it apart finds exactly those values with their directions |
| EndToEnd.TagOfAdded | src/monitor/monitor-list.c:68-111 | with distinct identifiers a value is sent as `R:`, value, `#` when its identifier was added to watch reads, with `W:` for writes, and not at all otherwise |
| Traffic.ReadOfText | src/monitor/monitor-list.c:101-108 | whatever sequence of values is sent, a reader that splits at `#` and looks at `R:` and `W:` finds that sequence |
| MonitorWindow.ReadFromSocket | src/monitor-qt/monitorform.cpp:252-271 | the window's loop over the pieces, with the digit it cuts off |
| MonitorWindow.WindowShowsTenths | src/monitor-qt/monitorform.cpp:257-268 | for all values that are not negative the window shows the sums of their tenths |
| MonitorWindow.WindowRightWhen | src/monitor-qt/monitorform.cpp:257-268 | short of a wrap-around the window is right if and only if nothing was moved |
| Tokenizer.InterpreterPrepareStatement | src/query/interpreter.c:397-413 | the copying loop writes the prepared statement within its buffer |
| Tokenizer.InterpreterStep | src/query/interpreter.c:2305-2363 | one command with its arguments is split off, or the step ends the program |
| Tokenizer.InterpreterRun | src/query/interpreter.c:2365-2420 | preparation, the semicolon replaced in place, the refusals, and one step after the other |
| TokenizerRoundTrip.PrepareLine | src/query/interpreter.c:397-413 | preparation of a typed line puts a blank before its first comma and drops the gaps after commas |
| TokenizerRoundTrip.BlanksHalved | src/query/interpreter.c:409-409 | the first two blanks in a row become one wherever they stand |
| TokenizerExact.PreparedExact | src/query/interpreter.c:397-413 | a statement without commas is handed on as it stands if and only if no two blanks stand in a row |
| TokenizerRoundTrip.SemicolonRequired | src/query/interpreter.c:2385-2389 | a statement is refused for its semicolon if and only if its last character is something else |
| TokenizerEndings.SelectExactly | src/query/interpreter.c:2396-2402 | a statement is raw SQL if and only if it ends with a semicolon and begins with `select` or `SELECT`; then no command is interpreted |
| TokenizerEndings.SelectAsTyped | src/query/interpreter.c:2396-2402 | raw SQL without commas is handed on as it was typed if and only if no two blanks stand in a row |
| TokenizerEndings.SelectExample | src/query/interpreter.c:2396-2402 | `SELECT a;` is raw SQL |
| TokenizerEndings.NoParameterExactly | src/query/interpreter.c:2319-2325 | a step fails for its parameter if and only if no blank stands before its comma |
| TokenizerEndings.MissingExactly | src/query/interpreter.c:2305-2417 | steps end for a missing parameter if and only if some command has no blank and all before it are read, and exactly those are handed over |
| TokenizerEndings.MissingOfLine | src/query/interpreter.c:2365-2420 | a typed line ends for a missing parameter if and only if a command has no argument, unless it is the first of several |
| TokenizerEndings.UndefinedSteps | src/query/interpreter.c:2305-2363 | a missing comma and a quote that is not closed |
| TokenizerEndings.EmptyStatement | src/query/interpreter.c:2385-2389 | the character before an empty statement is looked at |
| TokenizerRoundTrip.StepBody | src/query/interpreter.c:2305-2363 | a step over one typed command reads its name and its arguments, quoted or not |
| TokenizerRoundTrip.StepText | src/query/interpreter.c:2305-2363 | a name, a blank and arguments up to a comma are read; there is room for a hundred arguments |
| TokenizerRoundTrip.RunOfLine | src/query/interpreter.c:2365-2420 | every typed line is interpreted as the commands that were meant, with one empty argument more on the first of several |
| TokenizerRoundTrip.InterpretTyped | src/query/interpreter.c:2365-2420 | the loops do so |
| TokenizerEndings.RunExample | src/query/interpreter.c:2365-2420 | two commands with quoted and plain arguments, written out |
| TokenizerExact.BadCommand | src/query/interpreter.c:2305-2363 | a step over a command with a bad argument never hands over that argument as it was typed |
| TokenizerExact.LineExact | src/query/interpreter.c:2365-2420 | a line that can be typed, of any number of commands, is interpreted as it was meant if and only if all its arguments are good ones |
| TokenizerExact.QuotedExact | src/query/interpreter.c:2365-2420 | a single quoted argument comes through if and only if it has no comma, no quote and no two blanks in a row |
| TokenizerExact.QuotedBlankLost | src/query/interpreter.c:2365-2420 | a line on which it fails: `f 'a  b';` hands over `a b` |
| ShellQuoting.OutputQuotedString | src/query/sqlite/shell.c:486-511 | the loop over runs prints the string with every quote doubled, between quotes |
| ShellQuoting.AppendText | src/query/sqlite/shell.c:882-917 | the old text, the new text quoted or not, and a NUL fill exactly the buffer whose size was computed before |
| ShellQuoting.CallbackData.SetTableName | src/query/sqlite/shell.c:841-872 | the old name is given up; no name gives none; a plain name stays, any other is quoted, and the buffer is exactly filled |
| ShellQuoting.PlainNameIs | src/query/sqlite/shell.c:849-858 | the names that stay as they are: letters, digits and underscores, with no digit in front |
| ShellQuoting.QuotedReads | src/query/sqlite/shell.c:486-511 | in any context that does not start with a quote, a quoted string reads back as itself and leaves the context |
| ShellQuoting.QuotedExample | src/query/sqlite/shell.c:486-511 | a quoted string, written out |
| ShellQuoting.SameText | src/query/sqlite/shell.c:486-917 | the three loops produce the same text, which reads back as the string |
| ShellEscapes.OutputCString | src/query/sqlite/shell.c:516-539 | the loop prints the escapes of all characters between double quotes |
| ShellEscapes.EscapePrintable | src/query/sqlite/shell.c:516-539 | only printable characters are printed |
| ShellEscapes.EscapeIs | src/query/sqlite/shell.c:519-537 | what is written for each character, in letters: four escapes by name, octal digits for all others that are not printable |
| ShellEscapes.EscapeExample | src/query/sqlite/shell.c:516-539 | an escaped string, written out |
| ShellEscapes.ResolveBackslashes | src/query/sqlite/shell.c:1395-1422 | in place, the buffer becomes the resolved string and a NUL; the write index never passes the read index and nothing behind is touched |
| ShellEscapes.OctalUnits | src/query/sqlite/shell.c:1408-1418 | octal escapes of one and two digits |
| ShellEscapes.OtherUnits | src/query/sqlite/shell.c:1400-1407 | the three letters, and any other character, which stands for itself |
| ShellEscapes.ResolveOfEscape | src/query/sqlite/shell.c:516-539 | resolving the escapes of any C string gives the string back |
| ShellEscapes.WriteAndResolve | src/query/sqlite/shell.c:1395-1422 | the two routines one after the other restore every C string |

## Left out

- Sockets, `select`, threads, the mutex of the monitor list, memory pools and allocation failure: `recv` is an arbitrary non-empty piece of the bytes that have arrived, and nothing at the end of a closed connection; whether the other side closes is fixed beforehand; a file is a text, and the monitor thread is one sequential loop.
- libDBI, curl, cairo, all SQL and XML text generation, and `interpreter_run_command`: the model ends with the commands that are handed to it.
- The Qt monitor but for its reader of the monitor's text, the graph painting, `smbtatorture`, command-line handling, key files and number formatting for people.
- The `_MSC_VER` variants of `GETU32` and `PUTU32`, which are byte-order tricks of one compiler.
- Pointers into strings are values: `interpreter_step` returns the rest of the statement instead of a pointer into it, and the static buffers of `strlwc` and `strstrip` are fresh strings, so their reuse is not modelled.
- Receive.ReceiveFrame: buffers are allocated afresh for every frame. `CRASHED` joins two cases that the C code does not survive in a defined way: the size `data_length + 2` overflows an int, or the length is negative and `recv` is asked for an enormous number of bytes (of the one or no byte allocated). What happens after it is not modelled.
- Network.NetworkHandleData: the `dryrun` loop, which sends random numbers, is left out. Requires data blocks that have an identifier and a value, and a registered monitor for a value that is not zero, because the C code follows a null pointer or exits otherwise.
- CommonCrypt.CommonEncrypt: requires readable memory up to the end of the block that holds the NUL, which the C code reads; a string whose allocation ends earlier is not modelled.
- Dictionary.Dictionary.Grow: sizes are unbounded, so overflow of `2 * size` and a failed allocation are not modelled.
- IniLoad.IniparserLoad: nothing is stated about the dictionary after an overrun. A blank line counts as one without a continuation mark (the C code looks at the byte before the buffer), texts contain no NUL, and allocation never fails.
- IniDump.IniparserDumpIni: nothing is stated about the text after an overrun. A NULL value in a dictionary without sections prints as `(null)`, as the GNU C library does; a NULL file, to which nothing is written, is not modelled.
- Protocol.ResultGetMonitorElement: reads or writes outside the buffers are one outcome, `Overrun`, and what the C program does afterwards is not modelled.
- Tokenizer.InterpreterStep: a missing comma, an unterminated quote and more than 100 arguments are one outcome, `Undefined`, because the C code then leaves its buffers.
- ShellEscapes.ResolveBackslashes: requires that the string does not end within an escape, because the C code then reads past the terminator.
- ShellEscapes.OutputCString: double quotes are printed as they are, as in the source, so the round trip is about the text between the outer quotes.
- ShellQuoting.AppendText: `realloc` gives a new buffer, so the address of the old text is not modelled.
- MonitorWindow.WindowShowsTenths: values are not negative (a server sends numbers of bytes), and the whole text has arrived; the window drops a piece that the socket delivers in two parts.
