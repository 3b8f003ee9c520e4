# tcop: tokenizing, patching, rewriting, framing and sealing, verified

tcop connects a commercial bank to regional same-city clearing systems. This project models
its byte-level algorithms in Dafny and proves what they are relied on for. Every component
has two layers: the program's own loops over its own buffers (classes and methods with
`modifies` clauses), and pure functions on strings that those methods are proved to compute.
The main results are lemmas about the functions, for all inputs. What a function computes
that a method and its specification share (a cipher, a layout, a printed attribute, a row) is
stated once more from outside: by an independent definition, or in literals.

- `Tokenizer`, `BatchImport` (`src/bcpacct.c`): `StrTok` keeps unread text in a static
  buffer, plants a separator behind it, cuts, and shifts the rest over itself. The import
  loop reads five fields per line and inserts a row unless its key is taken.
- `Patcher` (`spdbsvr/src/sopcli2.c`): a template file is loaded by short reads, two patterns
  are found in it, and an 8-byte and a 5-byte window are overwritten for every request.
- `DescRewriter` (`bin/add_desc.c`): the `desc=` attribute of every Item line is regenerated
  from a dictionary.
- `Emulator` (`emulator/YCEmu`): ten-digit length framing, and replies looked up in a file of
  bracketed sections.
- `OperPwd` (`src/tcUtil.c`): the padded layout of five fields that a password digest is
  taken of.
- `Track` (`src/process/PF/SYDAPI.c`; the HF and HY copies have the same text): PIN
  encryption and decryption that cut the caller's track buffer.
- `DesTables`, `DesSpec`, `DesCipher`, `Hex`, `HostPin` (`src/process/YC/des.c`,
  `src/crypto.c`): the bank's own DES with its static key tables, and the PIN block that is
  enciphered with it. `DesWords` is the cipher once more, on machine words; it is proved to be
  the same function, and `DesVector` follows the published example through its rounds.
- `Base64`, `Envelope` (`src/crypto.c`): the streaming Base64 codec and the sealed envelope
  for magnetic track data built on it.
- `Text`, `Decimal`, `CString`: C strings, first occurrences, lines, fields, decimal
  numerals, and the C library routines the programs call.

Results that show a limit of the code. Each limit has its exact condition and, in a lemma of
its own, an input beyond it:

- `BatchImport`: when the count finds the key, the program executes the text of the line
  itself. `HealthyRun` and `TakenKeyStopsIffTextRefused`: a run stops at a taken key exactly
  when the database refuses that text; `AcceptedTextPassesTakenKey` is a run that goes on.
  The count looks at three columns, the schema's unique index `agreement_idx1` at one:
  `IndexedRun` says where a run stops then, and `SecondAccountStops` that it stops at a key
  that is not taken.
- `Patcher.BatchIsSound`: all requests of a batch are distinct exactly up to 99999998 of them
  (`FirstRepetition`), and carry the right amounts exactly up to 89997 (`FirstWrongAmount`).
  `Patcher.AmountKeepsCents`: the cents survive exactly while the note number's digits that
  may overlap them stay zero; `CentsOverwritten` gives two templates in which they do not.
- `Emulator.FrameReadsBack`: a frame reads back exactly when the length has at most ten
  digits (`TooLongToFrame`).
- `OperPwd.LayoutInjective`: operators within their columns share a digest input exactly when
  they differ in trailing blanks only (`TrailingBlankCollides`). `WideNameIsPassword`: a name
  wider than its column runs into the password. `DateCounts`: how many characters of the date
  count, for every length of the password (`LongPasswordHidesDate`); the callers in the tree
  pass at most 32 characters (`src/tcMng.c:49`) or a constant (`src/opInitOper.c:25`), so that
  the whole date counts there.
- `Track.PinRoundTrip`: the PIN comes back exactly when no '=' is among the first eight
  characters of the track; otherwise the first call spoils the buffer for the second
  (`EarlySignLosesPin`).
- `HostPin.PinRoundTrip`: a PIN survives exactly when it is upper-case hexadecimal text of up
  to fourteen characters; a fifteenth is never written by decryption (`LowerCasePinIsLost`).
- `Base64.CharactersBehind`: line ends among the letters are harmless, and behind the padding
  exactly in the cases of `HarmlessBehind`; `LineEndBehindPadding` has a byte lost and a byte
  too many. `Envelope.SealedWithTail`: an envelope with such a tail opens, or is refused for
  its length.
- `Envelope.SealedOpens`: data is sealed exactly up to 4076 bytes (`FirstTooLong`).

Assumptions, all of them parameters of the model: return codes of the database are arbitrary
functions of the line number, the table and the statement; `all_trim` is any function on
strings; MD5 is any function to 16 bytes, the digest text any function to 32 characters; RC4
with its fixed key is any key stream; the security module's two PIN operations are any
functions, and `Track.PinRoundTrip` alone assumes that one undoes the other for the bank,
account and PIN at hand; reads deliver any number of bytes up to what is asked for and left.
Preconditions state field widths, buffer sizes and the absence of terminators in text files,
as the C code does not check them.

## Model

| member | source | states |
|---|---|---|
| CString.StrCpy | src/bcpacct.c:84-87 | copying upwards is right even when source and target are one buffer, and touches nothing behind the terminator |
| Tokenizer.StrTokState.StrTok | src/bcpacct.c:65-89 | one call returns the field before the first separator, leaves exactly what follows it pending, writes only its two 8192-byte buffers and keeps the caller's string |
| Tokenizer.StrTokState.Cut | src/bcpacct.c:73-83 | sentinel, scan and cut stop at the first separator or at the end, and leave the bytes behind the cut in place |
| Tokenizer.StrTokState.Shift | src/bcpacct.c:85-87 | the left shift over itself keeps exactly the bytes behind the cut, or nothing when no separator was found |
| Tokenizer.FirstCharacterSeparates | src/bcpacct.c:74-77 | of the separator string only the first character counts |
| Tokenizer.CallTimes | src/bcpacct.c:65-89 | n calls on the real buffers deliver the first n fields of the text, padded with empty ones |
| Tokenizer.TokensAreFields | src/bcpacct.c:65-89 | for every text, calls deliver its fields in order and then empty strings for ever |
| Tokenizer.SplitUndoesJoin | src/bcpacct.c:65-89 | joined separator-free fields, empty ones included, come back in order |
| Tokenizer.NothingIsLost | src/bcpacct.c:71-87 | the first k+1 fields of a text with k separators join to that text |
| Tokenizer.DrainStep | src/bcpacct.c:71-87 | a call on non-empty text shortens it and brings draining one call nearer |
| Tokenizer.DrainsExactly | src/bcpacct.c:71-87 | nothing is pending exactly from k calls on when the text ends in a separator, and from k+1 on otherwise |
| CString.FGets | src/bcpacct.c:34-35 | the next line, cut at the request size, is in the buffer; at the end of the file nothing changes |
| CString.FGetsLine | bin/add_desc.c:32 | on a file whose lines fit, the n-th call delivers the n-th line |
| BatchImport.ReadLine | src/bcpacct.c:36-45 | the five values depend on the line alone, whatever the static buffer held; missing trailing fields are empty and surplus ones ignored |
| BatchImport.RenderedLineColumns | src/bcpacct.c:53 | which columns the five values of a written line end up in, and the constants of the others |
| BatchImport.FixedColumns | src/bcpacct.c:53 | every line gives node 10, 20120328, 20991231 and state 1 |
| BatchImport.CountKey | src/bcpacct.c:47-49 | the count is positive exactly when a row has the key |
| BatchImport.CountIs | src/bcpacct.c:47-49 | rows count one by one, each exactly when its three columns match |
| BatchImport.Database.QueryCount | src/bcpacct.c:49 | the count of the key's rows arrives as decimal text |
| BatchImport.Database.Exec | src/bcpacct.c:54 | a successful insert appends its row; nothing else changes the table |
| BatchImport.ImportLine | src/bcpacct.c:36-59 | one line leaves the table and return code that the step function gives |
| BatchImport.ImportFile | src/bcpacct.c:32-63 | the loop over the file ends with the table, code and line count of the pure run |
| BatchImport.SeenIsPresent | src/bcpacct.c:47-54 | a key is in the table of the n-th line exactly when it was in the old table or on an earlier line, whether or not that line put it there |
| BatchImport.RunSafety | src/bcpacct.c:32-63 | for every answer of the database: exactly the lines before the first refused statement are finished, that statement's code is returned, and the table is the old one and a row per finished line whose key was new when it came, in file order |
| BatchImport.OneRowPerLine | src/bcpacct.c:50-56 | when the text of lines is refused, every finished line had a new key and is a row of the table |
| BatchImport.RunKeepsKeysUnique | src/bcpacct.c:49-54 | whatever the database answers, old rows stay and unique keys stay unique |
| BatchImport.HealthyRun | src/bcpacct.c:50-56 | when queries and inserts succeed, finished lines with a taken key had their own text accepted, and an early stop is at a taken key whose text is refused |
| BatchImport.StopsAtFirstTakenKey | src/bcpacct.c:50-56 | when only the text of lines is refused, the run stops exactly at the first line whose key is in the old table or on an earlier line |
| BatchImport.TakenKeyStopsIffTextRefused | src/bcpacct.c:52-56 | a whole run stops at the first line with a taken key exactly when the database refuses the line's own text |
| BatchImport.AcceptedTextPassesTakenKey | src/bcpacct.c:52-56 | a line given twice to a database that accepts any text: one row, and success |
| BatchImport.IndexedRun | dbs/tcop2db.sql:696 | with the schema's unique index on agreementid, the run stops exactly at the first taken agreementid, unless the whole key is taken and the line's text accepted |
| BatchImport.StopsAtFirstTakenAgreement | src/bcpacct.c:47-56 | with that index and such text refused, the run stops exactly at the first line whose agreementid is in the old table or on an earlier line |
| BatchImport.SecondAccountStops | src/bcpacct.c:47-56 | a second account under one agreementid ends the run although its key is not taken |
| BatchImport.SecondRunAddsNothing | src/bcpacct.c:32-63 | importing a file again adds nothing as far as the first run came, whatever the database answers, and stops at its first line exactly when query or text is refused there |
| Patcher.MemStr | spdbsvr/src/sopcli2.c:15-24 | the least offset at which the pattern occurs in the first count bytes, or NULL exactly when there is none |
| Patcher.Stream.Read | spdbsvr/src/sopcli2.c:41 | a read delivers any number of bytes up to request and rest, at the offset given and nowhere else |
| Patcher.LoadFile | spdbsvr/src/sopcli2.c:26-53 | for every schedule of short reads: success means the buffer is the file, failure happens exactly when a read gives nothing before the file is complete |
| Patcher.PositiveReadsComplete | spdbsvr/src/sopcli2.c:39-44 | when every read delivers something, every file loads |
| Patcher.FullReads | spdbsvr/src/sopcli2.c:41 | reads that could deliver more deliver 10240 bytes each |
| Patcher.SendBatch | spdbsvr/src/sopcli2.c:89-138 | the exit taken and the sequence of requests sent, for every template and count |
| Patcher.NothingSent | spdbsvr/src/sopcli2.c:100-115 | without one of the two patterns nothing is sent, and which exit is taken |
| Patcher.PatchLoop | spdbsvr/src/sopcli2.c:118-124 | each in-place iteration sends the template with its two windows overwritten, independent of the iteration before |
| Patcher.WindowsDisjoint | spdbsvr/src/sopcli2.c:100-124 | the two patterns alone keep the write windows apart in every template |
| Patcher.RequestContents | spdbsvr/src/sopcli2.c:118-124 | length and all bytes outside the windows are the template's; the windows decode to 2+i and 10002+i exactly up to 99999997 and 89997 |
| Patcher.RequestsDiffer | spdbsvr/src/sopcli2.c:118-124 | no two requests are equal up to number 99999998 |
| Patcher.FirstRepetition | spdbsvr/src/sopcli2.c:118-124 | both windows of requests 99999998 and 99999999 hold the same text |
| Patcher.AmountKeepsCents | spdbsvr/src/sopcli2.c:109-124 | the bytes .00 behind the amount survive exactly while the note digits that may share them are zeros |
| Patcher.CentsOverwritten | spdbsvr/src/sopcli2.c:109-124 | templates in which the patterns share two zeros and one, and the request at which the cents are gone |
| Patcher.FirstWrongAmount | spdbsvr/src/sopcli2.c:118-124 | request 89998 asks for 10000.00 |
| Patcher.BatchIsSound | spdbsvr/src/sopcli2.c:116-138 | all requests of a batch are distinct exactly when there are at most 99999998, and all carry their note number and amount exactly when there are at most 89997 |
| DescRewriter.DescTool.Load | bin/add_desc.c:20 | the dictionary holds the file's words two by two; an odd last word gets no description |
| DescRewriter.DescTool.GetDesc | bin/add_desc.c:5-12 | the lookup in the global table is the first entry agreeing on six bytes |
| DescRewriter.LookupIsFirst | bin/add_desc.c:5-12 | the first matching entry decides; without one the description is empty |
| DescRewriter.DescTool.RewriteItem | bin/add_desc.c:38-49 | pointer searches, in-place cut and lookup print the rewritten line |
| DescRewriter.DescTool.RewriteAll | bin/add_desc.c:32-51 | the output file is the rewritten input file, line by line |
| DescRewriter.RewriteKeeps | bin/add_desc.c:38-49 | everything before desc= is kept, and desc= stays the first one |
| DescRewriter.NamedItem | bin/add_desc.c:38-49 | the printed line in full for an Item with a name: what stood before, and the description of the first entry that agrees in six bytes, or empty quotes |
| DescRewriter.ValuedItem | bin/add_desc.c:38-49 | the same for an Item whose name is empty or a path, by its value |
| DescRewriter.OtherLinesStay | bin/add_desc.c:34-36 | a line whose second character is no I is printed as it is |
| DescRewriter.KeyBytesAre | bin/add_desc.c:9 | entries are compared by their first six bytes |
| DescRewriter.DescribedByName | bin/add_desc.c:38-49 | an Item with a name gets the description of the name's six letters |
| DescRewriter.DescribedByValue | bin/add_desc.c:41-45 | an Item whose name is empty or a path gets the description of its value's six letters |
| DescRewriter.OldDescriptionIsIrrelevant | bin/add_desc.c:38-49 | lines that agree up to desc= are rewritten to the same line |
| DescRewriter.RewriteTwice | bin/add_desc.c:34-50 | rewriting a rewritten line changes nothing |
| DescRewriter.FileRewriteIsIdempotent | bin/add_desc.c:32-51 | rewriting a whole rewritten file changes nothing |
| DescRewriter.LinesOfOutput | bin/add_desc.c:32-51 | the lines of the output are the rewritten lines of the input |
| CString.StrStr | bin/add_desc.c:38-43 | the first occurrence in the C string, or NULL |
| Emulator.GetRspData | emulator/YCEmu:8-17 | the accumulated message is the text between the first opening and first closing marker; an exception when one is missing |
| Emulator.LookupUndoesRender | emulator/YCEmu:8-17 | in a file of sections with distinct codes and marker-free bodies, every code finds exactly its body |
| Emulator.UnknownCodeRaises | emulator/YCEmu:13-14 | a code without a section raises an exception |
| Emulator.ClosedBeforeOpened | emulator/YCEmu:13-16 | a closing marker before the opening one gives an empty message |
| Emulator.FrameReadsBack | emulator/YCEmu:31-37 | a frame is read back, whatever follows it, exactly when its length has at most ten digits |
| Emulator.FrameText | emulator/YCEmu:37 | a frame is ten digits that read as the length, and the message |
| Emulator.PyIntText | emulator/YCEmu:32 | which length fields are read as numbers, and which raise |
| Emulator.TooLongToFrame | emulator/YCEmu:31-37 | the shortest message that is not read back |
| Emulator.FramesArePrefixFree | emulator/YCEmu:37 | no frame is a proper prefix of another |
| Emulator.FramesParseBack | emulator/YCEmu:31-37 | a stream of frames parses back to its messages |
| Emulator.ServeOne | emulator/YCEmu:31-37 | on every section file and framed request the server sends the framed body of the section that the first TxCode names, and raises without a TxCode or without that section |
| Emulator.ReplyDecodes | emulator/YCEmu:31-37 | the framed reply to a framed request decodes to the body of the section its first TxCode names |
| Emulator.ExampleExchange | emulator/YCEmu:31-37 | one exchange in full, in literals |
| OperPwd.UnpackUndoesLayout | src/tcUtil.c:8 | the fields can be decoded from the digest input, but for trailing blanks |
| OperPwd.LayoutInjective | src/tcUtil.c:8-23 | two operators share a digest input exactly when trailing blanks alone tell them apart |
| OperPwd.TrailingBlankCollides | src/tcUtil.c:8 | two operators told apart by a blank share a digest input |
| OperPwd.WideNameIsPassword | src/tcUtil.c:8 | what follows an 80-character name counts as the beginning of the password |
| OperPwd.DateCounts | src/tcUtil.c:8 | two dates give the same digest input exactly when they agree on as many characters as the password leaves room for |
| OperPwd.LongPasswordHidesDate | src/tcUtil.c:8 | with 153 password characters only the year counts, with 157 nothing of the date |
| OperPwd.GenOperPwd | src/tcUtil.c:3-16 | the caller's buffer gets the 32 digest characters and a terminator, and nothing else |
| OperPwd.ChkOperPwd | src/tcUtil.c:18-32 | 0 exactly when the first 32 stored characters are the digest |
| OperPwd.GenerateThenCheck | src/tcUtil.c:3-32 | what was generated is accepted for every operator that lays out alike and, short of a digest collision, for no other |
| Track.GetAcctNo | src/process/PF/SYDAPI.c:3-15 | a track shorter than 8 is refused and kept, any other is cut at its first '=' in the caller's buffer |
| Track.SYDEncrypt | src/process/PF/SYDAPI.c:17-34 | code, encrypted PIN and the track left behind |
| Track.SYDDecrypt | src/process/PF/SYDAPI.c:36-53 | code, PIN and the track left behind |
| Track.PinRoundTrip | src/process/PF/SYDAPI.c:3-53 | on one buffer the PIN comes back exactly when no '=' is among its first eight characters; otherwise the second call returns E_PACK_GETVAL |
| Track.ModuleGets | src/process/PF/SYDAPI.c:3-53 | the security module is given 20 and the bank number, the characters before the first '=', and the PIN; its failure becomes 309 or 310 |
| Track.ModuleGetsWhole | src/process/PF/SYDAPI.c:3-53 | the same for a track without '=', and 402 for a short one |
| Track.EarlySignLosesPin | src/process/PF/SYDAPI.c:3-53 | a track with its '=' in eighth place makes the second call fail |
| Hex.Dsp2Hex | src/crypto.c:110-119 | packing display text is right even in place |
| Hex.Hex2Dsp | src/crypto.c:121-132 | two display characters for every byte |
| Hex.PackUndoesDisplay | src/crypto.c:110-132 | packing undoes displaying for every byte string |
| Hex.DisplayUndoesPack | src/crypto.c:110-132 | displaying undoes packing exactly for upper-case hexadecimal text |
| Hex.PackIs | src/crypto.c:110-119 | the byte of any two characters, with lower-case letters wrapping around |
| Hex.DoXor | src/crypto.c:96-101 | exactly the bytes asked for are masked |
| Hex.XorIs | src/crypto.c:96-101 | the masking is exclusive or |
| DesTables.InitialPermutations | src/process/YC/des.c:291-308 | the two permutation tables are each other's inverse |
| DesSpec.ExpandOfCompress | src/process/YC/des.c:165-201 | packing eight bits into a byte loses nothing |
| DesSpec.CompressOfExpand | src/process/YC/des.c:165-201 | unpacking a byte into bits loses nothing |
| DesSpec.BackwardUndoesForward | src/process/YC/des.c:119-163 | the rounds with keys 16 to 1 on swapped halves undo the rounds with keys 1 to 16, for any number of rounds |
| DesSpec.CipherRoundTrip | src/process/YC/des.c:25-36 | decryption undoes encryption and encryption decryption, for every block and key |
| DesSpec.ParityBitsAreIgnored | src/process/YC/des.c:224-261 | the last bit of a key byte has no influence |
| DesSpec.Complementation | src/process/YC/des.c:25-36 | the complemented key enciphers the complemented block to the complement, and deciphers likewise |
| DesWords.EncryptIsWords | src/process/YC/des.c:25-436 | for every block and key the cipher on bits is the cipher on machine words, whose permutations are shifts and masks and whose S-boxes are the digits of numbers |
| DesWords.LookIs | src/process/YC/des.c:424-427 | the outer two of six bits choose the row, the inner four the column |
| DesWords.KeyWordsAre | src/process/YC/des.c:246-267 | both key halves, rotated by one in rounds 1, 2, 9 and 16 and by two in the others |
| DesVector.PublishedVector | src/process/YC/des.c:25-436 | the published answer for one key and block, in literals, in both directions |
| DesCipher.KeyTables.SetKeyStar | src/process/YC/des.c:246-289 | the static tables hold the sixteen round keys, whatever they held before |
| DesCipher.KeyTables.Round | src/process/YC/des.c:392-413 | one round on the bit arrays is one Feistel round |
| DesCipher.SBoxLookup | src/process/YC/des.c:415-436 | the eight substitutions, bit by bit |
| DesCipher.KeyTables.Encrypt0 | src/process/YC/des.c:119-140 | the sixteen-round loop computes the cipher, also when source and target are one buffer |
| DesCipher.KeyTables.Discrypt0 | src/process/YC/des.c:142-163 | the loop from 16 down computes the inverse |
| DesCipher.KeyTables.DES | src/process/YC/des.c:25-36 | the flag chooses the direction; the key tables' old contents do not matter |
| DesCipher.EncryptingFlags | src/process/YC/des.c:32 | which flags encrypt |
| HostPin.HostDes | src/process/YC/des.c:71-117 | encrypting writes the enciphered, masked PIN block; decrypting writes fourteen characters and a terminator; other flags do nothing; any buffers may be one and the same |
| HostPin.DecryptingFlags | src/process/YC/des.c:105 | which flags decrypt |
| HostPin.FirstByteIsLength | src/process/YC/des.c:87 | the first byte before enciphering is the length of the PIN |
| HostPin.CardEnters | src/process/YC/des.c:79-99 | two cards give one block exactly when the 4th to 15th characters of their numbers pack alike |
| HostPin.ExampleBlock | src/process/YC/des.c:79-101 | the block before enciphering for a literal card and PIN |
| HostPin.ExamplePin | src/process/YC/des.c:71-103 | the block written for a literal card, work key and PIN |
| HostPin.PinRoundTrip | src/process/YC/des.c:71-117 | which PINs come back from encryption and decryption, exactly |
| HostPin.LowerCasePinIsLost | src/process/YC/des.c:71-117 | the PIN "a" does not come back, under any card and key |
| Base64.Base64Encode | src/crypto.c:157-210 | length and text of the encoding, translated in place |
| Base64.AlphabetText | src/crypto.c:157-210 | the 64 letters in order |
| Base64.GroupNumber | src/crypto.c:157-210 | three bytes and their four values are one number |
| Base64.TestVectors | src/crypto.c:157-210 | test vectors of RFC 4648 |
| Base64.Base64Decode | src/crypto.c:212-281 | the streaming decoder computes the decoding, for every text |
| Base64.LetterIff | src/crypto.c:217-278 | the characters not passed over are exactly the 64 letters |
| Base64.RoundTrip | src/crypto.c:157-281 | decoding undoes encoding for every byte string, whatever the decoder's variables held |
| Base64.DecodeUndoesEncode | src/crypto.c:217-278 | other characters scattered among the letters, before the padding, do not matter |
| Base64.CharactersBehind | src/crypto.c:217-278 | with other characters among the letters and behind the padding, exactly when the bytes come back, and what comes back otherwise: a byte less, or one or two more |
| Base64.EncodingWithTail | src/crypto.c:157-281 | the same for what the encoder wrote, with a tail |
| Base64.LineEndBehindPadding | src/crypto.c:233-273 | QUI= with a newline, and with carriage return and newline, behind it |
| Envelope.EncryptSoft10 | src/crypto.c:283-323 | the sealed text for the data, or the length error |
| Envelope.MaskInputIs | src/crypto.c:299-301 | the mask is the digest of the date, '0's, and the reference right-justified |
| Envelope.PlainIs | src/crypto.c:303-305 | four digits of length, eight bytes of the digest of the data, the data |
| Envelope.SealedBytes | src/crypto.c:298-320 | a sealed text decodes to the plain message under the digest and the key stream, byte by byte |
| Envelope.DecryptSoft10 | src/crypto.c:325-369 | for every text: the data when the stored check sum is that of the data declared, whatever is in the buffer behind what was decoded; otherwise the error of a wrong length or check sum; or that the program leaves its buffers |
| Envelope.OpenPlainIs | src/crypto.c:358-367 | with the digest itself: the data declared is delivered exactly when its digest begins with the stored bytes |
| Envelope.DeclaredIs | src/crypto.c:358-360 | the declared length is atoi of the first four bytes |
| Decimal.AtoiText | src/crypto.c:360 | what the declared length means: blanks, a sign, digits, and whatever follows |
| Envelope.UncipherUndoesCipher | src/crypto.c:310-357 | key stream and mask, taken off in the other order, are gone |
| Envelope.OpenUndoesSeal | src/crypto.c:283-369 | an envelope opens to its data, also with line ends among its letters |
| Envelope.OnlyEnvelopesOpen | src/crypto.c:283-369 | of the texts of the right length and header, exactly the envelopes of some data open to it |
| Envelope.SealedWithTail | src/crypto.c:283-369 | a sealed text with other characters behind it opens to its data exactly when they are harmless, and is refused for its length otherwise |
| Envelope.SealedOpens | src/crypto.c:283-369 | data is sealed exactly up to 4076 bytes, and what is sealed opens |
| Envelope.FirstTooLong | src/crypto.c:283-323 | 4076 bytes are sealed and 4077 refused |

## Left out

- Tokenizer.StrTokState.StrTok: texts of more than 8190 bytes are excluded; the program would write its terminator behind the buffer.
- BatchImport.ReadField: the five field arrays are read into strings at once; the program keeps them as arrays that `all_trim` changes in place.
- BatchImport.Database.Exec: what a database does that accepts a line's own text as a statement is not modelled beyond its return code, so the table is said to stay as it was; SQL text and quoting are not modelled.
- BatchImport.RunSafety: for the same reason its table is exact only for accepted text that does not change `agreement`.
- BatchImport.Database.QueryCount: the count is unbounded, while the program reads it through a 16-byte buffer and `atoi`, which returns a C int.
- Patcher.SendBatch: sending a request and printing the answer are left out; they do not change the next request.
- Patcher.LoadFile: the file does not change between measuring and reading it.
- DescRewriter.DescTool.Load: the dictionary file is given as its blank-separated words, and the mode that looks up one name from the command line is left out.
- Emulator.ServeOne: a receive delivers all that was asked for as long as the peer has sent it; sockets and printing are left out.
- Envelope.DecryptSoft10: what the program reads or writes once it has left its buffers, reported as `overrun`, is not modelled; failing allocation is left out.
- Track.PinRoundTrip: the security module's own PIN block is not part of this model.
- MD5, RC4, the database and the file system: foreign calls; `all_trim` is not part of this model.
- `MAC`, `OFP_Encrypt`, `OFP_Decrypt`, `GetPanByAcctno` and the XML conversion of `src/pack.c`: not needed for the properties above.
- `GetChineseName.c`, headers, Makefiles and shell scripts: only easy members.
