# mdp, modelled and proved

mdp keeps passwords in a text file encrypted with GnuPG. This project models the parts of it that hold
algorithms, and proves what they promise:

- **Checksum** (`gf2.dfy`, `words.dfy`, `crctable.dfy`, `crc.dfy`): the table-driven CRC-32 of `crc.c`, its literal
  table included, is division in GF(2)[x] as the `cksum` utility of POSIX.1-2017 (Shell & Utilities, chapter 4,
  DESCRIPTION) defines it, and what such a checksum can and cannot tell apart. A message is a polynomial, and the
  reference is a multiplication and an addition of polynomials that no part of the program performs.
- **Entries and change detection** (`stdio.dfy`, `cstring.dfy`, `entries.dfy`, `results.dfy`, `search.dfy`):
  loading a file through a 16 KiB line buffer, stripping, dumping, filtering, and deciding whether an edit changed
  anything.
- **Replacing the password file** (`gpg.dfy`): the link and unlink sequence of `gpg_encrypt` as a machine over a
  directory in which any call may fail and the process may die after any call.
- **Random numbers** (`rc4.dfy`, `arc4.dfy`, `keystream.dfy`, `uniform.dfy`): the generator, its entropy an arbitrary
  oracle, and which bytes of the key stream its calls hand out.
- **Passwords** (`randpass.dfy`, `election.dfy`, `symbolwords.dfy`): the election of each symbol, and the exact count of
  weight vectors and of generator words that elect each position.
- **Configuration** (`strdelim.dfy`, `config.dfy`, `configstate.dfy`, `configmeaning.dfy`, `configlines.dfy`,
  `configvalues.dfy`, `configprint.dfy`, `configroundtrip.dfy`, `configsurvives.dfy`): the in-place tokenizer, the line by line evaluator, a declarative
  meaning for whole files, and a printer whose output reads back.
- **Joining and the growable array** (`join.dfy`, `carray.dfy`). `wrappers.dfy` holds what several modules share.

Code that changes state is imperative here too. Its methods are proved against functions on values, and the lemmas
are about those functions. `ghost` parameters and fields measure; they decide nothing.

## Where the code and its documentation differ

The model follows the code.

- `backup` is documented as yes or no; the code takes every value that starts with `o` for true, `off` included, and
  all others, none at all included, for false (`ConfigRoundTrip.BackupLineAfter`). Of the values the manual names,
  `no` and `false` do what it says, `yes` does not (`ConfigRoundTrip.DocumentedIff`).
- The manual gives 10 seconds as the default of `gpg_timeout`; the code starts with 20.
- The comment above `has_changed` promises 1 for a match; the code returns 1 for a difference.
- Before there is a password file the stored checksum is 0 and not the checksum of an empty file, so closing the
  editor on an empty dump counts as a change (`Results.FirstEditSeen`).
- Loading what was dumped does not always give the same entries: an entry of 16383 characters, read from a file whose
  last line lacks its newline, comes back in two pieces (`Results.LongLineIsSplit`). `Entries.RoundTripIff` is the
  exact condition.
- `has_changed` is there to notice any change of the file. Text from a NUL to the end of its line (or of the buffer) is not part of the
  checksum, so an edit that brings in a NUL can be dropped as no change (`Results.NulEditUnseen`).
- A line whose first delimiter is a quote that is never closed is passed over without a word
  (`ConfigLines.NothingIff`), and a comment that does not fit the line buffer goes on as a line of its own
  (`ConfigLines.LongComment`).
- After a quoted token the rest of the line is lost, so a quoted value has to come last.
- Without a backup the old password file is unlinked before the new one has its name. `Gpg.WindowIff` says exactly
  when the old version has a name throughout, and `Gpg.WindowHappens` that otherwise every completed run loses it.

## Model

| member | source | states |
|---|---|---|
| Gf2.RemainderUnique | src/crc.c:29-33 | A polynomial has at most one remainder by a monic divisor, so "the remainder by G(x)" is well defined |
| Gf2.RegisterIsRemainder | src/crc.c:96-98 | The shift register holds the remainder of m(x)·x^deg(g) by g(x), and nothing else is that remainder |
| Gf2.FeedXor | src/crc.c:96-98 | The register is linear: feeding a sum of messages to a sum of registers gives the sum of the results |
| Gf2.FeedToZero | src/crc.c:96-98 | Up to deg(g) bits empty a register exactly if the register held those bits |
| Gf2.SuffixKeeps | src/crc.c:96-98 | Registers fed the same bits are equal afterwards exactly if they were before: each step is a bijection |
| Gf2.BurstChanges | src/crc.c:96-98 | Two messages that differ only within deg(g) consecutive bits leave different registers |
| CrcTable.TableIsGenerated | src/crc.c:34-87 | Each of the 256 literal entries is its index times x^32 reduced by the polynomial, eight bit steps |
| Crc.TableStep | src/crc.c:96-98 | One table lookup with the literal table is eight steps of polynomial division by G(x) |
| Crc.UpdateRegister | src/crc.c:96-98 | The new register is the old one divided on by the eight bits of the byte |
| Crc.Context.constructor | src/crc.c:89-94 | A fresh context stands for the empty message |
| Crc.Context.Update | src/crc.c:100-108 | After any split of a message into updates the context stands for the whole message |
| Crc.Context.Final | src/crc.c:110-121 | The context ends with the checksum of everything fed to it |
| Crc.LengthBytesAre | src/crc.c:113-119 | The length bytes stand for the length, the first one counting once, and do not end in a zero |
| Crc.LengthBytesUnique | src/crc.c:113-119 | No other bytes without a zero at the end stand for that length |
| Crc.CksumIsPosix | src/crc.c:29-121 | The checksum of a message is c if and only if the complement of c is the remainder of (message, then its length in minimal little-endian bytes)(x)·x^32 by G(x) |
| Crc.KnownAnswer | src/crc.c:89-121 | The checksum of the text 123456789 is 930766865 |
| Crc.EqualLengthCollision | src/crc.c:110-121 | For messages of one length, trailer and complement neither create nor remove a collision |
| Crc.BurstDetected | src/crc.c:96-121 | Different messages of one length whose differences lie within 32 consecutive bits have different checksums |
| Crc.BurstBound | src/crc.c:96-121 | The bound is sharp: between any prefix and any suffix there are two contents that differ within 33 consecutive bits and share the checksum |
| Crc.CollisionIffMultiple | src/crc.c:96-121 | Messages of one length collide exactly if G(x) divides their difference times x^32 |
| Crc.LeadingZerosVanish | src/crc.c:89-108 | Leading zero bytes leave no trace in the register |
| Crc.LengthSeparates | src/crc.c:110-121 | Messages that differ only in their number of leading zeros have different checksums, if their lengths take the same number, at most 4, of bytes |
| CString.StripTrailing | src/str.c:106-135 | Both strip functions: the text becomes the longest prefix that does not end in white space, what follows the text is untouched |
| CString.StrippedUnique | src/str.c:106-135 | Only one text is a prefix, ends in no space, and lacks nothing but spaces |
| Stdio.ChunksCover | src/results.c:218 | What successive fgets calls return is the file, nothing lost or repeated |
| Entries.HashedWholeIff | src/results.c:218-242 | The checksum is taken over the whole file, whatever its line lengths, if and only if the file holds no NUL; what is left otherwise has the same checksum as a file of its own |
| Entries.LoadedAreEntries | src/results.c:228-238 | No loaded entry holds a NUL or newline, ends in white space or exceeds the buffer |
| Results.LoadStrips | src/str.c:29-119 | Of a line, with or without its newline, exactly the blanks, tabs and carriage returns at its end are stripped |
| Entries.RoundTripIff | src/editor.c:172-179 | Dumping entries and loading the dump gives them back if and only if each fits the buffer with its newline |
| Entries.FullEntrySplits | src/results.c:218-238 | A file of one line that fills the buffer loads as one entry, and that entry does not survive dumping and loading |
| Results.LongLineIsSplit | src/results.c:211-238 | For the program's own 16 KiB buffer such a file exists: 16383 letters |
| Entries.DumpLoadIff | src/editor.c:172-179 | Loading and dumping reproduces a file byte for byte if and only if the file is stripped, NUL-free and newline-terminated with lines that fit |
| Results.Store.LoadChunk | src/results.c:228-238 | One turn of the loop: the checksum takes the text up to the first NUL, one visible entry is appended |
| Results.Store.LoadResultsFp | src/results.c:207-245 | The entries of the stream are appended, not put in place of the old ones; the checksum is that of the stream; the count is that of all entries |
| Results.Store.FilterResults | src/results.c:187-201 | An entry is visible exactly if it is not commented out and holds every keyword, whatever was visible before |
| Results.LineMatches | src/results.c:91-159 | Plain matching: no leading hash and every keyword somewhere in the line in any case |
| Results.CommentsHidden | src/results.c:147-159 | A line that starts with a hash is never shown; any other is if there is no keyword |
| Results.KeywordIff | src/str.c:141-160 | A line has a keyword if and only if it is three pieces of which the middle one is the keyword but for case |
| Results.KeywordsNarrow | src/results.c:91-107 | Two lists of keywords together select what each of them selects |
| Results.KeywordOrder | src/results.c:91-107 | Neither the order nor the repetition of the keywords matters |
| Results.Store.HasChanged | src/editor.c:130-150 | Reports a change exactly if the checksum of the edited file is not the stored one; the edited entries are appended |
| Results.Store.EditResults | src/editor.c:160-192 | The editor gets the dump of all entries; the outcome is to encrypt, or not, what the editor left, by its checksum |
| Results.UntouchedUnseen | src/editor.c:130-192 | An untouched edit of a file in canonical form is no change |
| Results.BurstEditSeen | src/editor.c:130-150 | An edit that keeps the length and stays within 32 consecutive bits is a change, if neither version holds a NUL |
| Results.FourByteEditSeen | src/editor.c:130-150 | So is one within four consecutive bytes, under the same condition |
| Results.NulEditIff | src/results.c:228 | An edit that brings a NUL into a file without one is a change if and only if the text in front of the NULs of its lines has another checksum |
| Results.NulEditUnseen | src/results.c:228 | Such an edit of one byte can go unseen: the file and the edit are given, and the file is canonical |
| Results.MdpEdit | src/main.c:80-92 | A whole edit from a fresh program, in the program's own format: the outcome by the checksums of the loaded and the edited file; an untouched canonical file is no change, an edit of it that keeps the length, stays within 32 consecutive bits and holds no NUL is encrypted |
| Results.FirstEditSeen | src/editor.c:130-192 | With no file loaded yet, saving the empty dump is taken for a change |
| Search.Wcsncasecmp | src/wcsncasecmp.c:36-52 | Zero exactly if the first n characters agree up to case; otherwise the difference at the first place that disagrees |
| Search.Wcscasestr | src/str.c:141-160 | The least position at which the pattern occurs up to case, NULL exactly if there is none, for any lower-casing map |
| Gpg.Directory.LinkBackup | src/gpg.c:196-207 | Whatever fails, the directory after each call is one of the listed stages; on success the backup name holds the old file |
| Gpg.Directory.SaveOld | src/gpg.c:191-214 | The same for the whole block about the old file |
| Gpg.Directory.Install | src/gpg.c:217-230 | The same for linking the new file and dropping the temporary name |
| Gpg.Directory.GpgEncrypt | src/gpg.c:188-231 | Every call of every run, whatever fails, leaves one of the stages; a completed run has gone through all of them and ends at the last one; a run completes if and only if no call fails, and stops at the first that does; the temporary name is dropped only when the password file has mode 0600 |
| Gpg.EveryStageSafe | src/gpg.c:188-231 | In every stage the new ciphertext has a name, with a backup the old one does too, and no other file is touched |
| Gpg.ReplacedIs | src/gpg.c:188-231 | A completed run: the new file in place, the old one under its name with .bak, the temporary name with .gpg gone, all else as before |
| Gpg.LastTwoVersions | src/gpg.c:188-231 | After two or more completed runs, the last one with backups on, the password file is the last version and the backup the one before |
| Gpg.StageKeepsCurrent | src/gpg.c:188-231 | From a directory whose current version is the password file, or the backup if there is none, a run stopped at a stage leaves that version current, or its own once installed, if and only if backups are on, there is no password file, nothing was done yet, its own is installed, or the backup is a copy already |
| Gpg.NeverLost | src/gpg.c:188-231 | Over any sequence of runs, each with or without backups and cut short anywhere, the version installed last is current after every run if and only if each run meets that condition |
| Gpg.BackupsKeep | src/gpg.c:188-231 | Runs with backups on meet it, wherever they are cut short |
| Gpg.WindowIff | src/gpg.c:188-231 | The old version has one of the two names in every stage of the replacement if and only if backups are on or the backup is a copy of it already |
| Gpg.WindowHappens | src/gpg.c:188-231 | Where it has not, every completed run leaves the directory at some call without the old version under either name |
| Rc4.PermutationMeans | src/arc4random.c:73-82 | In a permuted box each byte value sits at exactly one index |
| Rc4.StepAndByte | src/arc4random.c:138-151 | The step and the byte handed out, from the state in front of it: the byte at (si + sj) mod 256 of the swapped box |
| Rc4.ByteStandsAt | src/arc4random.c:138-151 | In a permuted box the byte is v if and only if v stands at that index and nowhere else |
| Rc4.FirstByteIsTwo | src/arc4random.c:73-151 | A generator that was only initialised hands out 2 |
| Rc4.MixPermutes | src/arc4random.c:84-99 | Mixing in a key keeps the box a permutation |
| Rc4.MixTurn | src/arc4random.c:91-97 | One turn of the mixing, in plain arithmetic, with the key repeated modulo its length |
| Rc4.MixVisits | src/arc4random.c:90-92 | From any state, turn n of the mixing swaps n places beyond i |
| Rc4.MixEnds | src/arc4random.c:84-99 | After 256 turns i is one back from where it was, and j is put there too |
| Rc4.FinneyClosed | src/arc4random.c:138-151 | The output step leads into a Finney state exactly from a Finney state |
| Rc4.MixIsNotFinney | src/arc4random.c:84-99 | Mixing in a key never ends in a Finney state |
| Rc4.PreviousUndoesNext | src/arc4random.c:138-151 | The output step has an inverse on (i, j, s), wrap-around included |
| Rc4.NextUndoesPrevious | src/arc4random.c:138-151 | The inverse is one from both sides: every state has a predecessor |
| Rc4.NeverMerge | src/arc4random.c:138-151 | Different states stay different over any number of bytes |
| Rc4.FirstMixIsKeySchedule | src/arc4random.c:73-99 | The first mixing of a fresh generator gives the box of the RC4 key schedule for the repeated key, with i = j = 255 |
| Arc4.Generator.InitStream | src/arc4random.c:73-82 | The identity permutation, both indices 0 |
| Arc4.Generator.AddRandomBytes | src/arc4random.c:84-99 | In place, exactly the key mixing on values |
| Arc4.Generator.GetByte | src/arc4random.c:138-151 | In place, exactly the output step on values; the byte stands at (si + sj) mod 256 of the swapped box |
| Arc4.Generator.Stir | src/arc4random.c:101-136 | Exactly the stir on values, whose place in the key stream Keystream.StandsBehindStir gives |
| Arc4.Generator.CheckStir | src/arc4random.c:175-182 | Stirs exactly if never stirred or out of budget |
| Arc4.Generator.GetWord | src/arc4random.c:153-164 | The next four bytes, first one highest |
| Arc4.Generator.Random | src/arc4random.c:204-217 | The machine steps as specified and the word is the one that specification names |
| Arc4.Generator.RandomBuf | src/arc4random.c:219-232 | The buffer holds the next size bytes from its end to its front, each behind a budget check; nothing beyond is touched |
| Arc4.Generator.RandomAddRandom | src/arc4random.c:194-202 | Initialised, stirred if due, then the data mixed in |
| Arc4.Generator.RandomStir | src/arc4random.c:184-192 | Initialised, then stirred unconditionally |
| Arc4.EveryRunSound | src/arc4random.c:184-232 | After any interleaving of public calls the box is a permutation, the state is no Finney state, and bytes delivered since the last stir plus the budget left are 1600000, the budget at least -3 |
| Arc4.BytesBetweenStirs | src/arc4random.c:204-232 | So at most 1600003 bytes come out between two stirs |
| Arc4.BytesBetweenStirsReached | src/arc4random.c:204-232 | The bound is sharp: two calls deliver 1600003 bytes without a stir between them |
| Keystream.StandsBehindStir | src/arc4random.c:101-232 | After any calls, and then calls that stir once and mix nothing in, the state is that of the mixing, 1024 bytes and the bytes delivered since further on |
| Keystream.BytesOfStream | src/arc4random.c:219-232 | So byte k of a buffer filled then is byte 1024 + delivered + k behind the mixing, until a stir is due |
| Keystream.WordOfStream | src/arc4random.c:153-217 | And so are the four bytes of a word |
| Keystream.FirstWord | src/arc4random.c:73-217 | The first word of all is bytes 1025 to 1028 behind the RC4 key schedule of the first entropy |
| Keystream.BufByteIs | src/arc4random.c:219-232 | Each byte of a buffer is read off the box as its step leaves it |
| Keystream.BufSplits | src/arc4random.c:219-232 | A buffer filled in two calls leaves the machine one call would have left |
| Keystream.MixedAfterStir | src/arc4random.c:194-202 | Data is mixed in behind a stir if one is due, the budget not charged |
| Keystream.WordHasBytes | src/arc4random.c:153-164 | A word is below 2^32 and its bytes, highest first, are the next four |
| Arc4.Generator.RandomUniform | src/arc4random.c:244-277 | The result is the residue of the first word not below 2^32 mod the bound, and the generator has advanced by exactly the words up to it; bounds below 2 give 0 and draw nothing |
| Arc4.Generator.FirstWord | src/arc4random.c:270-274 | The retry loop stops at the first acceptable word |
| Keystream.AcceptedIff | src/arc4random.c:270-276 | The words a bounded draw accepts are exactly those counted for the residues |
| Uniform.RejectBelow | src/arc4random.c:252-262 | Both branches, with 64-bit and with wrapping 32-bit arithmetic, compute 2^32 mod the bound, and more than half of all words are accepted |
| Uniform.EveryResidueEqually | src/arc4random.c:234-277 | Each residue below the bound has exactly 2^32 div bound accepted words: no modulo bias |
| RandPass.FirstMaximumUnique | src/randpass.c:64-70 | At most one position is the first maximum |
| RandPass.Elect | src/randpass.c:64-70 | The scan from weight 0 finds the first maximum, weights being at least 1 |
| Arc4.NextPosition | src/arc4random.c:270-274 | Numbers drawn one after the other: from word p on, the draw takes the first acceptable word q and the next draw starts at q + 1 |
| RandPass.NextDraw | src/randpass.c:61 | Draw number k is the residue by 20000 of the k-th word of the generator that is accepted |
| RandPass.GeneratePasswordFromSet | src/randpass.c:34-86 | -1 exactly for lengths outside 1..256, with buffer and generator untouched; otherwise each symbol is the one its own block of the generator's draws elects, then the terminator, nothing beyond, and the generator has advanced by exactly those draws |
| Election.DrawnElects | src/randpass.c:58-73 | The weights of each symbol are one of the counted vectors, and a position is elected exactly if they are in the set counted for it |
| Election.ElectingHas | src/randpass.c:58-73 | The set counted for j is exactly the weight vectors whose first maximum is at j |
| Election.ElectingSize | src/randpass.c:58-73 | Position j of n is elected by exactly the sum over w of (w-1)^j·w^(n-1-j) vectors |
| Election.CountsSum | src/randpass.c:58-73 | These counts add up to the number of all vectors, top^n |
| SymbolWords.ElectingWordsHave | src/randpass.c:58-73 | The set counted below is exactly the tuples of accepted generator words whose weights have their first maximum at j |
| SymbolWords.ElectingWordsSize | src/randpass.c:58-73 | The distribution of a symbol: of the tuples of n accepted words, exactly the count for j times (2^32 div 20000)^n elect position j |
| Election.CountsDiffer | src/randpass.c:58-73 | What a position has over the next one is its own count in a set with one symbol less |
| Election.CountsDecrease | src/randpass.c:58-73 | A position is elected by strictly more vectors than the next one if and only if there are two weights or more, or there is one and the position is the first |
| StrDelim.Strdelim | src/strdelim.c:37-74 | In the caller's buffer, the token and the rest are where the cut on values says, NULLs included, and nothing in front of the line is touched |
| StrDelim.CutQuoted | src/strdelim.c:52-61 | A quoted token: both quotes vanish in place, or NULL without a closing quote |
| StrDelim.SkipDelimiter | src/strdelim.c:63-71 | White space and at most one equals sign behind a token are skipped |
| ConfigLines.TokenAlone | src/strdelim.c:48-50 | A text without any of blank, tab, carriage return, newline, quote and equals sign is one token |
| ConfigLines.TokenThen | src/strdelim.c:63-73 | Any blanks, tabs, carriage returns and newlines behind a token are skipped |
| ConfigLines.TokenEquals | src/strdelim.c:63-73 | So is one equals sign among them, but no second one |
| ConfigLines.TokenQuoted | src/strdelim.c:52-61 | Quotes join what is between them to what is in front of them; what is behind is lost |
| ConfigLines.TokenUnclosed | src/strdelim.c:54-56 | Without a closing quote there is no token |
| ConfigState.ProfileObject.constructor | src/profile.c:40-57 | A new profile has the values the globals have at that moment |
| ConfigState.ProfileObject.SetVariable | src/config.c:208-248 | Three variables, never an empty value, anything else is fatal |
| ConfigState.State.SetGlobal | src/config.c:96-201 | The ten variables, empty values and repeated definitions fatal where they are |
| ConfigState.State.AddProfile | src/config.c:300-302 | The new profile is registered last and becomes the current one |
| ConfigState.State.GetFromName | src/profile.c:67-81 | The object found shows the first profile of that name, NULL if there is none |
| ConfigState.State.ProcessConfigLine | src/config.c:257-312 | Cutting the line up in place does to the state what the parsed command does to its value, and is fatal exactly when that is |
| ConfigLines.CommentLine | src/config.c:269-274 | A line whose first character, behind any blanks, tabs and line ends, is a hash does nothing, whatever follows |
| ConfigLines.BlankLine | src/config.c:269-274 | Nor does a line of white space |
| ConfigLines.NothingIff | src/config.c:265-274 | Any other line, unless it starts with an equals sign or a quote, does nothing if and only if its first delimiter is a quote that is never closed |
| ConfigLines.UnclosedLineIgnored | src/config.c:265-267 | Such a line |
| ConfigLines.UnknownWord | src/config.c:304-309 | A first word that is neither set nor profile and no comment is fatal |
| ConfigLines.KeywordAlone | src/config.c:277-299 | So is a keyword with nothing behind it |
| ConfigLines.SetLineParses | src/config.c:276-289 | A set line reads as its name and value in any spacing, with or without an equals sign, whatever else is on it |
| ConfigState.State.ConfigRead | src/config.c:446-462 | Reading a file is running its commands in order |
| ConfigLines.LineOfFile | src/config.c:457-459 | A line that fits the buffer is one command between those of the lines around it |
| ConfigLines.CommentRemoved | src/config.c:446-462 | Taking a comment line that fits the buffer out of a file changes nothing |
| ConfigLines.LongComment | src/config.c:450-459 | One that does not fit goes on as a line of its own |
| ConfigLines.UnknownWordFatal | src/config.c:304-309 | A line with an unknown first word ends the program wherever it stands |
| ConfigMeaning.RunIsMeaning | src/config.c:257-312 | A file that is not fatal leaves its sectioned meaning: each global is its last set before the first profile or its default, each profile field its last set in the block, or the global, or the default |
| ConfigMeaning.AcceptedIff | src/config.c:257-312 | A file is not fatal if and only if each command, behind the ones before it, is a known variable in its place, has a value, and is not a second gpg_key_id, gpg_path or password_file |
| ConfigMeaning.LookupIsFirst | src/profile.c:67-81 | Lookup gives the first profile of a name, and nothing exactly if there is none |
| ConfigPrint.LeadingSpaceIgnored | src/config.c:263-274 | White space in front of a line changes nothing, whatever the line holds |
| ConfigPrint.LeadingSpaceInFile | src/config.c:446-462 | Nor does it in a file, as long as the line with it fits the buffer |
| ConfigPrint.QuotedAlone | src/strdelim.c:52-61 | A value in quotes comes back up to its first inner quote |
| ConfigPrint.SetLineIff | src/config.c:257-283 | A set line with a quoted value, in a file, reads back as this one command if and only if the value holds no quote, newline or NUL and the line with its newline fits the buffer |
| ConfigPrint.SectionLineIff | src/config.c:291-302 | A profile line with a quoted name, in a file, reads back as this one command if and only if the name holds no quote, newline or NUL and the line fits |
| ConfigPrint.BareSectionIff | src/config.c:291-302 | One without quotes does if and only if the name is not empty, holds no delimiter or NUL, and the line fits |
| ConfigPrint.ParsePrinted | src/config.c:257-312 | Stripping, tokenizing and dispatching undo the printing of a command |
| ConfigPrint.PrintedCommands | src/config.c:446-462 | Reading a printed file gives back its commands |
| ConfigPrint.ParseDecimal | src/config.c:109 | A number printed in decimal reads back as itself, for every unsigned int |
| ConfigValues.NumberValue | src/config.c:109 | What a number variable becomes, for any white space, sign, digits and tail: strtoull, then the low 32 bits |
| ConfigValues.NoNumber | src/config.c:109 | Without a digit in its place it becomes 0 |
| ConfigValues.NamedSets | src/config.c:61-89 | Which characters each of the seven names stands for |
| ConfigValues.SetsHaveNoRepeats | src/config.c:61-89 | No character of a named set occurs twice; any other value stands for itself |
| ConfigValues.GlobalsByName | src/config.c:96-201 | Which variable each name sets, and which may be set once only |
| ConfigValues.ProfileByName | src/config.c:208-248 | The same for the variables of a profile |
| ConfigValues.EmptyFile | src/config.c:41-50 | The defaults |
| ConfigValues.ProfileFile | src/profile.c:40-57 | A file of a profile line and its character set, from the text to the fields |
| ConfigValues.DigitsProfile | src/config.c:67-68 | In particular a profile that asks for digits holds each digit once and nothing else |
| ConfigRoundTrip.CommandsBack | src/config.c:96-248 | The commands that write a configuration, run from the defaults, set it up again |
| ConfigRoundTrip.WrittenReadBack | src/config.c:257-312 | A configuration, globals and any number of profiles under any names that can be quoted, written to a file and read back is the same |
| ConfigSurvives.CommandsClean | src/strdelim.c:37-74 | Whatever a file holds, no value and no profile name it brings in holds a quote, a newline or a NUL |
| ConfigSurvives.AcceptedIsWritable | src/config.c:446-462 | What any accepted file sets up can be written if and only if the lines, with their quotes, fit the buffer |
| ConfigSurvives.AcceptedSurvives | src/config.c:446-462 | And then writing it and reading it back gives what the file gave |
| ConfigRoundTrip.BackupAfter | src/config.c:53-101 | Whatever the value of backup, missing or empty too, it is never fatal and leaves backups on exactly if the value starts with `o` |
| ConfigRoundTrip.BackupLineAfter | src/config.c:53-101 | The same from the line of the file, with any word for a value or none |
| ConfigRoundTrip.DocumentedIff | src/config.c:53-101 | Of the values the manual names, exactly those meant to switch backups off do what it says |
| Join.Strlcat | src/strlcat.c:31-57 | The buffer gains as much of the source as fits, keeps its terminator, is untouched beyond its size, and the result is the length that was tried |
| Join.AppendedIs | src/strlcat.c:45-54 | What is left in the buffer is the two texts joined, cut at the last cell but one |
| Join.JoinList | src/str.c:36-67 | The tokens with the separator between them; NULL for no tokens |
| Join.Extend | src/str.c:58-63 | With the block grown first, neither strlcat truncates |
| Join.JoinedLength | src/str.c:47-53 | The block is always larger than the text it holds |
| Join.SplitUndoesJoin | src/str.c:36-67 | Cutting the joined string at its separators gives the tokens back, if none of them holds the separator |
| Join.JoinedByNul | src/str.c:44 | A NUL for a separator is no separator |
| CArray.Array.Ensure | src/array.h:36-49 | Fails exactly if the count, the bytes needed or the bytes aimed at overflow; otherwise keeps the contents and reaches the target capacity |
| CArray.Array.GrowBeyond | src/array.h:45-48 | The doubling loop ends at the first capacity beyond the need, or exits exactly if that overflows |
| CArray.Array.DoubleSpace | src/xmalloc.c:77-94 | One reallocation to twice the space, or an exit exactly if that overflows |
| CArray.Array.Add | src/array.h:71-75 | Appends one item |
| CArray.Array.Insert | src/array.h:76-84 | Puts an item in front of position i and keeps the others in order |
| CArray.Array.Remove | src/array.h:85-93 | Takes the item at i out; an array that becomes empty gives its block back |
| CArray.Array.Expand | src/array.h:95-98 | Makes room for n items behind the old ones |
| CArray.Array.Trunc | src/array.h:99-104 | Drops the last n items, or all |
| CArray.Array.Append | src/array.h:106-110 | Appends another array |
| CArray.Array.AddEach | src/array.h:71-75 | N adds to an empty array hold the N items and copy what the cost function says |
| CArray.CapacityBound | src/array.h:41-48 | The capacity is more than the number of items and at most twice it, once it has left its initial value |
| CArray.CapacityIs | src/array.h:34-48 | Ten items to begin with, and beyond that more than are held but at most twice as many |
| CArray.GrownLeast | src/array.h:45-48 | No doubling too many: the new capacity is the old one or at most twice the need |
| CArray.FitsIff | src/array.h:37-48 | The overflows guarded against are those of 32 bits for the count and 64 bits for the bytes |
| CArray.AddsAreCheap | src/array.h:41-48 | All doublings over N adds to an empty array copy fewer than 2N items |

## Left out

- The pager, the prompt, the usage text, option parsing and debug output: user interface.
- Starting, piping to and timing out gpg, signals and clean-up: the decrypted stream and the ciphertext are inputs.
- The gpg command itself: `gpg_encrypt` is modelled from the point where its output file exists.
- The lock file.
- Matching by regular expression: the matcher belongs to the C library.
- Multi-byte locales: a wide character is its byte, so the conversions change nothing and cannot fail.
- File modes are kept by name, not by file: only that chmod was applied under a name is known.
- Hard links share contents; the directory maps names to contents, and two linked names hold equal contents.
- Configuration before and after reading: `$EDITOR`, the command line, the defaults of `config_set_defaults`, checks of owners and permissions.
- A configuration file that does not exist: it reads as an empty one.
- A temporary file that cannot be reopened in `has_changed`, and write errors in `edit_results`.
- Generating whole lists of passwords from profiles: repeated calls of what is modelled.
- `CKSUM_End`, `join`, `wcsjoin`, the string copies: nothing but library calls.
- Failure of malloc; the size checks of `xrealloc` are modelled.
- Crc.Context.Update: does not model signed overflow of the byte count, which the C standard leaves undefined; its precondition keeps the count within off_t.
- Join.JoinList: does not model wrap-around of the length, an `int` count and a `size_t` sum.
- RandPass.GeneratePasswordFromSet: takes as given where the generator's next acceptable words are, for the reason below.
- Arc4.Generator.RandomUniform: does not prove that an acceptable word ever comes, because that is a property of the entropy; it is given as a ghost bound, while `Uniform.RejectBelow` shows that more than half of all words are acceptable.
- CArray.Array.Ensure: does not model the division by zero for an empty array and n = 0; its precondition excludes it, as it does items of size zero and items so large that ten of them overflow.
- Results.Store.FilterResults: does not model keywords of 50 bytes or more, which fill their buffer without a terminator.
- Results.Store.EditResults: takes the editor as a function from the file it is given to the file it leaves, or none if it fails.
- CArray.Array.Append: does not model an array appended to itself, which would read from the block it has just grown.
- Arc4.Generator.GetWord: takes the shift of the first byte by 24 places as arithmetic, where C promotes the byte to a signed int.
- Search.Wcsncasecmp: excludes comparing more characters than the second string has under a map that lower-cases a character to the terminator, which would read past the end; the search never does.
