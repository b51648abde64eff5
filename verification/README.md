# The #pwned hash database, modelled and proved

#pwned turns texts with passwords into a sorted database of MD5 hashes with counts, and answers
how often a password occurs in it. Four programs do this one after the other:

1. the **converter** reads a text line by line, counts the hashes of the passwords in chunks
   that fit into memory, and writes every chunk as a sorted file of 20-byte records,
2. the **merger** merges any number of such files, k at a time, into one,
3. the **indexer** writes, for every value of the top bits of a hash, the offset of the first
   record that starts with them,
4. the **inspector** looks hashes up by binary search, with or without that index.

Beside this pipeline stand the **operation queue**, which schedules work on threads by priority
and limits them with a semaphore, and the **Markov chain**, which learns words, scores them, and
is stored in a binary format.

## How the model is laid out

| file | content |
|---|---|
| Records.dfy | hashes, records, order, linear scan, weighed sums |
| HashText.dfy, HashParse.dfy | hash text, byte order, record bytes; what is made of any text |
| Reader.dfy, Passwords.dfy, Converter.dfy | lines, settings, the reader; what the password and the hash of a line are; chunks and split files |
| MergeFold.dfy, MergeLaw.dfy, MergeConservation.dfy, MergeCancel.dfy, MergeOperation.dfy | summing adjacent keys; what any run of the priority queue produces; when that is the true sums; what a cancelled merge leaves; the classes with cursors and loop |
| MergeRounds.dfy, MergeDriver.dfy | what a chain of merges adds up to; the loop over rounds |
| Index.dfy, IndexScan.dfy, Popcount.dfy, IndexShift.dfy | the builder; the loops over slots; counting bits; the shift of an index file |
| Inspector.dfy | the inspector with its two streams |
| EndToEnd.dfy | text to answer |
| Queue.dfy, QueueCode.dfy | the queue as a transition system; its atomic sections as methods |
| Markov.dfy, MarkovTraining.dfy, MarkovNode.dfy, MarkovChain.dfy | probabilities and scores; what training means; the classes |
| MarkovLife.dfy | any sequence of training and updates |
| MarkovFormat.dfy, MarkovCodes.dfy | the file format; which bytes give which error code |
| MarkovStored.dfy, MarkovTools.dfy | chain and file; the generator and the lookup program |

Objects that the programs change are classes with the same fields, and loops are loops. Each is
proved against a specification on plain values, and the properties are proved of that. Streams
carry a failure flag that nothing clears. Where the programs leave a choice open (which of
several equal heads the priority queue yields, the iteration order of a hash table, which of
several operations of the same priority is on top) the model leaves it open too, and the results
hold for every choice.

## Where the code does not do what its purpose suggests

The model keeps the code as it is. These are the places where a property one would expect is
false, together with what holds instead:

- Merging inflates counts. The first record is taken as the start of a sum without being
  consumed, and an exhausted input hands out its last record twice, except for the one exhausted
  last. `MergeLaw.MergeCounts` is the exact law of one merge and `MergeRounds.FinalCounts` that
  of all rounds, `MergeLaw.SingleRecordDoubles` is the smallest example. The sums come out right
  exactly if there is nothing to add, which a caller can see from the inputs
  (`MergeConservation.ConservesIff`); for the files of the converter they never do
  (`MergeConservation.NeverConserves`). An empty input file contributes the zero hash with
  count 0 (`MergeLaw.AllKeysMeaning`).
- A lookup with an index need not end, even for a hash that is stored:
  `Inspector.LoopsEndIff`, `Inspector.LastBucketNeverEnds`.
- After one query for a hash beyond the last record every later lookup reports 0, and after one
  for the last slot the index is no longer used: `Inspector.PasswordInspector.Session`.
- With at most one file at a time the merger does not end if there are more:
  `MergeDriver.TerminatesIff`. With a memory limit of 0 the converter does not end:
  `Converter.EndsIff`.
- An operation added after the scheduling thread has left its loop is never started, and
  `waitForFinished()` then blocks for ever: `Queue.HangsIff`, `Queue.LateExists`.
- The Markov chain adds counts in 32 bits, so that from a total of 2^32 on the probabilities add
  up to more than 1: `Markov.MassIsOneIff`.
- A chain that has learned only words of one symbol is saved as an empty file:
  `MarkovTools.ShownIsFrequency`.
- In the table of error texts (pwned-lib/markovchain.hpp:346-347) a comma is missing between the
  last two entries, so the text of the last code does not exist. The model has the codes only.

## Model

| member | source | states |
|---|---|---|
| `Inspector.PasswordInspector.Binsearch` | pwned-lib/passwordinspector.cpp:80-131 | On a strictly sorted file the lookup gives the stored count, or 0 if the hash is not stored, with or without an index and whether or not the index stream has failed; the data stream fails exactly if the hash exceeds every stored one, and a failed one gives 0; the index stream fails exactly after a query for the last slot; without an index r reads need 2^(r-1) <= records + 1 |
| `Inspector.PasswordInspector.Search` | pwned-lib/passwordinspector.cpp:106-130 | The byte-offset search between any two record-aligned ends that bracket the hash: the answer is that of a linear scan, lo and hi stay multiples of 20, and the number of reads is logarithmic in the bracket |
| `Inspector.PasswordInspector.WithIndex` | pwned-lib/passwordinspector.cpp:62-73 | The shift recovered from the number of slots is the one the index was built with |
| `Inspector.MidRecordIsAligned` | pwned-lib/passwordinspector.cpp:109-111 | The byte midpoint, rounded down, is 20 times the midpoint of the record numbers |
| `Inspector.PasswordInspector.ReadRecord` | pwned-lib/passwordhashandcount.hpp:43-56 | A read past the end, or from a failed stream, leaves the record alone and the stream failed |
| `Inspector.PasswordInspector.ScanIndex` | pwned-lib/passwordinspector.cpp:90-104 | Either loop over index slots, under the exact condition that it ends: the offset it reads and the state of the index stream afterwards |
| `Inspector.PasswordInspector.IndexRange` | pwned-lib/passwordinspector.cpp:85-105 | The range an index gives always brackets the hash; the full range is what remains after the index stream has failed |
| `Inspector.PasswordInspector.Session` | pwned-lib/passwordinspector.cpp:80-131 | Any sequence of lookups on one inspector: every answer is that of a linear scan until a query exceeds all stored hashes, and 0 after it; both streams fail exactly when such a query, or one for the last slot, has occurred |
| `IndexScan.DownEndsIff` | pwned-lib/passwordinspector.cpp:89-96 | The downward scan ends exactly if the stream had failed or some slot at or below the key is populated |
| `IndexScan.DownResult` | pwned-lib/passwordinspector.cpp:89-96 | It then stops at the nearest populated slot at or below the key and leaves the stream intact |
| `IndexScan.UpEndsIff` | pwned-lib/passwordinspector.cpp:97-104 | The upward scan ends exactly if the stream had failed, the key is the last slot, or some slot above it is populated |
| `IndexScan.UpResult` | pwned-lib/passwordinspector.cpp:97-104 | It then stops at the nearest populated slot above the key and leaves the stream intact |
| `IndexScan.UpAtLastSlot` | pwned-lib/passwordinspector.cpp:97-104 | For the last slot the scan ends at once with the file size and a failed stream |
| `Inspector.PopulatedIff` | pwned-index/index.cpp:131-148 | In an index of a strictly sorted file the populated slots lie between the buckets of the first and the last record, and both of these are populated |
| `Inspector.LoopsEndIff` | pwned-lib/passwordinspector.cpp:88-104 | Both index loops end exactly if the stream had failed, or the bucket is not below that of the first record and is the last slot or below that of the last record |
| `Inspector.SessionEndsIff` | pwned-lib/passwordinspector.cpp:85-105 | The same condition for a lookup in the middle of a session |
| `Inspector.AlwaysEndsIff` | pwned-lib/passwordinspector.cpp:88-104 | Lookups with a fresh index end for all hashes exactly if the first and the last slot are populated |
| `Inspector.LastBucketNeverEnds` | pwned-lib/passwordinspector.cpp:97-104 | A stored hash in the bucket of the last record can be looked up exactly if that bucket is the last slot; otherwise the lookup does not end |
| `Inspector.LowerEnd` | pwned-index/index.cpp:128-148 | No record before the offset in a slot at or below the key is the hash or above it |
| `Inspector.UpperEnd` | pwned-index/index.cpp:128-148 | Every record from the offset in a slot above the key on is above the hash |
| `Inspector.PasswordInspector.WidenDown` | pwned-lib/passwordinspector.cpp:144-154 | The first widening loop reads whole records inside the file, ends, and takes so few steps that the doubled offset stays within the distance to the file start |
| `Inspector.PasswordInspector.WidenUp` | pwned-lib/passwordinspector.cpp:155-165 | The second widening loop reads whole records inside the file and ends after so few steps that the doubled offset stays within the file; on an empty file the stream fails |
| `Inspector.PasswordInspector.SmartBinsearch` | pwned-lib/passwordinspector.cpp:133-170 | For every record-aligned guess inside a file with records the answer is that of binsearch; the data stream is spoilt exactly if the lower probe lies behind the last record, which takes an empty file or a guess beyond the file |
| `Inspector.InsideFile` | pwned-lib/passwordinspector.cpp:138-143 | No guess inside a file with records makes the lower probe miss the file |
| `Index.Build` | pwned-index/index.cpp:126-148 | Each slot holds the offset of the first record whose top bits equal its number, or the sentinel if there is none; an empty file counts as one record with the zero hash; the write after the loop changes nothing |
| `Index.PopulatedIncrease` | pwned-index/index.cpp:131-148 | Offsets in populated slots strictly increase with the slot number |
| `Index.CountSlots` | pwned-index/index.cpp:123-124 | The number of slots is 2^bits |
| `Index.SlotCount` | pwned-index/index.cpp:123-124 | 1 + (max >> shift) is 2^bits for any number of bits |
| `Index.ShrIsQuotient` | pwned-index/index.cpp:132 | Shifting by n is the quotient by 2^n |
| `Index.BucketInRange` | pwned-index/index.cpp:130 | The top bits of a hash are a slot number |
| `Popcount.Popcnt64` | pwned-lib/util.cpp:267-282 | The arithmetic without processor instruction gives the number of bits set, for every 64-bit value |
| `Popcount.AllCounted` | pwned-lib/util.cpp:277-279 | After three lines the eight bytes add up to the number of bits set |
| `Popcount.Product` | pwned-lib/util.cpp:280 | The product has the sum of the bytes in its top byte |
| `IndexShift.RecoverShift` | pwned-lib/passwordinspector.cpp:67-68 | From the number of slots of an index for 1 to 63 bits, as a 64-bit word, the shift of the builder is recovered |
| `IndexShift.BinaryPow2` | pwned-lib/passwordinspector.cpp:67-68 | The 64-bit word of 2^b has just bit b set |
| `Popcount.RecoverShift` | pwned-lib/passwordinspector.cpp:68 | The shift that open() derives is 64 minus the number of bits set in the number of keys less one |
| `Popcount.CountOnes` | pwned-lib/passwordinspector.cpp:67-68 | A number with the lowest b bits set, and no others, has b bits |
| `Popcount.ShiftRecovered` | pwned-index/index.cpp:123-124 | For 1 to 63 bits it is the shift that the builder used |
| `MergeOperation.MergerInput.constructor` | pwned-merger-cli/mergerinput.hpp:45-52 | Opening a file reads the first record; the input is going to deliver all records and the last one again, or one default record if the file is empty |
| `MergeOperation.MergerInput.Read` | pwned-merger-cli/mergerinput.hpp:54-58 | A read moves on to the next delivery; past the end the record keeps its value |
| `MergeOperation.MergeOperation.constructor` | pwned-merger-cli/mergeoperation.cpp:66-84 | All inputs are opened and queued |
| `MergeOperation.MergeOperation.Next` | pwned-merger-cli/mergeoperation.cpp:174-205 | The head of an input with the smallest hash is handed out and taken from that input alone; the call that empties the queue hands out a default record instead |
| `MergeOperation.MergeOperation.Combine` | pwned-merger-cli/mergeoperation.cpp:143-151 | A record with the same hash is added to the current one in 32 bits, another one sends the current one to the file |
| `MergeOperation.MergeOperation.MergeLoop` | pwned-merger-cli/mergeoperation.cpp:131-163 | The loop ends, and up to any iteration has taken smallest heads only and folded them into the file |
| `MergeOperation.MergeOperation.Execute` | pwned-merger-cli/mergeoperation.cpp:108-172 | A merge is cancelled exactly if that happened before it started or at an iteration before the last call of next(); an uncancelled one writes a full merge of the inputs; one cancelled at iteration i has handed out i records and written a prefix of a full merge, namely the keys of these records but the greatest, each with the sum of its counts and of the seed; without inputs, or if cancelled before, nothing is written |
| `MergeCancel.CancelledFile` | pwned-merger-cli/mergeoperation.cpp:133-163 | What has been written after some iterations: strictly increasing, the keys handed out but the greatest, each with the sum of its counts and once more that of the first record, modulo 2^32 |
| `MergeCancel.CallsLeft` | pwned-merger-cli/mergeoperation.cpp:174-205 | The calls made and the records still queued are together all records and one more for every input |
| `MergeLaw.MergeSorted` | pwned-merger-cli/mergeoperation.cpp:131-163 | The keys of the merged file strictly increase |
| `MergeLaw.MergeKeys` | pwned-merger-cli/mergeoperation.cpp:131-205 | The keys of the merged file are exactly the keys of the inputs (and the zero hash for an empty input) |
| `MergeLaw.MergeCalls` | pwned-merger-cli/mergeoperation.cpp:174-205 | next() is called once for every record and once more for every input |
| `MergeLaw.MergeCounts` | pwned-merger-cli/mergeoperation.cpp:131-205 | Every count is, modulo 2^32, the sum over the inputs, plus one more copy of the seed, plus one more copy of the last record of every input except the one exhausted last |
| `MergeLaw.FinalRecord` | pwned-merger-cli/mergeoperation.cpp:190-202 | The record dropped by the last call is the last record of some input, and no input ends with a greater key |
| `MergeLaw.SeedIsFirst` | pwned-merger-cli/mergeoperation.cpp:131 | The seed is the first record of an input whose first hash is smallest |
| `MergeLaw.MergeBounds` | pwned-merger-cli/mergeoperation.cpp:131-205 | If the inflated sum of a key does not wrap around, its count is that sum, not below the true sum and not above three times it |
| `MergeConservation.ConservesIff` | pwned-merger-cli/mergeoperation.cpp:131-205 | If no merge of the files wraps around: all merges of them write true sums exactly if every input that can come first starts with count 0 and every last record counts 0, but for that of the only input with the greatest last key |
| `MergeConservation.RunConservesIff` | pwned-merger-cli/mergeoperation.cpp:131-205 | The same for one run: exactly if its seed counts 0 and so does the last record of every input but the one exhausted last |
| `MergeConservation.NeverConserves` | pwned-merger-cli/mergeoperation.cpp:131-205 | Non-empty files with counts of at least 1 never come out with their true sums, unless the sum of the seed wraps around |
| `MergeConservation.ThirdSuffices` | pwned-merger-cli/mergeoperation.cpp:145 | Nothing wraps around if all true sums stay below a third of 2^32 |
| `MergeConservation.StartWith` | pwned-merger-cli/mergeoperation.cpp:131 | Every input with the smallest first key can provide the seed |
| `MergeConservation.EndWith` | pwned-merger-cli/mergeoperation.cpp:190-202 | Every input with the greatest last key can be the one exhausted last |
| `MergeLaw.SingleRecordDoubles` | pwned-merger-cli/mergeoperation.cpp:131-205 | One file with one record comes out with its count doubled |
| `MergeFold.DumpedIsPrefix` | pwned-merger-cli/mergeoperation.cpp:143-151 | What has been written is a prefix of what is written in the end |
| `MergeLaw.CancelledPrefix` | pwned-merger-cli/mergeoperation.cpp:133-164 | Whatever has been written when a merge is cancelled is a prefix of the file of some full merge |
| `MergeLaw.Completable` | pwned-merger-cli/mergeoperation.cpp:174-205 | Every partial run of the priority queue can be completed |
| `MergeLaw.RunConserves` | pwned-merger-cli/mergeoperation.cpp:174-205 | What is handed out and what is still queued are together what was queued at first, under every weighing of records |
| `MergeLaw.RunOrder` | pwned-merger-cli/mergeoperation.cpp:179-187 | Records from sorted inputs are handed out in order |
| `MergeFold.FoldLaw` | pwned-merger-cli/mergeoperation.cpp:143-151 | Folding a sorted list gives each key the sum of its counts modulo 2^32 |
| `MergeLaw.AllKeysMeaning` | pwned-merger-cli/mergeoperation.cpp:66-84 | The keys to expect are those of the files and of the default record of empty ones |
| `MergeDriver.MergeAll` | pwned-merger-cli/pwned-merger-cli.cpp:209-241 | The driver ends, with a chain of merges each of which takes the first files the ones before have left, down to one file, strictly sorted and with the keys of all originals, after exactly the number of rounds that the list takes; every original and intermediate file is read exactly once, in order |
| `MergeDriver.DriverStep` | pwned-merger-cli/pwned-merger-cli.cpp:211-240 | One pass: a full merge of the first files, its result behind the others unless these were all |
| `MergeDriver.MergeSlice` | pwned-merger-cli/pwned-merger-cli.cpp:228-231 | One round writes a full merge of the files of its slice |
| `MergeDriver.TerminatesIff` | pwned-merger-cli/pwned-merger-cli.cpp:209-213 | The loop ends exactly if two or more files are allowed at once, or all files fit into one merge |
| `MergeDriver.RoundsSuffice` | pwned-merger-cli/pwned-merger-cli.cpp:209-241 | The number of rounds is exact: no fewer leave the list empty |
| `MergeDriver.RoundsClosedForm` | pwned-merger-cli/pwned-merger-cli.cpp:209-241 | The number of merges is (n-1)/(k-1) rounded up, and at least 1 |
| `MergeRounds.RoundKeys` | pwned-merger-cli/pwned-merger-cli.cpp:234-238 | A round keeps the set of keys of all files in the list |
| `MergeRounds.RoundSums` | pwned-merger-cli/pwned-merger-cli.cpp:234-238 | The exact law of a round: each sum over the list grows by the copies of that merge, less 2^32 for each time that the sum over the merged files wraps around; the copies are at most twice the sum |
| `MergeRounds.ChainKeys` | pwned-merger-cli/pwned-merger-cli.cpp:209-241 | All lists of files on the way have the same keys |
| `MergeRounds.ChainSums` | pwned-merger-cli/pwned-merger-cli.cpp:209-241 | After any number of rounds each sum is the true sum and the copies of all rounds, less what has wrapped around |
| `MergeRounds.FinalKeys` | pwned-merger-cli/pwned-merger-cli.cpp:209-241 | The file that is left is strictly sorted and has the keys of all originals, whatever the number of files at once |
| `MergeRounds.FinalCounts` | pwned-merger-cli/pwned-merger-cli.cpp:209-241 | Each of its counts is the true sum over the originals and the seed and last-record copies of all rounds, modulo 2^32 |
| `MergeRounds.FinalBounds` | pwned-merger-cli/pwned-merger-cli.cpp:209-241 | If that total does not wrap around, the count is exactly the total, not below the true sum, and at most tripled by each round |
| `MergeRounds.ThirdsSuffice` | pwned-merger-cli/pwned-merger-cli.cpp:209-241 | The total does not wrap around if the true sum tripled once for each round does not |
| `Converter.ReadChunk` | pwned-converter-cli/convertoperation.cpp:88-104 | A chunk counts the hashes of consecutive lines, at least one and at most maxMem/68 rounded up, and exactly that many unless the text ends |
| `Converter.InOrder` | pwned-converter-cli/convertoperation.cpp:122-135 | The list of a chunk is strictly sorted and has each counted hash with its count |
| `Converter.ConvertChunk` | pwned-converter-cli/convertoperation.cpp:86-176 | A chunk without hashes leaves no file, any other one the sorted file of its counts |
| `Converter.Execute` | pwned-converter-cli/convertoperation.cpp:86-176 | The files are those of consecutive parts of the accepted lines, and the whole text is read |
| `Converter.EndsIff` | pwned-converter-cli/convertoperation.cpp:86-91 | The outer loop ends exactly if the memory limit is not 0 |
| `Converter.ChunkLinesMeaning` | pwned-converter-cli/convertoperation.cpp:84-98 | A chunk is full with the first line after which 68 bytes for each reach the limit |
| `Converter.Conservation` | pwned-converter-cli/convertoperation.cpp:86-176 | Over all files the counts for a hash add up to the number of lines that yield it (modulo 2^32 if a chunk can have 2^32 lines) |
| `Converter.SplitFiles` | pwned-converter-cli/convertoperation.cpp:122-170 | Every file is strictly increasing and not empty, and its counts are at least 1 unless a chunk can have 2^32 lines |
| `Converter.ConversionKeys` | pwned-converter-cli/convertoperation.cpp:86-176 | A hash is in some file exactly if some accepted line has it |
| `Reader.LinesJoin` | pwned-lib/userpasswordreader.cpp:160 | The lines of a text joined by newlines are the text |
| `Reader.LinesClean` | pwned-lib/userpasswordreader.cpp:160 | No line contains a newline |
| `Reader.UserPasswordReader.GetLine` | pwned-lib/userpasswordreader.cpp:160 | Reading a line takes the next line from those that remain, and the end of file is set with the last one |
| `Reader.UserPasswordReader.NextPassword` | pwned-lib/userpasswordreader.cpp:156-165 | The next line is consumed and counted, and its password returned |
| `Reader.UserPasswordReader.NextPasswordHash` | pwned-lib/userpasswordreader.cpp:167-203 | The hash of the next line: parsed if it is an MD5 hash and those are to be evaluated, else that of the decoded or plain password; valid entries are counted |
| `Reader.AcceptedIff` | pwned-lib/userpasswordreader.cpp:167-203 | A line has a hash exactly if its password is not empty |
| `Passwords.PasswordBehind` | pwned-lib/userpasswordreader.cpp:142-165 | In a line of 1 to 200 characters, without its carriage returns, the password is the part behind the first separator |
| `Passwords.PasswordWhole` | pwned-lib/userpasswordreader.cpp:142-165 | Without a separator it is all of it; other lines have no password |
| `Passwords.PasswordIff` | pwned-lib/userpasswordreader.cpp:142-165 | A line has a password exactly if there is something behind its first separator, or no separator and something else than carriage returns |
| `Passwords.WithoutKeeps` | pwned-lib/userpasswordreader.cpp:145 | Dropping a character leaves none of it, and all others as often as before |
| `Passwords.WithoutOrder` | pwned-lib/userpasswordreader.cpp:145 | And in the order in which they were |
| `Passwords.HashOfDigest` | pwned-lib/userpasswordreader.cpp:173-180 | If hashes are evaluated, 32 hexadecimal digits have the hash that they print |
| `Passwords.HashOfWrapped` | pwned-lib/userpasswordreader.cpp:181-192 | If wrapped passwords are evaluated, $HEX[x] with letters and digits x in even number has the MD5 of the bytes that x spells |
| `Passwords.DehexSpells` | pwned-lib/util.cpp:244-265 | The bytes of the digit pairs, up to the first bad one |
| `Passwords.SpelledOnce` | pwned-lib/util.cpp:244-265 | A text spells one string only |
| `Passwords.HashOfOther` | pwned-lib/userpasswordreader.cpp:193-196 | Any other password has its own MD5, and no password has no hash |
| `Reader.Dehex` | pwned-lib/util.cpp:244-265 | The loop gives these bytes, and reports success for an odd length or if all pairs were good |
| `Reader.HashesMembers` | pwned-lib/userpasswordreader.cpp:167-203 | A hash is among those of the accepted lines exactly if some line yields it |
| `Reader.UserPasswordReader.GuessSeparator` | pwned-lib/userpasswordreader.cpp:51-84 | A best separator for the first lines is set, and all lines are still to be read |
| `Passwords.SeparatorMeaning` | pwned-lib/userpasswordreader.cpp:54-80 | The separator is a tab, blank, colon or semicolon in some line, and no other of these is in more lines, or in as many and comes first in the character set; there is none exactly if none of them is in any line |
| `Passwords.FirstLinesMeaning` | pwned-lib/userpasswordreader.cpp:56 | The first look is at 500 lines at most |
| `Passwords.SettingsMeaning` | pwned-lib/userpasswordreader.cpp:86-133 | An evaluation is turned on by its option, or, if it is to be found out, exactly by one of the first lines that has the separator and holds 32 letters or digits in a row, or a wrapped text |
| `Reader.UserPasswordReader.AnyLine` | pwned-lib/userpasswordreader.cpp:86-133 | A check succeeds exactly if one of the first lines has the separator and the pattern |
| `Reader.UserPasswordReader.EvaluateContents` | pwned-lib/userpasswordreader.cpp:135-140 | The settings found are exactly those the first 500 lines and the options call for, and all lines are still to be read |
| `Reader.UserPasswordReader.constructor` | pwned-lib/userpasswordreader.cpp:31-39 | A new reader has these settings, and all lines are still to be read |
| `EndToEnd.MakeDatabase` | pwned-converter-cli/convertoperation.cpp:86-176 | Text to database: the settings found are exactly those the text and the options call for; there is no file exactly if no line is accepted; otherwise the file is one the merger makes of the split files of the text |
| `EndToEnd.Pipeline` | pwned-lib/passwordinspector.cpp:80-131 | Text to answer, with or without an index: no file exactly if no line is accepted; no end exactly if one of the loops over the slots of the index of that file does not end; otherwise a count that is the number of lines yielding the hash and all copies the merges add, modulo 2^32, and if that does not wrap around, positive exactly if some line yields the hash |
| `EndToEnd.LookUp` | pwned-lib/passwordinspector.cpp:80-131 | A lookup with an index does not end exactly if one of the loops over its slots does not; any other gives the answer of a linear scan |
| `EndToEnd.LookupEndsIff` | pwned-lib/passwordinspector.cpp:88-104 | The condition on the file, with the last slot as a case of its own, holds exactly if both loops over the slots of any index of the file end |
| `EndToEnd.FindWithIndex` | pwned-lib/passwordinspector.cpp:85-130 | If both loops end, the lookup with that index gives the answer of a linear scan |
| `EndToEnd.MergedAnswers` | pwned-merger-cli/mergeoperation.cpp:131-205 | The count of a hash in any file merged from the split files of a text: the number of lines that yield it and all copies, modulo 2^32, and 0 if no line does |
| `EndToEnd.PositiveIff` | pwned-lib/passwordinspector.cpp:106-130 | If the number of lines and all copies together stay below 2^32, the count is positive exactly if some accepted line yields the hash, and not below the number of such lines |
| `EndToEnd.IndexAndFind` | pwned-lib/passwordinspector.cpp:85-130 | Building an index and looking up with it gives the answer of a linear scan, under the exact condition that the lookup ends |
| `HashText.FromHex` | pwned-lib/hash.cpp:60-85 | Parsing a string of any length gives the value and the validity that the following lemmas describe |
| `HashParse.ValidIff` | pwned-lib/hash.cpp:63-81 | A text is valid exactly if it has 32 characters, all of them digits or letters from a to f or A to F |
| `HashParse.WrongLength` | pwned-lib/hash.cpp:62-63 | A text of another length gives the zero hash |
| `HashParse.BadDigit` | pwned-lib/hash.cpp:66-83 | A text with a bad digit is not valid and gives the digits of the pairs before it, and zeros |
| `HashParse.DecodeHexCases` | pwned-lib/util.cpp:227-242 | The value of each kind of digit, and -1 for any other character |
| `HashParse.PairsStop` | pwned-lib/hash.cpp:66-79 | Pairs are read up to the first that is not made of two hexadecimal digits |
| `HashText.ParsePrinted` | pwned-lib/hash.cpp:46-85 | Parsing a printed hash gives the hash, and it is valid |
| `HashText.PrintParsed` | pwned-lib/hash.cpp:46-85 | Printing a parsed string of 32 hexadecimal digits gives the string in lower case |
| `HashText.DecodeDigit` | pwned-lib/util.cpp:227-242 | Decoding undoes the printing of a digit |
| `HashText.LessIsLexicographic` | pwned-lib/hash.hpp:102-109 | One hash is less than another exactly if its lower-case text comes first |
| `HashText.ReadDumped` | pwned-lib/passwordhashandcount.hpp:43-62 | Reading a dumped record gives the record |
| `HashText.DumpBytes` | pwned-lib/passwordhashandcount.hpp:58-62 | The bytes of a record: upper half, lower half and count, each with its lowest byte first |
| `HashText.LittleEndianBytes` | pwned-lib/passwordhashandcount.hpp:58-62 | Byte i of a number is its i-th lowest |
| `HashText.FileIsRecords` | pwned-lib/passwordhashandcount.hpp:43-62 | In a file of dumped records offset 20i holds record i, and there is nothing behind the last one |
| `Queue.InvStep` | pwned-lib/operationqueue.hpp:146-205 | Every step of every thread keeps the invariant: permits balance, each operation in at most one place, running list exact, positions of the threads consistent |
| `Queue.RecordedStep` | pwned-lib/operationqueue.hpp:146-191 | Every step keeps the history of each operation in line with its place |
| `Queue.Safety` | pwned-lib/operationqueue.hpp:146-191 | Over all interleavings: permits with the semaphore, the scheduling thread and the workers are always the initial ones; top() never sees an empty queue; finished() finds its operation; every added operation is in exactly one place and was started and destroyed at most once |
| `Queue.Progress` | pwned-lib/operationqueue.hpp:160-205 | With at least one permit, while the queue is executed or waited for, some step can be taken |
| `Queue.MeasureDecreases` | pwned-lib/operationqueue.hpp:160-205 | Every step other than an addition, a new execution or a spurious wake-up decreases a measure |
| `Queue.RunsEnd` | pwned-lib/operationqueue.hpp:160-205 | No run of such steps is longer than the measure of its first state |
| `Queue.Quiescence` | pwned-lib/operationqueue.hpp:160-205 | After any run, with operations added and threads woken at any time: when waitForFinished() returns and no operation came too late, every operation ever added was started once and destroyed once, all permits are back and the invariant holds for the next round |
| `Queue.RoundCompletes` | pwned-lib/operationqueue.hpp:160-205 | If nobody adds operations after execute(true), every run that can go no further has come to such an end |
| `Queue.HangsIff` | pwned-lib/operationqueue.hpp:198-204 | waitForFinished() blocks for ever exactly if an operation was added after the scheduling thread had left its loop |
| `Queue.LateExists` | pwned-lib/operationqueue.hpp:146-204 | There is a run that ends so |
| `Queue.OrderFalls` | pwned-lib/operationqueue.hpp:172-175 | The operations of a round are scheduled by falling priority |
| `QueueCode.Semaphore.Notify` | pwned-lib/semaphore.hpp:54-59 | One more permit |
| `QueueCode.Semaphore.TryWait` | pwned-lib/semaphore.hpp:61-69 | A permit is taken exactly if there is one |
| `QueueCode.Remove` | pwned-lib/operationqueue.hpp:156 | Removing an element from the running list leaves exactly the others |
| `QueueCode.OperationQueue.Add` | pwned-lib/operationqueue.hpp:146-151 | Adding is a step of the transition system |
| `QueueCode.OperationQueue.Execute` | pwned-lib/operationqueue.hpp:160-191 | Starting the scheduling thread is a step of the transition system |
| `QueueCode.OperationQueue.WaitForScheduled` | pwned-lib/operationqueue.hpp:193-196 | Its end is a step of the transition system |
| `QueueCode.OperationQueue.WaitForFinished` | pwned-lib/operationqueue.hpp:198-205 | The queue is reset exactly if no operation is left in it, and nothing is running any more; a step of the transition system |
| `QueueCode.OperationQueue.HasUnscheduled` | pwned-lib/operationqueue.hpp:167 | The loop test is a step of the transition system |
| `QueueCode.OperationQueue.WaitForPermit` | pwned-lib/operationqueue.hpp:171 | Waiting for a permit is a step of the transition system |
| `QueueCode.OperationQueue.Schedule` | pwned-lib/operationqueue.hpp:172-182 | Taking the top of the queue and starting a worker is an enabled step: the queue is not empty, and the operation has the highest priority of those waiting |
| `QueueCode.OperationQueue.Finished` | pwned-lib/operationqueue.hpp:153-158 | The operation is in the running list before and not after; a step of the transition system |
| `QueueCode.OperationQueue.GiveBack` | pwned-lib/operationqueue.hpp:179 | Giving the permit back is a step of the transition system |
| `Markov.SharesMass` | pwned-lib/markovchain.hpp:73-80 | The shares of counts in a sum add up to their total divided by that sum |
| `Markov.MassIsOneIff` | pwned-lib/markovnode.hpp:59-66 | The probabilities add up to 1 exactly if the total is below 2^32, since the sum is taken in 32 bits; they never add up to less |
| `Markov.ScoreIsChoice` | pwned-lib/markovchain.hpp:139-166 | A defined score is the probability to choose the symbols of the word one after the other |
| `Markov.ScoresBound` | pwned-lib/markovchain.hpp:139-166 | The scores of different words of one length add up to at most 1 if the probabilities of each node do |
| `MarkovTraining.FirstTableStep` | pwned-lib/markovchain.hpp:107-126 | The first counts stay the numbers of training words with each first symbol |
| `MarkovTraining.FollowTableTrained` | pwned-lib/markovchain.hpp:108-134 | The counts of the nodes stay the numbers of times each symbol follows each other one in the training words |
| `MarkovTraining.TrainedMass` | pwned-lib/markovchain.hpp:70-95 | After any training with fewer than 2^32 words and occurrences the first probabilities and those of each node add up to 1 |
| `MarkovTraining.TrainedScoresBound` | pwned-lib/markovchain.hpp:70-166 | After any such training the scores of different words of one length add up to at most 1 |
| `MarkovTraining.ScoreIsFrequency` | pwned-lib/markovchain.hpp:139-166 | After such training the score of a word, defined or not, is the one given by relative frequencies in the training words |
| `MarkovTraining.ScoreOfSeen` | pwned-lib/markovchain.hpp:139-166 | -1 for the empty word, 0 if no training word starts with its first symbol, and the product of the relative frequencies if all its steps were seen |
| `MarkovTraining.ScoreOfUnseen` | pwned-lib/markovchain.hpp:153-164 | Otherwise the first step not seen decides: 0 if its symbol was followed by nothing, else out of range |
| `MarkovTraining.PairsIffSeen` | pwned-lib/markovchain.hpp:108-114 | A pair is counted exactly if it stands in some training word |
| `MarkovTraining.LearnedScore` | pwned-lib/markovchain.hpp:101-166 | Every training word has a positive score |
| `MarkovNode.Accumulate` | pwned-lib/markovnode.hpp:59-62 | The sum of the counts modulo 2^32, in any order of iteration |
| `MarkovNode.Divide` | pwned-lib/markovnode.hpp:63-66 | Each counted symbol has its share, the probabilities of other symbols stay |
| `MarkovNode.ByProbability` | pwned-lib/markovnode.hpp:114-125 | The sorted list has each symbol of the map once with its probability, in ascending order |
| `MarkovNode.Node.Increment` | pwned-lib/markovnode.hpp:82-85 | The count of the successor grows by 1, no other |
| `MarkovNode.Node.Update` | pwned-lib/markovnode.hpp:56-68 | The probabilities are the shares of the counts, and the sorted list shows them |
| `MarkovChain.Chain.AddFirst` | pwned-lib/markovchain.hpp:119-126 | The count of the first symbol grows by 1 |
| `MarkovChain.Chain.AddPair` | pwned-lib/markovchain.hpp:127-134 | The count of the pair grows by 1, a new node appears if needed, nothing else changes |
| `MarkovChain.Chain.Train` | pwned-lib/markovchain.hpp:101-118 | A word is refused exactly if it is empty before or after decoding; otherwise its first symbol and all its pairs are counted |
| `MarkovChain.Chain.Update` | pwned-lib/markovchain.hpp:70-95 | All probabilities become the shares of the counts, and all sorted lists show them |
| `MarkovChain.Chain.TotalProbability` | pwned-lib/markovchain.hpp:139-166 | The loop gives the score of the word: -1 for the empty word, 0 for an unknown first symbol or a missing node, out of range for an unseen successor |
| `MarkovChain.Chain.SaveBinary` | pwned-lib/markovchain.hpp:167-190 | The bytes of the file for any order of the nodes; nothing for a chain without nodes |
| `MarkovChain.Chain.LoadBinary` | pwned-lib/markovchain.hpp:210-283 | Return code, lists, nodes and unread bytes are those of the reference parser, for every input and every code, with and without clearing |
| `MarkovFormat.LoadPrinted` | pwned-lib/markovchain.hpp:167-283 | Loading what was saved, with anything behind it, gives the same lists |
| `MarkovFormat.LoadedPrints` | pwned-lib/markovchain.hpp:210-283 | Whatever is loaded without an error starts with what saving the result would write |
| `MarkovFormat.AcceptsIff` | pwned-lib/markovchain.hpp:167-283 | The loader returns OK with a result exactly if the bytes are a saved file of that result, with distinct new symbols and 32-bit sizes, and anything behind it |
| `MarkovFormat.LoadCut` | pwned-lib/markovchain.hpp:219-283 | Any proper prefix of the part read of an accepted file is rejected for its premature end; any longer one gives the same result |
| `MarkovFormat.PrefixRejected` | pwned-lib/markovchain.hpp:167-283 | Every proper prefix of a saved file is rejected with one of the premature-end codes |
| `MarkovFormat.ItemBytes` | pwned-lib/markovchain.hpp:174-178 | An item is the four bytes of the symbol and the eight of the probability, lowest first |
| `MarkovFormat.SizeBytes` | pwned-lib/markovchain.hpp:173-183 | A size is four bytes, lowest first, modulo 2^32 |
| `MarkovCodes.HeaderCodes` | pwned-lib/markovchain.hpp:221-231 | BAD_HEADER exactly if there are four bytes and they are not MRKV, BAD_VERSION exactly if they are and a fifth is not 2, and the two premature codes exactly for fewer bytes |
| `MarkovCodes.SymbolCountPremature` | pwned-lib/markovchain.hpp:232-248 | That code exactly if the bytes end in the size of the first list or in the number of nodes |
| `MarkovCodes.SymbolKnown` | pwned-lib/markovchain.hpp:251-261 | BAD_SYMBOL exactly if a complete first list, a number of nodes and fewer complete nodes with new symbols are followed by a symbol that is known or among them |
| `MarkovCodes.NodeCountPremature` | pwned-lib/markovchain.hpp:262-264 | That code exactly if the bytes end in the number of successors of a new symbol |
| `MarkovCodes.SymbolPremature` | pwned-lib/markovchain.hpp:238-270 | That code exactly if the bytes end in the symbol of a node or of an item of a list |
| `MarkovCodes.ProbabilityPremature` | pwned-lib/markovchain.hpp:241-273 | That code exactly if the bytes end in the probability of an item of a list |
| `MarkovCodes.StopFirst` | pwned-lib/markovchain.hpp:232-248 | What has been loaded of the first list at each place where the bytes may end |
| `MarkovCodes.StopNode` | pwned-lib/markovchain.hpp:249-276 | What has been loaded of the nodes at each place where loading may stop |
| `MarkovStored.SavedIsLoaded` | pwned-lib/markovchain.hpp:167-283 | A saved and loaded chain has the same first-symbol list and the same successors of the same symbols |
| `MarkovStored.InputStream.Get` | pwned-lib/markovchain.hpp:40-46 | A read hits the end exactly if fewer bytes are left, and takes these |
| `MarkovTools.LearnedTables` | extras/pwned-markov-generator/pwned-markov-generator.cpp:155-158 | Whatever the words, the tables of a chain trained from new hold exactly their numbers of occurrences |
| `MarkovTools.TrainAll` | extras/pwned-markov-generator/pwned-markov-generator.cpp:155-158 | Training with all lines of a file gives the tables of its accepted words |
| `MarkovTools.Generate` | extras/pwned-markov-generator/pwned-markov-generator.cpp:155-176 | The file written is the printed chain of the shares of these tables |
| `MarkovTools.LookUp` | extras/pwned-markov-lookup/pwned-markov-lookup.cpp:43-55 | The score shown is that of the chain in the file, whatever the file |
| `MarkovTools.NodesIffPair` | pwned-lib/markovchain.hpp:127-134 | A trained chain has a node exactly if some word has two symbols |
| `MarkovTools.ShownIsFrequency` | extras/pwned-markov-lookup/pwned-markov-lookup.cpp:43-55 | The lookup of a word in a generated file shows its relative frequency in the training words, for every word; but if no training word has two symbols the file is empty, the empty word scores -1 and every other word 0 |
| `MarkovLife.AlwaysSound` | pwned-lib/markovchain.hpp:70-134 | Whatever sequence of training and updates, the counts are those of all words learned so far |
| `MarkovLife.MassOfLife` | pwned-lib/markovchain.hpp:70-95 | After an update, whatever came before with at least one and fewer than 2^32 words and occurrences, the probabilities of the first symbols and of the successors of each symbol add up to 1 |
| `MarkovLife.ScoreOfLife` | pwned-lib/markovchain.hpp:139-166 | After such an update every score is the relative frequency in all words learned so far |
| `MarkovLife.Train` | pwned-lib/markovchain.hpp:101-118 | train() on a chain does one step of that sequence |
| `MarkovLife.Refresh` | pwned-lib/markovchain.hpp:70-95 | update() on a chain does one step of that sequence |

## Left out

- MergeDriver.MergeAll: the driver is modelled without cancellation.
- Inspector.PasswordInspector.SmartBinsearch: the floating-point estimate is any record-aligned position that is not negative.
- IndexShift.RecoverShift: takes the number of slots; that the file has eight bytes for each of them is taken for granted.
- MarkovChain.Chain.Update: probabilities are real numbers, so rounding is not modelled, and it is required that no 32-bit sum of a node with counts is 0, since the quotient is then not a number.
- MarkovStored.SavedIsLoaded: the eight bytes of a probability are given by two functions that are not looked into, and the result is for probabilities that these functions carry over unchanged.
- MD5 is a function from strings to 128-bit values that is not looked into, and so are the conversion from UTF-8 and, in the Markov format, the encoding of a double.
- The two regular expressions of the reader are predicates with the same matches; the regular-expression engine is not modelled.
- The isValid flag of a hash is an Option in the reader and does not occur in records; comparisons of hashes that differ in it only are not modelled.
- Files are whole records and shorter than 2^63 bytes; only the file of a session is read while it lasts. Partial records, I/O errors other than reads past the end, and bad() are not modelled.
- The 64-bit counter of used memory and the doubled offsets of `smart_binsearch` do not wrap in the model, nor do the 64-bit counts of the Markov chain.
- Names of files, removal of input files, progress output, messages and timing.
- cancel() and pause() of the queue, waitForFinished() of one operation and the waits without a condition behind them; cancellation of a merge is modelled. Progress is claimed for runs without spurious wake-ups; safety holds with them.
- The priority queue of the scheduler and that of the merger are sets from which any best element is taken; their heaps are library code. A change of the key of the top before it is popped removes that element.
- The threads' unsynchronised test for waiting operations is one step.
- writeJson, randomFirstSymbol, randomSuccessor, the Semaphore's setCapacity, operator!= of hashes, command lines, the web server, and the other tools of the repository.
