# Verified models of the emulator's common components

This project models, in Dafny, the components of shadPS4 whose correctness rests on an argument rather
than on a reading of one function, and proves that argument for every input, every run or every reachable
state.

- **DEFLATE and zlib** (`externals/stb`): the inflater of the image reader and the compressor of the image
  writer, each against one specification of RFC 1951 and RFC 1950 (`DeflateSpec`), and the theorem that they
  undo each other. `Words` gives the C operators on machine words their meaning bit by bit; `CanonicalCode`
  is the mathematics of canonical prefix codes; `ZHuffman` and `HuffmanLookup` are the inflater's tables;
  `BitSource` relates its bit buffer to the unread bits; `Inflate`, `Deflate` and `ZlibRoundTrip` are the two
  programs and their composition.
- **PNG line filters** (`PngFilters`, `PngRoundTrip`): the encoder's and the decoder's filters undo each other,
  also through the compressor.
- **JPEG Huffman tables** (`JpegHuffman`, `JpegBits`): table construction, lookup, and the table that decodes
  small coefficients in one step.
- **SharedFirstMutex** (`SharedFirstMutex`, `SharedFirstMutexCalls`): the reader-preferring lock, as a state
  machine over any number of threads, and what every call of it has done when it is over.
- **Interval lists** (`IntervalSet`): both kinds of list against a plain map from addresses to values.
- **AES** (`AesTables`, `AesSbox`, `Aes`, `AesRounds`, `AesKeys`, `CbcMode`, `GaloisField`, `Gcm`, `GcmBytes`):
  the block cipher and its inverse, its table and its key schedule, CBC with padding, and GCM with its field
  multiplication.
- **Queues** (`SpscQueue`, `SpscQueueCalls`, `MpmcQueue`, `MpmcQueueCalls`): the bounded ring and its wrappers, as
  state machines, and what every call of them has done when it returns.
- **LRU list** (`LruCache`): the intrusive list on the heap.
- **128-bit arithmetic** (`Uint128`) and the clock conversion that uses it.

Code that updates variables in loops is modelled by methods with loops, each proved against a specification;
the theorems are about those specifications. In `Inflate` the ghost parameters `known`, `bs`, `ts` and `t`
stand for "every well-formed stream": a promise made for whatever is passed there holds for all of them.
What both sides of a round trip use in common is also stated without reference to it, in the terms of the
standard: the round keys, the S-box and the rounds of AES byte by byte, GCM in bytes, the checksum as two sums,
the order of the code lengths.
Concurrent components are state machines whose steps are single atomic actions, interleaved without
restriction, under sequential consistency.

Where a property turned out to hold only under a condition, the condition is stated exactly and both
directions are proved: the empty input of the compressor (`ZlibRoundTrip.RoundTrip`), the empty output buffer
of the decoder (`Inflate.ExpandEndsExactlyWhen`), the 256th symbol of a JPEG table
(`JpegHuffman.RightExactlyWhen`, in terms of the counts `JpegHuffman.UsableExactlyWhen`), the signed comparison
of ticks (`LruCache.BelowExactlyWhen`), the checks on the buffers of CBC mode (`CbcMode.EncryptStaysInside`,
`CbcMode.DecryptStaysInside`), the last product in `MultiplyAndDivide64` (`Uint128.MultiplyAndDivideIs`), a
clock that is not faster than its unit (`Uint128.ClockExactlyWhen`), and the capacities of the ring
(`SpscQueue.SlotsAgreeExactlyWhen`).

The traversal of the LRU list subtracts ticks as signed 64-bit numbers (src/common/lru_cache.h:66). Where the
difference overflows, which `LruCache.DueIsBelow` says exactly, C++ leaves the result undefined; the model
subtracts integers there, so for such ticks the condition of `LruCache.BelowExactlyWhen` is that of the model.
`LruCache.WrongWithoutOverflow` shows that the traversal also goes wrong where nothing overflows.

The comment at src/common/shared_first_mutex.h:39 says that no wakeup is lost. With the weak compare-exchange
the code uses there that is true only if it does not fail without a mismatch; the model assumes so, and
`SharedFirstMutex.WeakFailureLosesTheWakeup` gives the run that shows why it has to.

`dafny verify dfyconfig.toml` checks the whole project.

## Model

| member | source | states |
|---|---|---|
| `ZlibRoundTrip.RoundTrip` | externals/stb/stb_image_write.h:895-1022 | Inflating what the compressor produced gives back exactly the input, for every input, every quality and every initial output size but 0, except the empty input, for which the decoder rejects the result |
| `ZlibRoundTrip.NoBlockInEmpty` | externals/stb/stb_image_write.h:985-999 | For the empty input the stored fallback writes no block, and the header followed by the checksum is no sequence of blocks |
| `Deflate.ZlibCompress` | externals/stb/stb_image_write.h:895-1022 | Both the Huffman form and the stored one are well-formed streams of blocks whose meaning is the input; the second is written exactly when the first is longer, followed by the Adler-32 checksum of the input as four bytes; at most n + 5 * ceil(n / 32767) + 6 bytes in all |
| `Deflate.WriteTokens` | externals/stb/stb_image_write.h:921-975 | Whatever the hash lists hold, the symbols written stand for the whole input: a match is used only after its bytes have been compared |
| `Deflate.Countm` | externals/stb/stb_image_write.h:859-865 | The number returned is the length of the longest common run of the two places, up to the limit and to 258 |
| `Deflate.Search` | externals/stb/stb_image_write.h:923-955 | A match handed on is one of the remembered positions in the window, agrees with the input over its whole length, and no remembered one is longer; none is handed on only when there is none of three bytes, or a longer one for the next byte |
| `Deflate.CopyIsMatch` | externals/stb/stb_image_write.h:957-966 | Copying the match, byte by byte even where it overlaps itself, extends the output by the next bytes of the input |
| `Deflate.PutMatch` | externals/stb/stb_image_write.h:957-966 | The bits written for a match are those of its length and distance codes with their extra bits, most significant bit of a code first (section 3.2.5 of RFC 1951) |
| `Deflate.LengthSymbol` | externals/stb/stb_image_write.h:960-962 | The symbol found is the one whose base and extra bits represent the length |
| `Deflate.DistanceSymbol` | externals/stb/stb_image_write.h:963-965 | The symbol found is the one whose base and extra bits represent the distance |
| `Deflate.FixedLitCode` | externals/stb/stb_image_write.h:882-889 | The four ranges of the literal macro are the canonical codes of the fixed lengths (section 3.2.6 of RFC 1951) |
| `Deflate.FixedDistCode` | externals/stb/stb_image_write.h:964 | Five bits of the symbol number are its canonical distance code |
| `Deflate.Writer.Add` | externals/stb/stb_image_write.h:879-882 | The bits are appended to what has been emitted, low bit first, however they fall on bytes |
| `Deflate.Writer.Flush` | externals/stb/stb_image_write.h:839-847 | Whole bytes move from the bit buffer to the output without changing the sequence of bits emitted |
| `Deflate.WriteStored` | externals/stb/stb_image_write.h:984-999 | The stored blocks are the chunks of at most 32767 bytes of the input with their lengths and complements, the last one marked final |
| `Deflate.StoredIsStream` | externals/stb/stb_image_write.h:986-998 | The stored bytes read as a sequence of blocks whose meaning is the input, for every nonempty input (section 3.2.4 of RFC 1951) |
| `Deflate.StoredSize` | externals/stb/stb_image_write.h:985-998 | The stored form takes exactly five bytes for every 32767 bytes or part of them, besides the data |
| `Deflate.Adler32` | externals/stb/stb_image_write.h:1001-1016 | Although reduced only once every 5552 bytes in 32-bit words, the sums are those of section 8.2 of RFC 1950, stored high byte first |
| `Deflate.AdlerIs` | externals/stb/stb_image_write.h:1001-1016 | As one big-endian number the four bytes are B * 65536 + A, where A is one plus the sum of the bytes and B the number of bytes plus the sum weighted from the front, both modulo 65521 |
| `Inflate.ZlibDecode` | externals/stb/stb_image.h:4510-4537 | Whatever is accepted was read off the input as blocks and the output is their meaning; every well-formed stream with at least two bytes behind its blocks is accepted, with its meaning as the output |
| `Inflate.ExpandEndsExactlyWhen` | externals/stb/stb_image.h:4282-4285 | The loop that doubles the output buffer ends, with room enough or an error, exactly when the buffer is not empty to begin with |
| `Inflate.ZBuf.ParseZlib` | externals/stb/stb_image.h:4481-4508 | The same for the header check and the loop over blocks together |
| `Inflate.ZBuf.ParseBlocks` | externals/stb/stb_image.h:4489-4506 | The loop ends on every input, damaged or not, and succeeds only on a sequence of blocks |
| `Inflate.ZBuf.ParseZlibHeader` | externals/stb/stb_image.h:4438-4450 | The header is accepted exactly when it is valid, without preset dictionary, and more input follows (section 2.2 of RFC 1950) |
| `Inflate.ZBuf.ParseHuffmanBlock` | externals/stb/stb_image.h:4309-4357 | A block is accepted only when it decodes to literals and copies within the output so far, and the output is extended by what they mean; a block known to come next is read completely |
| `Inflate.ZBuf.CopyLoop` | externals/stb/stb_image.h:4348-4354 | The copied bytes are those a byte-by-byte copy from that distance back yields, also where source and target overlap; the shortcut for distance one gives the same |
| `Inflate.ZBuf.ParseUncompressedBlock` | externals/stb/stb_image.h:4409-4436 | A stored block is accepted only with matching complement and enough input, and its bytes are appended |
| `Inflate.ZBuf.ComputeHuffmanCodes` | externals/stb/stb_image.h:4359-4407 | The two code tables built are those of the lengths that the run-length coded header stands for (section 3.2.7 of RFC 1951) |
| `Inflate.ZBuf.ReadSizes` | externals/stb/stb_image.h:4373-4376 | The lengths sent go to symbols 16, 17, 18 and 0 and then to 8, 7, 9, 6 and so on outwards; those not sent are 0 |
| `Inflate.ZBuf.ReadRun` | externals/stb/stb_image.h:4380-4402 | One symbol is taken off the input with its extra bits: below 16 it is a length, 16 repeats the last one 3 to 6 times, 17 stands for 3 to 10 zeros and 18 for 11 to 138; a repeat without a length before it, or with too many, is an error |
| `Inflate.RunSpells` | externals/stb/stb_image.h:4384-4401 | The same of every run the specification of the format allows |
| `Inflate.ZBuf.ReadLengths` | externals/stb/stb_image.h:4379-4403 | Copy and zero runs expand to the announced number of code lengths exactly, or the header is rejected |
| `DeflateSpec.LengthsLieEndToEnd` | externals/stb/stb_image.h:4295-4301 | The lengths of the symbols lie end to end in runs that double every four symbols, except the last (section 3.2.5 of RFC 1951) |
| `DeflateSpec.DistancesLieEndToEnd` | externals/stb/stb_image.h:4303-4307 | The distances of the symbols lie end to end in runs that double every two symbols, up to 32768 |
| `Inflate.FixedFits` | externals/stb/stb_image.h:4452-4479 | The default length tables have a prefix code, so building them never fails |
| `Inflate.ZBuf.Decode` | externals/stb/stb_image.h:4243-4271 | A symbol is returned only with its canonical code taken off the input, and -1 only when no code comes next or the padding is used up |
| `Inflate.ZBuf.DecodeSlowpath` | externals/stb/stb_image.h:4224-4241 | The search by length finds the symbol whose code comes next, or none when none does |
| `HuffmanLookup.SlowHit` | externals/stb/stb_image.h:4234-4240 | On a built table the two defensive checks of the slow path cannot fire: the index is a filled slot of the length found |
| `HuffmanLookup.FastHit` | externals/stb/stb_image.h:4263-4269 | A nonzero fast entry names the symbol whose code comes next, with its length |
| `HuffmanLookup.MissIsAbove` | externals/stb/stb_image.h:4230-4232 | After a miss in the fast table the search may start at ten bits |
| `Inflate.ZBuf.FillBits` | externals/stb/stb_image.h:4202-4212 | Refilling moves bytes into the bit buffer without changing the sequence of unread bits |
| `Inflate.ZBuf.Receive` | externals/stb/stb_image.h:4214-4222 | The next n bits are taken off the input, low bit first |
| `ZHuffman.Huffman.Build` | externals/stb/stb_image.h:4124-4169 | A list of code lengths is accepted exactly when it satisfies the Kraft inequality, and the table built then decodes its canonical code (section 3.2.2 of RFC 1951) |
| `CanonicalCode.FitsIsKraft` | externals/stb/stb_image.h:4135-4145 | The two rejection tests together are the Kraft inequality |
| `CanonicalCode.PrefixFree` | externals/stb/stb_image.h:4138-4149 | No bit sequence starts with the canonical codes of two symbols |
| `BitReverse.BitReverse16IsRev` | externals/stb/stb_image.h:4107-4114 | The four mask-and-shift stages reverse sixteen bits |
| `BitReverse.ReverseBitsIsRev` | externals/stb/stb_image.h:4116-4122 | Reversing sixteen bits and shifting reverses any smaller number of bits |
| `BitReverse.ZlibBitRev` | externals/stb/stb_image_write.h:849-857 | The compressor's loop reverses the bits of a code |
| `PngFilters.PaethsAgree` | externals/stb/stb_image.h:4657-4668 | The threshold formula and the formula of section 6.6 of RFC 2083 agree on all integers |
| `PngFilters.PaethIsNearest` | externals/stb/stb_image_write.h:1083-1089 | The predictor is the first of the three neighbours that is nearest to their combination (section 6.6 of RFC 2083) |
| `PngFilters.EncodeLine` | externals/stb/stb_image_write.h:1083-1126 | Each line is filtered as sections 6.1 to 6.6 of RFC 2083 say, with zeros above the first line, including the special cases of that line |
| `PngFilters.UnfilterLine` | externals/stb/stb_image.h:4751-4785 | A line is recovered as RFC 2083 says, in the half of the buffer for this line, and the other half is not read for the first line |
| `PngFilters.CreateImage` | externals/stb/stb_image.h:4722-4787 | Unfiltering fails exactly when the data is too short or a filter type is above 4, and otherwise recovers every line, the two line buffers alternating |
| `PngFilters.EncodeImage` | externals/stb/stb_image_write.h:1146-1174 | The filtered image is each line behind the byte of its filter type |
| `PngFilters.RecoverFiltered` | externals/stb/stb_image.h:4754-4785 | Recovering a filtered line gives the line, for every filter and whatever the line above |
| `PngFilters.DecodeEncoded` | externals/stb/stb_image.h:4737-4787 | Unfiltering a filtered image gives the image, whatever data follows it |
| `PngFilters.RoundTrip` | externals/stb/stb_image_write.h:1083-1126 | Filtering and unfiltering restores every image: any size, number of channels and choice of filter per line |
| `PngRoundTrip.ImageRoundTrip` | externals/stb/stb_image_write.h:1146-1176 | Filtering, compressing, inflating and unfiltering restores every image that fits in 2^31 - 1 bytes |
| `JpegHuffman.BuildHuffman` | externals/stb/stb_image.h:2003-2046 | A table is accepted exactly when it lists at most 256 codes and a prefix code with those lengths exists, and what is built is its canonical code (annex C of ITU-T T.81) |
| `JpegHuffman.BuildSizes` | externals/stb/stb_image.h:2005-2014 | The list of lengths is that of the counts, and more than 256 codes are an error |
| `JpegHuffman.BuildCodes` | externals/stb/stb_image.h:2016-2031 | Codes, upper bounds and offsets of every length are those of the canonical code, or some length is over-subscribed |
| `JpegHuffman.BuildFast` | externals/stb/stb_image.h:2033-2044 | Each entry of the fast table names the symbol whose code its nine bits start with, or is the flag 255 |
| `JpegHuffman.RightExactlyWhen` | externals/stb/stb_image.h:2097-2146 | Looking up a symbol is right for every buffer exactly when symbol 255 has no code of at most nine bits |
| `JpegHuffman.LookUpRight` | externals/stb/stb_image.h:2104-2145 | For such a table the symbol found is the one whose code comes next, and none is found only when no code comes next (section F.2.2.3 of ITU-T T.81) |
| `JpegHuffman.LastIsMissed` | externals/stb/stb_image.h:2033-2034 | With 256 codes, the last of at most nine bits, there is a buffer for which the lookup is wrong, because 255 is the flag |
| `JpegHuffman.UsableExactlyWhen` | externals/stb/stb_image.h:2005-2014 | In terms of the counts a file carries: symbol 255 has a code of at most nine bits exactly when all of 256 codes have at most nine bits |
| `JpegHuffman.FullCountsAccepted` | externals/stb/stb_image.h:3135-3139 | 255 codes of eight bits and one of nine are such counts: each fits in a byte, and they are accepted |
| `JpegHuffman.BuildFull` | externals/stb/stb_image.h:2003-2046 | The table built from 255 codes of eight bits and one of nine looks some buffer up wrongly |
| `JpegBits.FastAcAgrees` | externals/stb/stb_image.h:2050-2073 | A nonzero fast coefficient entry gives the same run, the same value and takes as many bits as decoding the symbol and then receiving and extending the value |
| `JpegBits.BuildFastAc` | externals/stb/stb_image.h:2048-2073 | An entry is nonzero exactly when its nine bits hold the code of a fast symbol with a value, and the whole value, which is a signed byte; it then says that value, the run and the combined length, and fits in sixteen bits |
| `JpegBits.BitReader.DecodeCoefficient` | externals/stb/stb_image.h:2231-2260 | The one-step path and the two-step path of the block decoder return the same coefficient and leave the same bits, as many fewer as the coefficient has, whenever all of them are there; a value whose bits are not is read from the buffer filled up again, and is 0, or an error, only where the data has ended |
| `JpegBits.BitReader.HuffDecode` | externals/stb/stb_image.h:2097-2146 | A symbol is returned with its code taken off the buffer, or -1 when its code is not wholly there or there is none |
| `JpegBits.BitReader.ExtendReceive` | externals/stb/stb_image.h:2153-2166 | The next n bits, extended as figure F.12 of ITU-T T.81 says, are returned and taken off the buffer |
| `JpegBits.BitReader.Grow` | externals/stb/stb_image.h:2075-2091 | Refilling adds the next bytes of the data, with the zeros stuffed behind bytes FF and the fill bytes taken out, below the bits that are there, until there are more than 24 or a marker is met |
| `JpegBits.FillUnstuffs` | externals/stb/stb_image.h:2078-2085 | Of data with a zero stuffed behind every byte FF (section B.1.1.5 of ITU-T T.81), the bytes added are those that were stuffed, as many as there is room for |
| `SharedFirstMutex.StepKeepsInv` | src/common/shared_first_mutex.h:31-136 | Every action of every thread keeps the exact accounting of the word, of waiting_writers, of the mutex and of the pending wakeups |
| `SharedFirstMutex.RunKeepsInvariant` | src/common/shared_first_mutex.h:31-136 | The invariant holds in every state that any number of threads can reach in any interleaving |
| `SharedFirstMutex.MutualExclusion` | src/common/shared_first_mutex.h:122-136 | In every reachable state no thread holds the lock exclusively while another holds it at all, and the word is the writer bit or the number of reader holds |
| `SharedFirstMutexCalls.LockTakes` | src/common/shared_first_mutex.h:31-43 | In every run, when a call of lock() is over its thread owns the lock |
| `SharedFirstMutexCalls.LockSharedTakes` | src/common/shared_first_mutex.h:79-88 | In every run, when a call of lock_shared() is over its thread has exactly one shared hold more than before |
| `SharedFirstMutexCalls.TryLockTakes` | src/common/shared_first_mutex.h:45-71 | try_lock() and try_lock_until() return true exactly when they took the lock; the first fails only after it tried a word that was not 0, the second only after it did so after its deadline |
| `SharedFirstMutexCalls.TryLockSharedTakes` | src/common/shared_first_mutex.h:90-107 | try_lock_shared() and try_lock_shared_until() return true exactly when they took one more shared hold; the first fails only on a word with the writer bit, the second only on one after its deadline |
| `SharedFirstMutexCalls.UnlockGivesUp` | src/common/shared_first_mutex.h:73-77 | unlock() and unlock_shared() give up exactly the one hold |
| `SharedFirstMutexCalls.SleepsOnly` | src/common/shared_first_mutex.h:31-120 | Only lock(), lock_shared() and the timed forms ever sleep, and only the timed forms are woken by a deadline |
| `SharedFirstMutexCalls.NineActions` | src/common/shared_first_mutex.h:31-136 | A call takes at most nine actions before it sleeps or is over, and as many after every sleep, not counting the tries of a reader that finds the word changed: nothing spins, and the mutex is always given back |
| `SharedFirstMutex.ReentrantNeverBlocks` | src/common/shared_first_mutex.h:79-92 | A thread that already holds the lock shared never leaves the fast path when it acquires it shared again, even with writers waiting |
| `SharedFirstMutex.ReentrantAcquires` | src/common/shared_first_mutex.h:126-136 | Undisturbed, such an acquisition succeeds in two actions |
| `SharedFirstMutex.StuckMeansHeld` | src/common/shared_first_mutex.h:31-120 | When no thread can act, every thread that waits waits for a hold that really exists: no wakeup has been lost |
| `SharedFirstMutex.Progress` | src/common/shared_first_mutex.h:31-120 | In every reachable state in which nobody holds the lock and some thread wants it, some thread can act |
| `SharedFirstMutex.WeakFailureLosesTheWakeup` | src/common/shared_first_mutex.h:36-41 | A compare-exchange that fails without a mismatch in lock() can put a lone thread to sleep on a free lock for ever |
| `IntervalSet.IntervalList.Add` | src/common/interval_set.h:62-87 | The list stays sorted, disjoint, nonempty and coalesced, every address of the value gets its value, every other keeps its own; an empty or reversed range changes nothing |
| `IntervalSet.IntervalList.DomAdd` | src/common/interval_set.h:225-270 | The same list invariants, and an address of the value keeps an old value that is dominant over the new one and takes the new one otherwise |
| `IntervalSet.AddRunValue` | src/common/interval_set.h:62-87 | After any run of Add the list is well kept and each address has what the last value covering it gives it |
| `IntervalSet.DomRunValue` | src/common/interval_set.h:225-270 | After any run of DomIntervalList::Add the list is well kept and each address has the fold of the values covering it |
| `IntervalSet.IntervalList.Coalesce` | src/common/interval_set.h:195-208 | The loop ends, and looking at the given window is enough: when the pairs outside it are apart, all pairs are, and no address changes its value |
| `IntervalSet.IntervalList.Splice` | src/common/interval_set.h:177-192 | Overwriting and then inserting or erasing the difference replaces the run by the new intervals |
| `IntervalSet.IntervalList.OverlapRun` | src/common/interval_set.h:167-174 | The run goes from the first interval that ends after the start of the range to the last that starts at or before its end |
| `IntervalSet.IntervalList.MakeDomPieces` | src/common/interval_set.h:227-255 | The pieces fit into the place of the run and give each address of the value what it should keep or take |
| `IntervalSet.IntervalList.MergePieces` | src/common/interval_set.h:256-266 | Merging in place from left to right keeps the order, the ends and every value |
| `IntervalSet.IntervalList.Find` | src/common/interval_set.h:90-96 | The interval found contains the address and gives it its value; the end is returned exactly when the address has none |
| `IntervalSet.IntervalList.ContainsRange` | src/common/interval_set.h:104-115 | True exactly when the range is nonempty and every address in it is covered |
| `IntervalSet.IntervalList.FindCovering` | src/common/interval_set.h:118-121 | An interval that alone contains the range is found exactly when there is one |
| `IntervalSet.IntervalList.Overlaps` | src/common/interval_set.h:124-130 | True exactly when some address of the range is covered |
| `IntervalSet.CoveredByOne` | src/common/interval_set.h:104-121 | With plain intervals, a nonempty range is covered exactly when one interval contains it |
| `IntervalSet.Canonical` | src/common/interval_set.h:14-24 | Two plain lists that cover the same addresses are equal |
| `IntervalSet.RunsAreCanonical` | src/common/interval_set.h:14-24 | Two runs of Add over plain intervals that cover the same addresses leave equal lists |
| `IntervalSet.IntervalList.ForEachGap` | src/common/interval_set.h:133-148 | The gaps reported are, in order and without overlap, exactly the uncovered addresses of the range, and none can be made longer |
| `IntervalSet.IntervalList.ForEachInRange` | src/common/interval_set.h:151-163 | The intervals reported are those that meet the range, all of them, in order |
| `IntervalSet.Tiles` | src/common/interval_set.h:133-163 | The gaps and the intervals clipped to the range tile it: each address of the range is in exactly one piece, and no other address is in any |
| `AesTables.InvSboxOfSbox` | src/common/aes.h:42-76 | The second table inverts the first |
| `Aes.DecryptEncrypt` | src/common/aes.h:270-310 | Decryption undoes encryption of every state, whatever the round keys and their number |
| `Aes.BlockInverse` | src/common/aes.h:270-310 | The same on blocks of sixteen bytes |
| `Aes.UnmixedMixed` | src/common/aes.h:145-179 | The inverse column coefficients undo the column coefficients in GF(2^8) (sections 5.1.3 and 5.3.3 of FIPS 197) |
| `Aes.EncryptState` | src/common/aes.h:270-289 | Sixteen bytes of the buffer become the cipher of the block (section 5.1 of FIPS 197), all others stay |
| `Aes.DecryptState` | src/common/aes.h:291-310 | Sixteen bytes of the buffer become the inverse cipher of the block (section 5.3 of FIPS 197), all others stay |
| `Aes.ShiftRows` | src/common/aes.h:100-109 | The masks rotate row r of the state by r columns (section 5.1.2 of FIPS 197) |
| `Aes.InvShiftRows` | src/common/aes.h:111-120 | The masks rotate row r back by r columns (section 5.3.1 of FIPS 197) |
| `Aes.ShiftInverse` | src/common/aes.h:100-120 | The second rotation undoes the first |
| `Aes.MixColumns` | src/common/aes.h:145-165 | Every column is multiplied by the matrix of section 5.1.3 of FIPS 197 |
| `Aes.InvMixColumns` | src/common/aes.h:167-179 | Every column is multiplied by the matrix of section 5.3.3 of FIPS 197 |
| `Aes.MulLoop` | src/common/aes.h:131-143 | The loop is the product in GF(2^8): the sum of the powers of x times b over the bits of m |
| `Aes.MulXor` | src/common/aes.h:131-143 | The product distributes over addition |
| `AesKeys.ExpandKey` | src/common/aes.h:206-237 | The round keys, byte by byte, are the key and the schedule of section 5.2 of FIPS 197 for 16, 24 and 32 bytes: each byte is the one a key length before with the byte before it added, rotated, substituted and with the power of x where the standard says so; any other key size is an error |
| `AesKeys.ScheduleExpands` | src/common/aes.h:206-237 | The same of the schedule as a function of the key |
| `AesSbox.SboxIs` | src/common/aes.h:42-58 | The first table takes 0 to 63 (hexadecimal) and any other byte to the affine map of section 5.1.1 of FIPS 197 of its inverse in GF(2^8), of which there is exactly one |
| `AesRounds.CipherIsTrace` | src/common/aes.h:270-289 | Every byte after a full round is one formula in four bytes before it and a key byte: substituted, from rotated rows, multiplied by 2, 3, 1, 1; the first key is added before, and the last round does not multiply |
| `AesKeys.RconIsPower` | src/common/aes.h:211 | The round constants are the powers of x in GF(2^8) |
| `CbcMode.EncryptCbc` | src/common/aes.h:908-960 | The error conditions in their order; on success, if the call stays within its buffer, the buffer starts with the cipher text of the padded message in CBC mode (section 6.2 of NIST SP 800-38A), and the rest of the buffer and, on error, all of it is untouched |
| `CbcMode.EncryptedIsChained` | src/common/aes.h:925-957 | Block i of the cipher text is the cipher of block i of the message with cipher block i - 1 added byte by byte, the vector or nothing for the first |
| `CbcMode.MessageIs` | src/common/aes.h:918-935 | The message is the data and 1 to 16 bytes that each say how many they are; without padding just the data, unless it is empty |
| `CbcMode.EncryptStaysInside` | src/common/aes.h:697-721 | A call that passes the check stays within its buffer exactly when it pads, or has data, or has room for a block |
| `CbcMode.EncryptLeavesBuffer` | src/common/aes.h:697-721 | The check lets through an empty buffer for an empty text without padding, of which a block would be written |
| `CbcMode.DecryptCbc` | src/common/aes.h:976-1027 | The error conditions in their order, including bad padding and too small a buffer for what remains; on success, if the call stays within its buffers, the text without its padding is at the start of the buffer and the number of padding bytes is reported |
| `CbcMode.DecryptStaysInside` | src/common/aes.h:723-749 | A call that passes the check stays within its buffers exactly when it has data and room for a block: it fails for one padded block with less room, and for no data without padding |
| `CbcMode.DecryptLeavesBuffer` | src/common/aes.h:723-749 | The check lets through a block with an empty buffer when the padding is asked for, and no data when it is not |
| `CbcMode.CheckPadding` | src/common/aes.h:750-762 | True exactly when the last byte says at most 16 and that many last bytes equal it |
| `CbcMode.DecryptedEncrypted` | src/common/aes.h:908-1027 | Block by block, decrypting the cipher text gives the text, for every vector or none |
| `CbcMode.PaddingIsGood` | src/common/aes.h:920-935 | Every padded message passes the padding check, which reports the number of bytes added and leaves the data (section 6.3 of RFC 5652) |
| `CbcMode.RoundTrip` | src/common/aes.h:908-1027 | Encrypting with padding and decrypting what came out restores messages of every length, including below 16 and multiples of 16, in buffers of any size, and reports 16 - n % 16 padding bytes; it fails exactly when there is no room for the cipher text or for the text |
| `Gcm.MulBlocks` | src/common/aes.h:479-502 | The result is the carry-less product of the two polynomials modulo x^128 + x^7 + x^2 + x + 1 (section 6.3 of NIST SP 800-38D) |
| `GaloisField.MulBits` | src/common/aes.h:479-502 | The same on bit sets: top bit first, the loop computes the product in the field |
| `GaloisField.FieldMulIsRemainder` | src/common/aes.h:479-502 | The field product is the one polynomial of degree below 128 that is congruent to the carry-less product |
| `GaloisField.FieldMulComm` | src/common/aes.h:479-502 | The product is commutative |
| `GaloisField.FieldMulXor` | src/common/aes.h:479-502 | The product distributes over addition |
| `GaloisField.FieldMulAssoc` | src/common/aes.h:479-502 | The product is associative |
| `GaloisField.RemainderUnique` | src/common/aes.h:480-500 | No two polynomials of degree below 128 are congruent |
| `Gcm.BlockProductComm` | src/common/aes.h:479-502 | Multiplying blocks is commutative |
| `Gcm.BlockProductXor` | src/common/aes.h:393-399 | Multiplying blocks distributes over the exclusive or of blocks |
| `Gcm.Ghash` | src/common/aes.h:509-518 | The loop folds the blocks one after the other from the zero block |
| `Gcm.GhashIsPolynomial` | src/common/aes.h:509-518 | That fold is the value at H of the polynomial with the blocks as coefficients (section 6.4 of NIST SP 800-38D) |
| `Gcm.ToFromBits` | src/common/aes.h:383-425 | A block made from a bit set gives the bit set back |
| `Gcm.CounterBits` | src/common/aes.h:459-471 | Counter block i is the first block with its low 32 bits counted up i times modulo 2^32 |
| `Gcm.CountersDiffer` | src/common/aes.h:459-471 | Counter blocks less than 2^32 apart are different |
| `Gcm.Gctr` | src/common/aes.h:531-565 | Every byte is added to the byte of the key stream at its place, the last short block included |
| `Gcm.GctrTwice` | src/common/aes.h:531-565 | Counter mode with the same key and counter undoes itself |
| `Gcm.EncryptGcm` | src/common/aes.h:1046-1061 | The data is replaced by its cipher text and the tag is that of the cipher text; on an error nothing changes |
| `Gcm.DecryptGcm` | src/common/aes.h:1099-1121 | The data is replaced by its text exactly when the tag given is the start of its tag, and otherwise left as it was |
| `Gcm.RoundTrip` | src/common/aes.h:1046-1121 | Encrypting and decrypting with the tag that came out succeeds and restores the data, for every key, vector and length |
| `GcmBytes.ModeIs` | src/common/aes.h:1046-1061 | The mode in bytes: the hash key is the cipher of zeros; the first counter is the vector and a one, or the hash of the vector, zeros and its length; the text is added to the cipher of counters from the next one on; the tag is the hash of data, cipher text and lengths added to the cipher of the first counter (section 7 of NIST SP 800-38D) |
| `GcmBytes.BlockIsPolynomial` | src/common/aes.h:383-391 | The coefficient of x^k of a block is its bit k counted from the left |
| `GcmBytes.CounterCounts` | src/common/aes.h:459-471 | Counting leaves twelve bytes alone and adds to the last four as one big-endian number modulo 2^32 |
| `SpscQueue.StepKeepsInv` | src/common/bounded_threadsafe_queue.h:72-149 | Every action of either side keeps conservation, the ring within its capacity, the ownership of the two mutexes and the pending wakeups; in particular no unread slot is overwritten |
| `SpscQueue.Conservation` | src/common/bounded_threadsafe_queue.h:72-149 | In every reachable state what was popped followed by what the ring holds, read from the read index on, is what was pushed, in order, however often the indices have wrapped at 2^64 |
| `SpscQueue.CallsMoveOneOrNone` | src/common/bounded_threadsafe_queue.h:72-149 | A call that returns true moved exactly one element, for a pop the one it returns; a call that returns false, stopped or not, moved none |
| `SpscQueue.GivesUpOnlyWhen` | src/common/bounded_threadsafe_queue.h:76-131 | A push gives up only on a full ring, a pop only on an empty one or when stop was requested |
| `SpscQueueCalls.PushCall` | src/common/bounded_threadsafe_queue.h:72-104 | In every run, a call of EmplaceWait that returns has pushed its element; one of TryEmplace has pushed it or found the ring full, and never sleeps |
| `SpscQueueCalls.PopCall` | src/common/bounded_threadsafe_queue.h:106-149 | A call of PopWait that returns has popped what it returns; one with a stop token fails only when stop was requested, and always when it had been before; one of TryPop only when the ring was empty, and never sleeps |
| `SpscQueueCalls.FewActions` | src/common/bounded_threadsafe_queue.h:72-149 | A call takes at most eleven actions, or thirteen, before it sleeps or returns, and as many after every sleep or stop request: nothing spins |
| `SpscQueue.StuckMeansWaiting` | src/common/bounded_threadsafe_queue.h:72-149 | When neither side can act, a sleeping producer faces a full ring and a sleeping consumer an empty one and no stop request, never both: no wakeup has been lost |
| `SpscQueue.SlotOfIdx` | src/common/bounded_threadsafe_queue.h:21 | With a capacity that is a power of two, the slot of a wrapped index is the slot of the count |
| `SpscQueue.SlotsAgreeExactlyWhen` | src/common/bounded_threadsafe_queue.h:21 | For every nonzero capacity, wrapped indices and counts agree on every slot exactly when the capacity divides 2^64, which is exactly what the static assertion lets through: the powers of two |
| `MpmcQueue.ActKeepsInv` | src/common/bounded_threadsafe_queue.h:203-246 | Every action of every thread keeps at most one thread in each half of the ring, the owner of that half's mutex, and the invariant of the ring |
| `MpmcQueue.QueueConservation` | src/common/bounded_threadsafe_queue.h:203-246 | Conservation and order for any number of pushing and popping threads in every reachable state |
| `MpmcQueueCalls.PushCallByThread` | src/common/bounded_threadsafe_queue.h:203-215 | The same of the calls of each of many threads: from its entering the ring to its end nobody else has pushed anything, and it has pushed its element, always if it waits and otherwise unless the ring was full |
| `MpmcQueueCalls.PopCallByThread` | src/common/bounded_threadsafe_queue.h:217-240 | Likewise for popping, with waiting, with a stop token and without either |
| `MpmcQueue.AllStuckMeansWaiting` | src/common/bounded_threadsafe_queue.h:203-246 | When no thread can act, every pushing thread is behind a full ring or every popping thread behind an empty one, never both |
| `MpmcQueue.Progress` | src/common/bounded_threadsafe_queue.h:203-246 | In every reachable state in which some thread pushes or wants to and some thread pops or wants to, some thread can act |
| `LruCache.Cache.Insert` | src/common/lru_cache.h:34-38 | The object becomes the last of the list, links and order of ticks are kept |
| `LruCache.Cache.Touch` | src/common/lru_cache.h:40-51 | The object moves to the end with its new tick, unless its tick is already as late; links and order of ticks are kept |
| `LruCache.Cache.Free` | src/common/lru_cache.h:53-58 | The object leaves the list if it is in it; the other objects keep their order and ticks |
| `LruCache.Cache.ForEachItemBelow` | src/common/lru_cache.h:61-80 | The callback is given the longest run of due objects from the front, once each, up to the one it stops at, even if it frees the objects it is given; exactly those freed have left the list. If it never stops, these are exactly the objects with ticks up to the bound exactly when the ticks and the bound agree as `LruCache.BelowExactlyWhen` says |
| `LruCache.BelowExactlyWhen` | src/common/lru_cache.h:64-79 | For ticks in order, the run of due ones is the ticks up to the bound exactly when the list is empty or, for a bound below 2^63, the last tick is below 2^63 or some tick lies between the bound and 2^63, and, for any other bound, the first tick is not below 2^63 |
| `LruCache.WrongWithoutOverflow` | src/common/lru_cache.h:66-68 | For every bound but 2^63 - 1 there is a list for which it goes wrong with no overflow in the comparison |
| `LruCache.Cache.Attach` | src/common/lru_cache.h:83-93 | The node is linked behind the last one |
| `LruCache.Cache.Detach` | src/common/lru_cache.h:95-108 | The node's neighbours are linked to each other |
| `LruCache.DueIsBelow` | src/common/lru_cache.h:66-68 | The signed comparison says what the unsigned one does exactly when both ticks lie in the same half of the 64-bit range, and the difference overflows exactly when they lie in different halves and near each other |
| `Uint128.MultiplyHighIs` | src/common/uint128.h:74-91 | From 32-bit parts in 64-bit words, the result is the product divided by 2^64, rounded down |
| `Uint128.Divide128On32` | src/common/uint128.h:97-113 | The result is the quotient modulo 2^64 and the exact remainder, for every dividend and every nonzero divisor |
| `Uint128.MultiplyAndDivideIs` | src/common/uint128.h:33-37 | The portable branch gives the quotient modulo 2^64 exactly when the product of the two remainders fits in 64 bits |
| `Uint128.ClockIsClose` | src/common/native_clock.cpp:16-26 | With a counter faster than the unit, the converted time is floor(t * n / d) or one less, for every 64-bit t |
| `Uint128.ClockExactlyWhen` | src/common/native_clock.cpp:9-26 | That holds for every t exactly when the counter is faster than the unit |
| `Uint128.ClockNeedsSmallFactor` | src/common/uint128.h:54-57 | With a counter not faster than the unit, the factor loses its whole part and some conversion is off by more than one |
| `Uint128.WholePeriodLosesOne` | src/common/native_clock.cpp:16-26 | One whole period comes out one short exactly when the factor is not exact |
| `Uint128.TimeIsClose` | src/common/native_clock.cpp:16-26 | With a counter faster than the unit, the time since a base that has been read, the base subtracted in 64 bits, is floor((t - base) * n / d) or one less |
| `Uint128.ClockIsMonotone` | src/common/native_clock.cpp:16-26 | With the base subtracted in 64 bits, a later counter never gives an earlier time when both are read after the base or both before; of two readings on different sides the one before the base never gives the earlier time |

## Left out

- SharedFirstMutex.StepKeepsInv: assumes that the compare-exchange in lock() and try_lock_until() fails only on a mismatch, that there are fewer than 2^31 reader holds and fewer than 2^32 threads; the documented starvation of writers means that no fairness is claimed.
- SpscQueue.StepKeepsInv: one call of Emplace and one of Pop at a time is the caller's obligation for the bare queue; construction, move and destruction of elements are plain copies.
- SpscQueue.StuckMeansWaiting: a stop request is one action with its wakeup, and a wait with a stop token does not fall asleep once stop is requested, as the standard library promises.
- ZlibRoundTrip.RoundTrip: requires an initial output size above 0; with 0 the source doubles 0 for ever as soon as there is a byte to write, which `Inflate.ExpandEndsExactlyWhen` states.
- Inflate.ZlibDecode: requires an initial output size above 0, as above; data that runs out is described as padded with zero bits, because the decoder itself adds sixteen of them; which of the damaged streams it then rejects is not characterised further.
- Inflate.ZBuf.ParseZlib: output larger than 2^31 bytes, raw streams without a header and a caller's fixed output buffer are not followed beyond the buffer doubling.
- Deflate.ZlibCompress: lengths are unbounded where the code keeps them in int, so inputs near 2^31 bytes whose output length overflows are not modelled; the hash table is indexed by the same hash, and its lists hold positions instead of pointers.
- PngFilters.EncodeLine: lines are given in the order they are written, so stride and vertical flipping are not modelled; signed characters are bytes modulo 256.
- PngFilters.CreateImage: eight-bit samples without an added alpha channel only; no interlacing and no other depths.
- PngRoundTrip.ImageRoundTrip: requires an initial output size above 0, as above; chunk framing, checksums of chunks and the estimate that picks a filter for each line are left out; any choice of filters is covered.
- JpegBits.BitReader.DecodeCoefficient: placing the value in zigzag order and dequantising it are left out, and so are progressive scans and the segment that carries the tables.
- IntervalSet.IntervalList.DomAdd: requires a nonempty range, because the code has no guard for an empty or reversed one.
- IntervalSet.IntervalList.Add: addresses are natural numbers without an upper end; payloads are abstract, bound by the laws `SubRangeLaw`, `MergeLaw`, `CongruenceLaw` and `DominanceLaw`, which `PlainLaws` and `MappingLaws` show to have models; iterators are indices and `upper_bound` is its definition.
- IntervalSet.IntervalList.ForEachGap: what is given to the callback is collected; the callback does not change the list.
- Aes.EncryptState: a machine that keeps the low byte of a word first.
- CbcMode.EncryptCbc: input and output are distinct buffers and lengths do not wrap; what it does when it leaves its buffer, which `CbcMode.EncryptStaysInside` delimits, is not modelled.
- CbcMode.DecryptCbc: what it does when it leaves its buffers, which `CbcMode.DecryptStaysInside` delimits, is not modelled.
- CbcMode.RoundTrip: requires room for one block for a text of less than a block, for the same reason.
- Gcm.Gctr: the number of blocks is computed in integers where the code rounds a double.
- LruCache.Cache.ForEachItemBelow: the callback frees at most the object it is given and changes nothing else; the comparison does not overflow, as said above.
- LruCache.Cache.Touch: the tick is at least that of every object when it moves the object, as the order of the list presumes.
- Uint128.MultiplyHighIs: the branches that use compiler intrinsics or `__int128` are taken to be exact.
- ECB and CTR modes of AES, key strings, and the fixed-size overloads.
- Memory orders weaker than sequential consistency, cache-line placement and operating-system scheduling.
- Failure of memory allocation.
- The other formats and kernels of the image library: colour conversion, IDCT, resampling and floating-point paths.
- Smaller containers and helpers of src/common whose behaviour is plain from their bodies.
- Windows, files, the debugger and the rest of the emulator.
