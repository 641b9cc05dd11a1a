# Unique IPv4 address counter, modelled in Dafny

The program reads a text file of IPv4 addresses, one per line, and reports how
many distinct addresses it holds. Worker goroutines split their chunks of the
file into lines. They trim each line, parse it with `ipToInt` into a 32-bit
key, and skip the lines that do not parse. Each worker collects its keys in a
local hash set.

Each worker then merges its local set into one global counter, under a mutex.
The global counter starts as a hash set. A merge that would take it past
2^24 keys, counting the two sets' sizes, promotes it to a bitmap of 2^32
bits. The answer is the global counter's count.

This project models that sequential core:

- `GoStrings` (go_strings.dfy) holds byte strings and the two `strings`
  functions the counter relies on. `Split` works on a one-byte separator and
  `TrimSpace` on ASCII white space. They come with their inverse and shape
  lemmas.
- `Address` (address.dfy) holds `ipToInt`:
  - `ParseAddress` is its reference definition, and the method `IpToInt`
    has the source's two loops (the inner one as `PartNumber`) and is proved
    equal to it;
  - there is a `Format` inverse with a round-trip lemma;
  - the running value of a part is a Go `int` of 64 bits, with its
    wrap-around written out.
- `Counters` (counters.dfy) holds `HashSetCounter` and `BitMapCounter` as
  classes whose `Add` updates a field in place. The `Counter` interface
  value is a datatype over the two pointers. The variable `counter`, which
  workers reach through a `*Counter`, is the class `SharedCounter`.
- `Promotion` (promotion.dfy) holds the merge and promotion policy on
  abstract states. `MergeSpec` is one merge and `MergeAll` is a sequence of
  merges in lock order. Lemmas cover the final key set, one-way promotion,
  the memory budget, order independence and the over-counting
  `totalCount`.
- `Worker` (worker.dfy) holds the worker:
  - its accumulation loop over chunks and lines (`Accumulate`);
  - the critical section (`Merge`, with the promotion to a fresh
    `BitMapCounter`);
  - one worker (`RunWorker`);
  - `countUniqueIPs` without the file (`CountUniqueIPs`), proved to return
    the number of distinct keys over all lines of all chunks.
- `Cases` (cases.dfy) holds concrete inputs: cases for the parser and an
  end-to-end example. It also has inputs on which the code, as
  written, accepts what a strict dotted-quad reader would not. These are
  empty parts, non-digit bytes and 20-digit parts that wrap around, and one
  input shows the `num < 0` guard can be reached.

The parser is modelled as the code is written, not as a strict dotted-quad
reader (one to three decimal digits per part, each part from 0 to 255)
would behave. The code never checks that a part is made of digits:

- `part[i] - '0'` is byte arithmetic that wraps modulo 256, and any byte
  is folded in;
- an empty part reads as 0, so `...` is accepted as 0.0.0.0;
- `num` is a Go `int`, so a long part wraps modulo 2^64 and may land back
  in 0..255.

The model keeps all three, and `Cases` shows each on a concrete input.

## Model

| member | source | states |
|---|---|---|
| GoStrings.TrimLeft | main.go:129 | definition: the line without its leading white space; its properties are stated by TrimLeftShape and TrimLeftPadding |
| GoStrings.TrimRight | main.go:129 | definition: the line without its trailing white space; its properties are stated by TrimRightShape and TrimRightPadding |
| GoStrings.TrimSpace | main.go:129 | definition of `strings.TrimSpace` over ASCII white space, as TrimRight after TrimLeft; its properties are stated by TrimSpaceShape, TrimSpaceKeeps, TrimSpaceIdempotent and TrimSpacePadding |
| GoStrings.Split | main.go:165 | `strings.Split` with a one-byte separator gives one more piece than there are separators, and no piece holds the separator |
| GoStrings.JoinSplit | main.go:127 | joining the pieces of a split with the separator restores the original text, so no byte of a chunk is lost |
| GoStrings.SplitJoin | main.go:165 | splitting the join of separator-free pieces gives those pieces back |
| GoStrings.TrimLeftShape | main.go:129 | TrimLeft drops exactly a white-space prefix and leaves nothing, or a text that starts with a non-space byte |
| GoStrings.TrimRightShape | main.go:129 | TrimRight drops exactly a white-space suffix and leaves nothing, or a text that ends with a non-space byte |
| GoStrings.TrimSpaceShape | main.go:129 | TrimSpace leaves the infix between a white-space prefix and a white-space suffix, and that infix has no space at either end |
| GoStrings.TrimSpaceKeeps | main.go:129 | a line with no white space at its ends is left unchanged |
| GoStrings.TrimSpaceIdempotent | main.go:129 | trimming twice is trimming once |
| GoStrings.TrimSpacePadding | main.go:129 | white space added around a line does not change what TrimSpace leaves |
| Address.WrapInt | main.go:172-174 | Go's 64-bit `int` wrap-around: the result lies in [-2^63, 2^63) and equals its input when the input already lies there |
| Address.WrapShift | main.go:174 | values that differ by a multiple of 2^64 wrap to the same `int` |
| Address.WrapStep | main.go:174 | wrapping at every step of `num*10 + d` is the same as wrapping the exact value once |
| Address.Digit | main.go:174 | `int(b - '0')` gives a digit's value for '0'..'9' and a value of 10 or more for any other byte |
| Address.PartValue | main.go:172-175 | definition of the inner loop's `num`: the bytes of a part folded by `num*10 + int(b - '0')` from 0, wrapping as a Go `int` at each step; PartNumber is proved equal to it, and PartValueWraps, LeadingZeros and DecimalValue state its properties |
| Address.PartValueWraps | main.go:172-175 | the inner loop's running `int` is the exact decimal fold of the part wrapped once to 64 bits |
| Address.PackFour | main.go:170-180 | the fold `result = result<<8 \| num` over four values is the big-endian number with those four bytes |
| Address.ParseAddress | main.go:164-182 | a token is accepted exactly when it splits on '.' into four parts whose values are from 0 to 255; the key is then part 1 in the top byte down to part 4 in the bottom byte; every failure carries the token |
| Address.WrongPartCountRejected | main.go:166-168 | a token that does not split into four parts is rejected |
| Address.OutOfRangeRejected | main.go:176-178 | a part whose value is negative or above 255 rejects the whole token |
| Address.InRangeAccepted | main.go:170-181 | four parts with values from 0 to 255 give the packed key |
| Address.PartNumber | main.go:172-175 | the inner loop returns the part's wrapped value |
| Address.IpToInt | main.go:164-182 | the two-loop parser with its early returns returns exactly what ParseAddress specifies |
| Address.WrongDotCountRejected | main.go:165-168 | a token without exactly three dots is rejected |
| Address.EmptyRejected | main.go:165-168 | the empty token splits into one part and is rejected |
| Address.KeyOctets | main.go:179 | every key has four bytes from 0 to 255 that pack back to it |
| Address.AcceptedOctets | main.go:170-181 | the bytes of an accepted key are exactly the values of its four parts |
| Address.DecimalValue | main.go:172-175 | the decimal text of n reads back as n wrapped to a Go `int` |
| Address.FormatRoundTrip | main.go:164-182 | every key's dotted-quad text parses back to that key |
| Address.LeadingZeros | main.go:172-175 | a leading '0' does not change a part's value |
| Address.ParseJoined | main.go:164-182 | four dot-free parts joined by '.' are accepted exactly when they are well formed, and then give their packed value |
| Counters.HashSetCounter.constructor | main.go:30-32 | a new hash-set counter is empty |
| Counters.HashSetCounter.Add | main.go:34-36 | Add stores the key in the map, adds it to the key set, and changes nothing when the key is already there |
| Counters.HashSetCounter.Count | main.go:38-40 | the count is the number of distinct keys held |
| Counters.BitMapCounter.constructor | main.go:46-48 | a new bitmap has every bit clear |
| Counters.BitMapCounter.Add | main.go:50-52 | Add sets bit `ip` and no other, and setting a bit twice is setting it once |
| Counters.BitMapCounter.Count | main.go:54-56 | the count is the number of set bits below the bitmap's size, and equals the number of keys held |
| Counters.Counter.Count | main.go:21-24 | through the interface, either representation counts its distinct keys |
| Counters.SharedCounter.constructor | main.go:81 | the global counter starts as a fresh, empty HashSetCounter |
| Promotion.MergeSpec | main.go:138-158 | reference definition of one critical section, branch by branch: a bitmap absorbs the local keys; a hash set becomes a bitmap of both sets when the two sizes add up past 2^24, and otherwise absorbs them; Worker.Merge is proved equal to it, and MergeShape and MergeWithinBudget state its properties |
| Promotion.MergeAll | main.go:138-158 | definition of the merges of every worker, one after another in lock order; CountUniqueIPs is proved equal to it, and MergeAllKeys, MergeAllKeepsBitmap, MergeAllWithinBudget, ManyKeysPromote and MergeOrderIrrelevant state its properties |
| Promotion.MergeShape | main.go:138-158 | a merge always leaves the union of the global and local keys; a hash set is promoted exactly when the two sizes added exceed 2^24; a bitmap stays a bitmap |
| Promotion.MergeWithinBudget | main.go:139-153 | a merge never leaves a hash set holding more than 2^24 keys, whatever the state before it |
| Promotion.UnionMembers | main.go:126-136 | a key is in the union of the local sets exactly when some worker saw it |
| Promotion.MergeAllKeys | main.go:138-158 | after any sequence of merges the counter holds exactly the initial keys and every local key |
| Promotion.MergeAllKeepsBitmap | main.go:154-157 | once promoted, the counter stays a bitmap |
| Promotion.MergeAllWithinBudget | main.go:139-153 | a counter that is still a hash set never holds more than 2^24 keys, whatever the sequence of merges |
| Promotion.ManyKeysPromote | main.go:139-148 | a run that sees more than 2^24 distinct keys ends with a bitmap |
| Promotion.MergeOrderIrrelevant | main.go:138-159 | the final key set and count do not depend on the order in which the workers take the lock; whether the counter ends as a bitmap may depend on it |
| Promotion.SumBoundsUnion | main.go:114-117 | the discarded `totalCount`, a sum of local counts, is at least the true distinct count |
| Worker.ParseLine | main.go:129-130 | definition of what one line yields: `ipToInt` of the trimmed line; PaddedLine and the Line lemmas of Cases state its properties |
| Worker.LineKeys | main.go:128-135 | definition of the keys one chunk's lines add to the local set, those of the lines that parse; LineKeysMembers and LineKeysStep state its properties |
| Worker.ChunkKeys | main.go:127-135 | definition of the keys of one chunk: LineKeys of its newline-separated lines; EndToEnd gives an example |
| Worker.LocalKeys | main.go:126-136 | definition of a worker's local key set, the keys of all its chunks; Accumulate is proved to fill its HashSetCounter with exactly this set, and LocalKeysMembers and LocalKeysStep state its properties |
| Worker.OkKeysMembers | main.go:130-134 | a key is collected exactly when some line's parse result is that key |
| Worker.LineKeysMembers | main.go:127-135 | a key is a chunk line's key exactly when some line parses to it; lines that do not parse add nothing |
| Worker.LineKeysStep | main.go:128-135 | each further line adds its key if it parses, and nothing otherwise |
| Worker.LocalKeysMembers | main.go:126-136 | a key is in a worker's local set exactly when one of its chunks holds a line that parses to it |
| Worker.LocalKeysStep | main.go:126-136 | each further chunk adds its keys |
| Worker.AllKeysMembers | main.go:122-136 | the keys of all workers are exactly those of the lines of every chunk |
| Worker.DistributionIrrelevant | main.go:88-107 | the final key set depends only on which chunks were read, not on how they were shared among the workers |
| Worker.PaddedLine | main.go:129-130 | white space around an address does not change its key |
| Worker.Accumulate | main.go:124-136 | the accumulation loop fills a fresh local HashSetCounter with exactly the keys of the lines that parse |
| Worker.AddAllToHashSet | main.go:150-152 | adding every local key to the hash set leaves the union of its old keys and the local keys |
| Worker.AddAllToBitMap | main.go:141-147 | adding every key of a set to a bitmap leaves the union of its old keys and that set |
| Worker.Merge | main.go:138-158 | the critical section moves the counter to MergeSpec of its old state: promoted exactly when the sizes add up past 2^24, holding the union; an old bitmap is kept and a promotion installs a fresh one |
| Worker.RunWorker | main.go:122-162 | one worker merges the keys of its chunks into the global counter and reports its local distinct count |
| Worker.CountUniqueIPs | main.go:81-119 | the final count is the number of distinct keys over every line of every chunk, reached by merging the workers in lock order |
| Cases.QuadValue | main.go:164-182 | four dot-free parts with values a, b, c, d from 0 to 255, joined by dots, parse to the key a.b.c.d |
| Cases.Rejected | main.go:164-182 | dot-free parts that are not an acceptable quad, joined by dots, are rejected |
| Cases.ParsesPrivateAddress | main.go:164-182 | "192.168.1.1" is the key 0xC0A80101 |
| Cases.RejectsLargeOctet | main.go:176-178 | "256.1.1.1" is rejected |
| Cases.RejectsThreeParts | main.go:166-168 | "1.2.3" is rejected |
| Cases.RejectsEmptyLine | main.go:129-133 | an empty line is skipped |
| Cases.IgnoresSurroundingSpace | main.go:129-130 | "  10.0.0.1  " has the key of "10.0.0.1" |
| Cases.LeadingZerosAccepted | main.go:172-175 | "001.2.3.4" and "1.2.3.4" are both the key 0x01020304 |
| Cases.EmptyPartsAccepted | main.go:172-175 | as written, "..." is accepted as 0.0.0.0 |
| Cases.NonDigitsAccepted | main.go:174 | as written, "1a.0.0.0" is accepted with first part 1*10 + ('a' - '0') = 59 |
| Cases.OverflowWrapsIntoRange | main.go:172-178 | as written, a first part of 2^64 + 1 wraps to 1, so that token is accepted as 1.1.1.1 |
| Cases.NegativePart | main.go:172-175 | the part 9223372036854775808 (2^63) wraps to -2^63 |
| Cases.NegativePartRejected | main.go:176-178 | a token whose first part has a negative value is rejected |
| Cases.OverflowWrapsNegative | main.go:176-178 | the `num < 0` guard is reachable: a first part of 2^63 wraps negative and the token is rejected |
| Cases.Line10001 | main.go:129-134 | the line "10.0.0.1" has the key 0x0A000001 |
| Cases.Line10002 | main.go:129-134 | the line "10.0.0.2" has the key 0x0A000002 |
| Cases.Line192 | main.go:129-134 | the line "192.168.1.1" has the key 0xC0A80101 |
| Cases.LineNotAnIp | main.go:129-133 | the line "not.an.ip" has no key |
| Cases.FiveResults | main.go:130-134 | two equal keys, one malformed line and two further keys give three distinct keys |
| Cases.EndToEnd | main.go:126-136 | the chunk of lines 10.0.0.1, 10.0.0.1, 10.0.0.2, not.an.ip, 192.168.1.1 yields exactly three keys |
| Cases.EndToEndOneWorker | main.go:81-119 | that chunk handed to the second of three workers gives a final count of 3 |
| Cases.CopiesOfOneChunk | main.go:88-136 | workers that receive only copies of one chunk, at least one copy in all, together hold exactly that chunk's keys |
| Cases.EndToEndCount | main.go:81-119 | however copies of that chunk are shared among any number of workers, at least one copy being read, the final count is 3 |

## Left out

- `main` and the file: opening the file, the reader goroutine and the
  printing are left out. `os.Open` failure is an I/O error path outside
  the core. The chunks each worker receives are a parameter: a sequence of
  byte strings per worker.
- The 1 MB read size: it only decides where chunk boundaries fall. The
  model splits each chunk on its own, so a line cut by a boundary becomes
  two fragments, as in the source.
- Concurrency: the goroutines, the `jobs` and `results` channels, the
  WaitGroup, the mutex and `GOMAXPROCS` are left out. The critical sections
  are serialised by the mutex, and the model runs them one after another in
  the order of the workers in the input, an arbitrary lock order.
  `MergeOrderIrrelevant` and `DistributionIrrelevant` show that the final
  key set and count do not depend on that order or on how chunks are
  assigned. Whether the counter ends as a hash set or a bitmap can depend
  on the order. The size that decides a promotion adds both sets' sizes,
  so it counts shared keys twice. A set of 2^24 - 1 keys merged first
  stays a hash set when two of its own keys follow as single-key sets.
  Merged the other way round, the same sets promote it.
- Worker.CountUniqueIPs: it runs any number of workers instead of exactly
  `workerCount` = 4, because the more general statement includes that case.
- Worker.AddAllToHashSet, Worker.AddAllToBitMap: Go's map iteration order is
  unspecified. These take the keys in an arbitrary order chosen by `:|`, and
  the result does not depend on it.
- The `bitset` library behind BitMapCounter is not part of this model. It is
  represented by the set of indices whose bit is set, and its memory layout
  is not modelled.
- Counters.HashSetCounter.Add, Counters.BitMapCounter.Add: they take a key
  below 2^32 rather than any Go `uint`. Every key the program adds comes
  from `ipToInt`, which returns only such keys (`AcceptedOctets`).
- The `uint` conversions of `len` and of `Count` are left out. They cannot
  overflow for sets of at most 2^32 keys.
- GoStrings.TrimSpace: it trims only ASCII white space. Go's version also
  trims Unicode white space such as U+0085 and U+00A0 encoded in UTF-8. A
  line padded with such a character is therefore rejected by the model
  although the program accepts it: "10.0.0.1" followed by the bytes C2 A0
  keeps them, and its last part folds to 1672.
- Address.WrapInt: it fixes Go's `int` at 64 bits, as on the usual 64-bit
  platforms. A 32-bit build would wrap at 2^32.
- The `init` function (setting GOMAXPROCS) is left out. It has no effect on
  the result.
