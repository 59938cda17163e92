# mlinc core, modelled in Dafny

mlinc is a small neural-network trainer written in C. It covers dense,
LSTM and embedding layers; the linear and AdamW optimizers; mean square
error, cross-entropy and CTC losses; a data pipeline (batching,
shuffling, normalisation, frame packing, class weights); audio feature
extraction (Hann window, zero-crossing rate, delta features, NIST SPHERE
headers); search, statistics and the TIMIT phoneme tooling.

This project models that core and proves its properties. The model
follows the C module by module: one Dafny module per source file or
closely related group of files.

- **C objects that update their state become classes.** These are the
  model container, the dense, LSTM and embedding layers, the CTC context,
  the batch iterator, the random generator, the hash table, the SPHERE
  header and the Hann window. Their fixed-size buffers are `array`s or
  `array2`s, and their methods carry `modifies` clauses.
- **Loops that rewrite arrays become methods with loop invariants.**
  Examples are the matrix kernels, clipping, AdamW, normalisation, delta
  features, the SVD reorder, edit distance, alignment, the top-n search,
  label deduplication and the CTC tables. Each such method is proved
  against a specification function over sequence snapshots of its arrays.
- **Pure computations become functions with lemmas.** Examples are the
  activation values, one-hot coding, djb2 hashing and the phoneme codec.

Floats are modelled as mathematical reals. Transcendental functions
(exp, log, sqrt, tanh, cos, log1p(exp(x))) are parameters. Where a C
integer width matters, it is written out: djb2 works modulo 2^32, and the
Lehmer generator uses int32 Schrage steps and rounds its seed to float.

## Model

| member | source | states |
|---|---|---|
| Zcr.ZeroCrossings | src/feat/zcr.c:4-14 | the count is the number of adjacent pairs that change sign category (>= 0 versus < 0) among the first numSamples samples; the rate is that count over numSamples, undefined (None) for 0 samples |
| Zcr.CrossingsBound | src/feat/zcr.c:7-12 | at most numSamples - 1 crossings are counted |
| Zcr.RateBelowOne | src/feat/zcr.c:13 | with at least one sample the returned rate lies in [0, 1) |
| Zcr.NonNegativeNoCrossings | src/feat/zcr.c:8-9 | a signal that never goes below 0 has no crossing |
| Zcr.CrossingsParity | src/feat/zcr.c:7-12 | the count is even exactly when the first and last samples lie on the same side |
| Hann.Windowed | src/feat/hann.c:26-29 | the windowed frame has the frame's length |
| Hann.MirrorSymmetric | src/feat/hann.c:28-29 | the second half reads only stored coefficients, sample i and sample w-1-i read the same one |
| Hann.WindowSymmetric | src/feat/hann.c:16-29 | the applied window is symmetric about its centre |
| Hann.EndsVanish | src/feat/hann.c:17 | with cos(0) = 1 the first and last windowed samples are 0 |
| Hann.HannWin.constructor | src/feat/hann.c:9-19 | a window starts unset (size 0) with its coefficient buffer |
| Hann.HannWin.HannWindowInit | src/feat/hann.c:9-19 | -1 exactly for a size below 2, above the maximum or odd, changing nothing; otherwise 0, the size recorded and the first winSize/2 coefficients 0.5(1 - cos(2 pi n/(winSize-1))), the rest untouched |
| Hann.HannWin.HannWindow | src/feat/hann.c:21-31 | -1 exactly when the frame size differs from the window's, output untouched; otherwise 0 with the windowed frame in the first winSize entries and the rest untouched |
| Hann.ApplyWindow | src/feat/hann.c:26-29 | the two loops leave the windowed frame in the first w entries and nothing else changed |
| OneHot.OneHotRow | src/numeric/onehot.h:10-12 | a row of width k that is 1 at column c and 0 elsewhere |
| OneHot.FirstArgMax | src/numeric/onehot.h:20-23 | the decoded column lies in the row (0 for an empty row) |
| OneHot.FirstArgMaxIsFirstMax | src/numeric/onehot.h:20-23 | the decoded column holds the row's maximum and every earlier entry is strictly smaller |
| OneHot.DecodeOneHot | src/numeric/onehot.h:6-26 | decoding a one-hot row gives back its class |
| OneHot.OnehotEncode | src/numeric/onehot.h:6-13 | every row of yv becomes the one-hot row of its class |
| OneHot.OnehotDecode | src/numeric/onehot.h:15-26 | each yc[i] is the first arg-max of row i; entries past row M are untouched |
| OneHot.RowArgMax | src/numeric/onehot.h:20-23 | the scan over one row returns its first arg-max |
| OneHot.DecodeOfEncode | src/numeric/onehot.h:6-26 | decode(encode(yc)) == yc for classes in range |
| Clip.ClipValue | src/numeric/clip.h:22-29 | a clipped gradient has magnitude in [gmin, gmax], keeps values already in range, keeps the sign of a positive gradient and sends 0 to -gmin |
| Clip.ClipIdempotent | src/numeric/clip.h:20-31 | clipping twice is clipping once |
| Clip.ClipGradients | src/numeric/clip.h:13-32 | every element of the array is replaced by its clipped value |
| Random.SchrageStep | src/numeric/random.h:23-28 | one step of the generator is the Lehmer step 48271 * seed mod (2^31 - 1), with residue 0 replaced by the modulus, and it stays in [1, modulus] |
| Random.SchrageDecompose | src/numeric/random.h:25-27 | Schrage's intermediate t and both of its products fit in int32, and t is congruent to 48271 * seed modulo the modulus |
| Random.MultiplierCancels | src/numeric/random.h:24-28 | the step maps a seed to 0 modulo the prime only when the seed is 0 or the modulus itself |
| Random.StepKeepsHealthy | src/numeric/random.h:27-28 | a seed in [1, modulus - 1] steps to a seed in [1, modulus - 1] |
| Random.DegenerateSeeds | src/numeric/random.c:8-9 | the seed 0 steps to the modulus, and the modulus steps to itself |
| Random.Mask31 | src/numeric/random.c:8 | seed & 0x7FFFFFFF lies in [0, 2^31 - 1], agrees with the seed modulo 2^31 and leaves a nonnegative seed unchanged |
| Random.ToFloatRange | src/numeric/random.h:29 | the int-to-float rounding of a seed stays in [0, 2^31], keeps a positive seed at least 1, and reaches 2^31 exactly from 2147483584 on |
| Random.ModulusAsFloat | src/numeric/random.h:29 | the modulus 2^31 - 1 rounds to the float 2^31 |
| Random.FloatDrawRange | src/numeric/random.h:29 | the draw lies in [0, 1], is positive for a positive seed, and is exactly 1.0 for every seed from 2147483584 on |
| Random.Affine | src/numeric/random.h:37 | a draw in [0, 1] scales into [min, max] when min <= max |
| Random.AffineTop | src/numeric/random.h:37 | the scaled value is max exactly when the draw is 1.0 (for min < max) |
| Random.ShuffleIndexAsWrittenRange | src/data/batch.c:71 | (int) urand(0, 1 + i) lies in [0, i + 1], and is i + 1 exactly when the draw rounds to 1.0 |
| Random.ShuffleIndex | src/data/batch.c:71 | the intended index lies in [0, i] |
| Random.ShuffleIndexInRange | src/data/batch.c:71 | the intended index is in [0, i] and agrees with the written one on every seed below 2147483584 |
| Random.DrawOnePastEnd | src/data/batch.c:71 | the healthy seed 570515015 steps to 2147483584, whose draw is 1.0, so the written index is i + 1 |
| Random.DegenerateShuffleIndex | src/numeric/random.c:8-9 | with the seed at the modulus every draw is 1.0 and the written index is i + 1 |
| Random.Lrng.constructor | src/numeric/random.c:5 | the generator starts at the prime seed 96431 |
| Random.Lrng.InitLrng | src/numeric/random.c:6-10 | the new seed is the low 31 bits of the argument |
| Random.Lrng.InitLrngHealthy | src/numeric/random.c:6-10 | as init_lrng, except that the degenerate results 0 and the modulus are replaced by the default seed, so the seed stays in [1, modulus - 1] |
| Random.Lrng.Next | src/numeric/random.h:21-31 | the seed takes one Schrage step; the draw is the new seed over the modulus rounded to float, lies in (0, 1] and is 1.0 exactly when the new seed is at least 2147483584; a healthy seed stays healthy |
| Random.Lrng.Urand | src/numeric/random.h:35-39 | the draw of lrng scaled onto [min, max], inside [min, max] when min <= max, after one step of the seed |
| Shuffling.Swap | src/data/batch.c:72-74 | the entries at i and j are exchanged and every other entry is unchanged |
| Shuffling.SwapPermutes | src/data/batch.c:72-74 | a swap keeps the multiset of entries |
| Shuffling.PassStep | src/data/batch.c:70-78 | a pass begins by drawing the next seed and swapping entry i with entry ShuffleIndex(seed, i), then continues from i - 1 |
| Shuffling.PassPermutes | src/data/batch.c:70-78 | one pass keeps the multiset of entries |
| Shuffling.PassesPermute | src/data/batch.c:69-79 | any number of passes keeps the multiset of entries |
| Shuffling.DrawIndex | src/data/batch.c:71 | one generator step, and an index in [0, i] |
| Shuffling.SwapPass | src/data/batch.c:84-89 | the array and the seed after one inner loop are those of the pass specification |
| Shuffling.Shuffle | src/data/batch.c:83-90 | three passes leave the array and the seed as Passes(.., 3) gives them, and the array is a permutation of its old contents |
| EditDist.Min3 | src/stats/editdist.c:6-14 | the result is one of the three arguments and no greater than any of them |
| EditDist.LevSelf | src/stats/editdist.c:16-32 | a sequence is at distance 0 from itself |
| EditDist.LevZero | src/stats/editdist.c:16-32 | only equal sequences are at distance 0 |
| EditDist.LevBounds | src/stats/editdist.c:16-32 | the distance is at least the difference of the lengths and at most the longer length |
| EditDist.LevSymmetric | src/stats/editdist.c:16-32 | the distance is symmetric in its arguments |
| EditDist.EditDistance | src/stats/editdist.c:33-64 | the result is the Levenshtein distance of the two sequences, including the empty-sequence shortcuts |
| EditDist.Row | src/stats/editdist.c:47-53 | one outer step fills every entry j of the new row with the distance between p[..j] and the first i + 1 tokens of t |
| EditDist.LevStep | src/stats/editdist.c:49-52 | the distance obeys the deletion, insertion and substitution recurrence the inner loop computes |
| TimitPhn.IndexOf | src/timit/timitphn.c:87-94 | the index is -1 or a position of the table |
| TimitPhn.IndexOfIsFirst | src/timit/timitphn.c:87-94 | -1 exactly when the name is absent; otherwise the first position holding the name |
| TimitPhn.Search | src/timit/timitphn.c:89-93 | the loop returns the first index of the name, or -1 |
| TimitPhn.EncodePhoneme | src/timit/timitphn.c:87-94 | the first index of the phoneme in the 64-entry table, -1 exactly for a name not in it |
| TimitPhn.DecodePhoneme | src/timit/timitphn.c:96-101 | none (NULL) exactly for a code outside [0, 64), otherwise a name of the table |
| TimitPhn.DecodeEncode | src/timit/timitphn.c:87-101 | decoding the code of a table name gives the name back |
| TimitPhn.EmptyEncodesToZero | src/timit/timitphn.c:69 | the empty name has code 0 |
| TimitPhn.UnknownHasNoCode | src/timit/timitphn.c:87-101 | a name outside the table encodes to -1 and a code outside the range decodes to none |
| TimitPhn.StoreRecord | src/timit/timitphn.c:58-61 | a record keeps the positions and name of its line and stores the name's code as its label, -1 exactly for an unknown name |
| TimitPhn.ScanToken | src/timit/timitphn.c:53 | %4s keeps the first min(length, 4) characters of the token |
| TimitPhn.ScanStored | src/timit/timitphn.c:53 | %4s stores the kept characters and a terminating NUL, at most 5 bytes |
| TimitPhn.AxhOverflowsBuffer | src/timit/timitphn.c:52-71 | the table's own name "ax-h" is kept whole by %4s, which then stores 5 bytes into the 4-byte buffer |
| TimitPhn.EveryPhonemeFits | src/timit/timitphn.c:68-85 | with a 5-byte buffer every table name is stored whole and scans back to its own code |
| AlignSeq.Max3 | src/numeric/alignseq.c:12-20 | the result is one of the three arguments and no smaller than any of them |
| AlignSeq.Choose | src/numeric/alignseq.c:91-106 | a cell takes the best of the three candidate scores; 'D' exactly when the diagonal ties or beats both gaps, 'U' when the gap in t is strictly better than the diagonal and no worse than the gap in p, 'L' otherwise |
| AlignSeq.ScoreBounds | src/numeric/alignseq.c:70-108 | every score lies between -(i + j) and min(i, j) |
| AlignSeq.Emitted | src/numeric/alignseq.c:113-117 | the steps written have length min(alignment length, rlen) |
| AlignSeq.CostAppend | src/numeric/alignseq.c:119-138 | the count of mismatches and gaps adds up over concatenation |
| AlignSeq.TokensSnoc | src/numeric/alignseq.c:119-138 | a 'D' step emits a token of both sequences, 'U' one of p, 'L' one of t |
| AlignSeq.ScoreIsLengthLessCost | src/numeric/alignseq.c:91-93 | with +1 for a match and -1 for a mismatch or gap, a path's score is its length less twice its cost |
| AlignSeq.PathStep | src/numeric/alignseq.c:113-139 | each traceback step moves up, left or diagonally as the direction table says, adds its own score, and agrees with the as-written traceback while inside the table |
| AlignSeq.EndOnEdge | src/numeric/alignseq.c:113 | the traceback as written ends on the top or left edge |
| AlignSeq.EdgePathConsumesP | src/numeric/alignseq.c:113-139 | the traceback as written emits only the tokens of p after the row where it stops |
| AlignSeq.EdgePathConsumesT | src/numeric/alignseq.c:113-139 | the traceback as written emits only the tokens of t after the column where it stops |
| AlignSeq.EdgeTracebackDropsToken | src/numeric/alignseq.c:113 | for p = [1, 2], t = [2] the traceback as written emits one 'D' step with distance 0 and loses the token 1; followed to the corner it emits [gap/1, 2/2] with distance 1 |
| AlignSeq.PathConsumesP | src/numeric/alignseq.c:31-36 | the traceback to the corner emits all of p, in order, gaps aside |
| AlignSeq.PathConsumesT | src/numeric/alignseq.c:31-36 | the traceback to the corner emits all of t, in order, gaps aside |
| AlignSeq.ScoreOfPath | src/numeric/alignseq.c:88-139 | the forward score of a cell is the score of the path traced back from it |
| AlignSeq.CellIsBest | src/numeric/alignseq.c:31-34 | no alignment of the two prefixes scores more than the forward score of their cell |
| AlignSeq.AlignmentOptimal | src/numeric/alignseq.c:31-34 | the alignment produced holds both sequences in full and has the best Needleman-Wunsch score of all alignments |
| AlignSeq.ReversedTwice | src/numeric/alignseq.c:22-29 | reversing twice is the identity |
| AlignSeq.Reverse | src/numeric/alignseq.c:22-29 | the first len entries are reversed in place and the rest are untouched |
| AlignSeq.ReverseBoth | src/numeric/alignseq.c:141-142 | both output buffers hold the traced steps in forward order over their first entries, and nothing after them changes |
| AlignSeq.FillTables | src/numeric/alignseq.c:63-108 | the score and direction tables hold Cell(i, j) in every entry |
| AlignSeq.FillRow | src/numeric/alignseq.c:89-107 | one outer step fills row i + 1 and changes no other row |
| AlignSeq.FillCell | src/numeric/alignseq.c:91-106 | one inner step stores the best score and its direction in cell (i + 1, j + 1) and changes nothing else |
| AlignSeq.Align | src/numeric/alignseq.c:57-150 | -1 when the alignment does not fit in rlen, otherwise its number of mismatches and gaps; rp and rt hold the steps written, in forward order, with gaps as blank, a blank terminator when shorter than rlen, and nothing after it changed |
| AlignSeq.Emit | src/numeric/alignseq.c:110-146 | the backward pass, reversal and terminator leave the buffers and the count that Align promises |
| AlignSeq.TraceStep | src/numeric/alignseq.c:118-138 | one traceback step writes rp[rinx] and rt[rinx] for the step taken, counts a mismatch or gap, and writes nothing else |
| AlignSeq.Traceback | src/numeric/alignseq.c:110-139 | the loop writes min(alignment length, rlen) steps in reverse order, returns -1 when rlen runs out and the cost otherwise, and writes nothing past rinx |
| Embedding.PadTokensAddNothing | src/model/embedding.c:54-55 | with a zero pad row, the context sum equals the sum over the non-pad tokens only |
| Embedding.Occurrences | src/model/embedding.h:131-138 | a token occurs at most M times in a context |
| Embedding.PadShareZero | src/model/embedding.h:134 | pad positions add nothing to the gradient of the pad row |
| Embedding.RowShareCountsOccurrences | src/model/embedding.h:131-138 | a context's share of a token's gradient is its number of occurrences times dy[k]/M |
| Embedding.PadRowGradientZero | src/model/embedding.h:134 | the gradient of the pad row is zero |
| Embedding.AbsentTokenGradientZero | src/model/embedding.h:130-139 | a token absent from the batch gets a zero gradient |
| Embedding.ShareSumIsMean | src/model/embedding.h:143-145 | adding dy[k]/M over the row is the row sum over M |
| Embedding.Embedding.constructor | src/model/embedding.c:24-32 | E and S are the embedding dimension, M the context length, and the pad index is kept |
| Embedding.Embedding.Init | src/model/embedding.c:43-56 | D and B are set, h is zero, and the weights are the uniform draws except a zeroed pad row when the pad index is inside the vocabulary |
| Embedding.Embedding.Reset | src/model/embedding.c:75-78 | reset leaves the layer valid and changes nothing |
| Embedding.Embedding.Forward | src/model/embedding.h:75-93 | (corrected) h[i][k] is the sum of column k of the embeddings of the context's tokens, and h is returned |
| Embedding.Embedding.Backward | src/model/embedding.h:113-149 | gWx[d][k] is the sum of dy[i][k]/M over the non-pad positions holding d; every entry of row i of dx, when given, is the sum of row i of dy over M |
| Embedding.ForwardRow | src/model/embedding.h:89-91 | the middle loop fills row i of h with the context sums and leaves the other rows |
| Embedding.AddEmbedding | src/model/embedding.h:90-91 | the inner loop adds the token's embedding to row i of h |
| Embedding.WeightGradient | src/model/embedding.h:130-139 | the gWx part of backward ends with each entry equal to the token's gradient |
| Embedding.GradientRow | src/model/embedding.h:132-138 | one context adds its share to each gradient entry |
| Embedding.AddShare | src/model/embedding.h:135-136 | the innermost loop adds dy[i][k]/M to row d of gWx only |
| Embedding.InputGradient | src/model/embedding.h:140-148 | every dx[i][j] becomes the sum of row i of dy over M |
| Embedding.SpreadShare | src/model/embedding.h:144-145 | one dx entry becomes the row sum over M, the rest unchanged |
| Embedding.ForwardAsWritten | src/model/embedding.h:87-91 | as written, column j < M of row i holds the sum of all entries of token j's embedding, and the other columns are 0 |
| Embedding.ForwardAsWrittenMixesColumns | src/model/embedding.h:91 | for one context holding token 0 with embedding [1, 2], the code as written puts 3 in column 0 where the context sum is 1 |
| FindSim.SortAsc | src/search/findsim.c:28-31 | sorting keeps the number of entries |
| FindSim.SortDesc | src/search/findsim.c:49-52 | sorting keeps the number of entries |
| FindSim.InsertAscMembers | src/search/findsim.c:13-22 | inserting adds exactly the new entry to the members |
| FindSim.InsertAscPermutes | src/search/findsim.c:13-22 | inserting adds exactly one copy of the new entry |
| FindSim.InsertAscAscending | src/search/findsim.c:13-22 | inserting into an ascending sequence keeps it ascending in the comparator's order |
| FindSim.InsertAscNoDup | src/search/findsim.c:24-27 | inserting a new entry into a sequence without duplicates leaves none |
| FindSim.SortedMembers | src/search/findsim.c:28-31 | sort_asc keeps exactly the entries it was given |
| FindSim.SortAscPermutes | src/search/findsim.c:28-31 | sort_asc is a permutation of its input |
| FindSim.SortAscAscending | src/search/findsim.c:12-31 | sort_asc orders by similarity, then by index, ascending |
| FindSim.SortAscSorts | src/search/findsim.c:12-31 | sort_asc gives a sorted permutation of its input |
| FindSim.SortFacts | src/search/findsim.c:99-105 | after each re-sort the buffer is ascending, without duplicates, with the same entries |
| FindSim.SortAscNoDup | src/search/findsim.c:24-27 | sorting a sequence without duplicates leaves none |
| FindSim.ZeroTopnReadsPastBuffer | src/search/findsim.c:90-102 | with topn == 0 the first data vector makes the loop read sim[0] of an empty buffer |
| FindSim.ScanStepAgrees | src/search/findsim.c:95-106 | for a positive topn the loop body as written and the guarded one agree |
| FindSim.ScanHolds | src/search/findsim.c:93-107 | after i vectors the buffer holds the most similar of them, sorted ascending, without duplicates |
| FindSim.ScanLength | src/search/findsim.c:92-107 | after i vectors the buffer holds min(i, topn) entries |
| FindSim.FirstIsLeast | src/search/findsim.c:76-78 | the first entry of the ascending buffer has the least similarity |
| FindSim.HoldsAfterAppend | src/search/findsim.c:95-100 | a buffer that is not full takes the next vector and keeps its invariant |
| FindSim.HoldsWithNew | src/search/findsim.c:95-100 | the same for any sorted sequence of those entries |
| FindSim.HoldsAfterReplace | src/search/findsim.c:102-106 | a full buffer that swaps its least similar entry for a strictly more similar vector keeps its invariant |
| FindSim.HoldsWithReplaced | src/search/findsim.c:102-106 | the same for any sorted sequence of those entries |
| FindSim.HoldsAfterSkip | src/search/findsim.c:101-102 | a full buffer keeps its invariant when the next vector is not more similar |
| FindSim.TopNCorrect | src/search/findsim.c:54-82 | the result holds min(num_vec, topn) distinct vectors with their similarities, ordered by similarity then index, descending, and no vector left out is more similar than one kept |
| FindSim.SortDescMembers | src/search/findsim.c:49-52 | sort_desc keeps exactly the entries it was given |
| FindSim.SortDescOrder | src/search/findsim.c:33-52 | without duplicates sort_desc orders strictly by similarity, then index, descending |
| FindSim.FindMostSimilar | src/search/findsim.c:83-114 | the count is min(num_vec, topn); similar and similarity hold the indices and similarities of the top entries, and the rest of both arrays is untouched |
| FindSim.CopyIndices | src/search/findsim.c:109-110 | the first cnt entries of similar are the buffer's indices, the rest untouched |
| FindSim.CopySimilarities | src/search/findsim.c:111-112 | the first cnt entries of similarity are the buffer's similarities, the rest untouched |
| Sphere.Find | src/audio/sphere.c:31-33 | index(s, c): -1 exactly when c is absent, otherwise its first position |
| Sphere.CString | src/audio/sphere.c:26-27 | the C string of a buffer is its prefix before the first NUL |
| Sphere.TrimLeft | src/audio/sphere.c:35 | %s skips leading white space: a suffix of s that starts with a non-space |
| Sphere.Word | src/audio/sphere.c:35 | %s reads the leading run of non-space characters, stopping at a space |
| Sphere.NextWord | src/audio/sphere.c:35 | one %s conversion leaves a rest no longer than its input |
| Sphere.LeadingDigits | src/audio/sphere.c:52-61 | atol reads the leading run of decimal digits |
| Sphere.Digit | src/audio/sphere.c:52-61 | a decimal digit has a value below 10 |
| Sphere.Decimal | src/audio/sphere.c:52-61 | a rendering of a number is a nonempty run of digits |
| Sphere.LeadingDigitsOfDigits | src/audio/sphere.c:52-61 | atol's digit run of a rendering is the whole rendering |
| Sphere.ValueOfDecimal | src/audio/sphere.c:52-61 | the digit value of a rendering is the number rendered |
| Sphere.AtolDecimal | src/audio/sphere.c:52-61 | atol reads back every rendered number, with either sign |
| Sphere.CodingIgnoresCase | src/audio/sphere.c:38-49 | the sample coding compares case-insensitively on its first 3, 5 or 4 letters only, and is one of 0, 1, 3, 7 |
| Sphere.SetKey | src/audio/sphere.c:38-64 | the field a line sets is the one its key names |
| Sphere.UnknownKey | src/audio/sphere.c:36-64 | a key that is none of the six names sets nothing and does not end the header |
| Sphere.FindAfter | src/audio/sphere.c:31 | index finds the first newline after a prefix without one |
| Sphere.ScanLine | src/audio/sphere.c:29-66 | a newline-terminated line ends the scan at end_head, otherwise is applied and the scan goes on |
| Sphere.EndHeadStops | src/audio/sphere.c:36-37 | nothing after the end_head line is read |
| Sphere.UnterminatedIgnored | src/audio/sphere.c:31-33 | a last line with no newline is ignored |
| Sphere.PcmWhenAssumed | src/audio/sphere.c:69-70 | the format is PCM exactly when the coding says so, or it was unknown and samples are 2 bytes |
| Sphere.SampleSizeRecovered | src/audio/sphere.c:67-68 | for a sample size below 8192 bytes the bit depth divided by 8 gives it back, and the data size is the sample bytes less the 1024-byte header |
| Sphere.NoSizeNoDepth | src/audio/sphere.c:28-67 | without a sample_n_bytes line the bit depth is 0 |
| Sphere.SphFile.constructor | src/audio/sphere.c:104 | a fresh structure is all zero |
| Sphere.SphFile.Clear | src/audio/sphere.c:104 | memset clears every field |
| Sphere.SphFile.Hdr2Sf | src/audio/sphere.c:23-71 | the fields after hdr2sf are those the header parse gives; the sample counts and mode are untouched |
| Sphere.SphFile.Store | src/audio/sphere.c:67-70 | the tail stores the bit depth, the data size and the PCM default |
| Sphere.SphFile.OpenSphereFile | src/audio/sphere.c:99-141 | success exactly for mode 'r', a readable 1024-byte header with the two NIST_1A lines, whole bytes per sample and PCM; otherwise the structure stays cleared or holds the parsed header; on success the mode is 'r' and the sample counts are set |
| Sphere.SphFile.CountSamples | src/audio/sphere.c:129-136 | fails without whole bytes per sample or for a format other than PCM; otherwise samples per channel is the data size over the sample size and the total is that times the channel count modulo 2^32 |
| Sphere.MagicOnly | src/audio/sphere.c:118-127 | the magic-only header has the 1024 bytes the reader wants |
| Sphere.MagicOnlyText | src/audio/sphere.c:26-27 | its C string is the two magic lines |
| Sphere.TrimSpaces | src/audio/sphere.c:35 | %s drops exactly the leading white space |
| Sphere.NotAKey | src/audio/sphere.c:36-64 | a line whose first word starts with none of 's', 'c' and 'e' sets nothing and does not end the header |
| Sphere.MagicLinesPlain | src/audio/sphere.c:123 | neither magic line holds a newline |
| Sphere.MagicLine1 | src/audio/sphere.c:123 | the first magic line names no field |
| Sphere.MagicLine2 | src/audio/sphere.c:123 | the second magic line names no field |
| Sphere.ScanMagic | src/audio/sphere.c:29-66 | scanning the two magic lines changes nothing |
| Sphere.MagicOnlyDividesByZero | src/audio/sphere.c:123-129 | a header holding only the two magic lines passes the magic check but leaves the bit depth 0, so line 129 divides by zero; the guarded model refuses it |
| HashMap.Djb2 | src/data/hash.h:10-16 | djb2 is 5381 stepped by hash * 33 + c over the characters, in unsigned 32-bit arithmetic, so below 2^32 |
| HashMap.HashOf | src/data/hash.h:20-23 | hash() is djb2 reduced below UINT_MAX / 2, a nonnegative int |
| HashMap.Djb2Hash | src/data/hash.h:10-16 | the loop computes djb2 of the string |
| HashMap.Hash | src/data/hash.h:20-23 | hash() returns HashOf(str), in [0, UINT_MAX / 2) |
| HashMap.StrAt | src/data/hash.h:55-66 | the string at a pool offset is a C string (no NUL) that lies inside the pool |
| HashMap.StoredReadsBack | src/data/hash.c:63-64 | a string copied with its terminator at an offset reads back from that offset |
| HashMap.StoredKept | src/data/hash.c:53-63 | writes at or above mem_used keep every stored string |
| HashMap.SlotStep | src/data/hash.c:73-74 | one more probe moves to the next slot, wrapping to 0, and stays in the table |
| HashMap.ProbeReachesAll | src/data/hash.c:72-76 | every slot is reached within map_size probes from any start |
| HashMap.InjectiveBound | src/data/hash.c:50-51 | at most map_size distinct slots can be claimed |
| HashMap.KeptInterned | src/data/hash.c:63-68 | claiming an empty slot for a new string keeps every earlier string's slot, characters and probe chain |
| HashMap.ClaimKeepsTable | src/data/hash.c:63-68 | storing a new string and claiming the first empty slot of its probe chain keeps the table invariant |
| HashMap.HashMap.constructor | src/data/hash.c:13-27 | every slot is empty, nothing is interned and the pool holds mem_size zero characters |
| HashMap.HashMap.Inx2StrIsKey | src/data/hash.h:63-68 | the string of an index in use is the key interned under it, and "" for any other index |
| HashMap.HashMap.KeyReadsBack | src/data/hash.h:65-66 | the key of index k is found at its slot's pool offset |
| HashMap.HashMap.Str2Inx | src/data/hash.h:51-58 | the home-slot shortcut returns what the full search returns: the index of a present string, -1 for an absent one unless inserted, and a new index for an inserted one |
| HashMap.HashMap.Str2InxInt | src/data/hash.c:42-78 | a present string gives its index and changes nothing; an absent one gives -1 and changes nothing when not inserting or the table is full; otherwise it is appended to the keys with the next index and the pool grows by its length plus one |
| HashMap.HashMap.Probe | src/data/hash.c:44-77 | the probe loop passes only occupied slots holding other strings; it stops at an empty slot, at the string, or after map_size probes |
| HashMap.HashMap.Inspect | src/data/hash.c:47-70 | a slot is empty exactly when its offset is negative; otherwise the comparison says whether it holds the string |
| HashMap.HashMap.ValidReadsBack | src/data/hash.h:55 | every occupied slot reads back the key of its index |
| HashMap.HashMap.Miss | src/data/hash.c:47-69 | at an empty slot the string is absent; it is inserted exactly when asked and there is room |
| HashMap.HashMap.NotInterned | src/data/hash.c:47-76 | a probe chain that misses up to an empty slot or around the whole table shows the string is absent |
| HashMap.HashMap.Full | src/data/hash.c:75-76 | when every slot is occupied all map_size indices are used |
| HashMap.HashMap.Store | src/data/hash.c:52-63 | the string and its terminator are appended to the pool, growing it to mem_size * 3 / 2 + len when needed; the used prefix and the table are untouched |
| HashMap.HashMap.Insert | src/data/hash.c:63-68 | the insertion returns the old map_used as the new index, appends the key, and the key reads back from that index |
| Normalization.SqDevSum | src/numeric/normalize.c:50-55 | a sum of squared deviations is nonnegative |
| Normalization.StandardizeInverse | src/numeric/normalize.c:91-92 | with a positive sdev a standardized value gives back the original |
| Normalization.ConstantColumn | src/numeric/normalize.c:93 | a column of one value has that value as mean and no deviation, the case the else-branch sets to 0 |
| Normalization.StandardizedSumZero | src/numeric/normalize.c:60-97 | standardizing a column by its own mean and a positive sdev leaves values summing to 0 |
| Normalization.StandardizedSum | src/numeric/normalize.c:89-96 | the sum of standardized values is the centred sum over sdev |
| Normalization.ClearPrefix | src/numeric/normalize.c:41-42 | fltclr zeroes the first n entries and leaves the rest |
| Normalization.AddRow | src/numeric/normalize.c:44-45 | one row adds x[i][j] into acc[j] for j < n |
| Normalization.AddSquaredRow | src/numeric/normalize.c:51-54 | one row adds the squared deviation from mean[j] into acc[j] for j < n |
| Normalization.SumColumns | src/numeric/normalize.c:43-46 | the first loop adds each column's sum over M rows |
| Normalization.SumSquaredDeviations | src/numeric/normalize.c:50-55 | the second loop adds each column's squared deviations |
| Normalization.DivideBy | src/numeric/normalize.c:47-48 | the sums become means in place |
| Normalization.RootMean | src/numeric/normalize.c:56-57 | the squared deviations become sqrt(var / M) in place |
| Normalization.CalculateMeanSdev | src/numeric/normalize.c:28-58 | mean and sdev hold the column mean and population standard deviation of every covered column (D, or D - 1 with exc_last); entries past them are unchanged |
| Normalization.StandardizeRow | src/numeric/normalize.c:90-95 | one row is standardized over its first n columns, nothing else changed |
| Normalization.StandardizeRows | src/numeric/normalize.c:89-96 | the first m rows are standardized over their first n columns, nothing else changed |
| Normalization.Normalize | src/numeric/normalize.c:76-97 | the covered columns of every row become (x - mean) / sdev, or 0 when sdev is not positive; the excluded last column is untouched |
| NormData.ZeroVector | src/data/normdata.c:27-28 | the work vector has n zero entries |
| NormData.DivideInto | src/data/normdata.c:33-34 | mean[j] becomes sum[j] / num_vectors for every covered column, the rest unchanged |
| NormData.RootMeanInto | src/data/normdata.c:42-43 | stddev[j] becomes sqrt(var[j] / num_vectors) for every covered column, the rest unchanged |
| NormData.SummaryStats | src/data/normdata.c:14-44 | nothing changes without vectors; otherwise mean and stddev hold the column mean and population standard deviation of every column but the bias |
| NormData.NormalizeData | src/data/normdata.c:51-68 | the first num_vectors rows are standardized over every column but the bias (0 where stddev is not positive); the bias column and later rows are untouched |
| NormData.RawWeights | src/data/normdata.c:83-94 | there is one raw weight per class |
| NormData.ClassWeights | src/data/normdata.c:75-105 | there is one weight per class |
| NormData.AbsentClassWeightZero | src/data/normdata.c:91-94 | a class that never occurs gets weight 0 |
| NormData.WeightsSumToK | src/data/normdata.c:95-100 | the weights sum to the number of classes K |
| NormData.ScaledSumsToCount | src/data/normdata.c:99-100 | scaling by K / sum makes the entries sum to K |
| NormData.WeightTimesFrequency | src/data/normdata.c:91-100 | weights are inversely proportional to class frequency: weight times frequency is the same for every class that occurs |
| NormData.OneHotWeightsDefined | src/data/normdata.c:84-98 | with one-hot labels and at least one labelled vector the sum divided by is positive |
| NormData.InvertFrequencies | src/data/normdata.c:91-94 | each positive frequency f becomes num_vectors / f, the others stay |
| NormData.SumOf | src/data/normdata.c:96-98 | the loop computes the sum of the weights |
| NormData.ScaleWeights | src/data/normdata.c:99-100 | each weight becomes K * w / sum |
| NormData.ClassStats | src/data/normdata.c:75-105 | the class weights are those ClassWeights defines over the first num_vectors labels |
| Accuracy.Deviation | src/stats/accuracy.c:37-44 | a summed squared deviation is nonnegative |
| Accuracy.R2 | src/stats/accuracy.c:25-46 | M(1 - SSres/SStot) is undefined exactly when the truth has no spread, and otherwise at most M |
| Accuracy.Score | src/stats/accuracy.c:45 | the final expression is undefined exactly for a zero total spread, and otherwise at most M |
| Accuracy.PerfectFitScoresM | src/stats/accuracy.c:25-46 | a prediction equal to the truth scores exactly M |
| Accuracy.R2CanBeNegative | src/stats/accuracy.c:25-46 | a prediction worse than the mean scores below 0 (here -3) |
| Accuracy.R2Sum | src/stats/accuracy.c:25-46 | R2_sum returns R2 of its arguments |
| Accuracy.TruthMean | src/stats/accuracy.c:32-36 | the first pass computes the mean of all entries of the truth |
| Accuracy.Spreads | src/stats/accuracy.c:37-44 | the second pass computes the squared error and the squared deviation from the mean |
| Accuracy.Finish | src/stats/accuracy.c:45 | the return computes Score of the two sums |
| Accuracy.RowTotal | src/stats/accuracy.c:34-35 | one row of the first pass sums the truth row |
| Accuracy.RowSpread | src/stats/accuracy.c:40-43 | one row of the second pass computes its squared error and deviation |
| Accuracy.FirstNonzero | src/stats/accuracy.c:77-80 | the label is the first nonzero column of the truth row, or K when there is none |
| Accuracy.FirstNonzeroOneHot | src/stats/accuracy.c:60-63 | the label read off a one-hot row is its class |
| Accuracy.Matches | src/stats/accuracy.c:75-87 | at most M rows match |
| Accuracy.PerfectPredictionMatchesAll | src/stats/accuracy.c:51-52 | a prediction equal to one-hot truth matches every row |
| Accuracy.MatchSum | src/stats/accuracy.c:68-89 | the result is the number of rows whose label equals the first arg-max of the prediction, in [0, M] |
| Accuracy.RowMatches | src/stats/accuracy.c:77-86 | a row matches exactly when its label equals its predicted class |
| Accuracy.TrueClass | src/stats/accuracy.c:77-80 | the label loop stops at the first nonzero entry |
| Accuracy.FirstNonzeroIsFirst | src/stats/accuracy.c:77-80 | any index satisfying the label loop's exit condition is the label |
| Accuracy.Pred | src/stats/accuracy.c:81-84 | the prediction loop finds the first arg-max |
| Delta.SumSqClosedForm | src/feat/delta.c:39-42 | the denominator's sum of squares is w(w + 1)(2w + 1)/6 |
| Delta.WeightIsSquare | src/feat/delta.c:47-52 | window step n adds 2 n^2 to the denominator |
| Delta.DivisorIsDenominator | src/feat/delta.c:39-42 | the integer denominator equals the real one and is at least 2w |
| Delta.ConstantNumeratorZero | src/feat/delta.c:46-52 | a constant feature gives numerator 0 where the window fits |
| Delta.ConstantDeltaZero | src/feat/delta.c:44-55 | a constant feature has delta 0 where the window fits |
| Delta.LinearTerm | src/feat/delta.c:48-51 | on a linear trend a k + b the neighbours at distance n add 2 a n^2 |
| Delta.NumeratorOfSteps | src/feat/delta.c:47-52 | steps that each add a times their weight give a numerator of a times the denominator |
| Delta.LinearSteps | src/feat/delta.c:47-52 | on a linear trend every step inside the frames adds a times its weight |
| Delta.LinearNumerator | src/feat/delta.c:46-52 | on a linear trend the numerator is a times the denominator |
| Delta.DivisorPositive | src/feat/delta.c:39-42 | a window of at least one frame has a positive denominator |
| Delta.ProportionalDelta | src/feat/delta.c:53 | a numerator a times the denominator gives delta a |
| Delta.DeltaFromDenominator | src/feat/delta.c:53 | the numerator over the integer denominator is the delta |
| Delta.LinearDeltaIsSlope | src/feat/delta.c:33-56 | the delta of a linear trend is its slope where the window fits |
| Delta.CalculateDeltas | src/feat/delta.c:33-56 | column doff + f of every frame receives the delta of column soff + f of the original x; every other cell keeps its value |
| Delta.DeltaRow | src/feat/delta.c:45-54 | one frame's deltas are written, nothing else |
| Delta.Denominator | src/feat/delta.c:39-42 | the first loop computes 2 times the sum of squares |
| Delta.WindowSum | src/feat/delta.c:46-52 | the innermost loop computes the numerator, dropping neighbours outside [0, M) |
| PrepData.FrameRows | src/data/prepdata.c:71-87 | a sample gives one row per frame |
| PrepData.Pack | src/data/prepdata.c:53-98 | packing returns at most max rows and one count per sequence processed |
| PrepData.PackCountsAddUp | src/data/prepdata.c:84 | the counts in seq_len add up to the number of rows returned |
| PrepData.PackIsPrefix | src/data/prepdata.c:53-98 | the rows returned are the first min(max, total) rows of all sequences, in order |
| PrepData.EmptySamplesSkipped | src/data/prepdata.c:66-70 | samples without frames contribute nothing |
| PrepData.EmittedIsPrefix | src/data/prepdata.c:64-92 | what has been emitted is a prefix of the sample rows |
| PrepData.CopyLabel | src/data/prepdata.c:80-81 | y[nvec] receives the expected output, nothing else changes |
| PrepData.WriteParameter | src/data/prepdata.c:72 | one more parameter is appended to the current row |
| PrepData.CompleteVector | src/data/prepdata.c:77-84 | a completed row gets its bias 1.0 and its label, and all earlier rows stay stored |
| PrepData.PackStep | src/data/prepdata.c:64-91 | one pass of the sample loop keeps the packing invariant, and stops exactly when max rows are filled |
| PrepData.PackSequence | src/data/prepdata.c:64-92 | the sample loop stores min(rows, room) rows of the sequence and changes nothing else |
| PrepData.NextSample | src/data/prepdata.c:88-91 | moving past a finished sample keeps what was emitted |
| PrepData.CompleteRow | src/data/prepdata.c:73-84 | completing a frame appends its row to what was emitted |
| PrepData.PackUnfold | src/data/prepdata.c:55-97 | a sequence that does not fill the room contributes all its rows and packing continues |
| PrepData.PackAdvance | src/data/prepdata.c:55-97 | packing one more sequence keeps the bookkeeping |
| PrepData.PrepareSequence | src/data/prepdata.c:56-96 | one pass of the sequence loop sets seq_len[seqinx] to 0 and then counts its rows |
| PrepData.PackNext | src/data/prepdata.c:57-92 | the sample loop packs the next sequence's rows after the earlier ones |
| PrepData.PrepareData | src/data/prepdata.c:31-99 | three shuffle passes, then the frames of the shuffled sequences packed into at most max_vectors rows as Pack describes; seq_len gets the counts, the result is the number of rows, later rows are untouched |
| BatchIter.SeqServed | src/data/batch.c:119-130 | in sequence mode a batch serves at most B rows |
| BatchIter.Take | src/data/batch.c:147-164 | a batch takes at most B vectors |
| BatchIter.VecServed | src/data/batch.c:145-153 | in shuffled vector mode a batch serves at most B rows |
| BatchIter.PlainServed | src/data/batch.c:162-170 | in plain mode a batch serves at most B rows |
| BatchIter.Zip | src/data/batch.c:72-77 | the offsets and lengths side by side, pair by pair |
| BatchIter.SeqFitsPermuted | src/data/batch.c:69-79 | shuffling the sequences keeps every one inside x |
| BatchIter.VecFitsPermuted | src/data/batch.c:83-90 | shuffling the index array keeps every index inside x |
| BatchIter.PrefixBelowTotal | src/data/batch.c:37-42 | prefix sums of nonnegative lengths stay below the total |
| BatchIter.SeqBatchInOneSequence | src/data/batch.c:119-130 | a sequence-mode batch lies inside the current sequence and continues from the cursor |
| BatchIter.SeqDrainServesAll | src/data/batch.c:118-143 | successive sequence-mode batches serve every remaining row exactly once, in order |
| BatchIter.VecDrainServesAll | src/data/batch.c:145-161 | successive vector-mode batches serve the rest of the index array, in order |
| BatchIter.PlainIsIdentity | src/data/batch.c:45-50 | plain mode serves what an identity index array would |
| BatchIter.ExhaustedServesNothing | src/data/batch.c:99-101 | past the end of the data a batch serves nothing and the cursor stays |
| BatchIter.Batch.constructor | src/data/batch.c:11-52 | sequence mode exactly when lengths are given and num > 1, with offset k the sum of the lengths before it; otherwise an identity index array when shuffling; the cursor starts at 0 |
| BatchIter.Batch.Shuffle | src/data/batch.c:62-92 | the cursor is rewound; without shuffling nothing else changes; otherwise three swap passes run over the offset and length pairs together, or over the index array |
| BatchIter.Batch.Copy | src/data/batch.c:103-190 | the next served rows are copied into xd (with a trailing 1 under bias) and, when both label arrays exist, into yd; the rest of the batch is padded with 1.0 in xd and 0 in yd; the cursor advances; the count of real rows is returned |
| BatchIter.Batch.NextRows | src/data/batch.c:118-170 | the rows the next batch takes, all inside x |
| BatchIter.Batch.Advance | src/data/batch.c:125-165 | the cursor moves past the served rows; a finished sequence moves on to the next |
| BatchIter.CopyRows | src/data/batch.c:126-129 | row r of the destination becomes row rows[r] of the source, with a trailing 1 under bias; nothing else changes |
| BatchIter.CopyRow | src/data/batch.c:126-129 | one row is copied, with its bias, and no other row changes |
| BatchIter.FillRows | src/data/batch.c:179-188 | the padding rows become v, nothing else changes |
| BatchIter.PrefixOffsets | src/data/batch.c:37-42 | offset k is the sum of the lengths before it and length k is len[k] |
| BatchIter.OffsetsFit | src/data/batch.c:32-36 | prefix-sum offsets keep every sequence inside the total |
| BatchIter.ZipSwap | src/data/batch.c:72-77 | swapping both arrays at the same indices swaps the pairs |
| BatchIter.Identity | src/data/batch.c:47-49 | the index array is 0, 1, ..., num - 1 |
| BatchIter.SwapPairs | src/data/batch.c:70-78 | one pass over the pairs is the pass specification |
| BatchIter.SwapPairsStep | src/data/batch.c:71-77 | one draw and swap of both arrays |
| BatchIter.SwapBoth | src/data/batch.c:72-77 | both arrays have entries i and j exchanged |
| BatchIter.ShufflePairs | src/data/batch.c:69-79 | three passes over the pairs are Passes(.., 3) |
| Activation.SigmoidValue | src/numeric/activation.h:21 | over the reals, 1/(1 + exp(-x)) lies strictly between 0 and 1 |
| Activation.ReluValue | src/numeric/activation.h:39-40 | relu keeps nonnegative values and sends negative ones to 0 |
| Activation.ReluIdempotent | src/numeric/activation.h:32-41 | relu applied twice is relu applied once |
| Activation.DSigmoid1 | src/numeric/activation.h:92-95 | the derivative from the output is z - z^2, positive for z in (0, 1) |
| Activation.DRelu1 | src/numeric/activation.h:128-131 | the derivative is 1 exactly where the output is positive, and 0 elsewhere |
| Activation.DReluOfRelu | src/numeric/activation.h:125-126 | the derivative is the same at x and at relu(x) |
| Activation.DTanhX | src/numeric/activation.h:210-213 | 1 - z^2 lies in (0, 1] for z in (-1, 1) |
| Activation.DTanh | src/numeric/activation.h:194-197 | 1 - tanh(x)^2 lies in (0, 1] for a tanh with values in (-1, 1) |
| Activation.MapRows | src/numeric/activation.h:19-40 | f is applied to every element of the rows, other rows unchanged |
| Activation.Sigmoid | src/numeric/activation.h:14-22 | every element becomes its sigmoid, other rows unchanged |
| Activation.Relu | src/numeric/activation.h:32-41 | every element becomes its relu, other rows unchanged |
| Activation.Shift | src/numeric/activation.h:67-71 | the subtracted value is the larger of 0 and the row maximum: no entry exceeds it, and it is 0 or an entry |
| Activation.Shifted | src/numeric/activation.h:73-74 | each entry becomes exp(p[i] - m) |
| Activation.ShiftedPositive | src/numeric/activation.h:73-74 | with a positive exp every shifted entry is positive |
| Activation.Normalize | src/numeric/activation.h:77-78 | each entry is divided by the sum |
| Activation.SoftmaxRow | src/numeric/activation.h:63-79 | the softmax row has the row's length |
| Activation.SoftmaxIsDistribution | src/numeric/activation.h:51-52 | a softmax row is a probability vector: positive entries summing to 1 |
| Activation.RowShift | src/numeric/activation.h:67-71 | the first loop computes the shift of the row |
| Activation.ExpRow | src/numeric/activation.h:72-76 | the second loop exponentiates the shifted row in place and returns its sum |
| Activation.DivideRow | src/numeric/activation.h:77-78 | the third loop divides the row by s |
| Activation.SoftmaxOneRow | src/numeric/activation.h:64-78 | one row becomes its softmax, the others unchanged |
| Activation.Softmax | src/numeric/activation.h:59-80 | every row becomes its softmax, other rows unchanged; rows of width 0 are left as they are |
| Activation.ScaleByDerivative | src/numeric/activation.h:115-153 | x[i][j] is multiplied by d(z[i][j]) in every row, other rows unchanged |
| Activation.ScaleRow | src/numeric/activation.h:116-117 | one row is multiplied elementwise by the derivative |
| Activation.DSigmoid | src/numeric/activation.h:107-118 | x is multiplied elementwise by z(1 - z) in the first B rows |
| Activation.DRelu | src/numeric/activation.h:143-154 | x is kept where z > 0 and zeroed elsewhere in the first B rows |
| Activation.DSoftmax | src/numeric/activation.h:170-183 | x is multiplied elementwise by z(yt - z) |
| Loss.Trunc | src/numeric/loss.h:43 | (int) truncates toward zero: the floor for nonnegative values, 0 on (-1, 1) |
| Loss.RowCrossEntropyOneHot | src/numeric/loss.h:22-23 | against a one-hot row the cross-entropy is -log(p[c] + 1e-8) |
| Loss.CrossEntropyOfOneHot | src/numeric/loss.h:13-45 | with one-hot targets the dense cross-entropy equals the sparse one |
| Loss.RowSquaredError | src/numeric/loss.h:63-64 | a row's squared error is nonnegative |
| Loss.SquaredError | src/numeric/loss.h:62-64 | the summed squared error is nonnegative |
| Loss.RowSquaredErrorZero | src/numeric/loss.h:63-64 | a row's squared error is 0 exactly when the rows agree |
| Loss.SquaredErrorZero | src/numeric/loss.h:53-66 | the summed squared error is 0 exactly when the first M rows agree |
| Loss.CrossEntropyLoss | src/numeric/loss.h:13-25 | the loss is the summed cross-entropy of all T rows |
| Loss.AddRowCrossEntropy | src/numeric/loss.h:22-23 | the inner loop adds row i's terms |
| Loss.Labels | src/numeric/loss.h:43 | each row's class is its first column truncated |
| Loss.SparseCrossEntropyLoss | src/numeric/loss.h:33-45 | the loss is the sum of -log(p + 1e-8) of each row's labelled class |
| Loss.MeanSquareError | src/numeric/loss.h:53-66 | the result is the square root of the summed squared error (a root-sum-square, not a mean) |
| Loss.RowError | src/numeric/loss.h:63-64 | the inner loop computes row i's squared error |
| Loss.DLdyCrossEntropyLoss | src/numeric/loss.h:77-90 | dy = (yp - yt) / K elementwise |
| Loss.DLdySparseCrossEntropyLoss | src/numeric/loss.h:101-115 | dy = (yp - [j == (int) yt[i][0]]) / K elementwise |
| Loss.GradientRowSumsToZero | src/numeric/loss.h:87-89 | the gradient of a probability row against a one-hot row sums to 0 |
| Loss.DLdyMeanSquareError | src/numeric/loss.h:126-139 | dy = 2(yp - yt) / N / M elementwise |
| Loss.DSquaredErrorZero | src/numeric/loss.h:138 | the gradient is 0 exactly where prediction and target agree |
| AdamW.Pow | src/model/adamw.c:38-39 | beta^n lies in [0, 1] for beta in [0, 1], and at most beta from step 1 on |
| AdamW.CorrectionPositive | src/model/adamw.c:38-39 | the bias-correction divisor 1 - beta^n is positive from the first step on |
| AdamW.FirstMoment | src/model/adamw.c:33 | the first moment is an exponential average: a gradient equal to the moment leaves it |
| AdamW.SecondMoment | src/model/adamw.c:34 | the second moment stays nonnegative |
| AdamW.Corrected | src/model/adamw.c:38-39 | bias correction keeps the sign of the moment |
| AdamW.Step | src/model/adamw.c:14-43 | the rule aborts exactly when v is negative on entry; otherwise the new moments are the averages and v stays nonnegative |
| AdamW.RunNeverAborts | src/model/adamw.c:24-28 | from a nonnegative second moment any number of steps never aborts |
| AdamW.FirstStepUnbiased | src/model/adamw.c:36-39 | on the first step from zero moments the corrected moments are g and g^2 |
| AdamW.StepAgainstMoment | src/model/adamw.c:40-42 | the adaptive part moves the weight against the sign of the new first moment, on top of the decay lr * wd * w |
| AdamW.ZeroGradientDecays | src/model/adamw.c:33-42 | with no gradient and no momentum the step is pure weight decay |
| AdamW.UpdateElement | src/model/adamw.c:65-66 | one element takes the rule's step, or nothing changes when it aborts; no other element changes |
| AdamW.AdamWUpdate | src/model/adamw.c:50-69 | the gradients are clipped in place, then every element takes the rule's step; false exactly when some v was negative |
| AdamW.UpdateRow | src/model/adamw.c:64-67 | the inner loop steps every element of row i, or stops at a negative v |
| Dense.Dense.constructor | src/model/dense.c:25-40 | a created layer has its units and activation tag, and nothing sized (D = B = 0) |
| Dense.Dense.Init | src/model/dense.c:50-63 | D and B are set, Wx (D x S) holds the initial draws and h (B x S) is zero |
| Dense.Dense.SetBatchSize | src/model/dense.c:74-85 | nothing happens before init; a new size reallocates h zeroed, the same size clears it; Wx is untouched |
| Dense.Dense.Reset | src/model/dense.c:104-107 | reset changes nothing |
| Dense.Dense.Forward | src/model/dense.h:81-93 | h becomes the activation of X @ Wx, row by row, and h is returned |
| Dense.Dense.Backward | src/model/dense.h:113-138 | gWx is overwritten with X^T @ dy; dx, when given, becomes dy @ Wx^T scaled elementwise by the sigmoid or ReLU derivative taken at X |
| Dense.InputGradient | src/model/dense.h:129-136 | the dx branch computes dy @ Wx^T times the derivative at X |
| Dense.Create | src/model/dense.c:25-40 | a layer exactly for one of the four activation names (any case), none otherwise (the program exits) |
| Dense.NoActivationIsProduct | src/model/dense.h:86-91 | with activation 'n' the forward pass is exactly the matrix product |
| Layer.ActivationTag | src/model/dense.c:29-32 | the tag a name selects is one of 'n', 's', 'r', 'S' |
| Layer.ActivationNameSelectsTag | src/model/dense.c:29-32 | each tag's own name selects it |
| Layer.ActivationTagAccepts | src/model/dense.c:29-38 | a name is accepted exactly when it is one of the four names up to case |
| Layer.ActivationTagIgnoresCase | src/model/dense.c:29-32 | names differing only in case select the same tag |
| Layer.ActivateRow | src/model/dense.h:87-91 | activation keeps the row's length |
| Layer.ActivateRows | src/model/dense.h:87-91 | every row is activated by itself |
| Layer.ActivatedRange | src/model/dense.h:87-91 | sigmoid values lie in (0, 1), relu values are nonnegative, softmax rows are probability vectors, and 'n' leaves the row unchanged |
| Layer.ApplyActivation | src/model/dense.h:87-91 | the switch activates rows lo..hi-1 in place and leaves the others |
| Layer.InputDerivative | src/model/dense.h:131-136 | the dx factor is 1 for 'n' and 'S', and 0 or 1 for relu |
| Layer.GateDerivative | src/model/lstm.h:216-225 | d_activate is the gate value itself for tags other than 's' and 'r', and positive for a sigmoid gate in (0, 1) |
| LstmCell.Candidate | src/model/lstm.h:163-167 | the candidate is tanh of the gate input, in (-1, 1) |
| LstmCell.StepCell | src/model/lstm.h:150-174 | one step yields gates, candidate, cell and hidden state all of width S |
| LstmCell.SigmoidGate | src/model/lstm.h:105-112 | a sigmoid gate lies in (0, 1) |
| LstmCell.CellGrowth | src/model/lstm.h:168-170 | gates in (0, 1) and a candidate in (-1, 1) add less than 1 to the magnitude of each cell value |
| LstmCell.HiddenBounded | src/model/lstm.h:171-173 | an output gate in (0, 1) keeps the hidden state in (-1, 1) |
| LstmCell.SigmoidHiddenStep | src/model/lstm.h:150-174 | with sigmoid gates every hidden value of a step lies in (-1, 1) |
| LstmCell.SigmoidCellStep | src/model/lstm.h:150-174 | with sigmoid gates a step adds less than 1 to the magnitude of each cell value |
| LstmCell.CellAtIsStep | src/model/lstm.h:150-174 | step t is the step function applied to row t and the state before it |
| LstmCell.SigmoidHiddenBounded | src/model/lstm.h:150-174 | with sigmoid gates every hidden value of every step lies in (-1, 1) |
| LstmCell.CellGrowthBounded | src/model/lstm.h:150-174 | cell values that grow by less than 1 per step have grown by less than t after t steps |
| LstmCell.SigmoidCellBounded | src/model/lstm.h:150-174 | with sigmoid gates each cell value after step t is below its initial magnitude plus t + 1 |
| LstmCell.DeltasOf | src/model/lstm.h:264-302 | the six deltas of a step all have width S |
| LstmCell.NextCarry | src/model/lstm.h:306-313 | what a step passes back has width S |
| LstmCell.CarryAt | src/model/lstm.h:257-313 | what reaches a step from the later ones has width S |
| LstmCell.InputGrad | src/model/lstm.h:314-320 | a row of the input gradient has width D |
| LstmCell.ZeroUpstreamCarry | src/model/lstm.h:263-313 | with dy zero nothing is carried back and every gate delta is zero |
| LstmCell.ZeroUpstreamGradient | src/model/lstm.h:274-304 | with dy zero every weight gradient entry is zero |
| LstmCell.ZeroUpstreamInput | src/model/lstm.h:314-320 | with dy zero the input gradient is zero |
| Lstm.Params.constructor | src/model/lstm.c:70-79 | the weights are allocated and the carried state is zero |
| Lstm.Steps.constructor | src/model/lstm.c:64-69 | the per-batch buffers are allocated zeroed |
| Lstm.Steps.Clear | src/model/lstm.c:152-158 | every per-batch buffer is cleared |
| Lstm.Lstm.constructor | src/model/lstm.c:31-47 | a created layer has its units, tag and stateful flag, and nothing sized |
| Lstm.Lstm.Init | src/model/lstm.c:60-122 | D and B are set, the per-batch buffers and the carried state are zero |
| Lstm.Lstm.SetBatchSize | src/model/lstm.c:133-160 | nothing before init; a new size reallocates the per-batch buffers zeroed, the same size clears them; weights and carried state untouched |
| Lstm.Lstm.Forward | src/model/lstm.h:101-179 | the buffers hold every step of the forward recurrence from the carried state (stateful) or zeros, and the last step's hidden and cell state are carried into ph and pc |
| Lstm.Lstm.Backward | src/model/lstm.h:208-325 | the eight gradients are the sums over steps of the input (or previous hidden state) outer the gate delta, the input gradient rows are the deltas through the W matrices, and the last step's state is carried |
| Lstm.Lstm.Reset | src/model/lstm.c:194-198 | the carried hidden and cell state are zeroed |
| Lstm.Initial | src/model/lstm.h:141-148 | a batch starts from the carried state when stateful, from zeros otherwise |
| Lstm.StateBefore | src/model/lstm.h:132-134 | row t of h and c holds the state step t starts from |
| Lstm.ForwardAdvance | src/model/lstm.h:150-174 | storing step t advances the forward state to t + 1 |
| Lstm.GateRow | src/model/lstm.h:152-154 | one gate row is x[t] @ W + h[t-1] @ U, activated |
| Lstm.CandidateRow | src/model/lstm.h:164-167 | the candidate row is tanh of x[t] @ Wc + h[t-1] @ Uc |
| Lstm.CellRow | src/model/lstm.h:169-170 | the cell row is f c[t-1] + i cc, elementwise |
| Lstm.HiddenRow | src/model/lstm.h:172-173 | the hidden row is o tanh(c), elementwise |
| Lstm.ForwardStart | src/model/lstm.h:121-148 | cleared buffers with the initial state in row 0 are the state before step 0 |
| Lstm.StartForward | src/model/lstm.h:121-148 | the buffers are cleared and row 0 gets the carried state or zeros |
| Lstm.SaveState | src/model/lstm.h:176-177 | the state of the last step is carried into ph and pc |
| Lstm.KeepLast | src/model/lstm.h:323-324 | rows B of h and c are copied into ph and pc |
| Lstm.ForwardStep | src/model/lstm.h:151-173 | one loop step stores the gates, candidate, cell and hidden rows of step t |
| Lstm.PassOf | src/model/lstm.h:226-241 | the pass read off the buffers has the layer's shapes |
| Lstm.DeltaRowIsGate | src/model/lstm.h:244-256 | gradient buffer k is paired with the delta of gate k % 4 in f, i, c, o order |
| Lstm.DeltasEntries | src/model/lstm.h:266-302 | each delta entry is the expression the source computes |
| Lstm.ComputeDeltas | src/model/lstm.h:266-302 | the deltas dh, do, dc, dcc, di, df of step s are stored |
| Lstm.OuterStep | src/model/lstm.h:274-304 | one addoutermul adds the input row outer the gate delta |
| Lstm.AddOuter | src/model/lstm.h:274 | addoutermul adds v[i] w[j] into every entry |
| Lstm.AccumulateGrads | src/model/lstm.h:274-304 | the eight addoutermul calls of a step update all gradients, in any order |
| Lstm.AddInnerTerm | src/model/lstm.h:308 | addinnermul adds one delta times the transpose of its matrix |
| Lstm.AddGateTerms | src/model/lstm.h:308-311 | the four gate deltas through their matrices are added into one row |
| Lstm.CarryHidden | src/model/lstm.h:307-311 | dh_next is cleared and gets the four gate deltas through the U matrices |
| Lstm.CarryCell | src/model/lstm.h:312-313 | dc_next becomes f[t] dc |
| Lstm.CarryStep | src/model/lstm.h:306-313 | dh_next and dc_next hold what step s passes back |
| Lstm.InputRow | src/model/lstm.h:314-320 | row s of dx is cleared and gets the gate deltas through the W matrices |
| Lstm.InputStep | src/model/lstm.h:314-320 | the input gradient of step s is stored when dx is given |
| Lstm.LocalStep | src/model/lstm.h:264-320 | the deltas, carry and input gradient of step s are stored |
| Lstm.BackStep | src/model/lstm.h:263-321 | one loop step leaves the backward state advanced to step s |
| Lstm.BackwardLoop | src/model/lstm.h:262-321 | the loop from B - 1 down to 0 leaves every gradient and input row as specified |
| Lstm.Gradients | src/model/lstm.h:243-321 | cleared buffers, zero carry, then the loop give the specified gradients |
| Lstm.ClearGrads | src/model/lstm.h:248-256 | the cleared gradients are the sums over no steps |
| Lstm.Create | src/model/lstm.c:31-47 | a layer exactly for one of the four activation names, none otherwise; any nonzero stateful argument means stateful |
| Ctc.LogSumExpIdentity | src/numeric/ctc.c:54-57 | -INFINITY is an identity of logsumexp on either side |
| Ctc.LogSumExpCommutes | src/numeric/ctc.c:54-59 | logsumexp does not depend on the order of its arguments |
| Ctc.LogSumExpNegInf | src/numeric/ctc.c:54-59 | logsumexp is -INFINITY exactly when both arguments are |
| Ctc.Merge | src/numeric/ctc.c:108-110 | merging is no longer than its input, empty only for empty input, and keeps the first and last labels |
| Ctc.MergeSnoc | src/numeric/ctc.c:108-110 | a label appended is kept unless it repeats the last kept one |
| Ctc.MergeNoRepeats | src/numeric/ctc.c:108-110 | the merged sequence has no two equal neighbours |
| Ctc.MergeKeepsLabels | src/numeric/ctc.c:108-110 | merging keeps exactly the labels that occur |
| Ctc.MergeOfNoRepeats | src/numeric/ctc.c:108-110 | a sequence without repeats is its own merge, so merging is idempotent |
| Ctc.Strip | src/numeric/ctc.c:111-113 | stripping is no longer than its input and holds no blank |
| Ctc.StripSnoc | src/numeric/ctc.c:111-113 | a label appended survives stripping exactly when it is not the blank |
| Ctc.StripKeepsLabels | src/numeric/ctc.c:111-113 | stripping keeps exactly the labels other than blank |
| Ctc.StripOfPlain | src/numeric/ctc.c:111-113 | a sequence without blanks is its own strip |
| Ctc.Collapse | src/numeric/ctc.c:74-113 | the decoded labels are no more than the steps and hold no blank |
| Ctc.Padded | src/numeric/ctc.c:125-131 | the padded label has length 2n + 1 |
| Ctc.PaddedAt | src/numeric/ctc.c:125-131 | blanks at the even positions, the labels in order at the odd ones |
| Ctc.PaddedNoRepeats | src/numeric/ctc.c:125-131 | a padded label of blank-free labels has no repeats |
| Ctc.StripPadded | src/numeric/ctc.c:125-131 | removing the blanks from the padded label gives the labels back |
| Ctc.CollapsePadded | src/numeric/ctc.c:107-131 | the padded label is an alignment that decodes back to the labels |
| Ctc.SkipOnPadded | src/numeric/ctc.c:164-165 | on a padded label the two-position skip is allowed exactly between two different labels |
| Ctc.SkipMirror | src/numeric/ctc.c:164-189 | the backward skip from s is the forward skip into s + 2 |
| Ctc.AlphaFullUnreachable | src/numeric/ctc.c:152-167 | without pruning, positions from 2(t + 1) on are still -INFINITY at step t |
| Ctc.BetaFullUnfinishable | src/numeric/ctc.c:176-191 | without pruning, positions before S - 2(T - t) are -INFINITY at step t |
| Ctc.AlphaPruned | src/numeric/ctc.c:152-168 | the pruned forward table agrees with the full recursion from Start on |
| Ctc.BetaPruned | src/numeric/ctc.c:176-192 | the pruned backward table agrees with the full recursion before End |
| Ctc.Products | src/numeric/ctc.c:198 | alpha + beta taken entry by entry |
| Ctc.PruningExact | src/numeric/ctc.c:153-199 | the pruning of Equation 7.9 and 7.16 loses no mass: every product alpha + beta equals that of the full tables |
| Ctc.MassOfLabelBelow | src/numeric/ctc.c:250-253 | no position carrying mass means no label carries mass |
| Ctc.MassOfAbsentLabel | src/numeric/ctc.c:250-253 | a label absent from the padded label has mass -INFINITY |
| Ctc.Probs | src/numeric/ctc.c:195-200 | one probability per step, each the logsumexp over all positions |
| Ctc.LossInfinite | src/numeric/ctc.c:201-204 | the loss is infinite exactly when some step has probability 0 |
| Ctc.SumInfinite | src/numeric/ctc.c:201-203 | the running sum is infinite exactly when one of its terms is -INFINITY |
| Ctc.SumFinite | src/numeric/ctc.c:201-204 | a finite running sum is the negated sum of the probabilities |
| Ctc.GradCases | src/numeric/ctc.c:248-257 | the gradient is NaN exactly at steps of probability 0; an absent label gets exp of its prediction |
| Ctc.LogTable | src/numeric/ctc.c:102-105 | the log predictions have T rows of the input's widths |
| Ctc.ArgMaxes | src/numeric/ctc.c:107-116 | one decoded class per step, each a column index |
| Ctc.LatticeWellFormed | src/numeric/ctc.c:107-131 | every decoded label is a column, so the lattice of a nonempty batch is well formed |
| Ctc.LatticeFits | src/numeric/ctc.c:102-131 | the buffers ctc_loss fills hold the lattice |
| Ctc.Context.constructor | src/numeric/ctc.c:22-37 | buffers for T steps of L classes, padded label sized 2T + 1, tables T x (2T + 1) |
| Ctc.Context.Loss | src/numeric/ctc.c:86-205 | INFINITY for T = 0; otherwise both decoded sequences, the padded label, both pruned tables, the step probabilities and loss = mean of the negated probabilities |
| Ctc.Context.SetLengths | src/numeric/ctc.c:114-131 | the stored lengths are those computed |
| Ctc.Context.Gradient | src/numeric/ctc.c:229-258 | every entry (t, l) is exp(yp[t][l]) - exp(mass of l - prob[t]), NaN where prob[t] is -INFINITY |
| Ctc.Context.Accuracy | src/numeric/ctc.c:281-292 | the factor is computed from the sequences the last loss decoded |
| Ctc.Prepare | src/numeric/ctc.c:101-131 | the log predictions, both decoded sequences and the padded label, with their lengths |
| Ctc.DecodeBoth | src/numeric/ctc.c:107-123 | both decoded sequences and their lengths |
| Ctc.LossInto | src/numeric/ctc.c:101-204 | for T >= 1 the buffers hold the lattice and the tables, and the loss is that of the step probabilities |
| Ctc.Score | src/numeric/ctc.c:136-204 | both tables and the probabilities are filled and the loss summed from them |
| Ctc.GradientRow | src/numeric/ctc.c:249-256 | row t of the gradient, other rows unchanged |
| Ctc.GradientCell | src/numeric/ctc.c:250-255 | entry (t, l) of the gradient, others unchanged |
| Ctc.LogInto | src/numeric/ctc.c:102-105 | the buffer holds the log of the first T rows |
| Ctc.DecodeLabels | src/numeric/ctc.c:107-114 | arg-max, merge and strip in place yield the decoded sequence |
| Ctc.MergeInPlace | src/numeric/ctc.c:108-110 | the merge loop leaves Merge of the input in the prefix |
| Ctc.MergeStep | src/numeric/ctc.c:109-110 | one merge step keeps c[i] unless it repeats c[j] |
| Ctc.StripInPlace | src/numeric/ctc.c:111-113 | the strip loop leaves Strip of the merged labels in the prefix |
| Ctc.StripStep | src/numeric/ctc.c:112-113 | one strip step moves c[i] down unless it is the blank |
| Ctc.BuildPadded | src/numeric/ctc.c:125-131 | the padded label is built with length 2n + 1 |
| Ctc.FillNegInf | src/numeric/ctc.c:136-138 | the first T x S entries become -INFINITY |
| Ctc.AlphaFirst | src/numeric/ctc.c:144-151 | row 0 of alpha is Equations 7.5 to 7.7; with S = 1 column 1 gets the blank's prediction |
| Ctc.AlphaNext | src/numeric/ctc.c:152-168 | row t of alpha is computed from row t - 1, other rows unchanged |
| Ctc.AlphaCell | src/numeric/ctc.c:160-166 | one cell of the forward step |
| Ctc.ClearRange | src/numeric/ctc.c:157-182 | a column range of one row becomes -INFINITY, nothing else changes |
| Ctc.AlphaTable | src/numeric/ctc.c:144-168 | every row of alpha is the pruned forward row |
| Ctc.BetaLast | src/numeric/ctc.c:170-175 | the last row of beta is Equations 7.12 to 7.14 |
| Ctc.BetaPrev | src/numeric/ctc.c:176-192 | row t of beta is computed from row t + 1, other rows unchanged |
| Ctc.BetaCell | src/numeric/ctc.c:185-190 | one cell of the backward step, with the yp[t + 1] correction of Equation 7.15 |
| Ctc.BetaTable | src/numeric/ctc.c:170-192 | every row of beta is the pruned backward row |
| Ctc.FillTables | src/numeric/ctc.c:136-200 | both tables and every step probability are filled |
| Ctc.MassAt | src/numeric/ctc.c:197-253 | the logsumexp of alpha + beta over the positions of label l, or all positions |
| Ctc.ProbTable | src/numeric/ctc.c:195-200 | every step's probability |
| Ctc.StepProb | src/numeric/ctc.c:196-199 | the probability of one step |
| Ctc.LossSum | src/numeric/ctc.c:201-204 | the mean of the negated probabilities, INFINITY once one is -INFINITY |
| Ctc.AccuracyRange | src/numeric/ctc.c:260-292 | the factor lies in [0, T] and is T exactly when the decoded sequences agree |
| Matrix.Snap | src/numeric/array.h:24-27 | an N x M array read as N rows of M entries, entry for entry |
| Matrix.RowOf | src/numeric/array.h:24-27 | row i of an array, entry for entry |
| Matrix.Col | src/numeric/array.h:37-50 | column j has one entry per row, each that row's entry j |
| Matrix.Transpose | src/numeric/array.h:172-187 | the transpose is cols x rows with t[j][i] = m[i][j] |
| Matrix.Product | src/numeric/array.h:29-50 | x @ y is n x p with entry (i, j) the dot product of row i and column j |
| Matrix.Eye | src/numeric/array.h:222-231 | the identity: 1 on the diagonal, 0 elsewhere |
| Matrix.VecMat | src/numeric/array.h:100-122 | v @ m has one entry per column, the dot product with that column |
| Matrix.TransposeInvolution | src/numeric/array.h:172-187 | transposing twice gives the matrix back |
| Matrix.DotUnit | src/numeric/array.h:29-50 | a dot product with a unit vector picks out one entry |
| Matrix.DotZeroLeft | src/numeric/array.h:29-50 | a dot product with the zero vector is 0 |
| Matrix.EyeLeftUnit | src/numeric/array.h:222-231 | the identity is a left unit of the product |
| Matrix.DotSymmetric | src/numeric/array.h:29-50 | the dot product is symmetric |
| Matrix.ProductTranspose | src/numeric/array.h:52-98 | (x @ y)^T = y^T @ x^T, the identity that relates matmulT and Tmatmul to matmul |
| Matrix.Clear | src/float.h:29 | fltclr sets every entry of an array to 0 |
| Matrix.ClearVec | src/float.h:29 | fltclr on a vector sets every entry to 0 |
| Matrix.ClearRow | src/float.h:29 | fltclr on one row zeroes it and leaves the others |
| Matrix.CopyToRow | src/float.h:45 | fltcpy of a vector into row r, other rows unchanged |
| Matrix.CopyFromRow | src/float.h:45 | fltcpy of row r into a vector |
| Matrix.ColOf | src/numeric/array.h:85-98 | column j of an array, entry for entry |
| Matrix.AccumulateDot | src/numeric/array.h:46-49 | the terms accumulated into one cell sum to the dot product |
| Matrix.MatMul | src/numeric/array.h:37-50 | matmul leaves r = x @ y |
| Matrix.MatMulT | src/numeric/array.h:61-74 | matmulT leaves r = x @ y^T |
| Matrix.TMatMul | src/numeric/array.h:85-98 | Tmatmul leaves r = x^T @ y |
| Matrix.AddScaledRow | src/numeric/array.h:119-121 | one pass of addvecmatmul adds a times a row of m to row ri, other rows unchanged |
| Matrix.AddScaledCol | src/numeric/array.h:143-145 | one pass of addinnermul adds a times a column of m to row ri, other rows unchanged |
| Matrix.AddVecMatMul | src/numeric/array.h:107-122 | addvecmatmul adds v @ m to row ri, other rows unchanged |
| Matrix.AddInnerMul | src/numeric/array.h:131-146 | addinnermul adds w @ m^T to row vi, other rows unchanged |
| Matrix.AddOuterMul | src/numeric/array.h:156-170 | addoutermul adds v[i] w[j] to every entry (i, j) |
| Matrix.TransposeInto | src/numeric/array.h:175-187 | transpose leaves mt = m^T |
| Matrix.Diagonal | src/numeric/array.h:189-204 | the diagonal has min(N, M) entries, entry i being m[i][i] |
| Matrix.DiagonalMatrix | src/numeric/array.h:206-220 | the square matrix with v on the diagonal and 0 elsewhere |
| Matrix.DiagonalRoundTrip | src/numeric/array.h:189-220 | matdiag of diagmat(v) is v again |
| Matrix.EyeIsDiagonalOfOnes | src/numeric/array.h:206-231 | mateye is diagmat of a vector of ones |
| Matrix.MatDiag | src/numeric/array.h:192-204 | matdiag leaves the diagonal in v |
| Matrix.DiagMat | src/numeric/array.h:209-220 | diagmat leaves the diagonal matrix of v |
| Matrix.MatEye | src/numeric/array.h:224-231 | mateye leaves the identity |
| Matrix.VecMatIsProduct | src/numeric/array.h:100-122 | addvecmatmul's product is the one-row case of matmul |
| Matrix.InnerIsVecMatTranspose | src/numeric/array.h:124-146 | addinnermul's w @ m^T is the vector-matrix product with the transpose |
| Svd.Rotate | src/decomp/svd.c:371-399 | one pass moves entry i to position p and shifts p..i-1 up by one |
| Svd.RotatePermutes | src/decomp/svd.c:371-399 | a pass only rearranges the entries |
| Svd.RotCols | src/decomp/svd.c:374-394 | every row of u is rotated the same way, so column i moves to column p |
| Svd.Permuted | src/decomp/svd.c:344-348 | entry k of the reordered sequence is the original entry perm[k] |
| Svd.PermCols | src/decomp/svd.c:344-348 | every row of a matrix permuted the same way |
| Svd.PermutedRotate | src/decomp/svd.c:371-399 | permuting by a rotated index list is rotating the permuted sequence |
| Svd.PermutedIota | src/decomp/svd.c:344-348 | the identity permutation changes nothing |
| Svd.PermStep | src/decomp/svd.c:371-399 | after pass i the index list is still a permutation that has moved only positions up to i |
| Svd.InsertExtendsOrder | src/decomp/svd.c:381-390 | inserting entry i where the scan stops extends a descending, stable prefix by one |
| Svd.Reconstruct | src/decomp/svd.c:344-348 | u diag(q) vt, entry by entry, as the sum of u[r][k] q[k] vt[k][c] |
| Svd.SumRotate | src/decomp/svd.c:344-348 | a rotation does not change a sum |
| Svd.RotateKeepsProduct | src/decomp/svd.c:344-399 | moving q[i], column i of u and row i of vt to p together leaves u diag(q) vt unchanged |
| Svd.TermsRotate | src/decomp/svd.c:344-348 | rotating the factors rotates the terms of each entry |
| Svd.AlreadyOrdered | src/decomp/svd.c:364-369 | the "already ordered" scan stops at n - 2, so the early return is taken exactly when there is a single value |
| Svd.SortFactors | src/decomp/svd.c:59-78 | without A nothing changes; with S the values end descending and stably permuted by a returned permutation, U's columns (when U is given) and Vt's rows (when Vt is given) follow that same permutation, each on its own, and u diag(s) vt is kept, tall or wide |
| Svd.Reorder | src/decomp/svd.c:349-400 | q ends descending and stable, a permutation of its input; u's columns and vt's rows follow the same permutation, so u diag(q) vt is preserved |
| Svd.Pass | src/decomp/svd.c:371-399 | pass i extends the sorted prefix and the permutation by one |
| Svd.InsertStep | src/decomp/svd.c:372-398 | entry i moves down past every strictly smaller entry and lands at p, with its column of u and row of vt |
| Svd.SaveCol | src/decomp/svd.c:374-376 | u_t is a copy of column i of u |
| Svd.SaveRow | src/decomp/svd.c:377-379 | vt_t is a copy of row i of vt |
| Svd.PlaceEntry | src/decomp/svd.c:390 | the saved value fills the hole and completes the rotation |
| Svd.PlaceCol | src/decomp/svd.c:392-394 | the saved column fills the hole in u |
| Svd.PlaceRow | src/decomp/svd.c:396-398 | the saved row fills the hole in vt |
| Svd.Shifted | src/decomp/svd.c:381-389 | during the scan the entries j + 1..i - 1 have moved up by one |
| Svd.ShiftedCols | src/decomp/svd.c:383-385 | the columns of u shift the same way |
| Svd.ShiftStep | src/decomp/svd.c:382 | copying entry j up moves the scan one step down |
| Svd.ShiftThenPlace | src/decomp/svd.c:381-390 | filling the hole after the scan completes the rotation |
| Svd.ScanDown | src/decomp/svd.c:381-389 | the scan shifts up every entry strictly smaller than the saved value and stops at the first that is not |
| Svd.ShiftOnce | src/decomp/svd.c:382-388 | one scan step shifts q, a column of u and a row of vt |
| Svd.ShiftCol | src/decomp/svd.c:384-385 | column j of u is copied to column j + 1 |
| Svd.ShiftRow | src/decomp/svd.c:387-388 | row j of vt is copied to row j + 1 |
| Svd.PutCol | src/decomp/svd.c:393-394 | column p of u receives the saved column |
| Svd.PutRow | src/decomp/svd.c:397-398 | row p of vt receives the saved row |
| Timit.Unmark | src/prog/timit.c:48-49 | an entry at or above EOP loses the mark, others are unchanged |
| Timit.CountMarked | src/prog/timit.c:47-51 | no more marked entries than entries |
| Timit.UnmarkClears | src/prog/timit.c:47-52 | labels below 2 EOP carry the mark at most once, so unmarking leaves none marked |
| Timit.CountPhoneme | src/prog/timit.c:44-54 | count_phoneme returns the number of marked entries among the first len, unmarks exactly those, and leaves the rest; a negative len counts nothing |
| Timit.Dedup | src/prog/timit.c:63-66 | the kept labels are no more than the input |
| Timit.Merge | src/prog/timit.c:65 | merging runs keeps the last label |
| Timit.DedupIsMergeOfStrip | src/prog/timit.c:57-68 | dedup_labels strips the blanks first and merges repeats second, so a, blank, a gives a |
| Timit.DedupClean | src/prog/timit.c:57-68 | the kept labels hold no blank and no two equal neighbours |
| Timit.DedupOfClean | src/prog/timit.c:57-68 | a clean list is its own dedup |
| Timit.DedupIdempotent | src/prog/timit.c:57-68 | dedup_labels is idempotent |
| Timit.DedupLabels | src/prog/timit.c:60-68 | the first k labels become the dedup of the first len, the rest unchanged, and k is returned |
| Model.LayerCode | src/model/model.c:112-120 | 'd' exactly for "dense", 'l' exactly for "lstm", up to case; no code for any other name |
| Model.LossCode | src/model/model.c:138-140 | each known loss name sets its code and any other name keeps the previous code |
| Model.OptimizerCode | src/model/model.c:146-147 | each known optimizer name sets its code and any other name keeps the previous code |
| Model.UnknownLossKeepsEarlier | src/model/model.c:138-145 | once a loss is set, a later compile with an unknown loss name keeps it and does not stop |
| Model.FirstEmpty | src/model/model.c:104-106 | the first empty slot, or the slot count when all are taken |
| Model.AddKeepsPacked | src/model/model.c:101-125 | adding keeps the slots packed and moves the first empty slot one on, so layers take slots in the order they are added |
| Model.GradLayout | src/model/model.c:186-236 | 1 or 3 buffers per weight matrix for linear or adamw; buffers k, k + n, k + 2n have the same rows; LSTM buffers are D x S for the W matrices and S x S for the U matrices |
| Model.Resized | src/model/model.c:253-259 | after a resize every filled, initialised layer has the new size and the others keep theirs |
| Model.ResizedIdempotent | src/model/model.c:248-264 | resizing twice to the same size is resizing once |
| Model.ResizedShared | src/model/model.c:248-264 | layers sharing a nonzero size share the new one; a size of 0 at compile time leaves them at 0 |
| Model.FirstZero | src/model/model.c:433-437 | the index of the batch count that ends the epoch loop |
| Model.ScheduleCovers | src/model/model.c:839-858 | with complete segments an epoch's rates come from the segment covering it, and past the end from the last one |
| Model.Model.constructor | src/model/model.c:59-71 | every slot empty, the flags normalised to 0 or 1, nothing compiled |
| Model.Model.Add | src/model/model.c:101-125 | fails exactly when all slots are taken or the type is neither dense nor lstm; otherwise the first empty slot receives the layer |
| Model.Model.SetBatchSize | src/model/model.c:248-264 | nothing for the current size; otherwise every layer is resized and an existing CTC context is recreated for the new size |
| Model.Model.ResetState | src/model/model.c:32-41 | no layer carries state afterwards |
| Model.Model.RunBatch | src/model/model.c:440 | after a forward pass every stateful layer carries state |
| Model.Model.FitEpoch | src/model/model.c:431-475 | the batch loop ends at the first empty batch, the state is reset before the first batch and after every short batch, and the samples are counted |
| Model.Model.Fit | src/model/model.c:423-475 | each epoch takes its rates from the schedule when there is one and runs one epoch |
| Model.Model.Update | src/model/model.c:701-754 | the update count rises by one and every filled layer's weights get their linear or adamw step; fails exactly on a negative second moment under adamw |
| Model.Model.LayerPairsShaped | src/model/model.c:186-236 | the buffers compile allocates have the shapes update pairs them with |
| Model.Model.Compile | src/model/model.c:136-237 | the loss and optimizer codes are stored; fails exactly when either is still unset or there is no slot; otherwise dimensions are chained, the output dimension taken from the last slot and the buffers allocated |
| Model.Model.Build | src/model/model.c:159-236 | the statistics are sized, every layer gets the previous layer's units as input, the output dimension and CTC context are set |
| Model.Model.ChainLayers | src/model/model.c:166-177 | each filled slot is initialised with the previous filled slot's units as input and the batch size |
| Model.Model.AllocateGrads | src/model/model.c:186-236 | each filled slot gets its zeroed buffers, all distinct |
| Model.NewGrads | src/model/model.c:193-232 | the buffers of one layer: the right number, fresh, zeroed and of the right shapes |
| Model.LinearStepDescends | src/model/model.c:685-698 | without weight decay a step moves against the sign of the gradient by lr times its clipped magnitude; a zero gradient still moves the weight up |
| Model.LinearUpdate | src/model/model.c:685-698 | the gradients are clipped in place and every weight moves by lr times (clipped gradient + wd weight) |
| Model.UpdateLayer | src/model/model.c:709-751 | one layer gets linear_update or adamw_update of every weight matrix with its buffers; fails exactly on a negative second moment |
| Model.PairsMakeLayer | src/model/model.c:709-751 | once every weight matrix has had its update the layer has |
| Model.UpdateSlots | src/model/model.c:706-753 | every present slot is updated in order |
| Model.UpdateSlot | src/model/model.c:707-752 | one slot is updated and the others are unchanged |
| Model.UpdatePair | src/model/model.c:730-747 | one weight matrix is updated with its buffers and nothing else changes |
| ModelArgs.FirstOccurrence | src/model/model.c:821 | strstr finds the first position at or after the start where the key occurs, or reports that there is none |
| ModelArgs.SkipSpaces | src/model/model.c:825-828 | the first position that is not a space |
| ModelArgs.FindKwarg | src/model/model.c:817-830 | a NULL string or key finds nothing; otherwise the value follows the first occurrence of key, at the start or after a space, then spaces, '=' and spaces |
| ModelArgs.FindFirst | src/model/model.c:821 | the strstr scan finds the first occurrence |
| ModelArgs.SkipBlanks | src/model/model.c:825-828 | the space-skipping loop stops at the first non-space |
| ModelArgs.KwargValueMeans | src/model/model.c:817-830 | a found value lies after key, spaces, '=' and spaces, and does not start with a space |
| ModelArgs.KwargShapeFound | src/model/model.c:817-830 | conversely, a string of that shape yields the value |
| ModelArgs.KwargAtStart | src/model/model.c:817-830 | key=value at the start is found just after the '=' |
| ModelArgs.OnlyFirstOccurrence | src/model/model.c:821-823 | only the first occurrence counts: in "reshuffle=0 shuffle=1" the key shuffle is never found |
| ModelArgs.DigitRun | src/model/model.c:836 | the length of the leading run of digits |
| ModelArgs.Decimal | src/model/model.c:836 | a decimal writing is a nonempty string of digits |
| ModelArgs.DigitsOfDecimal | src/model/model.c:836 | reading back a written number gives the number |
| ModelArgs.AtoiOfDecimal | src/model/model.c:836 | atoi reads back a nonnegative number written in decimal |
| ModelArgs.GetKwInt | src/model/model.c:832-837 | the value found for key read with atoi, else the value unchanged |
| ModelArgs.KwIntAtStart | src/model/model.c:832-837 | key=n at the start sets the value to n |
| ModelArgs.AfterComma | src/model/model.c:853 | the position after the first ',' at or after i, or none |
| ModelArgs.NextSegment | src/model/model.c:853-856 | the walk moves past the next ',', or stops at the end of the string |
| ModelArgs.Segments | src/model/model.c:843-857 | the walk sees segments until a scan of 0 conversions or EOF, or no segment follows |
| ModelArgs.ParamsAreSelect | src/model/model.c:839-858 | the walk over the string is the selection over its segments |
| ModelArgs.GetEpochParams | src/model/model.c:839-858 | lr and wd get the rates selected for the epoch, and keep their values where the schedule has none |
| ModelArgs.NextComma | src/model/model.c:853-856 | the loop's step to the next segment |
| ModelArgs.SelectFirstCovering | src/model/model.c:848-852 | an epoch gets the rates of the first segment whose cumulative count exceeds it |
| ModelArgs.SelectPastEnd | src/model/model.c:848-856 | past the whole schedule the last segment's rates stay in force |
| Ctc.MergePrefix | src/numeric/ctc.c:108-110 | merging one more label of the input keeps it unless it repeats the last kept label |
| Ctc.StripPrefix | src/numeric/ctc.c:111-113 | stripping one more label of the input keeps it unless it is the blank |
| Ctc.StripPair | src/numeric/ctc.c:127-130 | a label followed by a blank strips to the label |
| Ctc.FirstAlpha | src/numeric/ctc.c:144-151 | row 0 of the forward table has one entry per padded position |
| Ctc.NextAlpha | src/numeric/ctc.c:152-168 | a forward row computed from the previous one has one entry per padded position |
| Ctc.AlphaRow | src/numeric/ctc.c:144-168 | every pruned forward row has one entry per padded position |
| Ctc.AlphaFullRow | src/numeric/ctc.c:159-167 | every row of the forward recursion without pruning has one entry per padded position |
| Ctc.LastBeta | src/numeric/ctc.c:170-175 | the last backward row has one entry per padded position |
| Ctc.PrevBeta | src/numeric/ctc.c:176-192 | a backward row computed from the next one has one entry per padded position |
| Ctc.BetaRow | src/numeric/ctc.c:170-192 | every pruned backward row has one entry per padded position |
| Ctc.BetaFullRow | src/numeric/ctc.c:183-191 | every row of the backward recursion without pruning has one entry per padded position |
| Ctc.Through | src/numeric/ctc.c:197-198 | the mass through each position at step t has one entry per padded position |
| LstmCell.GateInput | src/model/lstm.h:152-167 | x @ W + hp @ U has one entry per unit |
| LstmCell.Gate | src/model/lstm.h:152-162 | a gate has one entry per unit |
| LstmCell.CellState | src/model/lstm.h:168-170 | f cp + i cc has one entry per unit |
| LstmCell.HiddenState | src/model/lstm.h:171-173 | o tanh(c) has one entry per unit |
| LstmCell.CellAt | src/model/lstm.h:150-174 | the cell and hidden state of step t have one entry per unit |
| LstmCell.HiddenBefore | src/model/lstm.h:141-173 | the hidden state step t starts from has one entry per unit |
| LstmCell.CellBefore | src/model/lstm.h:141-170 | the cell state step t starts from has one entry per unit |
| LstmCell.SigmoidCellAtStep | src/model/lstm.h:168-170 | with sigmoid gates step t adds less than 1 to the magnitude of each cell value |
| LstmCell.HiddenDelta | src/model/lstm.h:264-268 | dh = dy[t] + dh_next has one entry per unit |
| LstmCell.OutputDelta | src/model/lstm.h:270-273 | the output gate's delta has one entry per unit |
| LstmCell.CellDelta | src/model/lstm.h:277-280 | the cell's delta has one entry per unit |
| LstmCell.CandidateDelta | src/model/lstm.h:282-287 | the candidate's delta has one entry per unit |
| LstmCell.GateDelta | src/model/lstm.h:291-302 | the input or forget gate's delta has one entry per unit |
| LstmCell.Gates | src/model/lstm.h:244-256 | the four gate deltas in buffer order f, i, c, o |
| LstmCell.DeltasAt | src/model/lstm.h:264-302 | the six deltas of step t have one entry per unit |
| Lstm.DeltaRow | src/model/lstm.h:244-256 | the buffer of gradient k reads one of the six delta rows |
| Lstm.SetColumn | src/model/lstm.h:264-302 | writing one column of the delta buffer leaves every other entry |
| Lstm.StoreColumn | src/model/lstm.h:264-302 | after unit j the first j + 1 columns hold the deltas |
| Lstm.ColumnsDone | src/model/lstm.h:264-302 | with every column written the six rows are the six deltas |
| Lstm.DeltaColumn | src/model/lstm.h:264-302 | unit j of the deltas of step s is stored |
| Lstm.CellCarryRow | src/model/lstm.h:312-313 | row r of dc_next becomes f[t] dc elementwise, other rows kept |
| Lstm.InputRowsAdvance | src/model/lstm.h:314-320 | after step s the rows of dx from s on are the input gradients |
| Shuffling.Pass | src/data/batch.c:70-78 | one pass keeps the length and leaves a seed in the generator's range |
| Shuffling.Passes | src/data/batch.c:83-90 | several passes keep the length and leave a seed in the generator's range |
| AlignSeq.Cost | src/numeric/alignseq.c:119-138 | the mismatches and gaps of an alignment are no more than its steps |
| Delta.SumSq | src/feat/delta.c:39-42 | the sum of squares 1..w is at least w |
| FindSim.InsertAsc | src/search/findsim.c:13-22 | inserting adds one entry |

## Left out

- Floating point: all arithmetic on `float` is over the reals. Rounding, overflow to infinity and NaN are not modelled, except that the generator's seed-to-float rounding is written out (module Random) and CTC's -INFINITY is a value of its own.
- exp, log, sqrt, tanh, cos and log1pf(expf(x)) are function parameters. Only the facts the proofs need (for example exp > 0, tanh in (-1, 1)) are assumed of them, as preconditions.
- File and console I/O are not modelled: fopen/fread of feature, model and phoneme files, printf and print_status. Readers are modelled from the bytes or lines they receive (module Sphere takes the 1024-byte header; module TimitPhn takes one phoneme line).
- Memory allocation and freeing are not modelled: allocmem failure, freemem, model_free, ctc_free and dense_free. Arrays are fresh Dafny arrays.
- The `restrict` qualifiers become requirements that the result array differs from its operands. Aliased calls are not modelled.
- The Golub-Reinsch factorisation in svd_tall and svd_wide (src/decomp/svd.c:89-342, 411-664) is iterative floating-point numerics and is not modelled. Module Svd models the reorder step that follows it, on arrays holding any factorisation.
- The random initial weights of dense_init and embedding_init are modelled as draws the caller supplies. Lstm.Lstm.Init allocates the eight weight matrices but does not state their values. Their random draws, and the orthogonalisation of the U matrices through SVD (lstm.c:80-120), are not modelled.
- Model.Model: a layer is held by its type code, unit count, dimensions and whether it keeps state. Its passes are modules Dense and Lstm; the container does not call them.
- Model.Model.Fit and Model.Model.FitEpoch model only model_fit's control flow. That covers the schedule, the batch loop ending at a count of 0, and the state resets. The loss and accuracy values, the validation pass, model_batch_forward, model_batch_backward and model_predict are not modelled.
- Model.Model.Add and Model.Model.Compile return false where the C prints a message and calls exit(-1).
- Model.Model.Update: the update count is raised once per call, as at model.c:705. The model raises it after the layer loop, which is the same count, since every layer receives the raised value.
- ModelArgs.GetEpochParams: sscanf("%d:%f:%f") is a parameter that gives the conversion count and the values of each segment. Float parsing is not modelled.
- ModelArgs.GetKwInt: atoi is modelled for values that fit in an int. Overflow, which is undefined in C, is not modelled.
- AlignSeq.Align: the optimality proved is for the Needleman-Wunsch score the code maximises (+1 for a match, -1 for a mismatch or gap). The number of mismatches and gaps it returns is that alignment's cost, which is not always the least edit distance, although the source's comment calls it one.
- AlignSeq.Align uses the corrected traceback that continues along the table's edge (see Findings).
- NormData.ClassStats requires the raw weights to have a nonzero sum. Otherwise the C divides by zero and produces NaN weights, which the real-valued model cannot express.
- Normalization.CalculateMeanSdev requires at least one row. For zero rows the C divides 0 by 0 and stores NaN.
- Delta.CalculateDeltas requires wsize >= 1, because for wsize 0 the C divides 0 by 0. It also requires the source and destination column ranges not to overlap (Apart), because an overlapping call would read deltas it has already written.
- Activation.SigmoidValue states 0 < y < 1 over the reals. In float, sigmoid rounds to exactly 1.0 for large x and to 0.0 for x below about -104.
- HashMap.HashMap.Insert: a failed realloc of the character pool (return -1) is not modelled. The pool grows as a sequence.
- BatchIter.Batch.Shuffle: the C stores the shuffled sequence offsets and lengths in float arrays. The model keeps them as integers, which is exact only below 2^24.
- BatchIter.Batch.Shuffle, PrepData.PrepareData: both shuffle with the corrected index in [0, i] (Random.ShuffleIndex). The as-written index can be i + 1 (see Findings).
- FindSim.FindMostSimilar: the C writes similarity unconditionally (findsim.c:111-112), although its comment calls the argument optional. A NULL similarity is not modelled. The cosine similarity is an input sequence.
- Embedding.Embedding.Forward models the corrected loop (see Findings). The as-written loop is Embedding.ForwardAsWritten.
- Lstm.Lstm.Forward and Lstm.Lstm.Backward take the weights, buffers and gradients as separate arrays. A call where two of them alias is not modelled.
- The TIMIT training driver timit_lstm_dense_classification, and the file-list and feature loading in src/prog/timit.c, are I/O and configuration and are not modelled. Modules Timit and TimitPhn cover count_phoneme, dedup_labels and the phoneme table.

## Findings

| source | as written | input that shows it | evidently intended | confidence | as-written member | corrected member |
|---|---|---|---|---|---|---|
| src/numeric/alignseq.c:113 | the traceback loop runs while i > 0 && j > 0, so it stops at the first edge of the table and drops the remaining tokens of the other sequence | p = [1, 2], t = [2]: the result is distance 0 with rp = rt = [2], and token 1 of p is lost | trace on to the corner (i > 0 \|\| j > 0), emitting gaps along the edge, so both sequences appear in full (alignseq.c:32-33) | not executed | AlignSeq.EdgeTracebackDropsToken | AlignSeq.AlignmentOptimal |
| src/model/embedding.h:91 | h[i][j] += Wx[x[i][j]][k] adds every entry of token j's embedding into column j | one context [0] with embedding row [1, 2]: h[0][0] = 3, where the context sum is 1 | h[i][k] += Wx[x[i][j]][k], which sums the context's embeddings column by column, as the comment at embedding.h:86 says; S == E (embedding.c:24-32), and backward reads dy[i][k] per column (embedding.h:131-138) | not executed | Embedding.ForwardAsWrittenMixesColumns | Embedding.Embedding.Forward |
| src/search/findsim.c:90, 102 | for topn == 0 the buffer sim[0] has no entries, yet the else branch reads and writes sim[0] | topn = 0, num_vec >= 1: the first vector makes the loop access sim[0] past the buffer | guard the replacement with cnt > 0, returning no results for topn == 0 | not executed | FindSim.ZeroTopnReadsPastBuffer | FindSim.FindMostSimilar |
| src/numeric/random.c:8 | init_lrng(seed) stores seed & 0x7FFFFFFF unchecked, so seeds 0 and 2^31 - 1 are kept | seed 0: the Schrage step maps 0 to the modulus and the modulus to itself, so every draw is 1.0 | map the degenerate seeds into [1, 2^31 - 2] | not executed | Random.DegenerateSeeds | Random.Lrng.InitLrngHealthy |
| src/numeric/random.h:29, src/data/batch.c:71 | lrng() divides (float) seed by the modulus, also rounded to float 2^31, so seeds from 2147483584 up draw exactly 1.0, and (int) urand(0, 1 + i) is then i + 1 | seed 570515015 steps to 2147483584, whose draw is 1.0, so the shuffle swaps entry i with entry i + 1, past the range | an index in [0, i] | not executed | Random.DrawOnePastEnd | Random.ShuffleIndexInRange |
| src/audio/sphere.c:129 | numSamplesPerChannel = dataSize / (bitDepth / 8) without a check | a header holding only the two magic lines: bitDepth is 0, so the division is by zero | reject a header whose sample size is below one byte | not executed | Sphere.MagicOnlyDividesByZero | Sphere.SphFile.OpenSphereFile |
| src/timit/timitphn.c:52-53 | sscanf("%4s") into char phoneme[4] can write 4 characters plus the terminating 0 | the phoneme "ax-h" of the table (timitphn.c:71) needs 5 bytes | a buffer of 5 characters | not executed | TimitPhn.AxhOverflowsBuffer | TimitPhn.EveryPhonemeFits |
