# RandWriter: an order-k Markov text model, in Dafny

`RandWriter` builds an order-k Markov model of a training text. It reads the text
as a ring, so the last positions wrap around to the start. For every position i
it takes the k characters starting at i (the *k-gram*) and the character right
after them, and counts that pair in a two-level table
`frequencies[kgram][nextChar]`. The table then answers four kinds of query:

- how often a k-gram occurs (`freq(kgram)`);
- how often a character follows it (`freq(kgram, c)`);
- a random successor of a k-gram (`kRand`);
- a random trajectory of length L through the chain, from a seed k-gram (`generate`).

Errors are the exceptions of the original. Here they are `Failure` results that
carry the same kind (`logic_error` / `invalid_argument`) and the same message.

The project has four modules:

- `Sums` (sums.dfy) defines the sum of the values of a map, independent of
  order. It also has `Accumulate`, the fold `std::accumulate` performs over a
  successor row, smallest character first.
- `CyclicText` (cyclic_text.dfy) is the ring view of the text:
  - `KGramAt` is the reference definition of the k-gram at a position;
  - `ExtractKGram` extracts it the way the constructor does, with `substr` and
    the wrap-around append;
  - `Shift` slides a window by one character.
- `FrequencyTable` (frequency_table.dfy) covers the table itself:
  - `Table` is the table type;
  - `Increment` is one `frequencies[kgram][nextChar]++`;
  - `BuildTable` is the table after the first m positions;
  - `Occurrences` and `Follows` count positions of the text directly, as
    reference counts;
  - `Describes` collects everything the finished table says about the text.
- `RandWriter` (rand_writer.dfy) holds the class. Its fields are `frequencies`,
  `k` and `text`. The constructor fills `frequencies` in place, one position at
  a time. `Valid()` states that the table describes the text. The module also
  has the four unit-test scenarios.

The central results are:

- `BuildTableDescribes` proves several facts about the table built from the
  whole text:
  - its keys are exactly the k-grams that occur;
  - each row adds up to the number of occurrences of its k-gram;
  - each count is the number of positions with that k-gram and successor;
  - all counts together add up to the length of the text;
  - the table is closed under shifting, because the text is read as a ring.
- The query operations are specified against the text's reference counts.
- Closure under shifting is why the `kRand` calls inside `generate` can never
  fail.

## Model

| member | source | states |
|---|---|---|
| Sums.Accumulate | RandWriter.cpp:30-31 | Adding up a successor row in ascending character order gives the row's order-free sum. |
| CyclicText.ExtractKGram | RandWriter.cpp:11-16 | The substring from i, with the wrapped prefix appended when i + k passes the end, is exactly k long and equals the cyclic k-gram at i. |
| CyclicText.NextKGram | RandWriter.cpp:11-19 | Sliding the k-gram at i by its recorded successor gives the k-gram at position i + 1 of the ring. |
| FrequencyTable.IncrementSpec | RandWriter.cpp:20 | `frequencies[kgram][nextChar]++` has several effects. It makes the k-gram a key and the character a key of its row. It adds one to that count and one to the row's total. It leaves every other count and row unchanged. |
| FrequencyTable.BuildTableCount | RandWriter.cpp:9-21 | After the first m positions, the count of (g, c) is the number of those positions whose k-gram is g and whose successor is c. |
| FrequencyTable.BuildTableRow | RandWriter.cpp:9-21 | A k-gram is a key exactly when it occurs among the first m positions. Its row adds up to its number of occurrences. |
| FrequencyTable.BuildTableWellFormed | RandWriter.cpp:9-21 | Every key has length k, no row is empty, and every stored count is at least 1. |
| FrequencyTable.BuildTableTotal | RandWriter.cpp:9-21 | After m positions, all counts of the table together add up to m. |
| FrequencyTable.TableClosedUnderShift | RandWriter.cpp:14-19 | Because of the wrap-around, every recorded pair (g, c) leads to a window `g[1..] + [c]` that is itself a key. |
| FrequencyTable.BuildTableDescribes | RandWriter.cpp:9-21 | The table built from the whole text describes it: keys, row sums, counts, total length and shift closure. |
| FrequencyTable.OrderZero | RandWriter.hpp:29-32 | With order 0, the empty k-gram occurs at every position, and `c` follows it as often as `c` appears in the text. |
| FrequencyTable.FollowsAtMostOccurrences | RandWriter.hpp:25-32 | A k-gram is followed by a given character at most as often as the k-gram occurs. |
| FrequencyTable.FollowsWitness | RandWriter.hpp:29-32 | A positive successor count is witnessed by a position of the text with that k-gram and successor. |
| FrequencyTable.OccurrencesAt | RandWriter.hpp:25-28 | The k-gram at any position of the text is counted among the occurrences. |
| FrequencyTable.FollowsAt | RandWriter.hpp:29-32 | The (k-gram, successor) pair at any position of the text is counted. |
| FrequencyTable.TrajectoryExtend | RandWriter.cpp:88-91 | Appending a recorded successor of the last k characters extends a trajectory. The new last k characters are the shifted window. |
| FrequencyTable.GeneratingStep | RandWriter.cpp:88-91 | In a shift-closed table, one generation step keeps three things: the seed prefix, a last window that is a key, and the trajectory property. |
| FrequencyTable.DescribedTrajectory | RandWriter.hpp:39-41 | Read against the text, every step of a trajectory through the table is a k-gram followed by that character somewhere in the text. |
| FrequencyTable.OpeningOccurs | RandWriter.cpp:9-20 | The first k characters of a text longer than k are a k-gram that occurs, and character k follows it. |
| RandWriter.RandWriter.constructor | RandWriter.cpp:9-21 | The loop over all positions leaves `frequencies` equal to the table built from the whole text. The object is then valid. |
| RandWriter.RandWriter.Build | RandWriter.cpp:5-6 | Construction fails with the logic error "Text length must be at least k" exactly when the text is shorter than k. Otherwise it yields a valid model of that text and order. |
| RandWriter.RandWriter.OrderK | RandWriter.hpp:23 | The order of a valid model never exceeds the length of its text. |
| RandWriter.RandWriter.Freq | RandWriter.cpp:24-35 | Fails with "kgram must be of length k" exactly when the length is wrong. Otherwise it returns the number of occurrences of the k-gram in the cyclic text, which is 0 for a k-gram that never occurs. |
| RandWriter.RandWriter.FreqFollowedBy | RandWriter.cpp:37-49 | Fails exactly on a wrong length ("kgram must be of length k") or on a k-gram that never occurs ("kgram not found in the model"). Otherwise it returns how often `c` follows the k-gram, which is 0 when it never does. |
| RandWriter.RandWriter.FreqFollowedByAtMostFreq | RandWriter.hpp:25-32 | Whenever `freq(kgram, c)` succeeds, `freq(kgram)` succeeds too and is at least as large. |
| RandWriter.Distribution | RandWriter.cpp:58-67 | The loop lists every successor of the row exactly once, in increasing order. It also adds up the total of their counts. |
| RandWriter.RandWriter.KRand | RandWriter.cpp:51-78 | Fails exactly on a wrong length or on an unknown k-gram, with the source's messages. Otherwise the drawn character is recorded after the k-gram with a positive count, so it follows the k-gram somewhere in the text. |
| RandWriter.RandWriter.Generate | RandWriter.cpp:80-94 | Fails exactly on a wrong length or an unknown seed, with the source's messages. Otherwise the result has length L, starts with the seed, and every character after the first k is a recorded successor of the k before it. No inner draw fails. |
| RandWriter.KZero | test.cpp:9-25 | For the alphabet with order 0: the order is 0, `freq("", 'a')` is 1, `freq("")` is 26, and `freq("a")` fails with an invalid-argument error. |
| RandWriter.NoErrorChecking | test.cpp:27-46 | For a text starting "This i" with order 5: `freq("This ")` and `freq("This ", 'i')` succeed, and both are at least 1. |
| RandWriter.GenerateFromSeed | test.cpp:48-63 | For a text starting "This " with order 5: `generate("This ", 20)` succeeds, has length 20 and starts with "This ". |
| RandWriter.KRandWorks | test.cpp:65-83 | For a text starting "This " with order 5: the order is 5, and `kRand("This ")` succeeds with a character of the text. |

## Left out

- Probabilities and the random engine (`std::discrete_distribution` over
  doubles, seeded from `std::random_device`) are left out. `KRand` picks any
  index of the successor list with a nondeterministic choice, and every listed
  successor has a positive count. The model does prove that the total that
  divides the probabilities is positive.
- The stream operator `operator<<`, which prints the model, is not modelled. It
  is I/O only.
- `TextWriter.cpp` is the command-line driver that reads standard input, and it
  is not part of this model.
- Integer widths are not modelled. Counts and the total are unbounded naturals,
  so the overflow of the `int` counts and of the `uint` total is not captured.
- RandWriter.RandWriter.Generate: requires `L >= k`. The header asks callers
  for this. With `L < k` the unsigned `L - k` wraps around, and that behaviour
  is not modelled.
- RandWriter.RandWriter.Generate: its contract speaks of transitions of the
  table. The same statement about the text is the separate lemma
  `FrequencyTable.DescribedTrajectory`.
- RandWriter.RandWriter.KRand: the model calls the successor-listing loop
  `Distribution` as a helper rather than inline. The second loop, which
  computes the probabilities, is left out together with the doubles.
- RandWriter.Build models the throwing constructor as a result. The
  `RandWriter.RandWriter.constructor` itself requires `k <= |text|`, because
  Dafny constructors cannot fail.
- RandWriter.NoErrorChecking, RandWriter.GenerateFromSeed and
  RandWriter.KRandWorks are stated for every text that begins like the tests'
  sentence "This is a test text for RandWriter.", not for that sentence alone.
- RandWriter.KRandWorks: the test checks that the drawn character is a letter,
  punctuation or white space. The model states instead that it is a character
  of the training text.
