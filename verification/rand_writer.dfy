/**
 * The order-k Markov text model: a `RandWriter` holds its training text, its
 * order k and the k-gram frequency table built from the text read as a ring.
 * Exceptions of the original become `Failure` results carrying the same
 * error kind and message.
 */
module RandWriter {
  import opened Sums
  import opened CyclicText
  import opened FrequencyTable

  datatype Error = LogicError(msg: string) | InvalidArgument(msg: string)

  datatype Result<T> = Success(value: T) | Failure(error: Error)

  const TextTooShort := "Text length must be at least k"
  const WrongLength := "kgram must be of length k"
  const NotFound := "kgram not found in the model"

  class RandWriter {
    var frequencies: Table
    var k: nat
    var text: string

    /** The order fits the text, and the table describes the text read as a ring. */
    ghost predicate Valid()
      reads this
    {
      k <= |text| && Describes(frequencies, text, k)
    }

    /**
     * Counts, for every position i of the text, the successor
     * `text[(i + k) % n]` of the k-gram starting at i, wrapping past the end.
     */
    constructor (text: string, k: nat)
      requires k <= |text|
      ensures Valid() && this.text == text && this.k == k
      ensures frequencies == BuildTable(text, k, |text|)
    {
      this.k := k;
      this.text := text;
      frequencies := map[];
      new;
      var n := |text|;
      for i := 0 to n
        invariant this.k == k && this.text == text
        invariant frequencies == BuildTable(text, k, i)
      {
        var kgram := ExtractKGram(text, k, i);
        var nextChar := text[(i + k) % n];
        frequencies := Increment(frequencies, kgram, nextChar);
      }
      BuildTableDescribes(text, k);
    }

    /** Construction, failing with a logic error when the text is shorter than k. */
    static method Build(text: string, k: nat) returns (r: Result<RandWriter>)
      ensures r.Failure? <==> |text| < k
      ensures r.Failure? ==> r.error == LogicError(TextTooShort)
      ensures r.Success? ==> fresh(r.value) && r.value.Valid()
      ensures r.Success? ==> r.value.text == text && r.value.OrderK() == k
    {
      if |text| < k {
        return Failure(LogicError(TextTooShort));
      }
      var rw := new RandWriter(text, k);
      return Success(rw);
    }

    /** The order of the model, which never exceeds the length of the text. */
    function OrderK(): (r: nat)
      reads this
      ensures Valid() ==> r <= |text|
    {
      k
    }

    /** Number of occurrences of `kgram` in the cyclic text; 0 when it never occurs. */
    function Freq(kgram: string): (r: Result<nat>)
      reads this
      requires Valid()
      ensures r.Failure? <==> |kgram| != k
      ensures r.Failure? ==> r.error == InvalidArgument(WrongLength)
      ensures r.Success? ==> r.value == Occurrences(text, k, kgram, |text|)
    {
      if |kgram| != k then Failure(InvalidArgument(WrongLength))
      else
        if kgram in frequencies then Success(Accumulate(frequencies[kgram]))
        else Success(0)
    }

    /**
     * Number of times `c` follows `kgram`; unlike `Freq`, a k-gram that never
     * occurs is an error rather than 0.
     */
    function FreqFollowedBy(kgram: string, c: char): (r: Result<nat>)
      reads this
      requires Valid()
      ensures r.Failure? <==> |kgram| != k || Occurrences(text, k, kgram, |text|) == 0
      ensures |kgram| != k ==> r == Failure(InvalidArgument(WrongLength))
      ensures |kgram| == k && Occurrences(text, k, kgram, |text|) == 0 ==> r == Failure(InvalidArgument(NotFound))
      ensures r.Success? ==> r.value == Follows(text, k, kgram, c, |text|)
    {
      if |kgram| != k then Failure(InvalidArgument(WrongLength))
      else
        if kgram !in frequencies then Failure(InvalidArgument(NotFound))
        else if c !in frequencies[kgram] then Success(0)
        else Success(frequencies[kgram][c])
    }

    /** A successor count never exceeds the count of the k-gram itself. */
    lemma FreqFollowedByAtMostFreq(kgram: string, c: char)
      requires Valid()
      requires FreqFollowedBy(kgram, c).Success?
      ensures Freq(kgram).Success? && FreqFollowedBy(kgram, c).value <= Freq(kgram).value
    {
      FollowsAtMostOccurrences(text, k, kgram, c, |text|);
    }

    /**
     * A random successor of `kgram`: any character recorded after it with a
     * positive count may be returned.
     */
    method KRand(kgram: string) returns (r: Result<char>)
      requires Valid()
      ensures r.Failure? <==> |kgram| != k || Occurrences(text, k, kgram, |text|) == 0
      ensures |kgram| != k ==> r == Failure(InvalidArgument(WrongLength))
      ensures |kgram| == k && Occurrences(text, k, kgram, |text|) == 0 ==> r == Failure(InvalidArgument(NotFound))
      ensures r.Success? ==> Count(frequencies, kgram, r.value) >= 1
      ensures r.Success? ==> Follows(text, k, kgram, r.value, |text|) >= 1
    {
      if |kgram| != k {
        return Failure(InvalidArgument(WrongLength));
      }
      if kgram !in frequencies {
        return Failure(InvalidArgument(NotFound));
      }
      var charFreqs := frequencies[kgram];
      var dist, totalFreq := Distribution(charFreqs);
      // the divisor of the sampling probabilities is positive
      var some :| some in charFreqs;
      SumAtLeastEntry(charFreqs, some);
      assert totalFreq >= 1;
      assert some in dist;
      var idx :| 0 <= idx < |dist|;
      assert dist[idx] in charFreqs;
      return Success(dist[idx]);
    }

    /**
     * A trajectory of length L through the chain: starts with `kgram`, then
     * repeatedly appends a random successor of the last k characters.
     */
    method Generate(kgram: string, L: nat) returns (r: Result<string>)
      requires Valid()
      requires L >= k
      ensures r.Failure? <==> |kgram| != k || Occurrences(text, k, kgram, |text|) == 0
      ensures |kgram| != k ==> r == Failure(InvalidArgument(WrongLength))
      ensures |kgram| == k && Occurrences(text, k, kgram, |text|) == 0 ==> r == Failure(InvalidArgument(NotFound))
      ensures r.Success? ==> |r.value| == L && r.value[..k] == kgram
      ensures r.Success? ==> Trajectory(frequencies, k, r.value)
    {
      if |kgram| != k {
        return Failure(InvalidArgument(WrongLength));
      }
      if kgram !in frequencies {
        return Failure(InvalidArgument(NotFound));
      }
      var res := kgram;
      assert res[|res| - k..] == kgram;
      for i := 0 to L - k
        invariant |res| == k + i
        invariant Valid()
        invariant Generating(frequencies, k, kgram, res)
      {
        var newKgram := res[i..i + k];
        assert newKgram == res[|res| - k..];
        var c := KRand(newKgram);
        GeneratingStep(frequencies, k, kgram, res, c.value);
        res := res + [c.value];
      }
      return Success(res);
    }
  }

  /**
   * The loop of kRand over a successor row, in the ascending order a
   * `std::map` is iterated in: the successors, each listed once and in
   * increasing order, and the total of their counts.
   */
  method Distribution(row: map<char, nat>) returns (chars: seq<char>, total: nat)
    ensures forall c :: c in chars <==> c in row
    ensures forall i, j :: 0 <= i < j < |chars| ==> chars[i] < chars[j]
    ensures total == Sum(row)
  {
    total := 0;
    chars := [];
    var rest := row.Keys;
    assert (map c | c in rest :: row[c]) == row;
    while rest != {}
      invariant rest <= row.Keys
      invariant forall c :: c in chars <==> c in row && c !in rest
      invariant forall i, j :: 0 <= i < j < |chars| ==> chars[i] < chars[j]
      invariant forall i, d :: 0 <= i < |chars| && d in rest ==> chars[i] < d
      invariant total + Sum(map c | c in rest :: row[c]) == Sum(row)
      decreases rest
    {
      MinCharExists(rest);
      var c :| c in rest && forall d :: d in rest ==> c <= d;
      ghost var remaining := map d | d in rest :: row[d];
      SumRemove(remaining, c);
      assert remaining - {c} == map d | d in rest - {c} :: row[d];
      total := total + row[c];
      chars := chars + [c];
      rest := rest - {c};
    }
  }

  /** The 26 lower-case letters, 'a' to 'z'. */
  const Alphabet := seq(26, i requires 0 <= i < 26 => (97 + i) as char)

  /** 'a' occurs exactly once among the letters. */
  lemma AlphabetHasOneA()
    ensures multiset(Alphabet[..|Alphabet|])['a'] == 1
  {
    var text := Alphabet;
    assert text[..|text|] == text == [text[0]] + text[1..];
    forall j | 0 <= j < 25 ensures text[1..][j] != 'a' {
      assert text[1..][j] == (98 + j) as char;
    }
    assert multiset(text[1..])['a'] == 0;
  }

  /**
   * The order-0 model of the alphabet: 'a' follows the empty k-gram once, the
   * empty k-gram occurs 26 times, and a one-character k-gram is refused.
   */
  method KZero() returns (order: nat, freqA: Result<nat>, freqAll: Result<nat>, freqBad: Result<nat>)
    ensures order == 0
    ensures freqA == Success(1) && freqAll == Success(26)
    ensures freqBad == Failure(InvalidArgument(WrongLength))
  {
    var text := Alphabet;
    var built := RandWriter.Build(text, 0);
    var rw := built.value;
    order := rw.OrderK();
    OrderZero(text, |text|);
    AlphabetHasOneA();
    freqA := rw.FreqFollowedBy("", 'a');
    freqAll := rw.Freq("");
    freqBad := rw.Freq("a");
  }

  /**
   * In the order-5 model of a text that starts with "This i" (the sentence
   * "This is a test text for RandWriter." does), "This " occurs and is
   * followed by 'i'.
   */
  method NoErrorChecking(text: string) returns (freq: Result<nat>, freqI: Result<nat>)
    requires |text| > 5 && text[..6] == "This i"
    ensures freq.Success? && freq.value >= 1
    ensures freqI.Success? && freqI.value >= 1
  {
    var built := RandWriter.Build(text, 5);
    var rw := built.value;
    var kgram := text[..5];
    OpeningOccurs(text, 5);
    freq := rw.Freq(kgram);
    freqI := rw.FreqFollowedBy(kgram, text[5]);
  }

  /** Seeded with "This ", the order-5 model of a text starting with it generates 20 characters. */
  method GenerateFromSeed(text: string) returns (generated: Result<string>)
    requires |text| > 5 && text[..5] == "This "
    ensures generated.Success? && |generated.value| == 20 && generated.value[..5] == "This "
  {
    var built := RandWriter.Build(text, 5);
    var rw := built.value;
    var kgram := text[..5];
    OpeningOccurs(text, 5);
    generated := rw.Generate(kgram, 20);
  }

  /**
   * The order-5 model of a text starting with "This " has order 5 and draws
   * after "This " a character of the text.
   */
  method KRandWorks(text: string) returns (order: nat, next: Result<char>)
    requires |text| > 5 && text[..5] == "This "
    ensures order == 5
    ensures next.Success? && next.value in text
  {
    var built := RandWriter.Build(text, 5);
    var rw := built.value;
    order := rw.OrderK();
    var kgram := text[..5];
    OpeningOccurs(text, 5);
    next := rw.KRand(kgram);
    var i := FollowsWitness(text, 5, kgram, next.value, |text|);
  }
}
