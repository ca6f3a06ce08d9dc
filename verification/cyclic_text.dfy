/**
 * The training text read as a ring: the k-gram at a position, the character
 * that follows it, and how the window moves one step along the ring.
 */
module CyclicText {

  function Min(a: nat, b: nat): nat { if a <= b then a else b }

  /** `s.substr(pos, len)`: at most `len` characters from `pos`, cut at the end of `s`. */
  function Substr(s: string, pos: nat, len: nat): (r: string)
    requires pos <= |s|
    ensures |r| == Min(len, |s| - pos)
  {
    s[pos..pos + Min(len, |s| - pos)]
  }

  /** Reference definition: character j of the k-gram at i is `text[(i + j) mod n]`. */
  function KGramAt(text: string, k: nat, i: nat): (g: string)
    requires |text| > 0
  {
    seq(k, j requires 0 <= j < k => text[(i + j) % |text|])
  }

  /** The character recorded as following the k-gram at position i. */
  function SuccessorAt(text: string, k: nat, i: nat): char
    requires |text| > 0
  {
    text[(i + k) % |text|]
  }

  /**
   * The k-gram as the constructor extracts it: `substr(i, k)`, and when
   * `i + k` runs past the end, `substr(0, (i + k) % n)` appended. The result
   * is exactly k characters long and is the cyclic k-gram at i.
   */
  method ExtractKGram(text: string, k: nat, i: nat) returns (kgram: string)
    requires i < |text| && k <= |text|
    ensures |kgram| == k
    ensures kgram == KGramAt(text, k, i)
  {
    var n := |text|;
    kgram := Substr(text, i, k);
    if i + k > n {
      ModWrap(i + k, n);
      kgram := kgram + Substr(text, 0, (i + k) % n);
    }
    forall j | 0 <= j < k ensures kgram[j] == text[(i + j) % n] {
      if i + j < n {
        ModBelow(i + j, n);
      } else {
        ModWrap(i + j, n);
      }
    }
  }

  /** A k-gram that does not reach past the end of the text is a plain slice. */
  lemma KGramInside(text: string, k: nat, i: nat)
    requires i + k <= |text| && 0 < |text|
    ensures KGramAt(text, k, i) == text[i..i + k]
  {
    forall j | 0 <= j < k ensures KGramAt(text, k, i)[j] == text[i + j] {
      ModBelow(i + j, |text|);
    }
  }

  /** The window after appending `c` to `w`: its last |w| characters. */
  function Shift(w: string, c: char): (r: string)
    ensures |r| == |w|
  {
    if |w| == 0 then w else w[1..] + [c]
  }

  lemma ModBelow(x: int, n: int)
    requires 0 <= x < n
    ensures x % n == x
  {
  }

  lemma ModWrap(x: int, n: int)
    requires 0 < n <= x < 2 * n
    ensures x % n == x - n
  {
  }

  /**
   * Sliding the k-gram at i by its successor gives the k-gram at the next
   * position on the ring.
   */
  lemma NextKGram(text: string, k: nat, i: nat)
    requires i < |text| && k <= |text|
    ensures Shift(KGramAt(text, k, i), SuccessorAt(text, k, i)) == KGramAt(text, k, (i + 1) % |text|)
  {
    var n := |text|;
    var g := KGramAt(text, k, i);
    var s := Shift(g, SuccessorAt(text, k, i));
    var g' := KGramAt(text, k, (i + 1) % n);
    forall j | 0 <= j < k ensures s[j] == g'[j] {
      assert s[j] == text[(i + 1 + j) % n];
      NextIndex(n, i, j);
    }
  }

  /** One step along the ring, then j more, is i + 1 + j along it. */
  lemma NextIndex(n: nat, i: nat, j: nat)
    requires i < n && j < n
    ensures ((i + 1) % n + j) % n == (i + 1 + j) % n
  {
    if i + 1 < n {
      ModBelow(i + 1, n);
    } else {
      ModWrap(i + 1, n);
      ModBelow(j, n);
      ModWrap(i + 1 + j, n);
    }
  }
}
