/**
 * The two-level frequency table, k-gram -> (next character -> count), its
 * construction one text position at a time, and what the finished table
 * says about the text.
 */
module FrequencyTable {
  import opened Sums
  import opened CyclicText

  type Table = map<string, map<char, nat>>

  /** How often `c` is recorded after `g`; 0 for an absent k-gram or character. */
  function Count(t: Table, g: string, c: char): nat
  {
    if g in t && c in t[g] then t[g][c] else 0
  }

  /**
   * `frequencies[kgram][nextChar]++`: both lookups insert a zero entry when
   * the key is missing, then the count goes up by one.
   */
  function Increment(t: Table, g: string, c: char): Table
  {
    var row := if g in t then t[g] else map[];
    var count := if c in row then row[c] else 0;
    t[g := row[c := count + 1]]
  }

  /**
   * An increment makes `g` a key and `c` a key of its row, adds one to the
   * count of (g, c) and to the total of g's row, and changes nothing else.
   */
  lemma IncrementSpec(t: Table, g: string, c: char)
    ensures Increment(t, g, c).Keys == t.Keys + {g}
    ensures Increment(t, g, c)[g].Keys == (if g in t then t[g].Keys else {}) + {c}
    ensures Count(Increment(t, g, c), g, c) == Count(t, g, c) + 1
    ensures forall h, d :: h != g || d != c ==> Count(Increment(t, g, c), h, d) == Count(t, h, d)
    ensures forall h :: h != g && h in t ==> Increment(t, g, c)[h] == t[h]
    ensures Sum(Increment(t, g, c)[g]) == (if g in t then Sum(t[g]) else 0) + 1
  {
    var row := if g in t then t[g] else map[];
    SumUpdate(row, c, (if c in row then row[c] else 0) + 1);
  }

  /** The table after the first m positions of the text have been counted. */
  function BuildTable(text: string, k: nat, m: nat): Table
    requires m <= |text|
  {
    if m == 0 then map[]
    else Increment(BuildTable(text, k, m - 1), KGramAt(text, k, m - 1), SuccessorAt(text, k, m - 1))
  }

  /** Reference count: positions among the first m whose cyclic k-gram is `g`. */
  function Occurrences(text: string, k: nat, g: string, m: nat): nat
    requires m <= |text|
  {
    if m == 0 then 0
    else Occurrences(text, k, g, m - 1) + (if KGramAt(text, k, m - 1) == g then 1 else 0)
  }

  /** Reference count: positions among the first m whose k-gram is `g` and whose successor is `c`. */
  function Follows(text: string, k: nat, g: string, c: char, m: nat): nat
    requires m <= |text|
  {
    if m == 0 then 0
    else
      Follows(text, k, g, c, m - 1)
      + (if KGramAt(text, k, m - 1) == g && SuccessorAt(text, k, m - 1) == c then 1 else 0)
  }

  /** The total count of each k-gram's row. */
  ghost function RowSums(t: Table): map<string, nat>
  {
    map g | g in t :: Sum(t[g])
  }

  /** All counts of the table added up. */
  ghost function Total(t: Table): nat
  {
    Sum(RowSums(t))
  }

  /** Keys have length k, rows are non-empty, and every stored count is at least 1. */
  ghost predicate WellFormed(t: Table, k: nat)
  {
    forall g :: g in t ==> |g| == k && t[g] != map[] && forall c :: c in t[g] ==> t[g][c] >= 1
  }

  /** For every recorded (k-gram, successor) pair the shifted window is a key. */
  ghost predicate ClosedUnderShift(t: Table)
  {
    forall g, c :: Count(t, g, c) >= 1 ==> Shift(g, c) in t
  }

  /**
   * What the table built from `text` with order k states about the text:
   * its keys are the k-grams that occur, each row adds up to the k-gram's
   * occurrences, each count is the number of times the pair occurs, all
   * counts together are the text length, and it is closed under shifting.
   */
  ghost predicate Describes(t: Table, text: string, k: nat)
  {
    && WellFormed(t, k)
    && (forall g {:trigger Occurrences(text, k, g, |text|)} ::
          (g in t <==> Occurrences(text, k, g, |text|) > 0)
          && (g in t ==> Sum(t[g]) == Occurrences(text, k, g, |text|)))
    && (forall g, c {:trigger Follows(text, k, g, c, |text|)} :: Count(t, g, c) == Follows(text, k, g, c, |text|))
    && Total(t) == |text|
    && ClosedUnderShift(t)
  }

  /** Every character after the first k is a recorded successor of the k before it. */
  ghost predicate Trajectory(t: Table, k: nat, s: string)
  {
    forall j :: k <= j < |s| ==> Count(t, s[j - k..j], s[j]) >= 1
  }

  /** Appending a recorded successor of the last k characters extends a trajectory. */
  lemma TrajectoryExtend(t: Table, k: nat, s: string, c: char)
    requires |s| >= k && Trajectory(t, k, s)
    requires Count(t, s[|s| - k..], c) >= 1
    ensures Trajectory(t, k, s + [c])
    ensures (s + [c])[|s| - k + 1..] == Shift(s[|s| - k..], c)
  {
    var s' := s + [c];
    forall j | k <= j < |s'| ensures Count(t, s'[j - k..j], s'[j]) >= 1 {
      if j < |s| {
        assert s'[j - k..j] == s[j - k..j];
      } else {
        assert s'[j - k..j] == s[|s| - k..];
      }
    }
  }

  /**
   * The state of a generation in progress: `s` starts with the seed, its last
   * k characters are a k-gram of the table, and every step is a transition.
   */
  ghost predicate Generating(t: Table, k: nat, seed: string, s: string)
  {
    |s| >= k && s[..k] == seed && s[|s| - k..] in t && Trajectory(t, k, s)
  }

  /** One generation step keeps a generation in progress when the table is shift-closed. */
  lemma GeneratingStep(t: Table, k: nat, seed: string, s: string, c: char)
    requires Generating(t, k, seed, s) && ClosedUnderShift(t)
    requires Count(t, s[|s| - k..], c) >= 1
    ensures Generating(t, k, seed, s + [c])
  {
    TrajectoryExtend(t, k, s, c);
    assert (s + [c])[..k] == s[..k];
  }

  /** Read against the text, every step of a trajectory occurs in the text. */
  lemma DescribedTrajectory(t: Table, text: string, k: nat, s: string)
    requires Describes(t, text, k) && Trajectory(t, k, s)
    ensures forall j :: k <= j < |s| ==> Follows(text, k, s[j - k..j], s[j], |text|) >= 1
  {
    forall j | k <= j < |s| ensures Follows(text, k, s[j - k..j], s[j], |text|) >= 1 {
      assert Count(t, s[j - k..j], s[j]) >= 1;
    }
  }

  /** Each stored count is the number of positions with that k-gram and successor. */
  lemma {:induction false} BuildTableCount(text: string, k: nat, m: nat, g: string, c: char)
    requires m <= |text|
    ensures Count(BuildTable(text, k, m), g, c) == Follows(text, k, g, c, m)
  {
    if m > 0 {
      BuildTableCount(text, k, m - 1, g, c);
      IncrementSpec(BuildTable(text, k, m - 1), KGramAt(text, k, m - 1), SuccessorAt(text, k, m - 1));
    }
  }

  /**
   * A k-gram is a key exactly when it occurs in the text, and its row adds
   * up to the number of its occurrences.
   */
  lemma {:induction false} BuildTableRow(text: string, k: nat, m: nat, g: string)
    requires m <= |text|
    ensures g in BuildTable(text, k, m) <==> Occurrences(text, k, g, m) > 0
    ensures g in BuildTable(text, k, m) ==> Sum(BuildTable(text, k, m)[g]) == Occurrences(text, k, g, m)
  {
    if m > 0 {
      BuildTableRow(text, k, m - 1, g);
      IncrementSpec(BuildTable(text, k, m - 1), KGramAt(text, k, m - 1), SuccessorAt(text, k, m - 1));
    }
  }

  /** Every table built so far has keys of length k, non-empty rows and positive counts. */
  lemma {:induction false} BuildTableWellFormed(text: string, k: nat, m: nat)
    requires m <= |text|
    ensures WellFormed(BuildTable(text, k, m), k)
  {
    if m > 0 {
      BuildTableWellFormed(text, k, m - 1);
      var t := BuildTable(text, k, m - 1);
      var g, c := KGramAt(text, k, m - 1), SuccessorAt(text, k, m - 1);
      var t' := Increment(t, g, c);
      forall h | h in t'
        ensures |h| == k && t'[h] != map[] && forall d :: d in t'[h] ==> t'[h][d] >= 1
      {
        if h == g {
          assert c in t'[h];
          forall d | d in t'[h] ensures t'[h][d] >= 1 {
            assert Count(t', h, d) == t'[h][d];
            if d != c {
              assert Count(t, h, d) == t[h][d];
            }
          }
        }
      }
    }
  }

  /** One increment adds exactly one to the table's total. */
  lemma TotalIncrement(t: Table, g: string, c: char)
    ensures Total(Increment(t, g, c)) == Total(t) + 1
  {
    var t' := Increment(t, g, c);
    IncrementSpec(t, g, c);
    var r := RowSums(t);
    assert RowSums(t') == r[g := Sum(t'[g])];
    SumUpdate(r, g, Sum(t'[g]));
  }

  /** Counting one more position adds one to the total. */
  lemma TotalStep(text: string, k: nat, m: nat)
    requires 0 < m <= |text|
    ensures Total(BuildTable(text, k, m)) == Total(BuildTable(text, k, m - 1)) + 1
  {
    TotalIncrement(BuildTable(text, k, m - 1), KGramAt(text, k, m - 1), SuccessorAt(text, k, m - 1));
  }

  /** Counting m positions makes m increments in all. */
  lemma {:induction false} BuildTableTotal(text: string, k: nat, m: nat)
    requires m <= |text|
    ensures Total(BuildTable(text, k, m)) == m
  {
    if m > 0 {
      BuildTableTotal(text, k, m - 1);
      TotalStep(text, k, m);
    }
  }

  /** A k-gram is followed by `c` at most as often as it occurs. */
  lemma {:induction false} FollowsAtMostOccurrences(text: string, k: nat, g: string, c: char, m: nat)
    requires m <= |text|
    ensures Follows(text, k, g, c, m) <= Occurrences(text, k, g, m)
  {
    if m > 0 {
      FollowsAtMostOccurrences(text, k, g, c, m - 1);
    }
  }

  /** A positive pair count is witnessed by a position in the text. */
  lemma {:induction false} FollowsWitness(text: string, k: nat, g: string, c: char, m: nat)
    returns (i: nat)
    requires m <= |text|
    requires Follows(text, k, g, c, m) > 0
    ensures i < m && KGramAt(text, k, i) == g && SuccessorAt(text, k, i) == c
  {
    if Follows(text, k, g, c, m - 1) > 0 {
      i := FollowsWitness(text, k, g, c, m - 1);
    } else {
      i := m - 1;
    }
  }

  /** Every position's k-gram is counted among the occurrences. */
  lemma {:induction false} OccurrencesAt(text: string, k: nat, i: nat, m: nat)
    requires i < m <= |text|
    ensures Occurrences(text, k, KGramAt(text, k, i), m) > 0
  {
    if i < m - 1 {
      OccurrencesAt(text, k, i, m - 1);
    }
  }

  /** Every position's (k-gram, successor) pair is counted. */
  lemma {:induction false} FollowsAt(text: string, k: nat, i: nat, m: nat)
    requires i < m <= |text|
    ensures Follows(text, k, KGramAt(text, k, i), SuccessorAt(text, k, i), m) > 0
  {
    if i < m - 1 {
      FollowsAt(text, k, i, m - 1);
    }
  }

  /** The opening k characters of a text are a k-gram that occurs, followed by character k. */
  lemma OpeningOccurs(text: string, k: nat)
    requires k < |text|
    ensures Occurrences(text, k, text[..k], |text|) > 0
    ensures Follows(text, k, text[..k], text[k], |text|) > 0
  {
    KGramInside(text, k, 0);
    assert KGramAt(text, k, 0) == text[..k];
    ModBelow(k, |text|);
    OccurrencesAt(text, k, 0, |text|);
    FollowsAt(text, k, 0, |text|);
  }

  /**
   * Because the text is read as a ring, the complete table is closed under
   * shifting: a recorded pair (g, c) always leads to a window that is a key.
   */
  lemma TableClosedUnderShift(text: string, k: nat)
    requires k <= |text|
    ensures ClosedUnderShift(BuildTable(text, k, |text|))
  {
    var n := |text|;
    var t := BuildTable(text, k, n);
    forall g, c | Count(t, g, c) >= 1 ensures Shift(g, c) in t {
      BuildTableCount(text, k, n, g, c);
      var i := FollowsWitness(text, k, g, c, n);
      NextKGram(text, k, i);
      OccurrencesAt(text, k, (i + 1) % n, n);
      BuildTableRow(text, k, n, Shift(g, c));
    }
  }

  /**
   * With order 0 every k-gram is empty: the empty k-gram occurs at every
   * position and is followed by `c` as often as `c` appears in the text.
   */
  lemma {:induction false} OrderZero(text: string, m: nat)
    requires m <= |text|
    ensures Occurrences(text, 0, [], m) == m
    ensures forall c :: Follows(text, 0, [], c, m) == multiset(text[..m])[c]
  {
    if m > 0 {
      OrderZero(text, m - 1);
      assert text[..m] == text[..m - 1] + [text[m - 1]];
      assert SuccessorAt(text, 0, m - 1) == text[m - 1] by {
        ModBelow(m - 1, |text|);
      }
    }
  }

  /** The table built from the whole text describes the text. */
  lemma BuildTableDescribes(text: string, k: nat)
    requires k <= |text|
    ensures Describes(BuildTable(text, k, |text|), text, k)
  {
    var n := |text|;
    var t := BuildTable(text, k, n);
    BuildTableWellFormed(text, k, n);
    forall g ensures (g in t <==> Occurrences(text, k, g, n) > 0)
      && (g in t ==> Sum(t[g]) == Occurrences(text, k, g, n))
    {
      BuildTableRow(text, k, n, g);
    }
    forall g, c ensures Count(t, g, c) == Follows(text, k, g, c, n) {
      BuildTableCount(text, k, n, g, c);
    }
    BuildTableTotal(text, k, n);
    TableClosedUnderShift(text, k);
  }
}
