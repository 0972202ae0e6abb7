/** `difflib.get_close_matches(word, candidates, n=1, cutoff=0.5)`. The number of
    characters `SequenceMatcher` matches between a candidate and the word is left
    abstract (a parameter `m`); the ratio, the cutoff and the choice of the best
    candidate are modelled exactly, with real arithmetic in place of floats. */
module Fuzzy {
  import opened Maybe
  import opened Text

  /** `m(x, word)`: the matched-character count of `SequenceMatcher(None, x, word)`. */
  type MatchCount = (string, string) -> nat

  /** `SequenceMatcher.ratio()`: twice the matches over the total length, 1 when both
      strings are empty. */
  function Ratio(m: MatchCount, word: string, x: string): real {
    var len := |x| + |word|;
    if len == 0 then 1.0 else (2 * m(x, word)) as real / (len as real)
  }

  /** The candidate clears the cutoff 0.5. */
  predicate Accepts(m: MatchCount, word: string, x: string) {
    Ratio(m, word, x) >= 0.5
  }

  /** The cutoff in integer terms: `4 * M >= |x| + |word|`. */
  lemma AcceptsIff(m: MatchCount, word: string, x: string)
    requires |x| + |word| > 0
    ensures Accepts(m, word, x) <==> 4 * m(x, word) >= |x| + |word|
  {
    var len := (|x| + |word|) as real;
    var r := Ratio(m, word, x);
    assert r * len == (2 * m(x, word)) as real;
  }

  /** `(ratio(x), x) > (ratio(y), y)` as Python compares the tuples that
      `heapq.nlargest` ranks: higher ratio first, ties to the larger string. */
  predicate Outranks(m: MatchCount, word: string, x: string, y: string) {
    Ratio(m, word, x) > Ratio(m, word, y)
    || (Ratio(m, word, x) == Ratio(m, word, y) && LexLess(y, x))
  }

  lemma OutranksTransitive(m: MatchCount, word: string, x: string, y: string, z: string)
    requires Outranks(m, word, x, y) && Outranks(m, word, y, z)
    ensures Outranks(m, word, x, z)
  {
    if Ratio(m, word, x) == Ratio(m, word, y) == Ratio(m, word, z) {
      LexLessTransitive(z, y, x);
    }
  }

  /** `best` ranks highest among the accepted candidates in `cands[..i]`, and is
      `None` exactly when none of them is accepted. */
  ghost predicate BestSoFar(m: MatchCount, word: string, cands: seq<string>, i: nat, best: Option<string>)
    requires i <= |cands|
  {
    && (best.None? <==> forall k :: 0 <= k < i ==> !Accepts(m, word, cands[k]))
    && (best.Some? ==> best.value in cands[..i] && Accepts(m, word, best.value))
    && (best.Some? ==> forall k :: 0 <= k < i && Accepts(m, word, cands[k]) ==> !Outranks(m, word, cands[k], best.value))
  }

  /** The scan `nlargest(1, ...)` performs, one candidate at a time. */
  function BestFrom(m: MatchCount, word: string, cands: seq<string>, i: nat, best: Option<string>): Option<string>
    requires i <= |cands|
    decreases |cands| - i
  {
    if i == |cands| then best
    else
      BestFrom(m, word, cands, i + 1, Step(m, word, cands[i], best))
  }

  /** Offer one candidate to the running best. */
  function Step(m: MatchCount, word: string, x: string, best: Option<string>): Option<string> {
    if !Accepts(m, word, x) then best
    else if best.None? || Outranks(m, word, x, best.value) then Some(x)
    else best
  }

  /** One step of the scan keeps `BestSoFar`. */
  lemma BestStep(m: MatchCount, word: string, cands: seq<string>, i: nat, best: Option<string>)
    requires i < |cands| && BestSoFar(m, word, cands, i, best)
    ensures BestSoFar(m, word, cands, i + 1, Step(m, word, cands[i], best))
  {
    var x := cands[i];
    assert cands[..i + 1] == cands[..i] + [x];
    if !Accepts(m, word, x) {
    } else if best.None? {
      LexLessIrreflexive(x);
    } else if Outranks(m, word, x, best.value) {
      forall k | 0 <= k < i && Accepts(m, word, cands[k])
        ensures !Outranks(m, word, cands[k], x)
      {
        if Outranks(m, word, cands[k], x) {
          OutranksTransitive(m, word, cands[k], x, best.value);
        }
      }
      LexLessIrreflexive(x);
    }
  }

  lemma {:induction false} BestFromCorrect(m: MatchCount, word: string, cands: seq<string>, i: nat, best: Option<string>)
    requires i <= |cands| && BestSoFar(m, word, cands, i, best)
    ensures BestSoFar(m, word, cands, |cands|, BestFrom(m, word, cands, i, best))
    decreases |cands| - i
  {
    if i < |cands| {
      BestStep(m, word, cands, i, best);
      BestFromCorrect(m, word, cands, i + 1, Step(m, word, cands[i], best));
    }
  }

  /** `get_close_matches(word, cands, n=1, cutoff=0.5)`, as its single hit or `None`:
      no hit exactly when no candidate clears the cutoff; otherwise the hit is an
      accepted candidate that no accepted candidate outranks. */
  function CloseMatch(m: MatchCount, word: string, cands: seq<string>): (r: Option<string>)
    ensures r.None? <==> forall x :: x in cands ==> !Accepts(m, word, x)
    ensures r.Some? ==> r.value in cands && Accepts(m, word, r.value)
    ensures r.Some? ==> forall y :: y in cands && Accepts(m, word, y) ==> !Outranks(m, word, y, r.value)
  {
    BestFromCorrect(m, word, cands, 0, None);
    assert cands[..|cands|] == cands;
    BestFrom(m, word, cands, 0, None)
  }
}
