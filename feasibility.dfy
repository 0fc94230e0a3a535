/** The feasibility heuristic: an additive score over the lower-cased
    description and domain of a submission, capped at 100. */
module Feasibility {
  import opened Text

  const PopularDomains: seq<string> := [
    "artificial intelligence",
    "machine learning",
    "data science",
    "blockchain",
    "cyber security",
    "cloud computing"
  ]

  const Keywords: seq<string> := [
    "ai",
    "ml",
    "nlp",
    "deep learning",
    "neural network",
    "blockchain",
    "iot",
    "api",
    "automation"
  ]

  const DatasetWords: seq<string> := [
    "dataset",
    "kaggle",
    "open data",
    "github",
    "public api",
    "research paper"
  ]

  function Min(a: int, b: int): int
  {
    if a < b then a else b
  }

  /** Points for the description's length: 30 above 300 characters, 20 above
      200, 10 above 120, none otherwise. */
  function LengthPoints(n: nat): nat
  {
    if n > 300 then 30 else if n > 200 then 20 else if n > 120 then 10 else 0
  }

  function DomainPoints(domain: string): nat
  {
    if domain in PopularDomains then 20 else 0
  }

  /** How many of `words` occur in `text`. */
  function Hits(text: string, words: seq<string>): (n: nat)
    ensures n <= |words|
  {
    if words == [] then 0
    else Hits(text, words[..|words| - 1]) + (if Contains(text, words[|words| - 1]) then 1 else 0)
  }

  function KeywordPoints(description: string): nat
  {
    Min(5 * Hits(description, Keywords), 30)
  }

  function DatasetPoints(description: string): nat
  {
    4 * Hits(description, DatasetWords)
  }

  /** `calculateFeasibility`, stated as the sum of its four contributions
      over the lower-cased inputs, capped at 100. The length bands count
      UTF-16 code units, as `length` does. A missing field is "". */
  function FeasibilityScore(description: string, domain: string): (r: nat)
    ensures r <= 100
  {
    var d := Lower(description);
    Min(LengthPoints(Utf16Length(d)) + DomainPoints(Lower(domain)) + KeywordPoints(d) + DatasetPoints(d), 100)
  }

  /** The implementation of `calculateFeasibility`: the score is accumulated
      band by band, with one pass over the keywords and one over the dataset
      words. */
  method CalculateFeasibility(rawDescription: string, rawDomain: string) returns (score: nat)
    ensures score == FeasibilityScore(rawDescription, rawDomain)
  {
    score := 0;
    var description := Lower(rawDescription);
    var domain := Lower(rawDomain);

    var length := Utf16Length(description);
    if length > 300 {
      score := score + 30;
    } else if length > 200 {
      score := score + 20;
    } else if length > 120 {
      score := score + 10;
    }

    if domain in PopularDomains {
      score := score + 20;
    }

    var keywordCount := 0;
    for i := 0 to |Keywords|
      invariant keywordCount == Hits(description, Keywords[..i])
    {
      assert Keywords[..i + 1][..i] == Keywords[..i];
      if Contains(description, Keywords[i]) {
        keywordCount := keywordCount + 1;
      }
    }
    assert Keywords[..|Keywords|] == Keywords;
    score := score + Min(keywordCount * 5, 30);

    ghost var base := score;
    for i := 0 to |DatasetWords|
      invariant score == base + 4 * Hits(description, DatasetWords[..i])
    {
      assert DatasetWords[..i + 1][..i] == DatasetWords[..i];
      if Contains(description, DatasetWords[i]) {
        score := score + 4;
      }
    }
    assert DatasetWords[..|DatasetWords|] == DatasetWords;

    score := Min(score, 100);
  }

  /** The keyword contribution is a multiple of 5 no larger than 30, and the
      dataset contribution a multiple of 4 no larger than 24. */
  lemma ContributionBounds(description: string)
    ensures KeywordPoints(description) <= 30 && KeywordPoints(description) % 5 == 0
    ensures DatasetPoints(description) <= 24 && DatasetPoints(description) % 4 == 0
  {
    assert Hits(description, DatasetWords) <= 6;
  }

  /** The domain contributes 20 exactly when, lower-cased, it is one of the
      popular domains; upper and lower case do not matter. */
  lemma DomainBonus(description: string, domain: string)
    ensures Lower(domain) in PopularDomains <==>
              FeasibilityScore(description, domain) ==
              Min(LengthPoints(Utf16Length(Lower(description))) + 20 + KeywordPoints(Lower(description)) + DatasetPoints(Lower(description)), 100)
  {
    var d := Lower(description);
    var rest := LengthPoints(Utf16Length(d)) + KeywordPoints(d) + DatasetPoints(d);
    ContributionBounds(d);
    assert rest <= 84;
  }

  lemma {:induction false} NoHitsInEmpty(words: seq<string>)
    requires forall i :: 0 <= i < |words| ==> words[i] != []
    ensures Hits("", words) == 0
  {
    if words != [] {
      NoHitsInEmpty(words[..|words| - 1]);
      assert !Contains("", words[|words| - 1]);
    }
  }

  /** An empty (or missing) description earns only the domain bonus, so it
      scores 0 with an unlisted domain. */
  lemma EmptyDescription(domain: string)
    ensures FeasibilityScore("", domain) == DomainPoints(Lower(domain))
    ensures Lower(domain) !in PopularDomains ==> FeasibilityScore("", domain) == 0
  {
    NoHitsInEmpty(Keywords);
    NoHitsInEmpty(DatasetWords);
    assert Lower("") == "";
  }

  /** Both inputs are lower-cased first, so case never matters. */
  lemma CaseInsensitive(description: string, domain: string)
    ensures FeasibilityScore(Lower(description), Lower(domain)) == FeasibilityScore(description, domain)
  {
    LowerIdempotent(description);
    LowerIdempotent(domain);
  }

  lemma {:induction false} ContainsExtend(t: string, e: string, w: string)
    requires Contains(t, w)
    ensures Contains(t + e, w)
    decreases |t|
  {
    if !(w <= t) {
      ContainsExtend(t[1..], e, w);
      assert (t + e)[1..] == t[1..] + e;
    }
  }

  lemma {:induction false} HitsExtend(t: string, e: string, words: seq<string>)
    ensures Hits(t, words) <= Hits(t + e, words)
  {
    if words != [] {
      HitsExtend(t, e, words[..|words| - 1]);
      var w := words[|words| - 1];
      if Contains(t, w) {
        ContainsExtend(t, e, w);
      }
    }
  }

  /** Appending text to a description never lowers its score. */
  lemma ExtendingDescriptionNeverLowersScore(description: string, more: string, domain: string)
    ensures FeasibilityScore(description, domain) <= FeasibilityScore(description + more, domain)
  {
    var d, e := Lower(description), Lower(more);
    assert Lower(description + more) == d + e;
    Utf16LengthAppend(d, e);
    HitsExtend(d, e, Keywords);
    HitsExtend(d, e, DatasetWords);
  }
}
