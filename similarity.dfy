/** The text-similarity heuristic: a Jaccard overlap of the two texts'
    token sets, as a rounded percentage. */
module Similarity {
  import opened Text

  /** Removes every character that is neither a word character nor white
      space (`replace(/[^\w\s]/g, "")`): what remains is made of such
      characters only, and each of them occurs as often as in `s`. */
  function StripPunctuation(s: string): (r: string)
    ensures forall i :: 0 <= i < |r| ==> IsWordChar(r[i]) || IsSpace(r[i])
    ensures forall c :: IsWordChar(c) || IsSpace(c) ==> multiset(r)[c] == multiset(s)[c]
  {
    if s == [] then []
    else
      var rest := StripPunctuation(s[1..]);
      assert s == [s[0]] + s[1..];
      if IsWordChar(s[0]) || IsSpace(s[0]) then [s[0]] + rest else rest
  }

  function KeptHead(s: string): string
    requires s != []
  {
    if IsWordChar(s[0]) || IsSpace(s[0]) then [s[0]] else []
  }

  lemma StripCons(s: string)
    requires s != []
    ensures StripPunctuation(s) == KeptHead(s) + StripPunctuation(s[1..])
  {
  }

  lemma StripConsAppend(s: string, t: string)
    requires s != []
    ensures StripPunctuation(s + t) == KeptHead(s) + StripPunctuation(s[1..] + t)
  {
    assert (s + t)[1..] == s[1..] + t && (s + t)[0] == s[0];
  }

  lemma Regroup(whole: string, head: string, tail: string, a: string, b: string, first: string)
    requires whole == head + tail && tail == a + b && first == head + a
    ensures whole == first + b
  {
  }

  /** The characters are filtered one by one and in order: stripping a
      concatenation strips each part. */
  lemma {:induction false} StripPunctuationAppend(s: string, t: string)
    ensures StripPunctuation(s + t) == StripPunctuation(s) + StripPunctuation(t)
    decreases |s|
  {
    if s != [] {
      StripPunctuationAppend(s[1..], t);
      StripConsAppend(s, t);
      StripCons(s);
      Regroup(StripPunctuation(s + t), KeptHead(s), StripPunctuation(s[1..] + t),
              StripPunctuation(s[1..]), StripPunctuation(t), StripPunctuation(s));
    } else {
      assert s + t == t;
    }
  }

  /** The maximal runs of non-white-space characters of `s`, the word in
      progress being `cur`. `split(/\s+/)` yields the same runs plus empty
      strings at a leading or trailing run of white space, which the length
      filter of `Tokenize` discards anyway. */
  function SplitWords(s: string, cur: string): (ws: seq<string>)
    decreases |s|
  {
    if s == [] then (if cur == [] then [] else [cur])
    else if IsSpace(s[0]) then (if cur == [] then [] else [cur]) + SplitWords(s[1..], [])
    else SplitWords(s[1..], cur + [s[0]])
  }

  /** Keeps the tokens longer than three characters. */
  function LongTokens(ws: seq<string>): (r: seq<string>)
    ensures forall w :: w in r ==> w in ws && |w| > 3
    ensures forall w :: w in ws && |w| > 3 ==> w in r
  {
    if ws == [] then []
    else if |ws[0]| > 3 then [ws[0]] + LongTokens(ws[1..])
    else LongTokens(ws[1..])
  }

  /** `tokenize`: lower-case, strip punctuation, split on white space and
      keep the tokens longer than three characters. */
  function Tokenize(text: string): seq<string>
  {
    LongTokens(SplitWords(StripPunctuation(Lower(text)), []))
  }

  /** What a token is: a run of more than three lower-case word characters. */
  predicate IsToken(w: string)
  {
    |w| > 3 && forall i :: 0 <= i < |w| ==> IsWordChar(w[i]) && !IsUpper(w[i])
  }

  predicate LowerWordChars(s: string)
  {
    forall i :: 0 <= i < |s| ==> (IsWordChar(s[i]) || IsSpace(s[i])) && !IsUpper(s[i])
  }

  lemma {:induction false} SplitWordsAreWords(s: string, cur: string)
    requires LowerWordChars(s)
    requires forall i :: 0 <= i < |cur| ==> IsWordChar(cur[i]) && !IsUpper(cur[i])
    ensures forall w :: w in SplitWords(s, cur) ==>
              forall i :: 0 <= i < |w| ==> IsWordChar(w[i]) && !IsUpper(w[i])
    decreases |s|
  {
    if s == [] {
    } else if IsSpace(s[0]) {
      assert LowerWordChars(s[1..]) by {
        forall i | 0 <= i < |s[1..]| ensures (IsWordChar(s[1..][i]) || IsSpace(s[1..][i])) && !IsUpper(s[1..][i]) {
          assert s[1..][i] == s[i + 1];
        }
      }
      SplitWordsAreWords(s[1..], []);
    } else {
      assert LowerWordChars(s[1..]) by {
        forall i | 0 <= i < |s[1..]| ensures (IsWordChar(s[1..][i]) || IsSpace(s[1..][i])) && !IsUpper(s[1..][i]) {
          assert s[1..][i] == s[i + 1];
        }
      }
      var cur' := cur + [s[0]];
      assert IsWordChar(s[0]) && !IsUpper(s[0]);
      assert forall i :: 0 <= i < |cur'| ==> IsWordChar(cur'[i]) && !IsUpper(cur'[i]) by {
        forall i | 0 <= i < |cur'| ensures IsWordChar(cur'[i]) && !IsUpper(cur'[i]) {
          if i < |cur| { assert cur'[i] == cur[i]; } else { assert cur'[i] == s[0]; }
        }
      }
      SplitWordsAreWords(s[1..], cur');
    }
  }

  /** Every token is longer than three characters and made of lower-case
      word characters only. */
  lemma TokensAreLowerWords(text: string)
    ensures forall w :: w in Tokenize(text) ==> IsToken(w)
  {
    var stripped := StripPunctuation(Lower(text));
    assert LowerWordChars(stripped) by {
      forall i | 0 <= i < |stripped| ensures (IsWordChar(stripped[i]) || IsSpace(stripped[i])) && !IsUpper(stripped[i]) {
        var c := stripped[i];
        assert c in multiset(stripped);
        assert c in Lower(text);
        var j :| 0 <= j < |Lower(text)| && Lower(text)[j] == c;
        assert c == LowerChar(text[j]);
      }
    }
    SplitWordsAreWords(stripped, []);
  }

  function TokenSet(text: string): set<string>
  {
    set w | w in Tokenize(text)
  }

  function Pow2(n: nat): (r: nat)
    ensures r >= 1
  {
    if n == 0 then 1 else 2 * Pow2(n - 1)
  }

  lemma {:induction false} Pow2Add(a: nat, b: nat)
    ensures Pow2(a + b) == Pow2(a) * Pow2(b)
    decreases a
  {
    if a > 0 {
      Pow2Add(a - 1, b);
      assert Pow2(a + b) == 2 * Pow2(a - 1 + b);
    }
  }

  lemma Pow2Small()
    ensures Pow2(4) == 16 && Pow2(5) == 32 && Pow2(6) == 64 && Pow2(7) == 128
    ensures Pow2(8) == 256 && Pow2(10) == 1024
  {
  }

  lemma Pow2Values()
    ensures Pow2(6) == 64 && Pow2(7) == 128
    ensures Pow2(47) == 0x8000_0000_0000 && Pow2(48) == 0x1_0000_0000_0000
    ensures Pow2(52) == 0x10_0000_0000_0000 && Pow2(53) == 0x20_0000_0000_0000
    ensures Pow2(59) == 0x800_0000_0000_0000
  {
    Pow2Small();
    Pow2Add(10, 10);
    Pow2Add(20, 20);
    Pow2Add(40, 7);
    Pow2Add(40, 8);
    Pow2Add(48, 4);
    Pow2Add(48, 5);
    Pow2Add(52, 7);
  }

  /** The binade of the quotient `c / u`: the j with 2^-j <= c / u < 2^(1-j). */
  function Binade(c: nat, u: nat): (j: nat)
    requires 1 <= c < 2 * u
    ensures u <= c * Pow2(j) < 2 * u
    decreases u - c
  {
    if c >= u then 0
    else
      var j := Binade(2 * c, u);
      assert (2 * c) * Pow2(j) == c * Pow2(j + 1);
      j + 1
  }

  /** `a / b` rounded to the nearest integer, ties to the even one: IEEE 754
      round-to-nearest applied to a significand. */
  function RoundHalfEven(a: nat, b: nat): (q: nat)
    requires b > 0
    ensures 2 * (b * q) <= 2 * a + b && 2 * a <= 2 * (b * q) + b
    ensures 2 * (b * q) == 2 * a + b || 2 * a == 2 * (b * q) + b ==> q % 2 == 0
  {
    var q, rem := a / b, a % b;
    QuotientSteps(a, b, q, rem);
    if 2 * rem < b then q
    else if 2 * rem > b then q + 1
    else if q % 2 == 0 then q
    else q + 1
  }

  lemma QuotientSteps(a: int, b: int, q: int, rem: int)
    requires b > 0 && q == a / b && rem == a % b
    ensures b * q == a - rem && b * (q + 1) == a - rem + b && 0 <= rem < b
  {
  }

  /** `Math.round(n / d)` for a non-negative quotient: the floor of
      `n / d + 1/2`. */
  function MathRound(n: nat, d: nat): (r: nat)
    requires d > 0
    ensures 2 * (d * r) <= 2 * n + d < 2 * (d * r) + 2 * d
  {
    var q := (2 * n + d) / (2 * d);
    QuotientSteps(2 * n + d, 2 * d, q, (2 * n + d) % (2 * d));
    assert (2 * d) * q == 2 * (d * q) && (2 * d) * (q + 1) == 2 * (d * q) + 2 * d;
    if q < 0 then
      MulLe(2 * d, q + 1, 0);
      0
    else q
  }

  /** `Math.round((common / union) * 100)` evaluated in IEEE 754 doubles:
      the quotient is rounded to a 53-bit significand `m` (its value is
      m / 2^k), the product with 100 is rounded again to `m2 * 2^s / 2^k`,
      and `Math.round` takes the floor of that value plus one half. The
      result is within one point of the exact percentage, and the exact
      cases 0 and 100 come out exactly. */
  function RoundedPercent(common: nat, union: nat): (r: nat)
    requires 0 < union && common <= union
    ensures 100 * common < union * r + union && union * r < 100 * common + union
    ensures r <= 100
    ensures common == union ==> r == 100
    ensures common == 0 ==> r == 0
  {
    if common == 0 then 0
    else
      var k := 52 + Binade(common, union);
      var m := RoundHalfEven(common * Pow2(k), union);
      var s: nat := if 100 * m < Pow2(59) then 6 else 7;
      var m2 := RoundHalfEven(100 * m, Pow2(s));
      var r := MathRound(m2, Pow2(k - s));
      RoundingError(common, union, k, s, m, m2, r);
      r
  }

  lemma MulLe(x: int, a: int, b: int)
    requires 0 <= x && a <= b
    ensures x * a <= x * b
  {
  }

  /** The quotient, product and `Math.round` steps of `RoundedPercent`,
      each rounded to nearest, keep the result within one point of
      `100 * c / u`. */
  lemma RoundingError(c: nat, u: nat, k: nat, s: nat, m: nat, m2: nat, r: nat)
    requires 0 < c <= u && 52 <= k && 6 <= s <= 7
    requires 2 * (u * m) <= 2 * (c * Pow2(k)) + u && 2 * (c * Pow2(k)) <= 2 * (u * m) + u
    requires 2 * (Pow2(s) * m2) <= 2 * (100 * m) + Pow2(s) && 2 * (100 * m) <= 2 * (Pow2(s) * m2) + Pow2(s)
    requires 2 * (Pow2(k - s) * r) <= 2 * m2 + Pow2(k - s) < 2 * (Pow2(k - s) * r) + 2 * Pow2(k - s)
    ensures 100 * c < u * r + u && u * r < 100 * c + u
    ensures r <= 100
    ensures c == u ==> r == 100
  {
    var K, S, T := Pow2(k), Pow2(s), Pow2(k - s);
    Pow2Values();
    Pow2Add(s, k - s);
    Pow2Add(52, k - 52);
    MulLe(Pow2(52), 1, Pow2(k - 52));
    assert K == S * T && 100 + S < K;
    WithinOnePoint(c, u, S, T, K, m, m2, r);
    if 100 < r {
      MulLe(u, 101, r);
    }
    assert u * (r + 1) == u * r + u;
    if c == u && r < 100 {
      MulLe(u, r + 1, 100);
    }
  }

  /** `Math.round`'s bounds, scaled by `S * u`. */
  lemma ScaledRound(S: int, T: int, K: int, u: int, m2: int, r: int)
    requires 0 < u && 0 < S && 0 < T && K == S * T
    requires 2 * (T * r) <= 2 * m2 + T && 2 * m2 + T < 2 * (T * r) + 2 * T
    ensures 2 * (K * (u * r)) <= 2 * (u * (S * m2)) + K * u
    ensures 2 * (u * (S * m2)) <= 2 * (K * (u * r)) + K * u
  {
    MulLe(S * u, 2 * (T * r), 2 * m2 + T);
    assert (S * u) * (2 * (T * r)) == 2 * (K * (u * r));
    assert (S * u) * (2 * m2 + T) == 2 * (u * (S * m2)) + K * u;
    MulLe(S * u, 2 * m2, 2 * (T * r) + T);
    assert (S * u) * (2 * m2) == 2 * (u * (S * m2));
    assert (S * u) * (2 * (T * r) + T) == 2 * (K * (u * r)) + K * u;
  }

  /** The product's rounding, scaled by `u`. */
  lemma ScaledProduct(S: int, u: int, m: int, m2: int)
    requires 0 < u
    requires 2 * (S * m2) <= 2 * (100 * m) + S && 2 * (100 * m) <= 2 * (S * m2) + S
    ensures 2 * (u * (S * m2)) <= 200 * (u * m) + S * u
    ensures 200 * (u * m) <= 2 * (u * (S * m2)) + S * u
  {
    MulLe(u, 2 * (S * m2), 2 * (100 * m) + S);
    MulLe(u, 2 * (100 * m), 2 * (S * m2) + S);
    assert u * (2 * (S * m2)) == 2 * (u * (S * m2));
    assert u * (2 * (100 * m) + S) == 200 * (u * m) + S * u;
    assert u * (2 * (100 * m)) == 200 * (u * m);
    assert u * (2 * (S * m2) + S) == 2 * (u * (S * m2)) + S * u;
  }

  lemma SmallError(u: int, S: int, K: int)
    requires 0 < u && 101 + S <= K
    ensures 101 * u + S * u <= K * u
  {
    MulLe(u, 101 + S, K);
  }

  /** The three rounding errors add up to less than one point. */
  lemma SumOfErrors(x1: int, x2: int, x3: int, x4: int, x5: int, x6: int, u: int)
    requires 2 * x1 <= 2 * x2 + x6 && 2 * x2 <= 2 * x1 + x6
    requires 2 * x2 <= 200 * x3 + x5 && 200 * x3 <= 2 * x2 + x5
    requires 2 * x3 <= 2 * x4 + u && 2 * x4 <= 2 * x3 + u
    requires 0 < u && 101 * u + x5 <= x6
    ensures x1 < 100 * x4 + x6 && 100 * x4 < x1 + x6
  {
  }

  lemma CancelUpper(K: int, c: int, u: int, a: int)
    requires 0 < K && K * a < 100 * (c * K) + K * u
    ensures a < 100 * c + u
  {
    assert 100 * (c * K) + K * u == K * (100 * c + u);
    if a >= 100 * c + u {
      MulLe(K, 100 * c + u, a);
    }
  }

  lemma CancelLower(K: int, c: int, u: int, a: int)
    requires 0 < K && 100 * (c * K) < K * a + K * u
    ensures 100 * c < a + u
  {
    assert K * a + K * u == K * (a + u);
    assert 100 * (c * K) == K * (100 * c);
    if 100 * c >= a + u {
      MulLe(K, a + u, 100 * c);
    }
  }

  /** The error bound in the scaled integers: the significands `m` and `m2`
      and the rounded result `r` bracket `100 * c / u` within one. */
  lemma WithinOnePoint(c: int, u: int, S: int, T: int, K: int, m: int, m2: int, r: int)
    requires 0 < u && 0 < S && 0 < T && K == S * T && 101 + S <= K
    requires 2 * (u * m) <= 2 * (c * K) + u && 2 * (c * K) <= 2 * (u * m) + u
    requires 2 * (S * m2) <= 2 * (100 * m) + S && 2 * (100 * m) <= 2 * (S * m2) + S
    requires 2 * (T * r) <= 2 * m2 + T && 2 * m2 + T < 2 * (T * r) + 2 * T
    ensures u * r < 100 * c + u
    ensures 100 * c < u * r + u
  {
    ScaledRound(S, T, K, u, m2, r);
    ScaledProduct(S, u, m, m2);
    SmallError(u, S, K);
    SumOfErrors(K * (u * r), u * (S * m2), u * m, c * K, S * u, K * u, u);
    CancelUpper(K, c, u, u * r);
    CancelLower(K, c, u, u * r);
  }

  /** The floating-point evaluation can differ from exact rounding: 23 common
      tokens out of 40 are exactly 57.5 percent, but the quotient 0.575 is
      stored slightly low, the product is 57.49999999999999 and the result
      is 57. */
  lemma HalfPercentRoundsDown()
    ensures RoundedPercent(23, 40) == 57
  {
    Pow2Values();
    QuotientOf23Over40();
    ProductOf23Over40();
    assert MathRound(8092405580431359, 0x8000_0000_0000) == 57;
  }

  /** 23 / 40 lies in the binade [1/2, 1) and is stored as 5179139571476070 / 2^53. */
  lemma QuotientOf23Over40()
    ensures Binade(23, 40) == 1
    ensures RoundHalfEven(23 * 0x20_0000_0000_0000, 40) == 5179139571476070
  {
    assert Binade(46, 40) == 0;
  }

  /** The product with 100 is stored as 8092405580431359 * 2^6 / 2^53. */
  lemma ProductOf23Over40()
    ensures RoundHalfEven(517913957147607000, 64) == 8092405580431359
  {
  }

  /** `similarityScore(text1, text2)`, stated on token sets: 0 when either
      text or either token list is empty, otherwise the rounded Jaccard
      percentage of the two token sets. */
  function Similarity(text1: string, text2: string): (r: nat)
    ensures r <= 100
    ensures text1 == [] || text2 == [] ==> r == 0
  {
    if text1 == [] || text2 == [] then 0
    else if |Tokenize(text1)| == 0 || |Tokenize(text2)| == 0 then 0
    else
      var s1, s2 := TokenSet(text1), TokenSet(text2);
      assert Tokenize(text1)[0] in s1;
      assert |s1 * s2| <= |s1 + s2| by { SubsetCard(s1 * s2, s1 + s2); }
      RoundedPercent(|s1 * s2|, |s1 + s2|)
  }

  lemma SubsetCard<T>(a: set<T>, b: set<T>)
    requires a <= b
    ensures |a| <= |b|
  {
    assert b == a + (b - a);
  }

  /** The implementation of `similarityScore`: the common tokens are counted
      one by one over the first token set. */
  method SimilarityScore(text1: string, text2: string) returns (score: nat)
    ensures score == Similarity(text1, text2)
  {
    if text1 == [] || text2 == [] {
      return 0;
    }
    var words1 := Tokenize(text1);
    var words2 := Tokenize(text2);
    if |words1| == 0 || |words2| == 0 {
      return 0;
    }
    var set1 := set w | w in words1;
    var set2 := set w | w in words2;
    var commonCount := 0;
    var rest := set1;
    while rest != {}
      invariant rest <= set1
      invariant commonCount == |(set1 - rest) * set2|
      decreases |rest|
    {
      var w :| w in rest;
      CommonStep(set1, set2, rest, w);
      if w in set2 {
        commonCount := commonCount + 1;
      }
      rest := rest - {w};
    }
    assert set1 - rest == set1;
    var totalUniqueWords := |set1 + set2|;
    assert words1[0] in set1;
    SubsetCard(set1 * set2, set1 + set2);
    score := RoundedPercent(commonCount, totalUniqueWords);
  }

  lemma CommonStep(set1: set<string>, set2: set<string>, rest: set<string>, w: string)
    requires w in rest && rest <= set1
    ensures |(set1 - (rest - {w})) * set2| == |(set1 - rest) * set2| + (if w in set2 then 1 else 0)
  {
    var before := (set1 - rest) * set2;
    if w in set2 {
      assert (set1 - (rest - {w})) * set2 == before + {w};
      assert w !in before;
    } else {
      assert (set1 - (rest - {w})) * set2 == before;
    }
  }

  /** The score does not depend on the order of the arguments. */
  lemma SimilaritySymmetric(text1: string, text2: string)
    ensures Similarity(text1, text2) == Similarity(text2, text1)
  {
    var s1, s2 := TokenSet(text1), TokenSet(text2);
    assert s1 * s2 == s2 * s1;
    assert s1 + s2 == s2 + s1;
  }

  /** A text with at least one token is fully similar to itself. */
  lemma SimilarityReflexive(text: string)
    requires |Tokenize(text)| > 0
    ensures Similarity(text, text) == 100
  {
    var s := TokenSet(text);
    assert s * s == s + s;
  }

  /** Only the token sets matter: repeating or reordering words of one text
      leaves the score against any other text unchanged. */
  lemma SimilarityDependsOnTokenSets(text1: string, text1': string, text2: string)
    requires TokenSet(text1) == TokenSet(text1')
    ensures Similarity(text1, text2) == Similarity(text1', text2)
  {
    assert |Tokenize(text1)| == 0 <==> TokenSet(text1) == {} by {
      if |Tokenize(text1)| > 0 { assert Tokenize(text1)[0] in TokenSet(text1); }
    }
    assert |Tokenize(text1')| == 0 <==> TokenSet(text1') == {} by {
      if |Tokenize(text1')| > 0 { assert Tokenize(text1')[0] in TokenSet(text1'); }
    }
  }

  /** Texts without a common token score 0. */
  lemma DisjointTokensScoreZero(text1: string, text2: string)
    requires TokenSet(text1) * TokenSet(text2) == {}
    ensures Similarity(text1, text2) == 0
  {
  }
}
