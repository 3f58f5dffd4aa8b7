/**
 * The string and token scores of the fuzzy matcher.
 *
 * `Levenshtein` fills the same matrix as the matcher does. Its meaning is given
 * by edit scripts: sequences of edits that read one text and write another.
 * The text is a sequence of any equality type, since the matcher compares
 * UTF-16 code units, not characters.
 */
module EditDistance {

  datatype Edit<T> = Keep(c: T) | Substitute(before: T, after: T) | Insert(c: T) | Delete(c: T)

  /** The text a script reads. */
  ghost function Source<T>(script: seq<Edit<T>>): seq<T> {
    if script == [] then []
    else
      var before := Source(script[..|script| - 1]);
      match script[|script| - 1]
      case Keep(c) => before + [c]
      case Substitute(c, _) => before + [c]
      case Insert(_) => before
      case Delete(c) => before + [c]
  }

  /** The text a script writes. */
  ghost function Target<T>(script: seq<Edit<T>>): seq<T> {
    if script == [] then []
    else
      var before := Target(script[..|script| - 1]);
      match script[|script| - 1]
      case Keep(c) => before + [c]
      case Substitute(_, c) => before + [c]
      case Insert(c) => before + [c]
      case Delete(_) => before
  }

  /** Keeping is free; every other edit costs one. */
  ghost function Cost<T>(script: seq<Edit<T>>): nat {
    if script == [] then 0
    else Cost(script[..|script| - 1]) + if script[|script| - 1].Keep? then 0 else 1
  }

  ghost predicate Turns<T>(script: seq<Edit<T>>, a: seq<T>, b: seq<T>) {
    Source(script) == a && Target(script) == b
  }

  /** `d` is the cost of a cheapest script from `a` to `b`. */
  ghost predicate IsEditDistance<T(!new)>(d: nat, a: seq<T>, b: seq<T>) {
    && (exists script :: Turns(script, a, b) && Cost(script) == d)
    && (forall script | Turns(script, a, b) :: d <= Cost(script))
  }

  function Init<T>(s: seq<T>): seq<T>
    requires s != []
  {
    s[..|s| - 1]
  }

  function Min(x: nat, y: nat): nat {
    if x < y then x else y
  }

  /** The recurrence behind the matrix: equal last characters take the diagonal only. */
  function Distance<T(==)>(a: seq<T>, b: seq<T>): nat
    decreases |a| + |b|
  {
    if a == [] then |b|
    else if b == [] then |a|
    else if a[|a| - 1] == b[|b| - 1] then Distance(Init(a), Init(b))
    else 1 + Min(Distance(Init(a), Init(b)), Min(Distance(Init(a), b), Distance(a, Init(b))))
  }

  /** Dropping one character moves the distance by at most one. */
  lemma {:induction false} DropOne<T>(a: seq<T>, b: seq<T>)
    ensures a != [] ==> -1 <= Distance(a, b) - Distance(Init(a), b) <= 1
    ensures b != [] ==> -1 <= Distance(a, b) - Distance(a, Init(b)) <= 1
    decreases |a| + |b|
  {
    if a != [] && b != [] {
      DropOne(Init(a), b);
      DropOne(a, Init(b));
      DropOne(Init(a), Init(b));
    }
  }

  /** One more edit costs at most what the edit does. */
  lemma OneMoreEdit<T>(a: seq<T>, b: seq<T>, x: T, y: T)
    ensures Distance(a + [x], b) <= Distance(a, b) + 1
    ensures Distance(a, b + [y]) <= Distance(a, b) + 1
    ensures Distance(a + [x], b + [y]) <= Distance(a, b) + if x == y then 0 else 1
  {
    assert Init(a + [x]) == a && Init(b + [y]) == b;
    DropOne(a + [x], b);
    DropOne(a, b + [y]);
  }

  /** No script is cheaper than the recurrence. */
  lemma {:induction false} NoCheaperScript<T>(script: seq<Edit<T>>)
    ensures Distance(Source(script), Target(script)) <= Cost(script)
  {
    if script != [] {
      var before := Init(script);
      NoCheaperScript(before);
      match script[|script| - 1]
      case Keep(c) => OneMoreEdit(Source(before), Target(before), c, c);
      case Substitute(x, y) => OneMoreEdit(Source(before), Target(before), x, y);
      case Insert(c) => OneMoreEdit(Source(before), Target(before), c, c);
      case Delete(c) => OneMoreEdit(Source(before), Target(before), c, c);
    }
  }

  ghost function Append<T>(script: seq<Edit<T>>, e: Edit<T>): (longer: seq<Edit<T>>)
    ensures |longer| > 0 && Init(longer) == script && longer[|longer| - 1] == e
  {
    script + [e]
  }

  /** A script that attains the recurrence. */
  ghost function CheapestScript<T>(a: seq<T>, b: seq<T>): seq<Edit<T>>
    decreases |a| + |b|
  {
    if a == [] && b == [] then []
    else if a == [] || (b != [] && a[|a| - 1] != b[|b| - 1] && Distance(a, b) == 1 + Distance(a, Init(b))) then
      Append(CheapestScript(a, Init(b)), Insert(b[|b| - 1]))
    else if b == [] || (a[|a| - 1] != b[|b| - 1] && Distance(a, b) == 1 + Distance(Init(a), b)) then
      Append(CheapestScript(Init(a), b), Delete(a[|a| - 1]))
    else
      var x, y := a[|a| - 1], b[|b| - 1];
      Append(CheapestScript(Init(a), Init(b)), if x == y then Keep(x) else Substitute(x, y))
  }

  ghost predicate Attains<T>(script: seq<Edit<T>>, a: seq<T>, b: seq<T>, cost: nat) {
    Turns(script, a, b) && Cost(script) == cost
  }

  /** What one more edit adds to a script. */
  lemma AppendKeep<T>(script: seq<Edit<T>>, a: seq<T>, b: seq<T>, cost: nat, x: T)
    requires Attains(script, a, b, cost)
    ensures Attains(Append(script, Keep(x)), a + [x], b + [x], cost)
  {
  }

  lemma AppendSubstitute<T>(script: seq<Edit<T>>, a: seq<T>, b: seq<T>, cost: nat, x: T, y: T)
    requires Attains(script, a, b, cost)
    ensures Attains(Append(script, Substitute(x, y)), a + [x], b + [y], cost + 1)
  {
  }

  lemma AppendInsert<T>(script: seq<Edit<T>>, a: seq<T>, b: seq<T>, cost: nat, y: T)
    requires Attains(script, a, b, cost)
    ensures Attains(Append(script, Insert(y)), a, b + [y], cost + 1)
  {
  }

  lemma AppendDelete<T>(script: seq<Edit<T>>, a: seq<T>, b: seq<T>, cost: nat, x: T)
    requires Attains(script, a, b, cost)
    ensures Attains(Append(script, Delete(x)), a + [x], b, cost + 1)
  {
  }

  lemma {:induction false} CheapestScriptAttains<T>(a: seq<T>, b: seq<T>)
    ensures Attains(CheapestScript(a, b), a, b, Distance(a, b))
    decreases |a| + |b|
  {
    if a != [] || b != [] {
      hide Attains;
      hide Append;
      assert a != [] ==> a == Init(a) + [a[|a| - 1]];
      assert b != [] ==> b == Init(b) + [b[|b| - 1]];
      if a == [] || (b != [] && a[|a| - 1] != b[|b| - 1] && Distance(a, b) == 1 + Distance(a, Init(b))) {
        CheapestScriptAttains(a, Init(b));
        AppendInsert(CheapestScript(a, Init(b)), a, Init(b), Distance(a, Init(b)), b[|b| - 1]);
      } else if b == [] || (a[|a| - 1] != b[|b| - 1] && Distance(a, b) == 1 + Distance(Init(a), b)) {
        CheapestScriptAttains(Init(a), b);
        AppendDelete(CheapestScript(Init(a), b), Init(a), b, Distance(Init(a), b), a[|a| - 1]);
      } else {
        CheapestScriptAttains(Init(a), Init(b));
        var script, cost := CheapestScript(Init(a), Init(b)), Distance(Init(a), Init(b));
        AppendKeep(script, Init(a), Init(b), cost, a[|a| - 1]);
        AppendSubstitute(script, Init(a), Init(b), cost, a[|a| - 1], b[|b| - 1]);
      }
    }
  }

  lemma DistanceIsEditDistance<T(!new)>(a: seq<T>, b: seq<T>)
    ensures IsEditDistance(Distance(a, b), a, b)
  {
    CheapestScriptAttains(a, b);
    forall script | Turns(script, a, b) ensures Distance(a, b) <= Cost(script) {
      NoCheaperScript(script);
    }
  }

  /** What cell (i, j) of the matrix holds: the distance of the first j and first i characters. */
  ghost function Cell<T>(a: seq<T>, b: seq<T>, i: int, j: int): nat {
    if 0 <= i <= |b| && 0 <= j <= |a| then Distance(a[..j], b[..i]) else 0
  }

  lemma CellRecurrence<T>(a: seq<T>, b: seq<T>, i: nat, j: nat)
    requires i <= |b| && j <= |a|
    ensures i == 0 ==> Cell(a, b, i, j) == j
    ensures j == 0 ==> Cell(a, b, i, j) == i
    ensures i > 0 && j > 0 && a[j - 1] == b[i - 1] ==> Cell(a, b, i, j) == Cell(a, b, i - 1, j - 1)
    ensures i > 0 && j > 0 && a[j - 1] != b[i - 1] ==>
              Cell(a, b, i, j)
              == Min(Cell(a, b, i - 1, j - 1) + 1, Min(Cell(a, b, i, j - 1) + 1, Cell(a, b, i - 1, j) + 1))
  {
    if i > 0 && j > 0 {
      assert Init(a[..j]) == a[..j - 1] && Init(b[..i]) == b[..i - 1];
    }
  }

  /** The first column and the first row count up from zero. */
  method FillEdges(matrix: array2<nat>)
    requires matrix.Length0 > 0 && matrix.Length1 > 0
    modifies matrix
    ensures forall i | 0 <= i < matrix.Length0 :: matrix[i, 0] == i
    ensures forall j | 0 <= j < matrix.Length1 :: matrix[0, j] == j
  {
    for i := 0 to matrix.Length0
      invariant forall k | 0 <= k < i :: matrix[k, 0] == k
    {
      matrix[i, 0] := i;
    }
    for j := 0 to matrix.Length1
      invariant forall k | 0 <= k < matrix.Length0 :: matrix[k, 0] == k
      invariant forall k | 0 <= k < j :: matrix[0, k] == k
    {
      matrix[0, j] := j;
    }
  }

  /** The matrix has a row per character of `b` and a column per character of `a`. */
  method Levenshtein<T(==)>(a: seq<T>, b: seq<T>) returns (d: nat)
    ensures d == Distance(a, b)
  {
    if a == b {
      DistanceZero(a, b);
      return 0;
    }
    if |a| == 0 { return |b|; }
    if |b| == 0 { return |a|; }

    var matrix := new nat[|b| + 1, |a| + 1];
    FillEdges(matrix);
    forall l | 0 <= l <= |a| ensures matrix[0, l] == Cell(a, b, 0, l) {
      CellRecurrence(a, b, 0, l);
    }
    for i := 1 to |b| + 1
      invariant forall k | i <= k <= |b| :: matrix[k, 0] == k
      invariant forall k, l | 0 <= k < i && 0 <= l <= |a| :: matrix[k, l] == Cell(a, b, k, l)
    {
      CellRecurrence(a, b, i, 0);
      for j := 1 to |a| + 1
        invariant forall k | i < k <= |b| :: matrix[k, 0] == k
        invariant forall k, l | 0 <= k < i && 0 <= l <= |a| :: matrix[k, l] == Cell(a, b, k, l)
        invariant forall l | 0 <= l < j :: matrix[i, l] == Cell(a, b, i, l)
      {
        CellRecurrence(a, b, i, j);
        if b[i - 1] == a[j - 1] {
          matrix[i, j] := matrix[i - 1, j - 1];
        } else {
          matrix[i, j] := Min(matrix[i - 1, j - 1] + 1, Min(matrix[i, j - 1] + 1, matrix[i - 1, j] + 1));
        }
      }
    }
    assert a[..|a|] == a && b[..|b|] == b;
    d := matrix[|b|, |a|];
  }

  // The distance is a metric.

  lemma {:induction false} DistanceZero<T>(a: seq<T>, b: seq<T>)
    ensures Distance(a, b) == 0 <==> a == b
    decreases |a|
  {
    if a != [] && b != [] && a[|a| - 1] == b[|b| - 1] {
      DistanceZero(Init(a), Init(b));
      assert a == Init(a) + [a[|a| - 1]] && b == Init(b) + [b[|b| - 1]];
    }
  }

  lemma {:induction false} DistanceSymmetric<T>(a: seq<T>, b: seq<T>)
    ensures Distance(a, b) == Distance(b, a)
    decreases |a| + |b|
  {
    if a != [] && b != [] {
      DistanceSymmetric(Init(a), Init(b));
      DistanceSymmetric(Init(a), b);
      DistanceSymmetric(a, Init(b));
    }
  }

  /** Two scripts in a row, joined over the text between them. */
  ghost function Compose<T>(first: seq<Edit<T>>, second: seq<Edit<T>>): (script: seq<Edit<T>>)
    requires Target(first) == Source(second)
    ensures Turns(script, Source(first), Target(second))
    ensures Cost(script) <= Cost(first) + Cost(second)
    decreases |first| + |second|
  {
    if first != [] && first[|first| - 1].Delete? then
      Append(Compose(Init(first), second), first[|first| - 1])
    else if second != [] && second[|second| - 1].Insert? then
      Append(Compose(first, Init(second)), second[|second| - 1])
    else if first == [] || second == [] then []
    else
      var p, q := first[|first| - 1], second[|second| - 1];
      assert Target(Init(first)) == Init(Target(first)) && Source(Init(second)) == Init(Source(second));
      var rest := Compose(Init(first), Init(second));
      match (p, q)
      case (Keep(_), _) => Append(rest, q)
      case (_, Keep(_)) => Append(rest, p)
      case (Substitute(x, _), Substitute(_, y)) => Append(rest, Substitute(x, y))
      case (Substitute(x, _), _) => Append(rest, Delete(x))
      case (_, Substitute(_, y)) => Append(rest, Insert(y))
      case _ => rest
  }

  lemma DistanceTriangle<T>(a: seq<T>, b: seq<T>, c: seq<T>)
    ensures Distance(a, c) <= Distance(a, b) + Distance(b, c)
  {
    CheapestScriptAttains(a, b);
    CheapestScriptAttains(b, c);
    NoCheaperScript(Compose(CheapestScript(a, b), CheapestScript(b, c)));
  }

  lemma {:induction false} DistanceBounds<T>(a: seq<T>, b: seq<T>)
    ensures |a| - |b| <= Distance(a, b) && |b| - |a| <= Distance(a, b)
    ensures Distance(a, b) <= |a| || Distance(a, b) <= |b|
    decreases |a| + |b|
  {
    if a != [] && b != [] {
      DistanceBounds(Init(a), Init(b));
      DistanceBounds(Init(a), b);
      DistanceBounds(a, Init(b));
    }
  }

  /** In [0, 1], and 1 only for equal texts. */
  method EditSimilarity<T(==)>(a: seq<T>, b: seq<T>) returns (score: real)
    ensures score == Similarity(a, b)
    ensures 0.0 <= score <= 1.0
    ensures score == 1.0 <==> a == b
    ensures score == 0.0 <==> a != b && |a| <= Distance(a, b) && |b| <= Distance(a, b)
  {
    if a == b { return 1.0; }
    var maxLen := if |a| < |b| then |b| else |a|;
    if maxLen == 0 { return 1.0; }
    var d := Levenshtein(a, b);
    DistanceBounds(a, b);
    DistanceZero(a, b);
    Fraction(d, maxLen);
    score := 1.0 - d as real / maxLen as real;
  }

  ghost function Similarity<T>(a: seq<T>, b: seq<T>): real {
    if a == b then 1.0
    else 1.0 - Distance(a, b) as real / (if |a| < |b| then |b| else |a|) as real
  }

  /** Scaled by the longer length, the similarity is what the distance leaves of it. */
  lemma SimilarityMeaning<T>(a: seq<T>, b: seq<T>)
    ensures var longer := if |a| < |b| then |b| else |a|;
            Similarity(a, b) * longer as real == longer as real - Distance(a, b) as real
  {
    hide Distance;
    var longer := if |a| < |b| then |b| else |a|;
    DistanceZero(a, b);
    if a == b {
      assert Distance(a, b) == 0;
    } else {
      FractionBack(Distance(a, b), longer);
    }
  }

  lemma FractionBack(part: nat, whole: nat)
    requires whole > 0
    ensures (1.0 - part as real / whole as real) * whole as real == whole as real - part as real
    ensures part as real / whole as real * whole as real == part as real
  {
    var q, w := part as real / whole as real, whole as real;
    assert q * w == part as real;
    assert (1.0 - q) * w == w - q * w;
  }

  lemma Fraction(part: nat, whole: nat)
    requires part <= whole && whole > 0
    ensures 0.0 <= part as real / whole as real <= 1.0
    ensures part as real / whole as real == 0.0 <==> part == 0
    ensures part as real / whole as real == 1.0 <==> part == whole
  {
    var q := part as real / whole as real;
    assert q * whole as real == part as real;
  }

  // The token scores, over the sets of tokens.

  function Jaccard<T(==)>(a: set<T>, b: set<T>): real {
    if |a + b| == 0 then 1.0 else |a * b| as real / |a + b| as real
  }

  function TokenOverlap<T(==)>(a: set<T>, b: set<T>): real {
    Overlap(|a * b|, |a|, |b|)
  }

  /** The harmonic mean of the shared tokens' shares of either side. */
  function Overlap(shared: nat, sizeA: nat, sizeB: nat): real {
    var precision := if sizeB > 0 then shared as real / sizeB as real else 0.0;
    var recall := if sizeA > 0 then shared as real / sizeA as real else 0.0;
    if precision + recall == 0.0 then 0.0 else 2.0 * precision * recall / (precision + recall)
  }

  lemma JaccardRange<T>(a: set<T>, b: set<T>)
    ensures 0.0 <= Jaccard(a, b) <= 1.0
    ensures Jaccard(a, b) == 1.0 <==> a == b
    ensures a + b != {} ==> Jaccard(a, b) * |a + b| as real == |a * b| as real
  {
    SubsetSize(a * b, a + b);
    if |a + b| > 0 {
      Fraction(|a * b|, |a + b|);
      FractionBack(|a * b|, |a + b|);
      if a * b == a + b { assert a == b; }
    } else {
      assert a == {} && b == {};
    }
  }

  lemma {:induction false} SubsetSize<T>(s: set<T>, t: set<T>)
    requires s <= t
    ensures |s| <= |t|
    ensures |s| == |t| <==> s == t
  {
    assert t == s + (t - s);
  }

  /** The score is the shared share of both sides' tokens; it is 1 only for equal non-empty sets. */
  lemma TokenOverlapClosedForm<T>(a: set<T>, b: set<T>)
    ensures |a| + |b| == 0 ==> TokenOverlap(a, b) == 0.0
    ensures |a| + |b| > 0 ==> TokenOverlap(a, b) == (2 * |a * b|) as real / (|a| + |b|) as real
    ensures 0.0 <= TokenOverlap(a, b) <= 1.0
    ensures TokenOverlap(a, b) == 1.0 <==> a == b && a != {}
  {
    hide Overlap;
    SubsetSize(a * b, a);
    SubsetSize(a * b, b);
    var n, m, s := |a|, |b|, |a * b|;
    OverlapOfSizes(s, n, m);
    if n + m > 0 {
      Fraction(2 * s, n + m);
      if s == n && s == m { assert a == a * b == b; }
    }
  }

  lemma OverlapOfSizes(s: nat, n: nat, m: nat)
    requires s <= n && s <= m
    ensures Overlap(s, n, m) == if n + m == 0 then 0.0 else (2 * s) as real / (n + m) as real
  {
    if s > 0 {
      HarmonicMean(s as real, n as real, m as real);
      assert (2 * s) as real == 2.0 * s as real;
    }
  }

  lemma HarmonicMean(s: real, n: real, m: real)
    requires s > 0.0 && n > 0.0 && m > 0.0
    ensures s / m > 0.0 && s / n > 0.0
    ensures 2.0 * (s / m) * (s / n) / (s / m + s / n) == 2.0 * s / (n + m)
  {
    var p, r := s / m, s / n;
    assert p * m == s && r * n == s;
    assert p > 0.0 && r > 0.0;
    var h := 2.0 * p * r / (p + r);
    assert h * (p + r) == 2.0 * p * r;
    assert p * r * (n + m) == p * (r * n) + r * (p * m) == s * (p + r);
    var k := 2.0 * s / (n + m);
    assert k * (n + m) == 2.0 * s;
    calc {
      (h - k) * (p + r) * (n + m);
      h * (p + r) * (n + m) - k * (n + m) * (p + r);
      2.0 * (p * r * (n + m)) - 2.0 * s * (p + r);
      0.0;
    }
    assert (p + r) * (n + m) > 0.0;
  }

  /** The blend the matcher ranks candidates by: 1 exactly for equal texts with equal, non-empty token sets. */
  method CombinedScore<T(==), U(==)>(textA: seq<T>, tokensA: seq<U>, textB: seq<T>, tokensB: seq<U>)
    returns (score: real)
    ensures score == 0.2 * Similarity(textA, textB)
                     + 0.3 * Jaccard(Tokens(tokensA), Tokens(tokensB))
                     + 0.5 * TokenOverlap(Tokens(tokensA), Tokens(tokensB))
    ensures 0.0 <= score <= 1.0
    ensures score == 1.0 <==> textA == textB && Tokens(tokensA) == Tokens(tokensB) && tokensA != []
  {
    var edit := EditSimilarity(textA, textB);
    var a, b := Tokens(tokensA), Tokens(tokensB);
    JaccardRange(a, b);
    TokenOverlapClosedForm(a, b);
    assert tokensA != [] ==> tokensA[0] in a;
    score := edit * 0.2 + Jaccard(a, b) * 0.3 + TokenOverlap(a, b) * 0.5;
  }

  function Tokens<T(==)>(tokens: seq<T>): (found: set<T>)
    ensures (forall token <- tokens :: token in found) && (forall token <- found :: token in tokens)
  {
    set token <- tokens
  }
}
