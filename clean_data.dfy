/** The corpus-cleaning helpers of the data reader that need neither the database nor
    the file system: the unit-cost edit distance used to detect near-duplicate
    descriptions, and two substring tests on URLs and commands. */
module CleanData {
  import opened Strings

  /** Cost of inserting one character of the target. */
  function InsertCost(x: char): nat
  {
    1
  }

  /** Cost of deleting one character of the source. */
  function DeleteCost(x: char): nat
  {
    1
  }

  /** Cost of substituting one character for another: free exactly when they agree. */
  function SubstCost(x: char, y: char): (c: nat)
    ensures c <= 1
    ensures c == 0 <==> x == y
  {
    if x == y then 0 else 1
  }

  /** All three edit costs are unit costs, and substitution does not care about order. */
  lemma UnitCosts(x: char, y: char)
    ensures InsertCost(x) == 1 && DeleteCost(y) == 1
    ensures SubstCost(x, y) == SubstCost(y, x)
  {
  }

  /** Python's `min(a, b, c)`. */
  function Min3(a: nat, b: nat, c: nat): (r: nat)
    ensures r <= a && r <= b && r <= c
    ensures r == a || r == b || r == c
  {
    if a <= b && a <= c then a else if b <= c then b else c
  }

  /** The textbook Levenshtein distance with unit insertion, deletion and substitution
      costs, by recursion on the last characters of both strings. */
  function Lev(t: string, s: string): nat
    decreases |t| + |s|
  {
    if |t| == 0 then |s|
    else if |s| == 0 then |t|
    else
      Min3(Lev(t[..|t| - 1], s) + 1,
           Lev(t, s[..|s| - 1]) + 1,
           Lev(t[..|t| - 1], s[..|s| - 1]) + (if t[|t| - 1] == s[|s| - 1] then 0 else 1))
  }

  /** One step of the recursion, on prefixes of two fixed strings. */
  lemma LevPrefixStep(t: string, s: string, i: nat, j: nat)
    requires 0 < i <= |t| && 0 < j <= |s|
    ensures Lev(t[..i], s[..j]) ==
            Min3(Lev(t[..i - 1], s[..j]) + 1,
                 Lev(t[..i], s[..j - 1]) + 1,
                 Lev(t[..i - 1], s[..j - 1]) + SubstCost(s[j - 1], t[i - 1]))
  {
    var a, b := t[..i], s[..j];
    assert a[..|a| - 1] == t[..i - 1] && b[..|b| - 1] == s[..j - 1];
  }

  /** The dynamic program of the data reader: fills an (n+1) x (m+1) table row by row,
      the first column with insertion costs and the first row with deletion costs. */
  method MinEditDist(target: string, source: string) returns (d: nat)
    ensures d == Lev(target, source)
  {
    var n := |target|;
    var m := |source|;
    var distance := new nat[n + 1, m + 1]((_, _) => 0);

    for i := 1 to n + 1
      invariant forall a :: 0 <= a < i ==> distance[a, 0] == a
      invariant forall b :: 0 <= b <= m ==> distance[0, b] == 0
    {
      distance[i, 0] := distance[i - 1, 0] + InsertCost(target[i - 1]);
    }

    for j := 1 to m + 1
      invariant forall a :: 0 <= a <= n ==> distance[a, 0] == a
      invariant forall b :: 0 <= b < j ==> distance[0, b] == b
    {
      distance[0, j] := distance[0, j - 1] + DeleteCost(source[j - 1]);
    }

    forall b | 0 <= b <= m
      ensures distance[0, b] == Lev(target[..0], source[..b])
    {
    }
    for i := 1 to n + 1
      invariant forall a, b :: 0 <= a < i && 0 <= b <= m ==>
                  distance[a, b] == Lev(target[..a], source[..b])
      invariant forall a :: i <= a <= n ==> distance[a, 0] == a
    {
      FillRow(distance, target, source, i);
    }
    assert target[..n] == target && source[..m] == source;
    d := distance[n, m];
  }

  /** Fills row `i` of the table from row `i - 1`, left to right. */
  method FillRow(distance: array2<nat>, target: string, source: string, i: nat)
    requires 0 < i <= |target|
    requires distance.Length0 == |target| + 1 && distance.Length1 == |source| + 1
    requires forall a, b :: 0 <= a < i && 0 <= b <= |source| ==>
               distance[a, b] == Lev(target[..a], source[..b])
    requires distance[i, 0] == i
    modifies distance
    ensures forall b :: 0 <= b <= |source| ==> distance[i, b] == Lev(target[..i], source[..b])
    ensures forall a, b :: 0 <= a < distance.Length0 && a != i && 0 <= b < distance.Length1 ==>
              distance[a, b] == old(distance[a, b])
  {
    for j := 1 to |source| + 1
      invariant forall b :: 0 <= b < j ==> distance[i, b] == Lev(target[..i], source[..b])
      invariant forall a, b :: 0 <= a < distance.Length0 && a != i && 0 <= b < distance.Length1 ==>
                  distance[a, b] == old(distance[a, b])
    {
      LevPrefixStep(target, source, i, j);
      distance[i, j] := Min3(distance[i - 1, j] + 1,
                             distance[i, j - 1] + 1,
                             distance[i - 1, j - 1] + SubstCost(source[j - 1], target[i - 1]));
    }
  }

  /** Against the empty string the distance is the other string's length. */
  lemma LevAgainstEmpty(s: string)
    ensures Lev("", s) == |s| && Lev(s, "") == |s|
  {
  }

  /** A string is at distance zero from itself. */
  lemma {:induction false} LevSelf(t: string)
    ensures Lev(t, t) == 0
    decreases |t|
  {
    if |t| > 0 {
      LevSelf(t[..|t| - 1]);
    }
  }

  /** Distance zero means equal strings, and conversely. */
  lemma {:induction false} LevZeroIff(t: string, s: string)
    ensures Lev(t, s) == 0 <==> t == s
    decreases |t| + |s|
  {
    LevSelf(t);
    if |t| > 0 && |s| > 0 && Lev(t, s) == 0 {
      LevZeroIff(t[..|t| - 1], s[..|s| - 1]);
      assert t[..|t| - 1] + [t[|t| - 1]] == t;
      assert s[..|s| - 1] + [s[|s| - 1]] == s;
    }
  }

  /** The distance is at least the difference of the lengths and at most the longer length. */
  lemma {:induction false} LevBounds(t: string, s: string)
    ensures |t| - |s| <= Lev(t, s) && |s| - |t| <= Lev(t, s)
    ensures Lev(t, s) <= if |t| >= |s| then |t| else |s|
    decreases |t| + |s|
  {
    if |t| > 0 && |s| > 0 {
      LevBounds(t[..|t| - 1], s);
      LevBounds(t, s[..|s| - 1]);
      LevBounds(t[..|t| - 1], s[..|s| - 1]);
    }
  }

  /** With unit costs the distance does not depend on the direction. */
  lemma {:induction false} LevSymmetric(t: string, s: string)
    ensures Lev(t, s) == Lev(s, t)
    decreases |t| + |s|
  {
    if |t| > 0 && |s| > 0 {
      LevSymmetric(t[..|t| - 1], s);
      LevSymmetric(t, s[..|s| - 1]);
      LevSymmetric(t[..|t| - 1], s[..|s| - 1]);
    }
  }

  /** The substrings that mark a question-and-answer site. */
  const QASites: seq<string> := ["stackoverflow", "stackexchange", "superuser", "askubuntu"]

  /** True exactly when the URL contains the name of one of the four Q&A sites. */
  function IsQAWebsite(url: string): (b: bool)
    ensures b <==> exists site, k :: site in QASites && OccursAt(url, site, k)
  {
    if Contains(url, "stackoverflow") then true
    else if Contains(url, "stackexchange") then true
    else if Contains(url, "superuser") then true
    else if Contains(url, "askubuntu") then true
    else false
  }

  /** A URL is recognised wherever the site name stands in it. */
  lemma QAWebsiteAnywhere(p: string, site: string, q: string)
    requires site in QASites
    ensures IsQAWebsite(p + site + q)
  {
    assert (p + site + q)[|p|..|p| + |site|] == site;
    assert OccursAt(p + site + q, site, |p|);
  }

  /** True exactly when `head` occurs in `cmd` followed by a space or preceded by one. */
  function HeadPresent(cmd: string, head: string): (b: bool)
    ensures b <==> exists k :: OccursAt(cmd, head + " ", k) || OccursAt(cmd, " " + head, k)
  {
    if Contains(cmd, head + " ") then true
    else if Contains(cmd, " " + head) then true
    else false
  }

  /** A match needs a space beside the head, so a command that is the head alone does not
      count, while a head followed by its arguments does. */
  lemma HeadPresentNeedsSpace(cmd: string, head: string, rest: string)
    ensures HeadPresent(cmd, head) ==> |cmd| > |head|
    ensures !HeadPresent(head, head)
    ensures HeadPresent(head + " " + rest, head)
  {
    assert OccursAt(head + " " + rest, head + " ", 0);
  }
}
