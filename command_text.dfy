/** The textual steps of the normalizer: the `tar` pre-rewrite applied before parsing,
    and the optional digit canonicalisation of argument values. */
module CommandText {
  import opened Strings
  import opened BashAst

  /** Drops the digits at the front of `w`. */
  function DropDigits(w: string): (r: string)
    ensures |r| <= |w| && r == w[|w| - |r|..]
    ensures r == [] || !IsDigit(r[0])
    decreases |w|
  {
    if |w| > 0 && IsDigit(w[0]) then DropDigits(w[1..]) else w
  }

  /** `re.sub(_DIGIT_RE, _NUM, w)`, where `_DIGIT_RE` matches a maximal run of decimal
      digits: every such run becomes one copy of `num`. */
  function ReplaceDigitRuns(w: string, num: string): (r: string)
    ensures (forall i :: 0 <= i < |w| ==> !IsDigit(w[i])) ==> r == w
    ensures (forall i :: 0 <= i < |num| ==> !IsDigit(num[i])) ==>
              forall i :: 0 <= i < |r| ==> !IsDigit(r[i])
    decreases |w|
  {
    if w == [] then []
    else if IsDigit(w[0]) then num + ReplaceDigitRuns(DropDigits(w[1..]), num)
    else
      var rest := ReplaceDigitRuns(w[1..], num);
      assert (forall i :: 0 <= i < |w| ==> !IsDigit(w[i])) ==> rest == w[1..];
      [w[0]] + rest
  }

  /** `normalize_word`: digit runs are replaced only when canonicalisation is on and the
      word is not shaped like an option. */
  function NormalizeWord(lex: Lexicon, w: string, normalizeDigits: bool): string
  {
    if normalizeDigits && !lex.isOption(w) then ReplaceDigitRuns(w, lex.num) else w
  }

  /** Option tokens are never canonicalised, nothing changes when canonicalisation is off
      or the word has no digit, and with a digit-free placeholder no digit survives. */
  lemma NormalizeWordProperties(lex: Lexicon, w: string, normalizeDigits: bool)
    ensures !normalizeDigits || lex.isOption(w) ==> NormalizeWord(lex, w, normalizeDigits) == w
    ensures (forall i :: 0 <= i < |w| ==> !IsDigit(w[i])) ==> NormalizeWord(lex, w, normalizeDigits) == w
    ensures normalizeDigits && !lex.isOption(w) && (forall i :: 0 <= i < |lex.num| ==> !IsDigit(lex.num[i])) ==>
              forall i :: 0 <= i < |NormalizeWord(lex, w, normalizeDigits)| ==>
                !IsDigit(NormalizeWord(lex, w, normalizeDigits)[i])
  {
  }

  /** A file name with a trailing number keeps its stem and gets the placeholder. */
  lemma {:induction false} TrailingNumberReplaced(stem: string, digits: string, num: string)
    requires forall i :: 0 <= i < |stem| ==> !IsDigit(stem[i])
    requires |digits| > 0 && forall i :: 0 <= i < |digits| ==> IsDigit(digits[i])
    ensures ReplaceDigitRuns(stem + digits, num) == stem + num
    decreases |stem|
  {
    if stem == [] {
      assert (stem + digits)[1..] == digits[1..];
      DropAllDigits(digits[1..]);
    } else {
      assert (stem + digits)[1..] == stem[1..] + digits;
      TrailingNumberReplaced(stem[1..], digits, num);
    }
  }

  lemma {:induction false} DropAllDigits(digits: string)
    requires forall i :: 0 <= i < |digits| ==> IsDigit(digits[i])
    ensures DropDigits(digits) == []
    decreases |digits|
  {
    if digits != [] {
      DropAllDigits(digits[1..]);
    }
  }

  /** A maximal run of digits, however long, becomes one copy of the placeholder. */
  lemma DigitRunReplaced(digits: string, num: string)
    requires |digits| > 0 && forall i :: 0 <= i < |digits| ==> IsDigit(digits[i])
    ensures ReplaceDigitRuns(digits, num) == num
  {
    DropAllDigits(digits[1..]);
  }

  /** A non-digit character separates the text around it: the parts on either side are
      canonicalised on their own and the character itself is kept, so every character that
      is not a digit survives in its place. */
  lemma {:induction false} ReplaceDigitRunsSplit(a: string, c: char, b: string, num: string)
    requires !IsDigit(c)
    ensures ReplaceDigitRuns(a + [c] + b, num) == ReplaceDigitRuns(a, num) + [c] + ReplaceDigitRuns(b, num)
    decreases |a|
  {
    if a == [] {
      assert a + [c] + b == [c] + b;
      SeparatorHeadStep(c, b, num);
    } else if IsDigit(a[0]) {
      DigitHeadStep(a, c, b, num);
      ReplaceDigitRunsSplit(DropDigits(a[1..]), c, b, num);
      JoinAssoc(num, ReplaceDigitRuns(DropDigits(a[1..]), num), c, ReplaceDigitRuns(b, num));
    } else {
      OtherHeadStep(a, c, b, num);
      ReplaceDigitRunsSplit(a[1..], c, b, num);
      JoinAssoc([a[0]], ReplaceDigitRuns(a[1..], num), c, ReplaceDigitRuns(b, num));
    }
  }

  /** Regrouping a concatenation around a separator character. */
  lemma JoinAssoc(p: string, q: string, c: char, t: string)
    ensures p + (q + [c] + t) == p + q + [c] + t
  {
  }

  /** The head and the tail of a text joined around a separator. */
  lemma JoinTail(a: string, c: char, b: string)
    requires |a| > 0
    ensures (a + [c] + b)[0] == a[0] && (a + [c] + b)[1..] == a[1..] + [c] + b
  {
  }

  /** The separator itself leads the text: it is kept and the rest is canonicalised. */
  lemma SeparatorHeadStep(c: char, b: string, num: string)
    requires !IsDigit(c)
    ensures ReplaceDigitRuns([c] + b, num) == [c] + ReplaceDigitRuns(b, num)
  {
    var w := [c] + b;
    RDRUnfold(w, num);
    assert w[0] == c && w[1..] == b;
  }

  /** A digit run leads the text: it becomes the placeholder on both sides of the split. */
  lemma DigitHeadStep(a: string, c: char, b: string, num: string)
    requires |a| > 0 && IsDigit(a[0]) && !IsDigit(c)
    ensures ReplaceDigitRuns(a + [c] + b, num) == num + ReplaceDigitRuns(DropDigits(a[1..]) + [c] + b, num)
    ensures ReplaceDigitRuns(a, num) == num + ReplaceDigitRuns(DropDigits(a[1..]), num)
  {
    JoinTail(a, c, b);
    RDRUnfold(a + [c] + b, num);
    RDRUnfold(a, num);
    DropDigitsAppend(a[1..], c, b);
  }

  /** Another non-digit leads the text: it is kept on both sides of the split. */
  lemma OtherHeadStep(a: string, c: char, b: string, num: string)
    requires |a| > 0 && !IsDigit(a[0])
    ensures ReplaceDigitRuns(a + [c] + b, num) == [a[0]] + ReplaceDigitRuns(a[1..] + [c] + b, num)
    ensures ReplaceDigitRuns(a, num) == [a[0]] + ReplaceDigitRuns(a[1..], num)
  {
    JoinTail(a, c, b);
    RDRUnfold(a + [c] + b, num);
    RDRUnfold(a, num);
  }

  /** One step of `ReplaceDigitRuns` on a non-empty word. */
  lemma RDRUnfold(w: string, num: string)
    requires |w| > 0
    ensures ReplaceDigitRuns(w, num) ==
      if IsDigit(w[0]) then num + ReplaceDigitRuns(DropDigits(w[1..]), num) else [w[0]] + ReplaceDigitRuns(w[1..], num)
  {
  }

  /** Dropping leading digits stops at a non-digit, so the text from there on is kept. */
  lemma {:induction false} DropDigitsAppend(x: string, c: char, b: string)
    requires !IsDigit(c)
    ensures DropDigits(x + [c] + b) == DropDigits(x) + [c] + b
    decreases |x|
  {
    if x == [] {
      assert x + [c] + b == [c] + b;
    } else if IsDigit(x[0]) {
      assert (x + [c] + b)[1..] == x[1..] + [c] + b;
      DropDigitsAppend(x[1..], c, b);
    } else {
      assert (x + [c] + b)[0] == x[0];
    }
  }

  /** One match of the pattern `' tar \w'`. */
  predicate IsTarFix(m: string)
  {
    |m| == 6 && m[..5] == " tar " && IsWordChar(m[5])
  }

  /** The pattern `' tar \w'` matches `s` at index `k`. */
  predicate TarFixAt(s: string, k: int)
  {
    0 <= k && k + 6 <= |s| && IsTarFix(s[k..k + 6])
  }

  /** `re.findall(' tar \w', s)`: the matches, leftmost first and without overlap. */
  function TarFixMatches(s: string): (ms: seq<string>)
    ensures forall i :: 0 <= i < |ms| ==> IsTarFix(ms[i])
    ensures ms == [] <==> !exists k :: TarFixAt(s, k)
    decreases |s|
  {
    if |s| < 6 then []
    else if IsTarFix(s[..6]) then
      assert TarFixAt(s, 0);
      [s[..6]] + TarFixMatches(s[6..])
    else
      assert !TarFixAt(s, 0);
      assert forall k :: TarFixAt(s, k) ==> TarFixAt(s[1..], k - 1) by {
        forall k | TarFixAt(s, k) ensures TarFixAt(s[1..], k - 1) {
          assert s[1..][k - 1..k + 5] == s[k..k + 6];
        }
      }
      assert forall k :: TarFixAt(s[1..], k) ==> TarFixAt(s, k + 1) by {
        forall k | TarFixAt(s[1..], k) ensures TarFixAt(s, k + 1) {
          assert s[1..][k..k + 6] == s[k + 1..k + 7];
        }
      }
      TarFixMatches(s[1..])
  }

  /** `re.findall` scans from the left: the first match listed is the leftmost one, and the
      rest are the matches of the text after it, so every match that does not overlap an
      earlier listed match is listed, in order. */
  lemma {:induction false} TarFixMatchesLeftmost(s: string, k: nat)
    requires TarFixAt(s, k)
    requires forall j :: 0 <= j < k ==> !TarFixAt(s, j)
    ensures TarFixMatches(s) == [s[k..k + 6]] + TarFixMatches(s[k + 6..])
    decreases k
  {
    if k == 0 {
      assert s[..6] == s[0..6];
    } else {
      assert !TarFixAt(s, 0);
      assert s[..6] == s[0..6];
      var t := s[1..];
      forall j | 0 <= j < k - 1
        ensures !TarFixAt(t, j)
      {
        assert !TarFixAt(s, j + 1);
        assert t[j..j + 6] == s[j + 1..j + 7];
      }
      assert t[k - 1..k + 5] == s[k..k + 6];
      TarFixMatchesLeftmost(t, k - 1);
      assert t[k + 5..] == s[k + 6..];
    }
  }

  /** `w.replace('tar ', 'tar -')` on one match. */
  function Dashed(m: string): string
  {
    Replace(m, "tar ", "tar -")
  }

  /** The loop body applied to every match in turn: each match is replaced everywhere in
      the current command by its dashed form. */
  function ApplyTarFixes(s: string, ms: seq<string>): string
    requires forall i :: 0 <= i < |ms| ==> IsTarFix(ms[i])
    decreases |ms|
  {
    if ms == [] then s
    else
      assert IsTarFix(ms[0]);
      ApplyTarFixes(Replace(s, ms[0], Dashed(ms[0])), ms[1..])
  }

  /** What `special_command_normalization` computes. */
  function TarFixed(cmd: string): string
  {
    if StartsWith(cmd, "tar") then
      var s := " " + cmd;
      Strip(ApplyTarFixes(s, TarFixMatches(s)))
    else
      cmd
  }

  /** `special_command_normalization`: when the command starts with `tar`, a space is put
      in front, every match of `' tar \w'` is dashed, and the result is stripped. */
  method SpecialCommandNormalization(cmd: string) returns (r: string)
    ensures r == TarFixed(cmd)
    ensures !StartsWith(cmd, "tar") ==> r == cmd
  {
    r := cmd;
    if StartsWith(r, "tar") {
      r := " " + r;
      var matches := TarFixMatches(r);
      for i := 0 to |matches|
        invariant ApplyTarFixes(r, matches[i..]) == ApplyTarFixes(" " + cmd, matches)
      {
        assert matches[i..][1..] == matches[i + 1..];
        r := Replace(r, matches[i], Replace(matches[i], "tar ", "tar -"));
      }
      r := Strip(r);
    }
  }

  /** When the command has no match of `' tar \w'` (an already dashed `tar -xvf ...`,
      since `\w` does not match `-`) and no surrounding blanks, it is left unchanged. */
  lemma NoBareTarOptionUnchanged(cmd: string)
    requires StartsWith(cmd, "tar")
    requires !exists k :: TarFixAt(" " + cmd, k)
    requires Strip(cmd) == cmd
    ensures TarFixed(cmd) == cmd
  {
    assert (" " + cmd)[1..] == cmd;
    assert StripLeft(" " + cmd) == StripLeft(cmd);
  }

  /** An unquoted bare option cluster right after `tar` gets its leading dash: the rewritten
      command starts with `tar -` followed by the cluster's first character. */
  lemma BareTarOptionDashed(c: char, rest: string)
    requires IsWordChar(c)
    ensures StartsWith(TarFixed("tar " + [c] + rest), "tar -" + [c])
  {
    var cmd := "tar " + [c] + rest;
    var s := " " + cmd;
    assert StartsWith(cmd, "tar");
    var m0 := " tar " + [c];
    assert s[..6] == m0 && IsTarFix(m0);
    var ms := TarFixMatches(s);
    assert ms[0] == m0;
    DashedMatch(c);
    var t := Replace(s, m0, Dashed(m0));
    assert t == " tar -" + [c] + Replace(s[6..], m0, Dashed(m0));
    assert StartsWith(t, " tar -" + [c]);
    KeepsDashedPrefix(t, ms[1..], c);
    var u := ApplyTarFixes(t, ms[1..]);
    assert ApplyTarFixes(s, ms) == u;
    StripKeepsPrefix(u, c);
  }

  lemma DashedMatch(c: char)
    requires IsWordChar(c)
    ensures Dashed(" tar " + [c]) == " tar -" + [c]
  {
    var m := " tar " + [c];
    assert m[1..][..4] == "tar ";
    assert m[1..][4..] == [c];
    assert Replace(m[1..], "tar ", "tar -") == "tar -" + Replace([c], "tar ", "tar -");
  }

  /** Replacing matches of `' tar \w'` never touches a leading `' tar -c'`. */
  lemma {:induction false} KeepsDashedPrefix(t: string, ms: seq<string>, c: char)
    requires IsWordChar(c)
    requires StartsWith(t, " tar -" + [c])
    requires forall i :: 0 <= i < |ms| ==> IsTarFix(ms[i])
    ensures StartsWith(ApplyTarFixes(t, ms), " tar -" + [c])
    decreases |ms|
  {
    if ms != [] {
      var m := ms[0];
      assert IsTarFix(m);
      assert t[..7] == " tar -" + [c];
      assert m[..5] == " tar ";
      forall k | 0 <= k < 7
        ensures !StartsWith(t[k..], m)
      {
        // the first position where `t[k..]` and `m` differ
        var d := if k == 0 then 5 else if k == 4 then 1 else 0;
        assert t[k + d] != m[d];
        assert t[k..][d] != m[d];
      }
      ReplaceNoMatchPrefix(t, m, Dashed(m), 7);
      var t' := Replace(t, m, Dashed(m));
      assert t'[..7] == t[..7];
      KeepsDashedPrefix(t', ms[1..], c);
    }
  }

  /** No occurrence of `pat` starts before index `j`, so replacing leaves `s[..j]` as it was. */
  lemma {:induction false} ReplaceNoMatchPrefix(s: string, pat: string, rep: string, j: nat)
    requires |pat| > 0 && j <= |s|
    requires forall k :: 0 <= k < j ==> !StartsWith(s[k..], pat)
    ensures Replace(s, pat, rep) == s[..j] + Replace(s[j..], pat, rep)
    decreases j
  {
    if j > 0 {
      assert !StartsWith(s[0..], pat);
      assert s[0..] == s;
      if |s| < |pat| {
        assert |s[j..]| < |pat|;
        assert s[..j] + s[j..] == s;
      } else {
        forall k | 0 <= k < j - 1
          ensures !StartsWith(s[1..][k..], pat)
        {
          assert s[1..][k..] == s[k + 1..];
        }
        ReplaceNoMatchPrefix(s[1..], pat, rep, j - 1);
        assert s[1..][j - 1..] == s[j..];
        assert [s[0]] + s[1..][..j - 1] == s[..j];
      }
    }
  }

  /** Stripping `' tar -c...'` gives a string starting with `tar -c`. */
  lemma StripKeepsPrefix(u: string, c: char)
    requires IsWordChar(c)
    requires StartsWith(u, " tar -" + [c])
    ensures StartsWith(Strip(u), "tar -" + [c])
  {
    var v := u[1..];
    assert v[..6] == "tar -" + [c] && !IsSpace(v[5]) by {
      assert u[..7] == " tar -" + [c];
    }
    assert StripLeft(u) == v by {
      assert IsSpace(u[0]) && !IsSpace(v[0]) by {
        assert u[..7] == " tar -" + [c];
      }
      StripLeftStep(u);
      StripLeftStep(v);
    }
    StripRightKeeps(v, 5);
  }

  lemma StripLeftStep(s: string)
    requires |s| > 0
    ensures StripLeft(s) == if IsSpace(s[0]) then StripLeft(s[1..]) else s
  {
  }

  lemma StripRightKeeps(s: string, i: nat)
    requires i < |s| && !IsSpace(s[i])
    ensures i < |StripRight(s)| && StripRight(s)[..i + 1] == s[..i + 1]
  {
  }
}
