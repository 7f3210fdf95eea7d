/**
 Python's `re.sub(pattern, repl, s)` for the one pattern shape the system uses:
 a literal followed by `$`, default flags, and a replacement without escapes.
 Without `re.MULTILINE`, `$` matches at the very end of the string and also
 just before a single line break that ends the string. `re.sub` scans left to
 right and replaces every non-overlapping match.
 */
module PyRe {
  import opened Text

  /** The pattern `lit$` matches at index `i` of `s`. */
  predicate AnchoredMatchAt(lit: string, s: string, i: nat)
  {
    && OccursAt(s, lit, i)
    && (i + |lit| == |s| || (i + |lit| == |s| - 1 && s[|s| - 1] == '\n'))
  }

  /** The left-to-right scan of `re.sub` from index `i` on: copy a character, or emit `repl` and skip the match. */
  function SubFrom(lit: string, repl: string, s: string, i: nat): string
    requires |lit| > 0
    requires i <= |s|
    decreases |s| - i
  {
    if i == |s| then ""
    else if AnchoredMatchAt(lit, s, i) then repl + SubFrom(lit, repl, s, i + |lit|)
    else [s[i]] + SubFrom(lit, repl, s, i + 1)
  }

  /**
   `re.sub(re.escape(lit) + "$", repl, s)` for a non-empty literal whose last
   character is not a line break: the match, if any, is the literal at the end
   of `s` or the literal right before a final line break, and only it is replaced.
   */
  function SubAtEnd(lit: string, repl: string, s: string): (r: string)
    requires |lit| > 0 && lit[|lit| - 1] != '\n'
    ensures EndsWith(s, lit) ==> r == s[..|s| - |lit|] + repl
    ensures EndsWith(s, lit + "\n") ==> r == s[..|s| - |lit| - 1] + repl + "\n"
    ensures !EndsWith(s, lit) && !EndsWith(s, lit + "\n") ==> r == s
  {
    SubCharacterised(lit, repl, s);
    SubFrom(lit, repl, s, 0)
  }

  /** The anchored match position is unique. */
  lemma MatchUnique(lit: string, s: string, j: nat, k: nat)
    requires |lit| > 0 && lit[|lit| - 1] != '\n'
    requires AnchoredMatchAt(lit, s, j) && AnchoredMatchAt(lit, s, k)
    ensures j == k
  {
    MatchIsSuffix(lit, s, j);
    MatchIsSuffix(lit, s, k);
  }

  /** A match sits at the end of `s`, or right before its final line break. */
  lemma MatchIsSuffix(lit: string, s: string, i: nat)
    requires |lit| > 0
    requires AnchoredMatchAt(lit, s, i)
    ensures i + |lit| == |s| ==> EndsWith(s, lit) && s[|s| - 1] == lit[|lit| - 1]
    ensures i + |lit| != |s| ==> EndsWith(s, lit + "\n") && i + |lit| == |s| - 1
  {
    if i + |lit| != |s| {
      assert s[i..] == s[i..i + |lit|] + [s[|s| - 1]];
    }
  }

  /** With no match from `i` on, the scan copies the rest of `s`. */
  lemma {:induction false} SubFromNoMatch(lit: string, repl: string, s: string, i: nat)
    requires |lit| > 0
    requires i <= |s|
    requires forall j: nat | i <= j < |s| :: !AnchoredMatchAt(lit, s, j)
    ensures SubFrom(lit, repl, s, i) == s[i..]
    decreases |s| - i
  {
    if i < |s| {
      SubFromNoMatch(lit, repl, s, i + 1);
      assert s[i..] == [s[i]] + s[i + 1..];
    }
  }

  /** Up to the unique match at `m`, the scan copies; at `m` it replaces; after it, it copies. */
  lemma {:induction false} SubFromToMatch(lit: string, repl: string, s: string, i: nat, m: nat)
    requires |lit| > 0 && lit[|lit| - 1] != '\n'
    requires i <= m && AnchoredMatchAt(lit, s, m)
    ensures SubFrom(lit, repl, s, i) == s[i..m] + repl + s[m + |lit|..]
    decreases m - i
  {
    if i < m {
      NoOtherMatch(lit, s, i, m);
      assert SubFrom(lit, repl, s, i) == [s[i]] + SubFrom(lit, repl, s, i + 1);
      SubFromToMatch(lit, repl, s, i + 1, m);
      assert s[i..m] == [s[i]] + s[i + 1..m];
      assert [s[i]] + (s[i + 1..m] + repl + s[m + |lit|..]) == s[i..m] + repl + s[m + |lit|..];
    } else {
      SubFromAtMatch(lit, repl, s, m);
      assert s[i..m] == "";
    }
  }

  /** No position other than the match matches. */
  lemma NoOtherMatch(lit: string, s: string, j: nat, m: nat)
    requires |lit| > 0 && lit[|lit| - 1] != '\n'
    requires AnchoredMatchAt(lit, s, m) && j != m
    ensures !AnchoredMatchAt(lit, s, j)
  {
    if AnchoredMatchAt(lit, s, j) {
      MatchUnique(lit, s, j, m);
    }
  }

  /** At the match, the scan emits `repl` and copies the rest. */
  lemma SubFromAtMatch(lit: string, repl: string, s: string, m: nat)
    requires |lit| > 0 && lit[|lit| - 1] != '\n'
    requires AnchoredMatchAt(lit, s, m)
    ensures SubFrom(lit, repl, s, m) == repl + s[m + |lit|..]
  {
    forall j: nat | m + |lit| <= j < |s|
      ensures !AnchoredMatchAt(lit, s, j)
    {
      NoOtherMatch(lit, s, j, m);
    }
    SubFromNoMatch(lit, repl, s, m + |lit|);
  }

  /** The scan of `re.sub` equals the closed form stated by `SubAtEnd`. */
  lemma SubCharacterised(lit: string, repl: string, s: string)
    requires |lit| > 0 && lit[|lit| - 1] != '\n'
    ensures EndsWith(s, lit) ==> SubFrom(lit, repl, s, 0) == s[..|s| - |lit|] + repl
    ensures EndsWith(s, lit + "\n") ==> SubFrom(lit, repl, s, 0) == s[..|s| - |lit| - 1] + repl + "\n"
    ensures !EndsWith(s, lit) && !EndsWith(s, lit + "\n") ==> SubFrom(lit, repl, s, 0) == s
  {
    if EndsWith(s, lit) {
      var m := |s| - |lit|;
      assert AnchoredMatchAt(lit, s, m);
      SubFromToMatch(lit, repl, s, 0, m);
      assert s[m + |lit|..] == "";
    } else if EndsWith(s, lit + "\n") {
      var m := |s| - |lit| - 1;
      assert s[m..m + |lit|] == (lit + "\n")[..|lit|];
      assert AnchoredMatchAt(lit, s, m);
      SubFromToMatch(lit, repl, s, 0, m);
      assert s[m + |lit|..] == "\n";
    } else {
      forall j: nat | 0 <= j < |s|
        ensures !AnchoredMatchAt(lit, s, j)
      {
        if AnchoredMatchAt(lit, s, j) {
          MatchIsSuffix(lit, s, j);
        }
      }
      SubFromNoMatch(lit, repl, s, 0);
    }
  }
}
