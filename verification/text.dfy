/**
 Python string operations the model needs, on `string` (= `seq<char>`):
 the `in` substring test, `str.endswith`/`str.startswith`, `"\n".join`
 and `str.split("\n")`, and the search for a single character.
 */
module Text {
  import opened Optional

  /** `sub` occurs in `s` starting at index `i`. */
  predicate OccursAt(s: string, sub: string, i: nat)
  {
    i + |sub| <= |s| && s[i..i + |sub|] == sub
  }

  /** Python's `sub in s`. */
  predicate Contains(s: string, sub: string)
  {
    exists i | 0 <= i <= |s| :: OccursAt(s, sub, i)
  }

  /** Python's `s.endswith(suffix)`. */
  predicate EndsWith(s: string, suffix: string)
  {
    |suffix| <= |s| && s[|s| - |suffix|..] == suffix
  }

  /** Python's `s.startswith(prefix)`. */
  predicate StartsWith(s: string, prefix: string)
  {
    |prefix| <= |s| && s[..|prefix|] == prefix
  }

  /** Number of line breaks in `s`. */
  function NewlineCount(s: string): nat
  {
    multiset(s)['\n']
  }

  /** Python's `"\n".join(lines)`. */
  function Join(lines: seq<string>): string
  {
    if |lines| == 0 then ""
    else if |lines| == 1 then lines[0]
    else lines[0] + "\n" + Join(lines[1..])
  }

  /** Six lines joined are the lines with a break between each pair. */
  lemma Join6(a: string, b: string, c: string, d: string, e: string, f: string)
    ensures Join([a, b, c, d, e, f]) == a + "\n" + b + "\n" + c + "\n" + d + "\n" + e + "\n" + f
  {
    var v := [a, b, c, d, e, f];
    assert Join(v[5..]) == f;
    assert Join(v[4..]) == e + "\n" + Join(v[5..]) by { assert v[4..][1..] == v[5..]; }
    assert Join(v[3..]) == d + "\n" + Join(v[4..]) by { assert v[3..][1..] == v[4..]; }
    assert Join(v[2..]) == c + "\n" + Join(v[3..]) by { assert v[2..][1..] == v[3..]; }
    assert Join(v[1..]) == b + "\n" + Join(v[2..]) by { assert v[1..][1..] == v[2..]; }
  }

  /** Seven lines joined are the lines with a break between each pair. */
  lemma Join7(a: string, b: string, c: string, d: string, e: string, f: string, g: string)
    ensures Join([a, b, c, d, e, f, g]) == a + "\n" + b + "\n" + c + "\n" + d + "\n" + e + "\n" + f + "\n" + g
  {
    var v := [a, b, c, d, e, f, g];
    assert v[1..] == [b, c, d, e, f, g];
    Join6(b, c, d, e, f, g);
  }

  /** Python's `s.split("\n")`: never empty, and `""` splits into `[""]`. */
  function Split(s: string): (lines: seq<string>)
    ensures |lines| >= 1
    decreases |s|
  {
    if |s| == 0 then [""]
    else
      var rest := Split(s[1..]);
      if s[0] == '\n' then [""] + rest
      else [[s[0]] + rest[0]] + rest[1..]
  }

  /** Index of the first `c` in `s`, or `|s|` when there is none (Python's `s.find(c)` with -1 mapped to `len(s)`). */
  function IndexOf(s: string, c: char): (k: nat)
    ensures k <= |s|
    ensures k < |s| ==> s[k] == c
    ensures forall j | 0 <= j < k :: s[j] != c
    decreases |s|
  {
    if |s| == 0 then 0
    else if s[0] == c then 0
    else 1 + IndexOf(s[1..], c)
  }

  /** Python's `s.partition(c)` when `c` occurs: the text before the first `c` and the text after it; `None` when `c` does not occur. */
  function Cut(s: string, c: char): (r: Option<(string, string)>)
    ensures r.Some? ==> c !in r.value.0 && s == r.value.0 + [c] + r.value.1
    ensures r.None? <==> c !in s
  {
    var k := IndexOf(s, c);
    if k == |s| then None
    else
      assert s == s[..k] + [c] + s[k + 1..];
      Some((s[..k], s[k + 1..]))
  }

  /** Cutting at the first `c` undoes putting `c` after a text without one. */
  lemma CutJoin(a: string, c: char, t: string)
    requires c !in a
    ensures Cut(a + [c] + t, c) == Some((a, t))
  {
    var s := a + [c] + t;
    assert forall j | 0 <= j < |a| :: s[j] == a[j] && a[j] != c;
    assert s[|a|] == c;
    assert IndexOf(s, c) == |a|;
    assert s[..|a|] == a && s[|a| + 1..] == t;
  }

  /** Splitting yields one more line than there are line breaks. */
  lemma {:induction false} SplitLength(s: string)
    ensures |Split(s)| == NewlineCount(s) + 1
    decreases |s|
  {
    if |s| > 0 {
      SplitLength(s[1..]);
      assert s == [s[0]] + s[1..];
      assert multiset(s) == multiset([s[0]]) + multiset(s[1..]);
    }
  }

  /** A first line without a break ends up at the front of the first piece. */
  lemma {:induction false} SplitPrefix(a: string, t: string)
    requires '\n' !in a
    ensures Split(a + t) == [a + Split(t)[0]] + Split(t)[1..]
    decreases |a|
  {
    if |a| > 0 {
      assert (a + t)[0] == a[0];
      assert (a + t)[1..] == a[1..] + t;
      SplitPrefix(a[1..], t);
      assert [a[0]] + (a[1..] + Split(t)[0]) == a + Split(t)[0];
    } else {
      assert a + t == t;
      assert a + Split(t)[0] == Split(t)[0];
      assert Split(t) == [Split(t)[0]] + Split(t)[1..];
    }
  }

  /** Splitting undoes joining, provided no line holds a line break. */
  lemma {:induction false} SplitJoin(lines: seq<string>)
    requires |lines| >= 1
    requires forall i | 0 <= i < |lines| :: '\n' !in lines[i]
    ensures Split(Join(lines)) == lines
    decreases |lines|
  {
    if |lines| == 1 {
      SplitPrefix(lines[0], "");
      assert lines[0] + "" == lines[0];
    } else {
      var rest := Join(lines[1..]);
      SplitJoin(lines[1..]);
      assert ("\n" + rest)[1..] == rest;
      assert Split("\n" + rest) == [""] + lines[1..];
      assert lines[0] + "\n" + rest == lines[0] + ("\n" + rest);
      SplitPrefix(lines[0], "\n" + rest);
      assert lines[0] + "" == lines[0];
    }
  }

  /** The line breaks of a join are the separators plus those inside the lines. */
  lemma {:induction false} JoinNewlineCount(lines: seq<string>)
    requires |lines| >= 1
    ensures NewlineCount(Join(lines)) == |lines| - 1 + SumNewlines(lines)
    decreases |lines|
  {
    if |lines| > 1 {
      JoinNewlineCount(lines[1..]);
      BreaksAdd(lines[0] + "\n", Join(lines[1..]));
      BreaksAdd(lines[0], "\n");
    }
  }

  /** Total number of line breaks inside `lines`. */
  function SumNewlines(lines: seq<string>): nat
  {
    if |lines| == 0 then 0 else NewlineCount(lines[0]) + SumNewlines(lines[1..])
  }

  /** Line breaks of a concatenation add up. */
  lemma BreaksAdd(a: string, b: string)
    ensures NewlineCount(a + b) == NewlineCount(a) + NewlineCount(b)
  {
    assert multiset(a + b) == multiset(a) + multiset(b);
  }

  /** The breaks of any one line are among those of all lines. */
  lemma {:induction false} SumNewlinesCovers(lines: seq<string>, k: nat)
    requires k < |lines|
    ensures SumNewlines(lines) >= NewlineCount(lines[k])
    decreases k
  {
    if k > 0 {
      SumNewlinesCovers(lines[1..], k - 1);
    }
  }

  /** Joining and splitting again gives the same lines when none holds a break, and more lines otherwise. */
  lemma SplitOfJoin(lines: seq<string>)
    requires |lines| >= 1
    ensures (forall i | 0 <= i < |lines| :: '\n' !in lines[i]) ==> Split(Join(lines)) == lines
    ensures (exists i | 0 <= i < |lines| :: '\n' in lines[i]) ==> |Split(Join(lines))| > |lines|
  {
    SplitLength(Join(lines));
    JoinNewlineCount(lines);
    if forall i | 0 <= i < |lines| :: '\n' !in lines[i] {
      SplitJoin(lines);
    } else {
      var k :| 0 <= k < |lines| && '\n' in lines[k];
      SumNewlinesCovers(lines, k);
    }
  }
}
