/** The few operations of Python's `str` that the report pipeline uses:
    `strip()`, `replace()`, `lower()` and the substring test `in`. */
module Text {

  /** The characters `str.isspace()` accepts, which `strip()` removes. */
  predicate IsSpace(c: char) {
    || c == ' '
    || ('\t' <= c <= '\r')
    || ('\U{1C}' <= c <= '\U{1F}')
    || c == '\U{85}' || c == '\U{A0}' || c == '\U{1680}'
    || ('\U{2000}' <= c <= '\U{200A}')
    || c == '\U{2028}' || c == '\U{2029}' || c == '\U{202F}' || c == '\U{205F}' || c == '\U{3000}'
  }

  /** Number of occurrences of `c` in `s`. */
  function Count(s: string, c: char): nat {
    if s == [] then 0 else (if s[0] == c then 1 else 0) + Count(s[1..], c)
  }

  lemma {:induction false} CountAppend(a: string, b: string, c: char)
    ensures Count(a + b, c) == Count(a, c) + Count(b, c)
  {
    if a == [] {
      assert a + b == b;
    } else {
      assert (a + b)[1..] == a[1..] + b;
      CountAppend(a[1..], b, c);
    }
  }

  lemma {:induction false} CountZero(s: string, c: char)
    ensures Count(s, c) == 0 <==> c !in s
  {
    if s != [] {
      CountZero(s[1..], c);
      assert s == [s[0]] + s[1..];
    }
  }

  /** `s.lstrip()`: drops the whitespace at the start of `s`. */
  function StripLeft(s: string): (r: string)
    ensures r == [] || !IsSpace(r[0])
  {
    if s != [] && IsSpace(s[0]) then StripLeft(s[1..]) else s
  }

  /** `s.rstrip()`: drops the whitespace at the end of `s`. */
  function StripRight(s: string): (r: string)
    ensures r == [] || !IsSpace(r[|r| - 1])
  {
    if s != [] && IsSpace(s[|s| - 1]) then StripRight(s[..|s| - 1]) else s
  }

  /** What `lstrip()` drops is whitespace, and it keeps the rest. */
  lemma {:induction false} StripLeftDrops(s: string)
    ensures var r := StripLeft(s);
      |r| <= |s| && r == s[|s| - |r|..] && forall k :: 0 <= k < |s| - |r| ==> IsSpace(s[k])
  {
    if s != [] && IsSpace(s[0]) {
      StripLeftDrops(s[1..]);
    }
  }

  /** What `rstrip()` drops is whitespace, and it keeps the rest. */
  lemma {:induction false} StripRightDrops(s: string)
    ensures var r := StripRight(s);
      |r| <= |s| && r == s[..|r|] && forall k :: |r| <= k < |s| ==> IsSpace(s[k])
  {
    if s != [] && IsSpace(s[|s| - 1]) {
      StripRightDrops(s[..|s| - 1]);
    }
  }

  /** `s[i..j]` leaves out only whitespace of `s`. */
  predicate SpaceOutside(s: string, i: int, j: int) {
    && 0 <= i <= j <= |s|
    && (forall k :: 0 <= k < i ==> IsSpace(s[k]))
    && (forall k :: j <= k < |s| ==> IsSpace(s[k]))
  }

  /** `s.strip()`: the result is a slice of `s` from which only whitespace
      was cut at either end, and neither of its ends is whitespace; text
      that already has no whitespace at its ends is left as it is. */
  function Strip(s: string): (r: string)
    ensures exists i, j :: SpaceOutside(s, i, j) && r == s[i..j]
    ensures r == [] || (!IsSpace(r[0]) && !IsSpace(r[|r| - 1]))
    ensures (s == [] || (!IsSpace(s[0]) && !IsSpace(s[|s| - 1]))) ==> r == s
  {
    var l := StripLeft(s);
    var r := StripRight(l);
    assert SpaceOutside(s, |s| - |l|, |s| - |l| + |r|) && r == s[|s| - |l|..|s| - |l| + |r|] by {
      StripLeftDrops(s);
      StripRightDrops(l);
      CutsSpace(s, l, r);
    }
    assert r == [] || (!IsSpace(r[0]) && !IsSpace(r[|r| - 1])) by {
      StripRightDrops(l);
      assert r != [] ==> r[0] == l[0];
    }
    assert (s == [] || (!IsSpace(s[0]) && !IsSpace(s[|s| - 1]))) ==> r == s by {
      StripRightDrops(l);
    }
    r
  }

  /** Cutting whitespace from the front and then from the back of `s`
      leaves a slice of `s` with only whitespace outside it. */
  lemma CutsSpace(s: string, l: string, r: string)
    requires |l| <= |s| && l == s[|s| - |l|..] && forall k :: 0 <= k < |s| - |l| ==> IsSpace(s[k])
    requires |r| <= |l| && r == l[..|r|] && forall k :: |r| <= k < |l| ==> IsSpace(l[k])
    ensures SpaceOutside(s, |s| - |l|, |s| - |l| + |r|) && r == s[|s| - |l|..|s| - |l| + |r|]
  {
    var i := |s| - |l|;
    forall k | i + |r| <= k < |s|
      ensures IsSpace(s[k])
    {
      assert s[k] == l[k - i];
    }
  }

  /** `s.replace(pat, rep)`: scanning from the left, every occurrence of
      `pat` that does not overlap an earlier one is replaced by `rep`. */
  function Replace(s: string, pat: string, rep: string): string
    requires pat != []
    decreases |s|
  {
    if s == [] then []
    else if pat <= s then rep + Replace(s[|pat|..], pat, rep)
    else [s[0]] + Replace(s[1..], pat, rep)
  }

  /** When the first character of `pat` does not occur in `s`, `replace` leaves `s` unchanged. */
  lemma {:induction false} ReplaceAbsent(s: string, pat: string, rep: string)
    requires pat != [] && pat[0] !in s
    ensures Replace(s, pat, rep) == s
  {
    if s != [] {
      assert s[0] != pat[0];
      ReplaceAbsent(s[1..], pat, rep);
      assert s == [s[0]] + s[1..];
    }
  }

  /** Replacing a single character distributes over concatenation. */
  lemma {:induction false} ReplaceCharAppend(a: string, b: string, p: char, rep: string)
    ensures Replace(a + b, [p], rep) == Replace(a, [p], rep) + Replace(b, [p], rep)
  {
    if a == [] {
      assert a + b == b;
    } else {
      assert (a + b)[1..] == a[1..] + b;
      assert (a + b)[0] == a[0];
      assert [p] <= a + b <==> a[0] == p;
      assert [p] <= a <==> a[0] == p;
      ReplaceCharAppend(a[1..], b, p, rep);
    }
  }

  /** Replacing one character by one character works position by position. */
  lemma {:induction false} ReplaceCharByChar(s: string, p: char, q: char)
    ensures |Replace(s, [p], [q])| == |s|
    ensures forall i :: 0 <= i < |s| ==> Replace(s, [p], [q])[i] == if s[i] == p then q else s[i]
  {
    if s != [] {
      ReplaceCharByChar(s[1..], p, q);
      assert [p] <= s <==> s[0] == p;
    }
  }

  /** After replacing the single character `p` by a text without `p`, no `p` is left. */
  lemma {:induction false} ReplaceCharGone(s: string, p: char, rep: string)
    requires p !in rep
    ensures p !in Replace(s, [p], rep)
  {
    if s != [] {
      ReplaceCharGone(s[1..], p, rep);
      if s[0] == p {
        assert [p] <= s;
      } else {
        assert !([p] <= s);
      }
    }
  }

  /** Replacing the single character `p` by `rep` keeps every other
      character `c` and adds the `c`s of `rep` once per `p` replaced. */
  lemma {:induction false} ReplaceCharCount(s: string, p: char, rep: string, c: char)
    requires c != p
    ensures Count(Replace(s, [p], rep), c) == Count(s, c) + Count(s, p) * Count(rep, c)
  {
    if s != [] {
      ReplaceCharCount(s[1..], p, rep, c);
      var tail := Replace(s[1..], [p], rep);
      var n, k := Count(s[1..], p), Count(rep, c);
      if s[0] == p {
        assert [p] <= s;
        assert Replace(s, [p], rep) == rep + tail;
        CountAppend(rep, tail, c);
        assert Count(s, p) == n + 1;
        assert (n + 1) * k == n * k + k;
      } else {
        assert !([p] <= s);
        assert Replace(s, [p], rep) == [s[0]] + tail;
        CountAppend([s[0]], tail, c);
        assert Count(s, p) == n;
      }
    }
  }

  /** Deleting every occurrence of `pat` keeps the number of each character
      that does not occur in `pat`. */
  lemma {:induction false} DeleteKeepsCount(s: string, pat: string, c: char)
    requires pat != [] && c !in pat
    ensures Count(Replace(s, pat, ""), c) == Count(s, c)
    decreases |s|
  {
    if s != [] {
      if pat <= s {
        DeleteKeepsCount(s[|pat|..], pat, c);
        assert s == pat + s[|pat|..];
        CountAppend(pat, s[|pat|..], c);
        CountZero(pat, c);
        assert "" + Replace(s[|pat|..], pat, "") == Replace(s[|pat|..], pat, "");
      } else {
        DeleteKeepsCount(s[1..], pat, c);
        CountAppend([s[0]], Replace(s[1..], pat, ""), c);
        assert s == [s[0]] + s[1..];
        CountAppend([s[0]], s[1..], c);
      }
    }
  }

  /** Stripping removes only whitespace, so it keeps the number of every
      other character. */
  lemma StripKeepsCount(s: string, c: char)
    requires !IsSpace(c)
    ensures Count(Strip(s), c) == Count(s, c)
  {
    StripLeftKeepsCount(s, c);
    StripRightKeepsCount(StripLeft(s), c);
  }

  lemma {:induction false} StripLeftKeepsCount(s: string, c: char)
    requires !IsSpace(c)
    ensures Count(StripLeft(s), c) == Count(s, c)
  {
    if s != [] && IsSpace(s[0]) {
      StripLeftKeepsCount(s[1..], c);
    }
  }

  lemma {:induction false} StripRightKeepsCount(s: string, c: char)
    requires !IsSpace(c)
    ensures Count(StripRight(s), c) == Count(s, c)
  {
    if s != [] && IsSpace(s[|s| - 1]) {
      var front := s[..|s| - 1];
      StripRightKeepsCount(front, c);
      assert s == front + [s[|s| - 1]];
      CountAppend(front, [s[|s| - 1]], c);
    }
  }

  /** `c.lower()` for the ASCII and Latin-1 capitals; other characters are kept. */
  function LowerChar(c: char): char {
    if 'A' <= c <= 'Z' || ('\U{C0}' <= c <= '\U{DE}' && c != '\U{D7}') then (c as int + 32) as char else c
  }

  function Lower(s: string): (r: string)
    ensures |r| == |s|
  {
    if s == [] then [] else [LowerChar(s[0])] + Lower(s[1..])
  }

  /** `lower()` works character by character. */
  lemma {:induction false} LowerPointwise(s: string)
    ensures forall i :: 0 <= i < |s| ==> Lower(s)[i] == LowerChar(s[i])
  {
    if s != [] {
      LowerPointwise(s[1..]);
    }
  }

  /** Text without capitals is its own lower case. */
  lemma {:induction false} LowerKeepsSmall(s: string)
    requires forall i :: 0 <= i < |s| ==> LowerChar(s[i]) == s[i]
    ensures Lower(s) == s
  {
    if s != [] {
      LowerKeepsSmall(s[1..]);
    }
  }

  /** Python's `sub in s`. */
  predicate Contains(s: string, sub: string) {
    sub <= s || (s != [] && Contains(s[1..], sub))
  }

  /** `s` cannot contain a text holding a character that `s` lacks. */
  lemma {:induction false} ContainsNeedsChar(s: string, sub: string, c: char)
    requires c in sub && c !in s
    ensures !Contains(s, sub)
  {
    var i :| 0 <= i < |sub| && sub[i] == c;
    assert i < |s| ==> s[i] != c;
    if s != [] {
      ContainsNeedsChar(s[1..], sub, c);
    }
  }
}
