/**
  The handful of Python `str` operations the chatbot relies on, over `seq<char>`:
  `isspace`, `lower`, `strip`, `replace(pat, "")`, the `in` substring test,
  `split()` with no argument, `sep.join(xs)` and `split(c)`.
 */
module Strings {

  /** Python's `str.isspace` on one character: the characters CPython treats as whitespace. */
  predicate IsSpace(c: char)
  {
    c == ' ' || ('\t' <= c <= '\r') || ('\U{1C}' <= c <= '\U{1F}') || c == '\U{85}' ||
    c == '\U{A0}' || c == '\U{1680}' || ('\U{2000}' <= c <= '\U{200A}') || c == '\U{2028}' ||
    c == '\U{2029}' || c == '\U{202F}' || c == '\U{205F}' || c == '\U{3000}'
  }

  predicate NoSpace(s: string)
  {
    forall i :: 0 <= i < |s| ==> !IsSpace(s[i])
  }

  predicate AllSpace(s: string)
  {
    forall i :: 0 <= i < |s| ==> IsSpace(s[i])
  }

  /** `str.lower` on one character, restricted to ASCII letters. */
  function LowerChar(c: char): (d: char)
    ensures IsSpace(d) <==> IsSpace(c)
  {
    if 'A' <= c <= 'Z' then (c as int + 32) as char else c
  }

  function Lower(s: string): (r: string)
    ensures |r| == |s|
  {
    if s == [] then [] else [LowerChar(s[0])] + Lower(s[1..])
  }

  /** `lower` works character by character. */
  lemma {:induction false} LowerAt(s: string)
    ensures forall i :: 0 <= i < |s| ==> Lower(s)[i] == LowerChar(s[i])
  {
    if s != [] {
      LowerAt(s[1..]);
    }
  }

  /** Drops the leading whitespace. */
  function TrimStart(s: string): (r: string)
    ensures r == [] <==> AllSpace(s)
    ensures r == [] || !IsSpace(r[0])
    ensures |r| <= |s|
  {
    if s != [] && IsSpace(s[0]) then TrimStart(s[1..]) else s
  }

  /** Drops the trailing whitespace. */
  function TrimEnd(s: string): (r: string)
    ensures r == [] <==> AllSpace(s)
    ensures r == [] || !IsSpace(r[|r| - 1])
    ensures |r| <= |s|
  {
    if s != [] && IsSpace(s[|s| - 1]) then TrimEnd(s[..|s| - 1]) else s
  }

  /** Python's `str.strip()` with no argument. */
  function Strip(s: string): (r: string)
    ensures r == [] <==> AllSpace(s)
  {
    TrimEnd(TrimStart(s))
  }

  /** `TrimStart` drops exactly a leading run of whitespace: it keeps a suffix of its input. */
  lemma {:induction false} TrimStartDrops(s: string)
    ensures TrimStart(s) == s[|s| - |TrimStart(s)|..]
    ensures AllSpace(s[..|s| - |TrimStart(s)|])
  {
    if s != [] && IsSpace(s[0]) {
      TrimStartDrops(s[1..]);
      var k := |s| - |TrimStart(s)|;
      assert s[1..][k - 1..] == s[k..];
      assert forall i :: 1 <= i < k ==> s[..k][i] == s[1..][..k - 1][i - 1];
    }
  }

  /** `TrimEnd` drops exactly a trailing run of whitespace: it keeps a prefix of its input. */
  lemma {:induction false} TrimEndDrops(s: string)
    ensures TrimEnd(s) == s[..|TrimEnd(s)|]
    ensures AllSpace(s[|TrimEnd(s)|..])
  {
    if s != [] && IsSpace(s[|s| - 1]) {
      TrimEndDrops(s[..|s| - 1]);
      var k := |TrimEnd(s)|;
      assert s[..|s| - 1][..k] == s[..k];
      assert forall i :: 0 <= i < |s| - 1 - k ==> s[k..][i] == s[..|s| - 1][k..][i];
    }
  }

  /** `strip` keeps one contiguous piece of its input, with only whitespace on either side. */
  lemma StripDrops(s: string)
    ensures exists i :: (0 <= i <= |s| - |Strip(s)| && AllSpace(s[..i]) &&
      Strip(s) == s[i..i + |Strip(s)|] && AllSpace(s[i + |Strip(s)|..]))
  {
    TrimStartDrops(s);
    var t := TrimStart(s);
    TrimEndDrops(t);
    var i := |s| - |t|;
    var n := |TrimEnd(t)|;
    assert s[i..i + n] == t[..n];
    assert s[i + n..] == t[n..];
  }

  /** Trimming keeps only characters of its input. */
  lemma {:induction false} TrimStartChars(s: string)
    ensures forall c :: c in TrimStart(s) ==> c in s
  {
    if s != [] && IsSpace(s[0]) {
      TrimStartChars(s[1..]);
    }
  }

  lemma {:induction false} TrimEndChars(s: string)
    ensures forall c :: c in TrimEnd(s) ==> c in s
  {
    if s != [] && IsSpace(s[|s| - 1]) {
      TrimEndChars(s[..|s| - 1]);
    }
  }

  lemma StripChars(s: string)
    ensures forall c :: c in Strip(s) ==> c in s
  {
    TrimStartChars(s);
    TrimEndChars(TrimStart(s));
  }

  /** Trimming the end keeps the first character of what it keeps. */
  lemma {:induction false} TrimEndKeepsFirst(s: string)
    requires TrimEnd(s) != []
    ensures TrimEnd(s)[0] == s[0]
  {
    if s != [] && IsSpace(s[|s| - 1]) {
      TrimEndKeepsFirst(s[..|s| - 1]);
    }
  }

  /** What `strip` keeps neither starts nor ends with whitespace. */
  lemma StripEnds(s: string)
    ensures Strip(s) == [] || (!IsSpace(Strip(s)[0]) && !IsSpace(Strip(s)[|Strip(s)| - 1]))
  {
    if Strip(s) != [] {
      TrimEndKeepsFirst(TrimStart(s));
    }
  }

  /** A string with no whitespace at either end is its own strip. */
  lemma StripFixed(s: string)
    requires s == [] || (!IsSpace(s[0]) && !IsSpace(s[|s| - 1]))
    ensures Strip(s) == s
  {
  }

  /**
    Python's `s.replace(pat, "")`: scanning left to right, every non-overlapping
    occurrence of `pat` found is cut out; the scan does not look again at what the cut
    brings together.
   */
  function RemoveAll(s: string, pat: string): (r: string)
    requires pat != []
    ensures |r| <= |s|
    decreases |s|
  {
    if |s| < |pat| then s
    else if pat <= s then RemoveAll(s[|pat|..], pat)
    else [s[0]] + RemoveAll(s[1..], pat)
  }

  /** Python's `sub in s`. */
  predicate Contains(s: string, sub: string)
    decreases |s|
  {
    sub <= s || (s != [] && Contains(s[1..], sub))
  }

  predicate OccursAt(s: string, sub: string, i: int)
  {
    0 <= i && i + |sub| <= |s| && s[i..i + |sub|] == sub
  }

  /** An occurrence past the first character is an occurrence in the rest. */
  lemma OccursAtShift(s: string, sub: string, i: int)
    requires s != [] && 0 < i
    ensures OccursAt(s, sub, i) <==> OccursAt(s[1..], sub, i - 1)
  {
    if i + |sub| <= |s| {
      assert s[1..][i - 1..i - 1 + |sub|] == s[i..i + |sub|];
    }
  }

  /** The recursive substring test means: `sub` occurs at some position of `s`. */
  lemma {:induction false} ContainsIff(s: string, sub: string)
    ensures Contains(s, sub) <==> exists i :: OccursAt(s, sub, i)
    decreases |s|
  {
    if sub <= s {
      assert OccursAt(s, sub, 0);
    } else if s == [] {
      assert forall i :: !OccursAt(s, sub, i);
    } else {
      ContainsIff(s[1..], sub);
      forall i | 0 < i ensures OccursAt(s, sub, i) == OccursAt(s[1..], sub, i - 1) {
        OccursAtShift(s, sub, i);
      }
      assert !OccursAt(s, sub, 0);
      if Contains(s[1..], sub) {
        var i :| OccursAt(s[1..], sub, i);
        assert OccursAt(s, sub, i + 1);
      }
    }
  }

  /** A text is contained in anything built around it. */
  lemma ContainsInside(a: string, sub: string, b: string)
    ensures Contains(a + sub + b, sub)
  {
    ContainsIff(a + sub + b, sub);
    assert (a + sub + b)[|a|..][..|sub|] == sub;
    assert OccursAt(a + sub + b, sub, |a|);
  }

  /** What one piece contains, the whole contains. */
  lemma ContainsRight(x: string, y: string, sub: string)
    requires Contains(y, sub)
    ensures Contains(x + y, sub)
  {
    ContainsIff(y, sub);
    var i :| OccursAt(y, sub, i);
    assert (x + y)[|x| + i..|x| + i + |sub|] == y[i..i + |sub|];
    assert OccursAt(x + y, sub, |x| + i);
    ContainsIff(x + y, sub);
  }

  lemma ContainsLeft(x: string, y: string, sub: string)
    requires Contains(x, sub)
    ensures Contains(x + y, sub)
  {
    ContainsIff(x, sub);
    var i :| OccursAt(x, sub, i);
    assert (x + y)[i..i + |sub|] == x[i..i + |sub|];
    assert OccursAt(x + y, sub, i);
    ContainsIff(x + y, sub);
  }

  /** A string cannot contain a text one of whose characters it lacks. */
  lemma MissingCharNotContained(s: string, sub: string, c: char)
    requires c in sub && c !in s
    ensures !Contains(s, sub)
  {
    ContainsIff(s, sub);
  }

  /** Lower-casing leaves a string without upper-case ASCII letters as it is. */
  lemma {:induction false} LowerOfLowercase(s: string)
    requires forall i :: 0 <= i < |s| ==> !('A' <= s[i] <= 'Z')
    ensures Lower(s) == s
  {
    if s != [] {
      LowerOfLowercase(s[1..]);
      assert [s[0]] + s[1..] == s;
    }
  }

  /** Nothing to cut means nothing is cut. */
  lemma {:induction false} RemoveAllAbsent(s: string, pat: string)
    requires pat != [] && !Contains(s, pat)
    ensures RemoveAll(s, pat) == s
    decreases |s|
  {
    if |s| >= |pat| {
      RemoveAllAbsent(s[1..], pat);
      assert [s[0]] + s[1..] == s;
    }
  }

  /** Where no occurrence starts, the scan keeps the first character and moves on. */
  lemma RemoveAllKeeps(s: string, pat: string)
    requires pat != [] && s != [] && !OccursAt(s, pat, 0)
    ensures RemoveAll(s, pat) == [s[0]] + RemoveAll(s[1..], pat)
  {
    assert |pat| <= |s| ==> s[0..|pat|] == s[..|pat|];
  }

  /** Where an occurrence starts, the scan cuts it. */
  lemma RemoveAllCuts(pat: string, b: string)
    requires pat != []
    ensures RemoveAll(pat + b, pat) == RemoveAll(b, pat)
  {
    assert (pat + b)[|pat|..] == b;
  }

  /**
    When the first occurrence of `pat` starts right after `a`, the scan keeps `a`, cuts
    that occurrence and goes on with what follows it.
   */
  lemma {:induction false} RemoveAllFirst(a: string, pat: string, b: string)
    requires pat != []
    requires forall k :: 0 <= k < |a| ==> !OccursAt(a + pat + b, pat, k)
    ensures RemoveAll(a + pat + b, pat) == a + RemoveAll(b, pat)
    decreases |a|
  {
    if a == [] {
      assert a + pat + b == pat + b;
      RemoveAllCuts(pat, b);
    } else {
      var s := a + pat + b;
      RemoveAllKeeps(s, pat);
      assert s[1..] == a[1..] + pat + b;
      forall k | 0 <= k < |a| - 1 ensures !OccursAt(a[1..] + pat + b, pat, k) {
        OccursAtShift(s, pat, k + 1);
      }
      RemoveAllFirst(a[1..], pat, b);
      assert [a[0]] + a[1..] == a;
    }
  }

  /** A single left-to-right pass: `"QQ::".replace("Q:", "")` is `"Q:"`, which still holds the marker. */
  lemma RemoveAllSinglePass()
    ensures RemoveAll("QQ::", "Q:") == "Q:"
    ensures Contains(RemoveAll("QQ::", "Q:"), "Q:")
  {
    assert "QQ::"[..2] != "Q:" by { assert "QQ::"[1] == 'Q'; }
    assert "QQ::"[1..] == "Q::";
    assert "Q::"[2..] == ":";
    assert RemoveAll(":", "Q:") == ":";
  }

  /** The tokens Python's `split()` builds, `cur` being the token read so far. */
  function Tokens(s: string, cur: string): seq<string>
    decreases |s|
  {
    if s == [] then (if cur == [] then [] else [cur])
    else if IsSpace(s[0]) then (if cur == [] then [] else [cur]) + Tokens(s[1..], [])
    else Tokens(s[1..], cur + [s[0]])
  }

  /** Python's `str.split()` with no argument: the maximal runs of non-whitespace. */
  function Split(s: string): seq<string>
  {
    Tokens(s, [])
  }

  /** Every token is non-empty and holds no whitespace. */
  lemma {:induction false} TokensAreWords(s: string, cur: string)
    requires NoSpace(cur)
    ensures forall w :: w in Tokens(s, cur) ==> w != [] && NoSpace(w)
    decreases |s|
  {
    if s != [] {
      if IsSpace(s[0]) {
        TokensAreWords(s[1..], []);
      } else {
        TokensAreWords(s[1..], cur + [s[0]]);
      }
    }
  }

  lemma SplitAreWords(s: string)
    ensures forall w :: w in Split(s) ==> w != [] && NoSpace(w)
  {
    TokensAreWords(s, []);
  }

  /** Whitespace only (or nothing) splits into no tokens at all. */
  lemma {:induction false} TokensOfSpace(s: string)
    requires AllSpace(s)
    ensures Tokens(s, []) == []
    decreases |s|
  {
    if s != [] {
      TokensOfSpace(s[1..]);
    }
  }

  /** A run of non-whitespace is read into the current token in one go. */
  lemma {:induction false} TokensOfWord(w: string, rest: string, cur: string)
    requires NoSpace(w)
    ensures Tokens(w + rest, cur) == Tokens(rest, cur + w)
  {
    if w == [] {
      assert w + rest == rest;
      assert cur + w == cur;
    } else {
      assert (w + rest)[1..] == w[1..] + rest;
      TokensOfWord(w[1..], rest, cur + [w[0]]);
      assert cur + [w[0]] + w[1..] == cur + w;
    }
  }

  /** `split()` undoes `" ".join` on non-empty words without whitespace. */
  lemma {:induction false} SplitJoinWords(ws: seq<string>)
    requires forall k :: 0 <= k < |ws| ==> ws[k] != [] && NoSpace(ws[k])
    ensures Split(Join(" ", ws)) == ws
  {
    if |ws| == 1 {
      TokensOfWord(ws[0], [], []);
      assert ws[0] + [] == ws[0] && [] + ws[0] == ws[0];
      assert Tokens([], ws[0]) == [ws[0]];
      assert ws == [ws[0]];
    } else if |ws| > 1 {
      var tail := Join(" ", ws[1..]);
      assert Join(" ", ws) == ws[0] + (" " + tail);
      TokensOfWord(ws[0], " " + tail, []);
      assert [] + ws[0] == ws[0];
      assert (" " + tail)[1..] == tail;
      assert Tokens(" " + tail, ws[0]) == [ws[0]] + Tokens(tail, []);
      SplitJoinWords(ws[1..]);
      assert [ws[0]] + ws[1..] == ws;
    }
  }

  /** Python's `sep.join(xs)`. */
  function Join(sep: string, xs: seq<string>): string
  {
    if xs == [] then [] else if |xs| == 1 then xs[0] else xs[0] + sep + Join(sep, xs[1..])
  }

  /** `sep.join` of a non-empty list starts with its first element. */
  lemma JoinStartsWithFirst(sep: string, xs: seq<string>)
    requires xs != []
    ensures xs[0] <= Join(sep, xs)
  {
  }

  /** `" ".join` of five words, written out. */
  lemma JoinFive(a: string, b: string, c: string, d: string, e: string)
    ensures Join(" ", [a, b, c, d, e]) == a + " " + (b + " " + (c + " " + (d + " " + e)))
  {
    assert [a, b, c, d, e][1..] == [b, c, d, e];
    assert [b, c, d, e][1..] == [c, d, e];
    assert [c, d, e][1..] == [d, e];
    assert [d, e][1..] == [e];
    assert Join(" ", [d, e]) == d + " " + e;
    assert Join(" ", [c, d, e]) == c + " " + (d + " " + e);
  }

  /** Python's `s.split(c)` for a one-character separator: always at least one piece. */
  function SplitOn(s: string, c: char): (r: seq<string>)
    ensures |r| >= 1
  {
    if s == [] then [[]]
    else
      var rest := SplitOn(s[1..], c);
      if s[0] == c then [[]] + rest else [[s[0]] + rest[0]] + rest[1..]
  }

  lemma {:induction false} SplitOnPiece(a: string, b: string, c: char)
    requires c !in a
    ensures SplitOn(a + [c] + b, c) == [a] + SplitOn(b, c)
    ensures SplitOn(a, c) == [a]
  {
    if a == [] {
      assert [] + [c] + b == [c] + b;
      assert ([c] + b)[1..] == b;
    } else {
      SplitOnPiece(a[1..], b, c);
      assert (a + [c] + b)[1..] == a[1..] + [c] + b;
      assert [a[0]] + a[1..] == a;
    }
  }

  /** `split(c)` undoes `join` on pieces that do not contain `c`. */
  lemma {:induction false} SplitOnJoin(xs: seq<string>, c: char)
    requires xs != []
    requires forall k :: 0 <= k < |xs| ==> c !in xs[k]
    ensures SplitOn(Join([c], xs), c) == xs
  {
    if |xs| == 1 {
      SplitOnPiece(xs[0], [], c);
    } else {
      SplitOnJoin(xs[1..], c);
      SplitOnPiece(xs[0], Join([c], xs[1..]), c);
      assert [xs[0]] + xs[1..] == xs;
    }
  }
}
