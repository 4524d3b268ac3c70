/**
  The PIN and date extraction of the vaccination branch: `re.search(r"\b(\d{6})\b", text)`
  and `re.search(r"\b(\d{2}-\d{2}-\d{4})\b", text)`, each giving the leftmost match.
  Digits and word characters are the ASCII ones.
 */
module Extract {
  import opened Wrappers

  predicate IsDigit(c: char)
  {
    '0' <= c <= '9'
  }

  /** A regular-expression word character: an ASCII letter, a digit or `_`. */
  predicate IsWordChar(c: char)
  {
    IsDigit(c) || ('a' <= c <= 'z') || ('A' <= c <= 'Z') || c == '_'
  }

  /** The two patterns: `\d{6}` (a PIN code) and `\d{2}-\d{2}-\d{4}` (a DD-MM-YYYY date). */
  datatype Pattern = Pin | Date

  function Width(p: Pattern): nat
  {
    match p
    case Pin => 6
    case Date => 10
  }

  /** `w` is matched by the pattern's body (without the word boundaries). */
  predicate Shape(p: Pattern, w: string)
  {
    |w| == Width(p) &&
    match p
    case Pin => forall k :: 0 <= k < 6 ==> IsDigit(w[k])
    case Date =>
      IsDigit(w[0]) && IsDigit(w[1]) && w[2] == '-' && IsDigit(w[3]) && IsDigit(w[4]) && w[5] == '-' &&
      IsDigit(w[6]) && IsDigit(w[7]) && IsDigit(w[8]) && IsDigit(w[9])
  }

  /**
    The pattern, framed by `\b` on both sides, matches `s` at `i`. Both ends of a match are
    digits, so each `\b` holds exactly when the neighbouring character is not a word
    character or there is none.
   */
  predicate MatchAt(p: Pattern, s: string, i: int)
  {
    0 <= i && i + Width(p) <= |s| && Shape(p, s[i..i + Width(p)]) &&
    (i == 0 || !IsWordChar(s[i - 1])) &&
    (i + Width(p) == |s| || !IsWordChar(s[i + Width(p)]))
  }

  /** The leftmost match at or after `i`. */
  function SearchFrom(p: Pattern, s: string, i: nat): (r: Option<nat>)
    ensures r.Some? ==> i <= r.value && MatchAt(p, s, r.value)
    ensures r.Some? ==> forall j :: i <= j < r.value ==> !MatchAt(p, s, j)
    ensures r.None? ==> forall j :: i <= j ==> !MatchAt(p, s, j)
    decreases |s| - i
  {
    if i + Width(p) > |s| then None
    else if MatchAt(p, s, i) then Some(i)
    else SearchFrom(p, s, i + 1)
  }

  /** `re.search(...).group(1)`: the text of the leftmost match, or `None` when there is none. */
  function Search(p: Pattern, s: string): (r: Option<string>)
    ensures r.None? <==> forall j :: !MatchAt(p, s, j)
    ensures r.Some? ==> exists i :: MatchAt(p, s, i) && r.value == s[i..i + Width(p)] &&
                                    forall j :: 0 <= j < i ==> !MatchAt(p, s, j)
  {
    match SearchFrom(p, s, 0)
    case None => None
    case Some(i) => Some(s[i..i + Width(p)])
  }

  /** What a search returns is made of the pattern's characters: six digits, or a date. */
  lemma SearchShape(p: Pattern, s: string)
    requires Search(p, s).Some?
    ensures Shape(p, Search(p, s).value)
  {
  }

  /** Positions where no match can start are passed over. */
  lemma {:induction false} SearchFromSkips(p: Pattern, s: string, i: nat, j: nat)
    requires i <= j
    requires forall k :: i <= k < j ==> !MatchAt(p, s, k)
    ensures SearchFrom(p, s, i) == SearchFrom(p, s, j)
    decreases j - i
  {
    if i < j && i + Width(p) <= |s| {
      SearchFromSkips(p, s, i + 1, j);
    } else if i < j {
      assert j + Width(p) > |s|;
    }
  }

  /**
    No match can start inside a run of word characters, nor one place after its start:
    a word character just before a match start breaks the leading `\b`.
   */
  lemma NoMatchAfterWordChar(p: Pattern, s: string, i: int)
    requires 0 < i <= |s| && IsWordChar(s[i - 1])
    ensures !MatchAt(p, s, i)
  {
  }

  /** No match can start at a character that is not a digit. */
  lemma NoMatchAtNonDigit(p: Pattern, s: string, i: int)
    requires 0 <= i < |s| && !IsDigit(s[i])
    ensures !MatchAt(p, s, i)
  {
  }

  /**
    A PIN standing as a word of its own after text holding no digit is the one found: no
    match can start in that text.
   */
  lemma FirstPinAfterNonDigits(a: string, w: string, b: string)
    requires forall k :: 0 <= k < |a| ==> !IsDigit(a[k])
    requires Shape(Pin, w)
    requires a == [] || !IsWordChar(a[|a| - 1])
    requires b == [] || !IsWordChar(b[0])
    ensures Search(Pin, a + w + b) == Some(w)
  {
    var s := a + w + b;
    forall k | 0 <= k < |a| ensures !MatchAt(Pin, s, k) {
      assert s[k] == a[k];
      NoMatchAtNonDigit(Pin, s, k);
    }
    SearchFromSkips(Pin, s, 0, |a|);
    assert s[|a|..|a| + 6] == w;
    assert MatchAt(Pin, s, |a|);
  }

  /**
    A date standing as a word of its own after text holding no '-' is the one found: a date
    starting in that text would need a '-' two places on.
   */
  lemma FirstDateAfterNoDash(a: string, w: string, b: string)
    requires '-' !in a
    requires Shape(Date, w)
    requires a == [] || !IsWordChar(a[|a| - 1])
    requires b == [] || !IsWordChar(b[0])
    ensures Search(Date, a + w + b) == Some(w)
  {
    var s := a + w + b;
    forall k | 0 <= k < |a| ensures !MatchAt(Date, s, k) {
      if k + 10 <= |s| {
        assert s[k..k + 10][2] == s[k + 2];
        if k + 2 < |a| {
          assert s[k + 2] == a[k + 2] && a[k + 2] in a;
        } else {
          assert s[k + 2] == w[k + 2 - |a|];
        }
      }
    }
    SearchFromSkips(Date, s, 0, |a|);
    assert s[|a|..|a| + 10] == w;
    assert MatchAt(Date, s, |a|);
  }

  /** Seven digits in a row are no PIN: the word boundary rules out every six-digit window. */
  lemma SevenDigitsAreNoPin()
    ensures Search(Pin, "1234567") == None
  {
    var s := "1234567";
    assert !MatchAt(Pin, s, 0) by { assert IsWordChar(s[6]); }
    NoMatchAfterWordChar(Pin, s, 1);
    forall j | 2 <= j ensures !MatchAt(Pin, s, j) { }
  }
}
