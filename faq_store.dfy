/**
  The FAQ store: `load_faq` reads the FAQ file, keeps its non-blank lines (stripped) and
  pairs them up as (question, answer); the parallel `questions` / `answers` lists used at
  query time are projections of the resulting corpus.
 */
module FaqStore {
  import opened Wrappers
  import opened Strings

  datatype FaqPair = FaqPair(question: string, answer: string)

  const QuestionMarker: string := "Q:"
  const AnswerMarker: string := "A:"

  /** A question line: every `Q:` cut out, then stripped, then lower-cased. */
  function ParseQuestion(line: string): string
  {
    Lower(Strip(RemoveAll(line, QuestionMarker)))
  }

  /** An answer line: every `A:` cut out, then stripped; its case is kept. */
  function ParseAnswer(line: string): string
  {
    Strip(RemoveAll(line, AnswerMarker))
  }

  /** The file's lines that are not blank, each stripped, in file order. */
  function CleanLines(raw: seq<string>): (lines: seq<string>)
    ensures |lines| <= |raw|
    ensures forall k :: 0 <= k < |lines| ==>
      lines[k] != [] && !IsSpace(lines[k][0]) && !IsSpace(lines[k][|lines[k]| - 1])
  {
    if raw == [] then []
    else
      var line := Strip(raw[0]);
      StripEnds(raw[0]);
      if line == [] then CleanLines(raw[1..]) else [line] + CleanLines(raw[1..])
  }

  /** Blank lines never count: a file of only blank lines is no lines at all. */
  lemma {:induction false} CleanLinesOfBlank(raw: seq<string>)
    requires forall j :: 0 <= j < |raw| ==> AllSpace(raw[j])
    ensures CleanLines(raw) == []
  {
    if raw != [] {
      CleanLinesOfBlank(raw[1..]);
    }
  }

  /** Lines that are already stripped and non-blank are kept as they are, in order. */
  lemma {:induction false} CleanLinesOfClean(raw: seq<string>)
    requires forall j :: 0 <= j < |raw| ==>
      raw[j] != [] && !IsSpace(raw[j][0]) && !IsSpace(raw[j][|raw[j]| - 1])
    ensures CleanLines(raw) == raw
  {
    if raw != [] {
      StripFixed(raw[0]);
      CleanLinesOfClean(raw[1..]);
      assert [raw[0]] + raw[1..] == raw;
    }
  }

  /** Cleaning works line by line: the cleaned file is the cleaned parts, concatenated. */
  lemma {:induction false} CleanLinesAppend(x: seq<string>, y: seq<string>)
    ensures CleanLines(x + y) == CleanLines(x) + CleanLines(y)
  {
    if x == [] {
      assert x + y == y;
    } else {
      assert (x + y)[0] == x[0];
      assert (x + y)[1..] == x[1..] + y;
      CleanLinesAppend(x[1..], y);
    }
  }

  /** One line is dropped when it is blank and kept stripped otherwise. */
  lemma CleanLinesOne(line: string)
    ensures CleanLines([line]) == if Strip(line) == [] then [] else [Strip(line)]
  {
    assert [line][1..] == [];
  }

  /** The k-th (question, answer) pair of a sequence of clean lines. */
  function PairAt(lines: seq<string>, k: nat): FaqPair
    requires 2 * k + 1 < |lines|
  {
    FaqPair(ParseQuestion(lines[2 * k]), ParseAnswer(lines[2 * k + 1]))
  }

  /** One more pair extends a correct prefix of the pairing. */
  lemma PairUpStep(lines: seq<string>, faqs: seq<FaqPair>)
    requires 2 * |faqs| + 1 < |lines|
    requires forall k :: 0 <= k < |faqs| ==> faqs[k] == PairAt(lines, k)
    ensures forall k :: 0 <= k <= |faqs| ==> (faqs + [PairAt(lines, |faqs|)])[k] == PairAt(lines, k)
  {
  }

  /**
    The pairing loop of `load_faq`: lines are taken two at a time, and a last line with
    no partner is dropped.
   */
  method PairUp(lines: seq<string>) returns (faqs: seq<FaqPair>)
    ensures |faqs| == |lines| / 2
    ensures forall k :: 0 <= k < |faqs| ==> faqs[k] == PairAt(lines, k)
  {
    faqs := [];
    var i := 0;
    while i < |lines|
      invariant i == 2 * |faqs| || (i == |lines| + 1 && i == 2 * |faqs| + 2)
      invariant 2 * |faqs| <= |lines|
      invariant forall k :: 0 <= k < |faqs| ==> faqs[k] == PairAt(lines, k)
    {
      if i + 1 < |lines| {
        PairUpStep(lines, faqs);
        faqs := faqs + [PairAt(lines, i / 2)];
      }
      i := i + 2;
    }
  }

  /** `load_faq`: a missing file gives the empty corpus; otherwise its cleaned lines are paired up. */
  method LoadFaq(file: Option<seq<string>>) returns (faqs: seq<FaqPair>)
    ensures file.None? ==> faqs == []
    ensures file.Some? ==> |faqs| == |CleanLines(file.value)| / 2
    ensures file.Some? ==> forall k :: 0 <= k < |faqs| ==> faqs[k] == PairAt(CleanLines(file.value), k)
  {
    if file.None? {
      return [];
    }
    faqs := PairUp(CleanLines(file.value));
  }

  /** A line `Q:` + q, where q holds no further marker, parses to q stripped and lower-cased. */
  lemma MarkedQuestion(q: string)
    requires !Contains(q, QuestionMarker)
    ensures ParseQuestion(QuestionMarker + q) == Lower(Strip(q))
  {
    assert (QuestionMarker + q)[|QuestionMarker|..] == q;
    RemoveAllAbsent(q, QuestionMarker);
  }

  /** A line `A:` + a, where a holds no further marker, parses to a stripped, case kept. */
  lemma MarkedAnswer(a: string)
    requires !Contains(a, AnswerMarker)
    ensures ParseAnswer(AnswerMarker + a) == Strip(a)
  {
    assert (AnswerMarker + a)[|AnswerMarker|..] == a;
    RemoveAllAbsent(a, AnswerMarker);
  }

  /**
    A marker placed inside a line is cut out wherever it stands: when `a` and `b` hold no
    marker, and no occurrence straddles the end of `a` (which needs `a` to end in the
    marker's first character and the marker to repeat that character), the line
    `a` + marker + `b` parses as `a` + `b` would.
   */
  lemma {:induction false} MarkerInside(a: string, marker: string, b: string)
    requires |marker| == 2
    requires !Contains(a, marker) && !Contains(b, marker)
    requires a == [] || a[|a| - 1] != marker[0] || marker[0] != marker[1]
    ensures RemoveAll(a + marker + b, marker) == a + b
  {
    var s := a + marker + b;
    forall k | 0 <= k < |a| ensures !OccursAt(s, marker, k) {
      if k + 2 <= |a| {
        assert s[k..k + 2] == a[k..k + 2];
        ContainsIff(a, marker);
        assert !OccursAt(a, marker, k);
      } else {
        assert s[k] == a[|a| - 1] && s[k + 1] == marker[0];
      }
    }
    RemoveAllFirst(a, marker, b);
    RemoveAllAbsent(b, marker);
  }

  /** A "Q:" in mid-line is cut before stripping and lower-casing ("QQ: x" included). */
  lemma QuestionMarkerInside(a: string, b: string)
    requires !Contains(a, QuestionMarker) && !Contains(b, QuestionMarker)
    ensures ParseQuestion(a + QuestionMarker + b) == Lower(Strip(a + b))
  {
    MarkerInside(a, QuestionMarker, b);
  }

  /** An "A:" in mid-line is cut before stripping. */
  lemma AnswerMarkerInside(a: string, b: string)
    requires !Contains(a, AnswerMarker) && !Contains(b, AnswerMarker)
    ensures ParseAnswer(a + AnswerMarker + b) == Strip(a + b)
  {
    MarkerInside(a, AnswerMarker, b);
  }

  /** `questions = [q for q, _ in faq_pairs]`. */
  function Questions(pairs: seq<FaqPair>): (qs: seq<string>)
    ensures |qs| == |pairs|
    ensures forall i :: 0 <= i < |pairs| ==> qs[i] == pairs[i].question
  {
    seq(|pairs|, i requires 0 <= i < |pairs| => pairs[i].question)
  }

  /** `answers = [a for _, a in faq_pairs]`. */
  function Answers(pairs: seq<FaqPair>): (ans: seq<string>)
    ensures |ans| == |pairs|
    ensures forall i :: 0 <= i < |pairs| ==> ans[i] == pairs[i].answer
  {
    seq(|pairs|, i requires 0 <= i < |pairs| => pairs[i].answer)
  }

  /** The two projections are index-aligned: position i of each comes from the same pair. */
  lemma QuestionsAnswersAligned(pairs: seq<FaqPair>)
    ensures |Questions(pairs)| == |Answers(pairs)|
    ensures forall i :: 0 <= i < |pairs| ==> FaqPair(Questions(pairs)[i], Answers(pairs)[i]) == pairs[i]
  {
  }
}
