/**
  The greeting detector `maybe_greet`: a message greets when one of its whitespace-separated
  tokens, lower-cased, is one of the greeting words; the reply is then one of the fixed
  greetings, chosen at random.
 */
module Greeting {
  import opened Wrappers
  import opened Strings

  /** `GREET_IN`. */
  const GreetIn: seq<string> := ["hello", "hi", "hey", "namaste", "whassup", "how are you?"]

  /** `GREET_OUT`. */
  const GreetOut: seq<string> := ["Hello!", "Hi there!", "Hey!", "Namaste!"]

  predicate IsGreetWord(w: string)
  {
    Lower(w) in GreetIn
  }

  /** Some token of `txt` is a greeting word. */
  predicate Greets(txt: string)
  {
    exists w :: w in Split(txt) && IsGreetWord(w)
  }

  /**
    `maybe_greet`: scans the tokens in order and stops at the first greeting word;
    `random.choice(GREET_OUT)` is a choice of any member of `GreetOut`.
   */
  method MaybeGreet(txt: string) returns (g: Option<string>)
    ensures g.Some? <==> Greets(txt)
    ensures g.Some? ==> g.value in GreetOut
  {
    var words := Split(txt);
    var i := 0;
    while i < |words|
      invariant 0 <= i <= |words|
      invariant forall k :: 0 <= k < i ==> !IsGreetWord(words[k])
    {
      if Lower(words[i]) in GreetIn {
        assert words[i] in words;
        assert GreetOut[0] in GreetOut;
        var choice :| choice in GreetOut;
        return Some(choice);
      }
      i := i + 1;
    }
    assert forall w :: w in words ==> !IsGreetWord(w);
    return None;
  }

  /** A token holds no whitespace, and neither does its lower-cased form. */
  lemma LowerOfWordHasNoSpace(w: string)
    requires NoSpace(w)
    ensures NoSpace(Lower(w))
  {
    LowerAt(w);
  }

  /** Every entry of `GreetIn` starts with 'h', 'n' or 'w', so a word starting otherwise is no greeting. */
  lemma FirstLetterNoGreeting(w: string)
    requires w != [] && LowerChar(w[0]) !in "hnw"
    ensures !IsGreetWord(w)
  {
    LowerAt(w);
  }

  /** A word that can be told at a glance not to greet: one token, not starting with 'h', 'n' or 'w'. */
  predicate PlainWord(w: string)
  {
    w != [] && NoSpace(w) && LowerChar(w[0]) !in "hnw"
  }

  /** Words joined by spaces, none of them starting like a greeting word, do not greet. */
  lemma NoGreetingWords(ws: seq<string>)
    requires forall k :: 0 <= k < |ws| ==> PlainWord(ws[k])
    ensures !Greets(Join(" ", ws))
  {
    SplitJoinWords(ws);
    forall k | 0 <= k < |ws| ensures !IsGreetWord(ws[k]) {
      FirstLetterNoGreeting(ws[k]);
    }
  }

  /** The same, for five words written out. */
  lemma NoGreetingFive(a: string, b: string, c: string, d: string, e: string)
    requires PlainWord(a) && PlainWord(b) && PlainWord(c) && PlainWord(d) && PlainWord(e)
    ensures !Greets(a + " " + (b + " " + (c + " " + (d + " " + e))))
  {
    JoinFive(a, b, c, d, e);
    NoGreetingWords([a, b, c, d, e]);
  }

  /**
    The entry "how are you?" can never match: every token is free of whitespace, so
    only the five one-word entries decide whether a message greets.
   */
  lemma MultiWordEntryNeverMatches(txt: string)
    ensures Greets(txt) <==> exists w :: w in Split(txt) && Lower(w) in GreetIn[..5]
  {
    SplitAreWords(txt);
    assert GreetIn[5][3] == ' ';
    forall w | w in Split(txt) && IsGreetWord(w) ensures Lower(w) in GreetIn[..5] {
      LowerOfWordHasNoSpace(w);
      assert Lower(w) != GreetIn[5] by {
        if |Lower(w)| == |GreetIn[5]| {
          assert !IsSpace(Lower(w)[3]);
        }
      }
    }
  }

  /** Matching ignores case: "HeLLo" greets. */
  lemma GreetsIgnoresCase()
    ensures Greets("HeLLo")
  {
    assert Join(" ", ["HeLLo"]) == "HeLLo";
    SplitJoinWords(["HeLLo"]);
    assert Lower("HeLLo") == "hello";
    assert "HeLLo" in Split("HeLLo") && IsGreetWord("HeLLo");
  }
}
