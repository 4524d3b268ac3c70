/**
  The intent router `handle_user_message`: a fixed-priority decision list over the raw
  message, first match wins. `Classify` is the decision (which handler runs, and with what
  arguments); `Reply` runs the chosen handler against the outcomes of the live services.
 */
module Router {
  import opened Wrappers
  import opened Strings
  import opened Greeting
  import opened Extract
  import opened LiveData

  // Fixed texts longer than about forty characters are written as a concatenation of
  // shorter literals, so that the verifier can see their characters.

  const PleaseType: string := "Please type your question."
  const GreetSuffix: string := " Ask me about symptoms, prevention, " + "vaccines, or outbreaks."
  const SlotHint: string :=
    "To check vaccination slots, send: " + "'Check slots PINCODE DATE' " +
    "(e.g., 'Check slots 700001 31-08-2025')."
  /** The apology, with the apostrophe as it stands in the source text. */
  const Apology: string :=
    "Sorry, I don\U{E2}\U{20AC}\U{2122}t have that " + "information yet. Please consult " +
    "a healthcare professional."

  /** Which handler the router picks. */
  datatype Intent =
    | AskToType
    | Greet
    | CovidUpdate
    | WhoHeadlines
    | SlotLookup(pin: string, date: string)
    | SlotUsage
    | FaqLookup(text: string)

  /**
    What the outside world answers: the three fetch outcomes (the slot lookup as a function
    of the PIN and date it is asked about), the date formatter of the COVID update, and
    `faq_response` as a function of the text it is given.
   */
  datatype Services = Services(
    covid: Fetched<CovidStats>,
    formatDate: int -> string,
    who: Fetched<seq<Option<string>>>,
    slots: (string, string) -> Fetched<seq<Session>>,
    faq: string -> Option<string>)

  /** The message after `user_msg.lower().strip()`. */
  function Normalize(msg: string): string
  {
    Strip(Lower(msg))
  }

  predicate MentionsCovid(text: string)
  {
    Contains(text, "covid") || Contains(text, "corona")
  }

  predicate AsksWhoNews(text: string)
  {
    Contains(text, "who") && (Contains(text, "outbreak") || Contains(text, "news") || Contains(text, "alert"))
  }

  predicate AsksSlots(text: string)
  {
    (Contains(text, "vaccination") || Contains(text, "vaccine")) &&
    (Contains(text, "slot") || Contains(text, "available") || Contains(text, "pin"))
  }

  /** The decision list of `handle_user_message`, top to bottom. */
  function Classify(msg: string): Intent
  {
    if msg == [] then AskToType
    else if Greets(msg) then Greet
    else
      var text := Normalize(msg);
      if MentionsCovid(text) then CovidUpdate
      else if AsksWhoNews(text) then WhoHeadlines
      else if AsksSlots(text) then
        match (Search(Pin, text), Search(Date, text))
        case (Some(pin), Some(date)) => SlotLookup(pin, date)
        case _ => SlotUsage
      else FaqLookup(text)
  }

  /**
    `handle_user_message`, `greeting` being the pick of `random.choice(GREET_OUT)`; an FAQ
    answer that is empty counts as no answer.
   */
  function Reply(msg: string, greeting: string, env: Services): string
    requires greeting in GreetOut
  {
    match Classify(msg)
    case AskToType => PleaseType
    case Greet => greeting + GreetSuffix
    case CovidUpdate => CovidReply(env.covid, env.formatDate)
    case WhoHeadlines => WhoReply(env.who)
    case SlotLookup(pin, date) => SlotReply(env.slots(pin, date))
    case SlotUsage => SlotHint
    case FaqLookup(text) =>
      var ans := env.faq(text);
      if ans.Some? && ans.value != [] then ans.value else Apology
  }

  /** Only the empty message is asked to type a question; anything else goes on. */
  lemma OnlyEmptyIsAskedToType(msg: string)
    ensures Classify(msg) == AskToType <==> msg == []
    ensures Classify(msg) == AskToType ==> forall g, env :: g in GreetOut ==> Reply(msg, g, env) == PleaseType
  {
  }

  /** A message of whitespace only is not empty: it falls through every keyword test to the FAQ, as "". */
  lemma WhitespaceOnlyReachesFaq(msg: string)
    requires msg != [] && AllSpace(msg)
    ensures Classify(msg) == FaqLookup([])
  {
    TokensOfSpace(msg);
    LowerAt(msg);
    assert AllSpace(Lower(msg));
  }

  /** A greeting word wins over every later intent, and the reply is a fixed greeting plus the guidance. */
  lemma GreetingComesFirst(msg: string, greeting: string, env: Services)
    requires msg != [] && Greets(msg) && greeting in GreetOut
    ensures Classify(msg) == Greet
    ensures Reply(msg, greeting, env) == greeting + GreetSuffix
  {
  }

  /** "hi covid" is answered with a greeting; the COVID service is never consulted. */
  lemma HiCovidIsAGreeting()
    ensures Classify("hi covid") == Greet
  {
    assert Join(" ", ["hi", "covid"]) == "hi covid";
    SplitJoinWords(["hi", "covid"]);
    assert Lower("hi") == "hi";
    assert "hi" in Split("hi covid") && IsGreetWord("hi");
  }

  /** The COVID test comes before the WHO test: a message that passes both gets the COVID update. */
  lemma CovidComesBeforeWho(msg: string)
    requires msg != [] && !Greets(msg)
    requires MentionsCovid(Normalize(msg)) && AsksWhoNews(Normalize(msg))
    ensures Classify(msg) == CovidUpdate
  {
  }

  /**
    The WHO service is consulted exactly when the normalized message contains "who" and one
    of "outbreak", "news", "alert", and no earlier branch fired.
   */
  lemma WhoHeadlinesExactly(msg: string)
    ensures Classify(msg) == WhoHeadlines <==>
            msg != [] && !Greets(msg) && !MentionsCovid(Normalize(msg)) && AsksWhoNews(Normalize(msg))
  {
  }

  /**
    The slot service is consulted exactly when the vaccination keywords are present, no
    earlier branch fired, and both a PIN and a date are found; it is given the leftmost
    ones. With the keywords but without both, the reply is the usage hint.
   */
  lemma SlotLookupExactly(msg: string)
    ensures Classify(msg).SlotLookup? <==>
            msg != [] && !Greets(msg) && !MentionsCovid(Normalize(msg)) && !AsksWhoNews(Normalize(msg)) &&
            AsksSlots(Normalize(msg)) && Search(Pin, Normalize(msg)).Some? && Search(Date, Normalize(msg)).Some?
    ensures Classify(msg).SlotLookup? ==>
            Some(Classify(msg).pin) == Search(Pin, Normalize(msg)) &&
            Some(Classify(msg).date) == Search(Date, Normalize(msg))
    ensures Classify(msg) == SlotUsage <==>
            msg != [] && !Greets(msg) && !MentionsCovid(Normalize(msg)) && !AsksWhoNews(Normalize(msg)) &&
            AsksSlots(Normalize(msg)) && (Search(Pin, Normalize(msg)).None? || Search(Date, Normalize(msg)).None?)
  {
  }

  /** A message without capitals and without whitespace at its ends is its own normal form. */
  lemma NormalizeFixed(msg: string)
    requires forall i :: 0 <= i < |msg| ==> !('A' <= msg[i] <= 'Z')
    requires msg == [] || (!IsSpace(msg[0]) && !IsSpace(msg[|msg| - 1]))
    ensures Normalize(msg) == msg
  {
    LowerOfLowercase(msg);
    StripFixed(msg);
  }

  /** Lower-casing and stripping bring in no new letters: a letter missing in both cases stays missing. */
  lemma NormalizeMisses(msg: string, c: char)
    requires 'a' <= c <= 'z' && c !in msg && (c as int - 32) as char !in msg
    ensures c !in Normalize(msg)
  {
    LowerAt(msg);
    StripChars(Lower(msg));
  }

  /**
    Without a "v" in either case, neither "vaccine" nor "vaccination" can occur, so the slot
    service is never consulted and the usage hint is never given.
   */
  lemma NoVaccineKeywordNoSlots(msg: string)
    requires 'v' !in msg && 'V' !in msg
    ensures !Classify(msg).SlotLookup? && Classify(msg) != SlotUsage
  {
    if msg != [] && !Greets(msg) {
      NormalizeMisses(msg, 'v');
      MissingCharNotContained(Normalize(msg), "vaccine", 'v');
      MissingCharNotContained(Normalize(msg), "vaccination", 'v');
    }
  }

  /**
    A slot request in general: once the keywords route a message to the vaccination branch,
    a PIN standing as a word after digit-free text and a date standing as a word after text
    without '-' are exactly what the slot service is asked about.
   */
  lemma SlotRequestLooksUp(msg: string, a: string, pin: string, b: string, p: string, date: string, c: string)
    requires msg != [] && !Greets(msg)
    requires !MentionsCovid(Normalize(msg)) && !AsksWhoNews(Normalize(msg)) && AsksSlots(Normalize(msg))
    requires Normalize(msg) == a + pin + b && Normalize(msg) == p + date + c
    requires Shape(Pin, pin) && Shape(Date, date)
    requires forall k :: 0 <= k < |a| ==> !IsDigit(a[k])
    requires a == [] || !IsWordChar(a[|a| - 1])
    requires b == [] || !IsWordChar(b[0])
    requires '-' !in p
    requires p == [] || !IsWordChar(p[|p| - 1])
    requires c == [] || !IsWordChar(c[0])
    ensures Classify(msg) == SlotLookup(pin, date)
  {
    FirstPinAfterNonDigits(a, pin, b);
    FirstDateAfterNoDash(p, date, c);
  }

  /**
    The request "check slots 700001 31-08-2025 vaccine", written as its five words joined
    by spaces so that each fact about it can be derived word by word.
   */
  const SlotExample: string :=
    "check" + " " + ("slots" + " " + ("700001" + " " + ("31-08-2025" + " " + "vaccine")))

  lemma SlotExampleNoGreeting()
    ensures !Greets(SlotExample)
  {
    NoGreetingFive("check", "slots", "700001", "31-08-2025", "vaccine");
  }

  lemma SlotExampleNormal()
    ensures Normalize(SlotExample) == SlotExample
  {
    NormalizeFixed(SlotExample);
  }

  lemma SlotExampleAsksSlots()
    ensures AsksSlots(SlotExample)
  {
    var r3 := "31-08-2025" + " " + "vaccine";
    var r2 := "700001" + " " + r3;
    var r1 := "slots" + " " + r2;
    assert Contains("vaccine", "vaccine");
    ContainsRight("31-08-2025" + " ", "vaccine", "vaccine");
    ContainsRight("700001" + " ", r3, "vaccine");
    ContainsRight("slots" + " ", r2, "vaccine");
    ContainsRight("check" + " ", r1, "vaccine");
    assert Contains("slots", "slot");
    ContainsLeft("slots", " ", "slot");
    ContainsLeft("slots" + " ", r2, "slot");
    ContainsRight("check" + " ", r1, "slot");
  }

  /** A character in none of five words, nor a space, is not in the words joined by spaces. */
  lemma MissingFromFive(a: string, b: string, c: string, d: string, e: string, x: char)
    requires x != ' ' && x !in a && x !in b && x !in c && x !in d && x !in e
    ensures x !in a + " " + (b + " " + (c + " " + (d + " " + e)))
  {
  }

  lemma SlotExampleLetters()
    ensures 'd' !in SlotExample && 'r' !in SlotExample && 'w' !in SlotExample
  {
    MissingFromFive("check", "slots", "700001", "31-08-2025", "vaccine", 'd');
    MissingFromFive("check", "slots", "700001", "31-08-2025", "vaccine", 'r');
    MissingFromFive("check", "slots", "700001", "31-08-2025", "vaccine", 'w');
  }

  lemma SlotExampleNoNews()
    ensures !MentionsCovid(SlotExample) && !AsksWhoNews(SlotExample)
  {
    SlotExampleLetters();
    MissingCharNotContained(SlotExample, "covid", 'd');
    MissingCharNotContained(SlotExample, "corona", 'r');
    MissingCharNotContained(SlotExample, "who", 'w');
  }

  lemma SlotExamplePin()
    ensures Search(Pin, SlotExample) == Some("700001")
  {
    assert SlotExample == "check slots " + "700001" + " 31-08-2025 vaccine";
    FirstPinAfterNonDigits("check slots ", "700001", " 31-08-2025 vaccine");
  }

  lemma SlotExampleDate()
    ensures Search(Date, SlotExample) == Some("31-08-2025")
  {
    assert SlotExample == "check slots 700001 " + "31-08-2025" + " vaccine";
    FirstDateAfterNoDash("check slots 700001 ", "31-08-2025", " vaccine");
  }

  /** The request is routed to the slot service, asked about PIN 700001 on 31-08-2025. */
  lemma SlotExampleLooksUp()
    ensures Classify(SlotExample) == SlotLookup("700001", "31-08-2025")
  {
    SlotExampleNoGreeting();
    SlotExampleNormal();
    SlotExampleAsksSlots();
    SlotExampleNoNews();
    SlotExamplePin();
    SlotExampleDate();
    SlotLookupExactly(SlotExample);
  }

  /** The example the usage hint itself offers. */
  const HintExample: string := "Check slots 700001 31-08-2025"

  lemma HintExampleHasNoV()
    ensures 'v' !in HintExample && 'V' !in HintExample
  {
  }

  /**
    Typed as the usage hint suggests, "Check slots 700001 31-08-2025" never reaches the slot
    service, nor the hint again: it lacks the "vaccine" keyword.
   */
  lemma HintExampleNeverBooks()
    ensures !Classify(HintExample).SlotLookup? && Classify(HintExample) != SlotUsage
  {
    HintExampleHasNoV();
    NoVaccineKeywordNoSlots(HintExample);
  }

  /** Everything no keyword claims goes to the FAQ, as the normalized text; no answer, or an empty one, gives the apology. */
  lemma FaqThenApology(msg: string, greeting: string, env: Services)
    requires greeting in GreetOut
    requires msg != [] && !Greets(msg)
    requires !MentionsCovid(Normalize(msg)) && !AsksWhoNews(Normalize(msg)) && !AsksSlots(Normalize(msg))
    ensures Classify(msg) == FaqLookup(Normalize(msg))
    ensures env.faq(Normalize(msg)) == None || env.faq(Normalize(msg)) == Some([]) ==>
            Reply(msg, greeting, env) == Apology
    ensures env.faq(Normalize(msg)).Some? && env.faq(Normalize(msg)).value != [] ==>
            Reply(msg, greeting, env) == env.faq(Normalize(msg)).value
  {
  }

  /** A failed request turns into that service's fixed apology. */
  lemma FailedServicesApologize(msg: string, greeting: string, env: Services)
    requires greeting in GreetOut
    ensures Classify(msg) == CovidUpdate && env.covid.Unavailable? ==> Reply(msg, greeting, env) == CovidUnavailable
    ensures Classify(msg) == WhoHeadlines && env.who.Unavailable? ==> Reply(msg, greeting, env) == WhoUnavailable
    ensures Classify(msg).SlotLookup? && env.slots(Classify(msg).pin, Classify(msg).date).Unavailable? ==>
            Reply(msg, greeting, env) == SlotUnavailable
  {
  }

  /** Whatever the message and whatever the services answer, the reply is never empty. */
  lemma ReplyNeverEmpty(msg: string, greeting: string, env: Services)
    requires greeting in GreetOut
    ensures Reply(msg, greeting, env) != []
  {
  }
}
