# Health chatbot decision core, modelled in Dafny

The chatbot (`chatbothealth.py`) answers one health message at a time. Its core is a
fixed-priority router, `handle_user_message`, in front of five handlers. An empty
message is asked to type a question. If any word is a greeting, the reply is a random
greeting followed by the guidance " Ask me about symptoms, prevention, vaccines, or
outbreaks.". After lower-casing and stripping, a mention of "covid"/"corona" gets a live
COVID summary. "who" together with "outbreak"/"news"/"alert" gets the WHO outbreak
headlines. A vaccination keyword together with a slot keyword gets a CoWIN slot lookup
for the first word-bounded 6-digit PIN and DD-MM-YYYY date, or a usage hint when either
one is missing. Anything else goes to a TF-IDF lookup in a question/answer file, and when
that finds nothing the reply is an apology.

The model has eight modules:

- `Wrappers`: `Option`.
- `Strings`: the Python string operations the core uses. This covers ASCII `lower`,
  `strip`, `replace(pat, "")`, `in`, `split()` and `join`. `IsSpace` is not a call of the
  source: it is the whitespace set of CPython's `str.isspace`, which `strip()` and
  `split()` use internally. It also has
  `SplitOn`, Python's `split(c)`. The source never calls it: it only serves to read
  back, line by line, the texts the source builds with newlines (chatbothealth.py:89-93,
  118 and 142).
- `FaqStore`: `load_faq` and the `questions`/`answers` projections. The pairing loop is a
  method with loop invariants.
- `Greeting`: `maybe_greet`, a method that scans the tokens.
- `FaqMatcher`: the threshold/argmax decision of `faq_response`. The similarity scores
  are an input.
- `LiveData`: the formatting halves of the three fetchers. The headline and slot loops
  are methods proved against the functions that specify them.
- `Extract`: the two `re.search` calls of the vaccination branch.
- `Router`: `handle_user_message`. `Classify` says which handler runs and with what
  arguments. `Reply` runs that handler against what the outside world answers
  (`Services`).

Fixed texts are kept character for character as they appear in the source text. That
includes the emoji and the apostrophe of the apology: these are UTF-8 bytes read as
cp1252, for example `â€¢` for the bullet, and they are written as `\U{..}` escapes.

Three points of the code's behaviour that the model states as the code has them:

- **Tie-break.** On equal scores the code takes `sims.argsort()[0][-1]`, so a tie may
  resolve to any highest position, not necessarily the first. `Respond` therefore takes
  *some* argmax, and `TieBreakOnlyPicksAmongTies` proves that the choice never decides
  whether there is an answer.
- **Threshold.** The code rejects only `score < threshold`, so a score equal to the
  threshold is answered (`ScoreAtThresholdMatches`).
- **Usage hint.** The hint's own example, "Check slots 700001 31-08-2025", has no
  "vaccine"/"vaccination" keyword. Sent as suggested, it never reaches the slot service
  (`HintExampleNeverBooks`).

## Model

| member | source | states |
|---|---|---|
| Strings.Lower | chatbothealth.py:174 | `lower()`: the text with each ASCII capital lower-cased, of the same length |
| Strings.LowerChar | chatbothealth.py:67 | lower-casing a character keeps it whitespace exactly when it was |
| Strings.LowerAt | chatbothealth.py:174 | `lower()` maps each character in place, keeping the length |
| Strings.LowerOfLowercase | chatbothealth.py:174 | a text with no upper-case ASCII letter is unchanged by `lower()` |
| Strings.TrimStart | chatbothealth.py:33 | the result is empty exactly when the input is all whitespace; otherwise it starts with a non-space; it is no longer than the input |
| Strings.TrimEnd | chatbothealth.py:33 | the result is empty exactly when the input is all whitespace; otherwise it ends with a non-space; it is no longer than the input |
| Strings.Strip | chatbothealth.py:33 | `strip()` gives the empty text exactly for all-whitespace input |
| Strings.TrimStartDrops | chatbothealth.py:33 | the leading trim keeps a suffix of its input, and everything it drops is whitespace |
| Strings.TrimEndDrops | chatbothealth.py:33 | the trailing trim keeps a prefix of its input, and everything it drops is whitespace |
| Strings.StripDrops | chatbothealth.py:33 | `strip()` keeps one contiguous piece of its input, with only whitespace before and after it |
| Strings.StripEnds | chatbothealth.py:33 | a non-empty stripped text has non-whitespace at both ends |
| Strings.StripFixed | chatbothealth.py:33 | a text with no whitespace at its ends is its own `strip()` |
| Strings.StripChars | chatbothealth.py:174 | stripping keeps only characters of its input |
| Strings.RemoveAll | chatbothealth.py:37-38 | `replace(pat, "")` never lengthens the text |
| Strings.RemoveAllAbsent | chatbothealth.py:37-38 | with no occurrence of the marker, `replace` leaves the text unchanged |
| Strings.RemoveAllKeeps | chatbothealth.py:37-38 | where no marker starts, `replace` keeps the first character and goes on with the rest |
| Strings.RemoveAllCuts | chatbothealth.py:37-38 | a marker at the start is cut, and `replace` goes on after it |
| Strings.RemoveAllFirst | chatbothealth.py:37-38 | the text before the first marker is kept, that marker is cut, and `replace` goes on after it |
| Strings.RemoveAllSinglePass | chatbothealth.py:37 | `replace` makes one pass: `"QQ::".replace("Q:", "")` is `"Q:"`, which still holds the marker |
| Strings.Contains | chatbothealth.py:177-183 | `sub in s`: `sub` is a prefix of `s` or of one of its suffixes |
| Strings.ContainsIff | chatbothealth.py:177 | `sub in s` holds exactly when `sub` occurs at some position of `s` |
| Strings.ContainsInside | chatbothealth.py:183 | a text is contained in anything built around it |
| Strings.ContainsLeft | chatbothealth.py:177-183 | a text contained in the first part is contained in the whole |
| Strings.ContainsRight | chatbothealth.py:177-183 | a text contained in the second part is contained in the whole |
| Strings.MissingCharNotContained | chatbothealth.py:177-183 | a text lacking one of `sub`'s characters does not contain `sub` |
| Strings.Split | chatbothealth.py:66 | `split()`: the maximal runs of non-whitespace, in order |
| Strings.SplitAreWords | chatbothealth.py:66 | every token of `split()` is non-empty and holds no whitespace |
| Strings.TokensOfSpace | chatbothealth.py:66 | an all-whitespace text splits into no tokens |
| Strings.SplitJoinWords | chatbothealth.py:66 | `split()` undoes `" ".join` of non-empty, whitespace-free words |
| Strings.Join | chatbothealth.py:118 | `sep.join(xs)`: the items in order with `sep` between neighbours |
| Strings.JoinStartsWithFirst | chatbothealth.py:142 | `sep.join` of a non-empty list starts with its first element |
| Strings.SplitOn | chatbothealth.py:118 | `split("\n")` gives at least one piece |
| Strings.SplitOnJoin | chatbothealth.py:118 | `split("\n")` undoes `"\n".join` of newline-free lines |
| FaqStore.ParseQuestion | chatbothealth.py:37 | a question line: every "Q:" cut out, then stripped, then lower-cased |
| FaqStore.ParseAnswer | chatbothealth.py:38 | an answer line: every "A:" cut out, then stripped, with its case kept |
| FaqStore.CleanLines | chatbothealth.py:33 | the kept lines are no more than the file's lines, and each is non-empty with non-whitespace at both ends |
| FaqStore.CleanLinesOfBlank | chatbothealth.py:33 | a file of blank lines has no lines |
| FaqStore.CleanLinesOfClean | chatbothealth.py:33 | stripped, non-blank lines are kept as they are, in order |
| FaqStore.CleanLinesAppend | chatbothealth.py:33 | cleaning works line by line: the cleaned concatenation is the concatenation of the cleaned parts |
| FaqStore.CleanLinesOne | chatbothealth.py:33 | one line is dropped when it is blank, and kept stripped otherwise |
| FaqStore.PairAt | chatbothealth.py:36-39 | pair k is the parsed line 2k as question and the parsed line 2k+1 as answer |
| FaqStore.PairUp | chatbothealth.py:34-40 | exactly floor(n/2) pairs, in file order; pair k is line 2k with every "Q:" cut out, stripped and lower-cased, and line 2k+1 with every "A:" cut out and stripped; a last unpaired line is dropped |
| FaqStore.LoadFaq | chatbothealth.py:28-40 | a missing file gives no pairs; otherwise the pairs are those of the cleaned lines |
| FaqStore.MarkedQuestion | chatbothealth.py:37 | "Q:" + q, with no further marker in q, parses to q stripped and lower-cased |
| FaqStore.MarkedAnswer | chatbothealth.py:38 | "A:" + a, with no further marker in a, parses to a stripped, with its case kept |
| FaqStore.MarkerInside | chatbothealth.py:37-38 | a two-character marker standing inside a line, with no other occurrence around it, is cut out wherever it stands |
| FaqStore.QuestionMarkerInside | chatbothealth.py:37 | a line a + "Q:" + b, with no marker in a or b, parses as a + b would, stripped and lower-cased |
| FaqStore.AnswerMarkerInside | chatbothealth.py:38 | a line a + "A:" + b, with no marker in a or b, parses as a + b would, stripped |
| FaqStore.Questions | chatbothealth.py:43 | one question per pair, at the pair's position |
| FaqStore.Answers | chatbothealth.py:44 | one answer per pair, at the pair's position |
| FaqStore.QuestionsAnswersAligned | chatbothealth.py:42-44 | the two lists are index-aligned: position i of each comes from pair i |
| Greeting.Greets | chatbothealth.py:65-67 | a message greets when one of its `split()` tokens, lower-cased, is in `GREET_IN` |
| Greeting.MaybeGreet | chatbothealth.py:65-69 | returns a member of `GREET_OUT` exactly when some token, lower-cased, is in `GREET_IN`, and None otherwise |
| Greeting.LowerOfWordHasNoSpace | chatbothealth.py:66-67 | a lower-cased token still holds no whitespace |
| Greeting.MultiWordEntryNeverMatches | chatbothealth.py:62-67 | "how are you?" never matches: greeting is decided by the five one-word entries alone |
| Greeting.FirstLetterNoGreeting | chatbothealth.py:62-67 | a token whose first letter, lower-cased, is not h, n or w is no greeting |
| Greeting.NoGreetingWords | chatbothealth.py:62-67 | words joined by spaces, none starting with h, n or w in either case, do not greet |
| Greeting.GreetsIgnoresCase | chatbothealth.py:66-67 | matching ignores case: "HeLLo" greets |
| FaqMatcher.MaxScore | chatbothealth.py:158-160 | the best score bounds every score and is attained |
| FaqMatcher.ArgMaxExists | chatbothealth.py:159 | a non-empty score row has a highest position, and its score is the maximum |
| FaqMatcher.Respond | chatbothealth.py:149-163 | no questions gives None; otherwise None exactly when the best score is below the threshold, and else the answer at the chosen highest position, whose score is the maximum and at least the threshold |
| FaqMatcher.TieBreakOnlyPicksAmongTies | chatbothealth.py:159-163 | any two highest positions agree on whether there is an answer and have equal scores |
| FaqMatcher.UniqueBestIsAnswered | chatbothealth.py:159-163 | a strictly best question is the one chosen; its answer is returned unless its score is below the threshold |
| FaqMatcher.ScoreAtThresholdMatches | chatbothealth.py:149-163 | a best score equal to the default threshold, the double nearest 0.35 (0.34999999999999997779553950749686919152736663818359375), is answered |
| FaqMatcher.DecimalThresholdIsAnswered | chatbothealth.py:149-163 | the double threshold lies below the decimal 0.35, so a best score of exactly 0.35 is answered |
| LiveData.Take | chatbothealth.py:114 | `xs[:n]` is the prefix of length min(n, len(xs)) |
| LiveData.LastUpdated | chatbothealth.py:88 | the formatted timestamp, or "N/A" when it is missing or zero |
| LiveData.CovidLines | chatbothealth.py:84-93 | the five lines of the COVID update, each missing field rendered as "N/A" |
| LiveData.CovidReply | chatbothealth.py:79-95 | the COVID reply is never empty |
| LiveData.CovidReplyLines | chatbothealth.py:84-93 | a fetched update is the five lines: title, cases today, deaths today, total, last update, rendered fields defaulting to "N/A", and a missing timestamp giving "(Last updated: N/A)" |
| LiveData.HeadlineText | chatbothealth.py:110-118 | no items, or no titled item among the first `limit`, gives "No current outbreak items from WHO."; otherwise the WHO header and the bullets, joined by newlines |
| LiveData.HeadlineBullets | chatbothealth.py:113-117 | at most one bullet per item |
| LiveData.RenderHeadlines | chatbothealth.py:110-118 | the loop over `items[:limit]` builds exactly the specified headline text |
| LiveData.HeadlineBulletsAppend | chatbothealth.py:114-117 | the bullets of two stretches of items are the bullets of each, in order |
| LiveData.HeadlineBulletsAllTitled | chatbothealth.py:114-117 | when every item has a title, the bullets are those titles, one per item, in order |
| LiveData.HeadlineBulletsEmptyIff | chatbothealth.py:114-118 | there are no bullets exactly when no item has a non-empty title |
| LiveData.HeadlineBulletsFromTitles | chatbothealth.py:114-117 | every bullet is the bullet mark and the title of some titled item |
| LiveData.TitlesAreNotMessages | chatbothealth.py:112-135 | the header lines differ from the "no items" and "no slots" messages |
| LiveData.HeadlineTextShape | chatbothealth.py:110-118 | the reply is "No current outbreak items from WHO." exactly when none of the first `limit` items has a title; there are at most `limit` bullets |
| LiveData.HeadlineTextLines | chatbothealth.py:118 | with one-line titles, the reply's lines are the WHO header and then the bullets |
| LiveData.WhoReply | chatbothealth.py:103-120 | the WHO reply is never empty |
| LiveData.SlotLine | chatbothealth.py:137-141 | one session line, a missing name, vaccine or number rendered as "Center", "Vaccine" or "-" |
| LiveData.SlotText | chatbothealth.py:132-142 | no sessions gives "No vaccination slots found for the given PIN and date."; otherwise the header and a line for each of the first ten sessions, joined by newlines |
| LiveData.RenderSlots | chatbothealth.py:132-142 | the loop over `data[:10]` builds exactly the specified slot text |
| LiveData.SlotLineOneLine | chatbothealth.py:137-141 | a session with one-line fields gives one line |
| LiveData.SlotTextShape | chatbothealth.py:133-142 | the empty list, and only it, gives "No vaccination slots found for the given PIN and date."; otherwise the reply's lines are the header and exactly min(10, n) session lines, the k-th for session k |
| LiveData.SlotReply | chatbothealth.py:128-144 | the slot reply is never empty |
| Extract.MatchAt | chatbothealth.py:186-187 | a match starts at i: six digits, or DD-MM-YYYY digits and dashes, with no word character just before or just after |
| Extract.SearchFrom | chatbothealth.py:186-187 | the result is a match at or after the start with no match before it, or there is none |
| Extract.Search | chatbothealth.py:186-187 | None exactly when there is no match; otherwise the text of the leftmost match |
| Extract.SearchShape | chatbothealth.py:186-187 | what is found is six digits, or DD-MM-YYYY |
| Extract.SearchFromSkips | chatbothealth.py:186-187 | positions where no match starts are passed over |
| Extract.NoMatchAfterWordChar | chatbothealth.py:186-187 | `\b` rules out a match starting just after a word character |
| Extract.NoMatchAtNonDigit | chatbothealth.py:186-187 | no match starts at a non-digit |
| Extract.FirstPinAfterNonDigits | chatbothealth.py:186 | a word-bounded six-digit run after digit-free text is the PIN found |
| Extract.FirstDateAfterNoDash | chatbothealth.py:187 | a word-bounded date after text without '-' is the date found |
| Extract.SevenDigitsAreNoPin | chatbothealth.py:186 | "1234567" holds no PIN |
| Router.Normalize | chatbothealth.py:174 | `user_msg.lower().strip()` |
| Router.Classify | chatbothealth.py:165-193 | the first branch that fires, in source order: empty, greeting, COVID, WHO, slots (lookup or hint), else the FAQ on the normalized text |
| Router.Reply | chatbothealth.py:165-199 | the reply of the chosen handler given the services' outcomes: the greeting with the guidance, a service's rendered text, the FAQ answer, or the apology |
| Router.OnlyEmptyIsAskedToType | chatbothealth.py:166-167 | only the empty message gets "Please type your question." |
| Router.WhitespaceOnlyReachesFaq | chatbothealth.py:165-194 | a whitespace-only message goes past every keyword test to the FAQ, as "" |
| Router.GreetingComesFirst | chatbothealth.py:169-172 | a greeting wins over all later intents; the reply is the greeting plus the guidance |
| Router.HiCovidIsAGreeting | chatbothealth.py:169-178 | "hi covid" is answered with a greeting, never with the COVID update |
| Router.CovidComesBeforeWho | chatbothealth.py:177-181 | a message that passes both the COVID and WHO tests gets the COVID update |
| Router.WhoHeadlinesExactly | chatbothealth.py:180-181 | the WHO feed is consulted exactly when "who" and one of "outbreak"/"news"/"alert" occur and no earlier branch fired |
| Router.SlotLookupExactly | chatbothealth.py:183-191 | the slot service is consulted exactly when the keywords occur, no earlier branch fired, and both a PIN and a date are found, with the leftmost of each; with the keywords but not both, the usage hint |
| Router.NormalizeFixed | chatbothealth.py:174 | a message without capitals or whitespace at its ends is its own normal form |
| Router.NormalizeMisses | chatbothealth.py:174 | a letter missing from the message in both cases is missing from its normal form |
| Router.NoVaccineKeywordNoSlots | chatbothealth.py:183 | a message with no "v" or "V" never reaches the slot service or the usage hint |
| Router.SlotRequestLooksUp | chatbothealth.py:183-189 | once routed to the vaccination branch, a word-bounded PIN after digit-free text and a word-bounded date after dash-free text are exactly what the slot service is asked about |
| Router.SlotExamplePin | chatbothealth.py:186 | in "check slots 700001 31-08-2025 vaccine" the PIN found is "700001" |
| Router.SlotExampleDate | chatbothealth.py:187 | in "check slots 700001 31-08-2025 vaccine" the date found is "31-08-2025" |
| Router.SlotExampleNoGreeting | chatbothealth.py:169-170 | "check slots 700001 31-08-2025 vaccine" is no greeting |
| Router.SlotExampleNormal | chatbothealth.py:174 | that request is its own normal form |
| Router.SlotExampleNoNews | chatbothealth.py:177-180 | that request mentions neither COVID nor WHO news |
| Router.SlotExampleAsksSlots | chatbothealth.py:183 | that request has a vaccination keyword and a slot keyword |
| Router.SlotExampleLooksUp | chatbothealth.py:165-189 | that request is routed to the slot service, asked about PIN "700001" on "31-08-2025" |
| Router.HintExampleNeverBooks | chatbothealth.py:183-191 | the hint's example "Check slots 700001 31-08-2025" reaches neither the slot service nor the hint |
| Router.FaqThenApology | chatbothealth.py:193-199 | with no keyword, the FAQ gets the normalized text; a missing or empty answer gives the apology, and any other answer is the reply |
| Router.FailedServicesApologize | chatbothealth.py:82-144 | a failed COVID, WHO or slot request gives that service's fixed apology |
| Router.ReplyNeverEmpty | chatbothealth.py:165-199 | whatever the message and the services answer, the reply is never empty |

## Left out

- The Flask routes `home`, `get_reply` and `whatsapp_reply`, and the Twilio wrapping (chatbothealth.py:204-231). They are web transport around `handle_user_message`.
- The HTTP requests, status checks and `except Exception` fallbacks. Each fetch is a `Fetched` outcome: a payload, or `Unavailable` for any failure.
- File access in `load_faq`. `LoadFaq` takes `None` for a missing file, or the file's lines.
- The `print` to standard error when the file is missing. It is output only.
- Floating point. The similarity scores and the threshold are doubles in the source and `real`s here. Every double is a real, and comparing two doubles gives the same answer as comparing the reals they stand for, so `Respond` is exact for double inputs. `DefaultThreshold` is the exact value of the double written `0.35`.
- NLTK downloads, tokenizing and lemmatizing, and the TF-IDF/cosine computation (chatbothealth.py:48-58, 155-158). These are foreign library code with floating-point numerics. The scores are an input to `Respond`, and the router sees `faq_response` as the function `Services.faq`.
- `datetime.fromtimestamp(updated/1000).strftime(...)`, which depends on the local time zone. It is the parameter `formatDate`.
- XML parsing of the WHO feed. The items are a sequence of optional titles; an absent channel is the empty sequence.
- JSON value rendering. Payload fields arrive already rendered as text, and a missing key is `None`. A key that is present with a null value, which Python renders as "None", is not distinguished.
- `random.choice`. `MaybeGreet` picks any member of `GREET_OUT`, and `Reply` takes the greeting as a parameter.
- Strings.Lower: covers ASCII letters only. Python's `lower()` also folds other letters.
- Extract.MatchAt: `\d` and `\w` are the ASCII digits and word characters. Python's are Unicode classes.
- LiveData.HeadlineText: `limit` is a `nat`. A negative slice bound, which the source never passes, is not modelled.
- Strings.RemoveAll: its own contract bounds only the length. What it removes is stated by `RemoveAllKeeps`, `RemoveAllCuts`, `RemoveAllFirst`, `RemoveAllAbsent` and `RemoveAllSinglePass`, and for the markers by `MarkedQuestion`, `MarkedAnswer`, `QuestionMarkerInside` and `AnswerMarkerInside`.
- Strings.TrimStart: its own contract leaves out what is dropped. `TrimStartDrops` states that it is a leading run of whitespace.
- Strings.TrimEnd: its own contract leaves out what is dropped. `TrimEndDrops` states that it is a trailing run of whitespace.
- Strings.Strip: its own contract leaves out what is dropped. `StripDrops` states that only whitespace around one contiguous piece goes.
- Exceptions from `faq_response`. Scikit-learn raises `ValueError` when the vocabulary is empty (chatbothealth.py:157), for instance when every word is a stop word, and nothing catches it, so the request fails. The model's `Services.faq` is total, and `ReplyNeverEmpty` holds only under that assumption.
- Exceptions from `datetime.fromtimestamp` (chatbothealth.py:88), for instance for an out-of-range timestamp. The surrounding `except Exception` turns them into "Live COVID update is temporarily unavailable.". The model's `formatDate` is total, so the model cannot produce that outcome from a fetched payload.
