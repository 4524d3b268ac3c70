/**
  The formatting halves of the three live-data fetchers. The HTTP request, its status
  check and the `except` fallback are folded into a `Fetched` outcome: either the parsed
  payload or `Unavailable`, which each fetcher turns into its fixed apology.
 */
module LiveData {
  import opened Wrappers
  import opened Strings

  /** The outcome of one outbound request: its payload, or any failure (non-200 status, timeout, bad payload). */
  datatype Fetched<T> = Fetched(payload: T) | Unavailable

  // Fixed texts longer than about forty characters are written as a concatenation of
  // shorter literals, so that the verifier can see their characters.

  /** The bullet the source writes before each item (the literal as it stands in the source text). */
  const Bullet: string := "\U{E2}\U{20AC}\U{A2} "

  /** Python's `xs[:n]` for a non-negative `n`. */
  function Take<T>(xs: seq<T>, n: nat): (ys: seq<T>)
    ensures |ys| == if n < |xs| then n else |xs|
    ensures ys == xs[..|ys|]
  {
    if n < |xs| then xs[..n] else xs
  }

  /** A line that holds no newline. */
  predicate OneLine(s: string)
  {
    '\n' !in s
  }

  // ---------------------------------------------------------------------------
  // COVID update

  const CovidUnavailable: string := "Live COVID update is " + "temporarily unavailable."
  const CovidTitle: string := "\U{F0}\U{178}\U{2021}\U{AE}\U{F0}\U{178}\U{2021}\U{B3} India COVID Update:"

  /**
    The fields read from the statistics payload, each already rendered as text; `updated`
    is the epoch-millisecond timestamp.
   */
  datatype CovidStats = CovidStats(todayCases: Option<string>, todayDeaths: Option<string>,
                                   cases: Option<string>, updated: Option<int>)

  /** `when`: the timestamp formatted by `datetime.fromtimestamp`, or "N/A" when it is missing or zero. */
  function LastUpdated(updated: Option<int>, formatDate: int -> string): string
  {
    if updated.Some? && updated.value != 0 then formatDate(updated.value) else "N/A"
  }

  function CovidLines(stats: CovidStats, formatDate: int -> string): seq<string>
  {
    [CovidTitle,
     Bullet + "New cases today: " + stats.todayCases.GetOr("N/A"),
     Bullet + "New deaths today: " + stats.todayDeaths.GetOr("N/A"),
     Bullet + "Total cases: " + stats.cases.GetOr("N/A"),
     "(Last updated: " + LastUpdated(stats.updated, formatDate) + ")"]
  }

  /** The reply of `get_covid_update_india`. */
  function CovidReply(f: Fetched<CovidStats>, formatDate: int -> string): (r: string)
    ensures r != []
  {
    match f
    case Unavailable => CovidUnavailable
    case Fetched(stats) => Join("\n", CovidLines(stats, formatDate))
  }

  /**
    A successful update is five lines: the title, today's cases, today's deaths, the total
    and the time of the last update, each rendered field defaulting to "N/A".
   */
  lemma CovidReplyLines(stats: CovidStats, formatDate: int -> string)
    requires forall k :: 0 <= k < 5 ==> OneLine(CovidLines(stats, formatDate)[k])
    ensures SplitOn(CovidReply(Fetched(stats), formatDate), '\n') == CovidLines(stats, formatDate)
    ensures |CovidLines(stats, formatDate)| == 5
    ensures stats.updated.None? ==> CovidLines(stats, formatDate)[4] == "(Last updated: N/A)"
    ensures stats.cases.None? ==> CovidLines(stats, formatDate)[3] == Bullet + "Total cases: N/A"
  {
    SplitOnJoin(CovidLines(stats, formatDate), '\n');
  }

  // ---------------------------------------------------------------------------
  // WHO outbreak headlines

  const WhoUnavailable: string := "WHO outbreak feed is " + "unavailable right now."
  const NoOutbreakItems: string := "No current outbreak items from WHO."
  const WhoTitle: string := "\U{F0}\U{178}\U{2020}\U{2DC} WHO Disease Outbreak News:"

  /** The default `limit` of `get_who_outbreak_headlines`. */
  const HeadlineLimit: nat := 5

  /** An item survives when its title is present and not empty (Python's `if t:`). */
  predicate HasTitle(item: Option<string>)
  {
    item.Some? && item.value != []
  }

  /** One bullet line per item with a title, in document order. */
  function HeadlineBullets(items: seq<Option<string>>): (ts: seq<string>)
    ensures |ts| <= |items|
  {
    if items == [] then []
    else
      var ts := HeadlineBullets(items[..|items| - 1]);
      var last := items[|items| - 1];
      if HasTitle(last) then ts + [Bullet + last.value] else ts
  }

  /** The reply text for the items of a parsed feed (an absent channel being no items). */
  function HeadlineText(items: seq<Option<string>>, limit: nat): string
  {
    if items == [] then NoOutbreakItems
    else
      var ts := HeadlineBullets(Take(items, limit));
      if ts == [] then NoOutbreakItems else WhoTitle + "\n" + Join("\n", ts)
  }

  /** The loop of `get_who_outbreak_headlines` over `items[:limit]`. */
  method RenderHeadlines(items: seq<Option<string>>, limit: nat) returns (text: string)
    ensures text == HeadlineText(items, limit)
  {
    if items == [] {
      return NoOutbreakItems;
    }
    var window := Take(items, limit);
    var titles: seq<string> := [];
    var i := 0;
    while i < |window|
      invariant 0 <= i <= |window|
      invariant titles == HeadlineBullets(window[..i])
    {
      var t := window[i];
      assert window[..i + 1][..i] == window[..i];
      if t.Some? && t.value != [] {
        titles := titles + [Bullet + t.value];
      }
      i := i + 1;
    }
    assert window[..i] == window;
    text := if titles != [] then WhoTitle + "\n" + Join("\n", titles) else NoOutbreakItems;
  }

  /** The bullets of two stretches of items are the bullets of each, in order. */
  lemma {:induction false} HeadlineBulletsAppend(xs: seq<Option<string>>, ys: seq<Option<string>>)
    ensures HeadlineBullets(xs + ys) == HeadlineBullets(xs) + HeadlineBullets(ys)
    decreases |ys|
  {
    if ys == [] {
      assert xs + ys == xs;
    } else {
      var init := ys[..|ys| - 1];
      assert (xs + ys)[..|xs + ys| - 1] == xs + init;
      HeadlineBulletsAppend(xs, init);
    }
  }

  /** When every item has a title, there is one bullet per item, holding that title. */
  lemma {:induction false} HeadlineBulletsAllTitled(items: seq<Option<string>>)
    requires forall k :: 0 <= k < |items| ==> HasTitle(items[k])
    ensures |HeadlineBullets(items)| == |items|
    ensures forall k :: 0 <= k < |items| ==> HasTitle(items[k]) && HeadlineBullets(items)[k] == Bullet + items[k].value
  {
    if items != [] {
      HeadlineBulletsAllTitled(items[..|items| - 1]);
    }
  }

  /** There are no bullets exactly when no item has a title. */
  lemma {:induction false} HeadlineBulletsEmptyIff(items: seq<Option<string>>)
    ensures HeadlineBullets(items) == [] <==> forall k :: 0 <= k < |items| ==> !HasTitle(items[k])
  {
    if items != [] {
      var init := items[..|items| - 1];
      HeadlineBulletsEmptyIff(init);
      assert forall k :: 0 <= k < |init| ==> init[k] == items[k];
    }
  }

  /** Every bullet is the bullet mark followed by the title of some titled item. */
  lemma {:induction false} HeadlineBulletsFromTitles(items: seq<Option<string>>, b: string)
    requires b in HeadlineBullets(items)
    ensures exists k :: 0 <= k < |items| && HasTitle(items[k]) && b == Bullet + items[k].value
  {
    var init := items[..|items| - 1];
    if b in HeadlineBullets(init) {
      HeadlineBulletsFromTitles(init, b);
      var k :| 0 <= k < |init| && HasTitle(init[k]) && b == Bullet + init[k].value;
      assert items[k] == init[k];
    } else {
      assert b == Bullet + items[|items| - 1].value;
    }
  }

  /** The title lines differ from the "nothing found" messages at their first character. */
  lemma TitlesAreNotMessages()
    ensures WhoTitle[0] != NoOutbreakItems[0] && SlotTitle[0] != NoSlots[0]
  {
  }

  lemma WhoTitleOneLine()
    ensures OneLine(WhoTitle) && OneLine(Bullet)
  {
  }

  lemma SlotTitleOneLine()
    ensures OneLine(SlotTitle)
  {
  }

  /**
    The reply is the "no items" message exactly when none of the first `limit` items has a
    title; otherwise it is the title line followed by at most `limit` bullet lines.
   */
  lemma HeadlineTextShape(items: seq<Option<string>>, limit: nat)
    ensures HeadlineText(items, limit) == NoOutbreakItems <==>
            forall k :: 0 <= k < |Take(items, limit)| ==> !HasTitle(Take(items, limit)[k])
    ensures |HeadlineBullets(Take(items, limit))| <= limit
  {
    var window := Take(items, limit);
    HeadlineBulletsEmptyIff(window);
    TitlesAreNotMessages();
    if HeadlineBullets(window) != [] {
      assert (WhoTitle + "\n" + Join("\n", HeadlineBullets(window)))[0] == WhoTitle[0];
    }
  }

  /** With one-line titles, the reply's lines are the title line and then the bullets. */
  lemma HeadlineTextLines(items: seq<Option<string>>, limit: nat)
    requires forall k :: 0 <= k < |items| && items[k].Some? ==> OneLine(items[k].value)
    requires HeadlineBullets(Take(items, limit)) != []
    ensures SplitOn(HeadlineText(items, limit), '\n') == [WhoTitle] + HeadlineBullets(Take(items, limit))
  {
    var window := Take(items, limit);
    var ts := HeadlineBullets(window);
    WhoTitleOneLine();
    forall k | 0 <= k < |ts| ensures OneLine(ts[k]) {
      HeadlineBulletsFromTitles(window, ts[k]);
    }
    assert forall k :: 0 <= k < |[WhoTitle] + ts| ==> OneLine(([WhoTitle] + ts)[k]);
    assert Join("\n", [WhoTitle] + ts) == WhoTitle + "\n" + Join("\n", ts) by {
      assert ([WhoTitle] + ts)[1..] == ts;
    }
    SplitOnJoin([WhoTitle] + ts, '\n');
  }

  /** The reply of `get_who_outbreak_headlines()` (default limit). */
  function WhoReply(f: Fetched<seq<Option<string>>>): (r: string)
    ensures r != []
  {
    match f
    case Unavailable => WhoUnavailable
    case Fetched(items) => HeadlineText(items, HeadlineLimit)
  }

  // ---------------------------------------------------------------------------
  // Vaccination slots

  const SlotUnavailable: string := "Vaccination slot service is " + "temporarily unavailable."
  const NoSlots: string := "No vaccination slots found for " + "the given PIN and date."
  const SlotTitle: string := "\U{F0}\U{178}\U{2019}\U{2030} Available Vaccination Slots:"

  /** At most this many sessions are listed. */
  const SlotLimit: nat := 10

  /** The fields of one session record, each already rendered as text, or missing. */
  datatype Session = Session(name: Option<string>, vaccine: Option<string>, minAge: Option<string>,
                             dose1: Option<string>, dose2: Option<string>)

  /** One session's line; a missing name, vaccine or number is replaced by its default. */
  function SlotLine(s: Session): string
  {
    Bullet + s.name.GetOr("Center") + " | " + s.vaccine.GetOr("Vaccine") +
    " | Min Age: " + s.minAge.GetOr("-") + " | Dose1: " + s.dose1.GetOr("-") +
    " | Dose2: " + s.dose2.GetOr("-")
  }

  /** The header line, then one line for each of the first `SlotLimit` sessions. */
  function SlotLines(sessions: seq<Session>): seq<string>
  {
    var window := Take(sessions, SlotLimit);
    [SlotTitle] + seq(|window|, k requires 0 <= k < |window| => SlotLine(window[k]))
  }

  function SlotText(sessions: seq<Session>): string
  {
    if sessions == [] then NoSlots else Join("\n", SlotLines(sessions))
  }

  /** The loop of `get_cowin_slots_by_pin` over `data[:10]`. */
  method RenderSlots(data: seq<Session>) returns (text: string)
    ensures text == SlotText(data)
  {
    if data == [] {
      return NoSlots;
    }
    var window := Take(data, SlotLimit);
    var lines := [SlotTitle];
    var i := 0;
    while i < |window|
      invariant 0 <= i <= |window|
      invariant |lines| == i + 1 && lines[0] == SlotTitle
      invariant forall k :: 0 <= k < i ==> lines[k + 1] == SlotLine(window[k])
    {
      lines := lines + [SlotLine(window[i])];
      i := i + 1;
    }
    assert lines == SlotLines(data);
    text := Join("\n", lines);
  }

  /** Every rendered field of the session is a single line. */
  predicate FieldsOneLine(s: Session)
  {
    OneLine(s.name.GetOr("")) && OneLine(s.vaccine.GetOr("")) && OneLine(s.minAge.GetOr("")) &&
    OneLine(s.dose1.GetOr("")) && OneLine(s.dose2.GetOr(""))
  }

  lemma SlotLineOneLine(s: Session)
    requires FieldsOneLine(s)
    ensures OneLine(SlotLine(s))
  {
    WhoTitleOneLine();
  }

  /**
    With one-line fields, a non-empty session list gives the header and exactly
    min(10, |sessions|) further lines, the k-th for the k-th session; the empty list gives
    the "no slots" message, and no other list does.
   */
  lemma SlotTextShape(sessions: seq<Session>)
    requires forall k :: 0 <= k < |sessions| ==> FieldsOneLine(sessions[k])
    ensures SlotText(sessions) == NoSlots <==> sessions == []
    ensures sessions != [] ==> SplitOn(SlotText(sessions), '\n') == SlotLines(sessions)
    ensures |SlotLines(sessions)| == 1 + (if |sessions| < SlotLimit then |sessions| else SlotLimit)
    ensures forall k :: 0 <= k < |SlotLines(sessions)| - 1 ==> SlotLines(sessions)[k + 1] == SlotLine(sessions[k])
  {
    var lines := SlotLines(sessions);
    TitlesAreNotMessages();
    SlotTitleOneLine();
    if sessions != [] {
      JoinStartsWithFirst("\n", lines);
      forall k | 0 <= k < |lines| ensures OneLine(lines[k]) {
        if k > 0 {
          SlotLineOneLine(sessions[k - 1]);
        }
      }
      SplitOnJoin(lines, '\n');
    }
  }

  /** The reply of `get_cowin_slots_by_pin`. */
  function SlotReply(f: Fetched<seq<Session>>): (r: string)
    ensures r != []
  {
    match f
    case Unavailable => SlotUnavailable
    case Fetched(sessions) => SlotText(sessions)
  }
}
