/** The analytics wiring of `ga-events.js`: the action string derived once from
    the page title, the hide/expand category of a details summary, and the
    records a click on a summary appends to the data layer. */
module GaEvents {
  import opened Wrappers
  import opened JsText

  // ---------------------------------------------------------------------------
  // The title used as the event action
  // ---------------------------------------------------------------------------

  /** The separator between the page's own title and the service name. */
  const Separator := " - "

  /** `s.replace(/:/g, ' -')`. */
  function ReplaceColons(s: string): (r: string)
    ensures ':' !in r
    ensures s != [] ==> r != [] && r[0] == (if s[0] == ':' then ' ' else s[0])
  {
    if s == [] then []
    else (if s[0] == ':' then " -" else [s[0]]) + ReplaceColons(s[1..])
  }

  /** `s.replace(/\r?\n|\r/g, '')`: scanning from the left, a CR LF pair, a lone
      LF or a lone CR is removed. */
  function StripLineBreaks(s: string): (r: string)
    ensures '\r' !in r && '\n' !in r
    decreases |s|
  {
    if s == [] then []
    else if |s| >= 2 && s[0] == '\r' && s[1] == '\n' then StripLineBreaks(s[2..])
    else if s[0] == '\r' || s[0] == '\n' then StripLineBreaks(s[1..])
    else [s[0]] + StripLineBreaks(s[1..])
  }

  /** What one character of the title prefix becomes in the action string. */
  function Cleaned(c: char): string {
    if c == ':' then " -" else if c == '\r' || c == '\n' then [] else [c]
  }

  /** Reference definition of the two replacements together: every character
      is replaced by its image under `Cleaned`, the others kept in order. */
  function CleanedAll(s: string): (r: string)
    ensures ':' !in r && '\r' !in r && '\n' !in r
  {
    if s == [] then [] else Cleaned(s[0]) + CleanedAll(s[1..])
  }

  /** The `title` computed when the page loads (ga-events.js lines 22-26). */
  function Title(pageTitle: string): (r: string)
    ensures IndexOf(pageTitle, Separator) == -1 ==> r == []
    ensures '\r' !in r && '\n' !in r
  {
    var prefix := Substring(pageTitle, 0, IndexOf(pageTitle, Separator));
    StripLineBreaks(ReplaceColons(prefix))
  }

  /** One step of the line-break removal at a character that is not a line
      break. */
  lemma StripKeeps(c: char, t: string)
    requires c != '\r' && c != '\n'
    ensures StripLineBreaks([c] + t) == [c] + StripLineBreaks(t)
  {
    assert ([c] + t)[1..] == t;
  }

  /** One step of the line-break removal at a line break that is not the
      start of a CR LF pair. */
  lemma StripDrops(c: char, t: string)
    requires c == '\n' || (c == '\r' && (t == [] || t[0] != '\n'))
    ensures StripLineBreaks([c] + t) == StripLineBreaks(t)
  {
    assert ([c] + t)[1..] == t;
  }

  /** One step of the line-break removal at a CR LF pair. */
  lemma StripDropsPair(t: string)
    requires t != [] && t[0] == '\n'
    ensures StripLineBreaks(['\r'] + t) == StripLineBreaks(t[1..])
  {
    assert (['\r'] + t)[2..] == t[1..];
  }

  /** The two regular-expression replacements, applied one after the other,
      agree with the character-by-character reference. */
  lemma {:induction false} ReplacementsAreCleaning(s: string)
    ensures StripLineBreaks(ReplaceColons(s)) == CleanedAll(s)
    decreases |s|
  {
    if s == [] {
    } else if |s| >= 2 && s[0] == '\r' && s[1] == '\n' {
      ReplacementsAreCleaning(s[2..]);
      CleaningCrLf(s);
    } else {
      ReplacementsAreCleaning(s[1..]);
      CleaningOneChar(s);
    }
  }

  /** The inductive step of `ReplacementsAreCleaning` at a CR LF pair. */
  lemma CleaningCrLf(s: string)
    requires |s| >= 2 && s[0] == '\r' && s[1] == '\n'
    requires StripLineBreaks(ReplaceColons(s[2..])) == CleanedAll(s[2..])
    ensures StripLineBreaks(ReplaceColons(s)) == CleanedAll(s)
  {
    var u := ReplaceColons(s[2..]);
    assert s[1..][1..] == s[2..];
    calc {
      StripLineBreaks(ReplaceColons(s));
      StripLineBreaks(['\r'] + (['\n'] + u));
      { StripDropsPair(['\n'] + u); assert (['\n'] + u)[1..] == u; }
      StripLineBreaks(u);
      CleanedAll(s[2..]);
      { assert CleanedAll(s[1..]) == CleanedAll(s[2..]); }
      CleanedAll(s);
    }
  }

  /** The inductive step of `ReplacementsAreCleaning` at any other character. */
  lemma CleaningOneChar(s: string)
    requires s != [] && !(|s| >= 2 && s[0] == '\r' && s[1] == '\n')
    requires StripLineBreaks(ReplaceColons(s[1..])) == CleanedAll(s[1..])
    ensures StripLineBreaks(ReplaceColons(s)) == CleanedAll(s)
  {
    if s[0] == ':' {
      CleaningColon(s);
    } else {
      CleaningPlain(s);
    }
  }

  lemma CleaningColon(s: string)
    requires s != [] && s[0] == ':'
    requires StripLineBreaks(ReplaceColons(s[1..])) == CleanedAll(s[1..])
    ensures StripLineBreaks(ReplaceColons(s)) == CleanedAll(s)
  {
    var t := ReplaceColons(s[1..]);
    calc {
      StripLineBreaks(ReplaceColons(s));
      StripLineBreaks(" -" + t);
      { StripKeepsDash(t); }
      " -" + StripLineBreaks(t);
      " -" + CleanedAll(s[1..]);
      CleanedAll(s);
    }
  }

  lemma StripKeepsDash(t: string)
    ensures StripLineBreaks(" -" + t) == " -" + StripLineBreaks(t)
  {
    assert (" -" + t)[1..] == ['-'] + t;
    StripKeeps('-', t);
    assert " -" + t == [' '] + (['-'] + t);
  }

  lemma CleaningPlain(s: string)
    requires s != [] && s[0] != ':' && !(|s| >= 2 && s[0] == '\r' && s[1] == '\n')
    requires StripLineBreaks(ReplaceColons(s[1..])) == CleanedAll(s[1..])
    ensures StripLineBreaks(ReplaceColons(s)) == CleanedAll(s)
  {
    var c, t := s[0], ReplaceColons(s[1..]);
    calc {
      StripLineBreaks(ReplaceColons(s));
      StripLineBreaks([c] + t);
      { StripOneChar(s, c, t); }
      Cleaned(c) + StripLineBreaks(t);
      Cleaned(c) + CleanedAll(s[1..]);
      CleanedAll(s);
    }
  }

  lemma StripOneChar(s: string, c: char, t: string)
    requires s != [] && c == s[0] && c != ':' && !(|s| >= 2 && s[0] == '\r' && s[1] == '\n')
    requires t == ReplaceColons(s[1..])
    ensures StripLineBreaks([c] + t) == Cleaned(c) + StripLineBreaks(t)
  {
    if c == '\r' || c == '\n' {
      if c == '\r' && |s| >= 2 {
        assert s[1..][0] == s[1];
      }
      StripDrops(c, t);
    } else {
      StripKeeps(c, t);
    }
  }

  /** The title is the cleaned part of the page title before the first " - ";
      a page title without " - " gives the empty string. */
  lemma TitleIsCleanedPrefix(pageTitle: string)
    ensures var k := IndexOf(pageTitle, Separator);
      && (k == -1 ==> Title(pageTitle) == [])
      && (k >= 0 ==> Title(pageTitle) == CleanedAll(pageTitle[..k]))
  {
    var k := IndexOf(pageTitle, Separator);
    ReplacementsAreCleaning(Substring(pageTitle, 0, k));
  }

  /** The action string never holds a colon, a carriage return or a line feed. */
  lemma TitleIsClean(pageTitle: string)
    ensures ':' !in Title(pageTitle)
    ensures '\r' !in Title(pageTitle) && '\n' !in Title(pageTitle)
  {
    TitleIsCleanedPrefix(pageTitle);
  }

  /** Cleaning distributes over concatenation. */
  lemma {:induction false} CleanedAllConcat(a: string, b: string)
    ensures CleanedAll(a + b) == CleanedAll(a) + CleanedAll(b)
  {
    if a == [] {
      assert a + b == b;
    } else {
      assert (a + b)[1..] == a[1..] + b;
      CleanedAllConcat(a[1..], b);
    }
  }

  /** Characters other than colons and line breaks pass through unchanged and
      in order. */
  lemma {:induction false} CleanedAllKeepsPlainText(s: string)
    requires ':' !in s && '\r' !in s && '\n' !in s
    ensures CleanedAll(s) == s
  {
    if s != [] {
      assert s == [s[0]] + s[1..];
      CleanedAllKeepsPlainText(s[1..]);
    }
  }

  /** Only the part of the page title up to its first " - " matters: whatever
      follows that separator can be replaced without changing the title. */
  lemma TitleIgnoresRest(pageTitle: string, rest: string)
    requires IndexOf(pageTitle, Separator) >= 0
    ensures var k := IndexOf(pageTitle, Separator);
      Title(pageTitle[..k + |Separator|] + rest) == Title(pageTitle)
  {
    var k := IndexOf(pageTitle, Separator);
    var other := pageTitle[..k + |Separator|] + rest;
    assert other[..k + |Separator|] == pageTitle[..k + |Separator|];
    assert OccursAt(other, Separator, k);
    forall i | 0 <= i < k ensures OccursAt(other, Separator, i) == OccursAt(pageTitle, Separator, i) {
      if i + |Separator| <= k + |Separator| {
        assert other[i..i + |Separator|] == pageTitle[i..i + |Separator|];
      }
    }
    assert IndexOf(other, Separator) == k;
    assert other[..k] == pageTitle[..k];
    TitleIsCleanedPrefix(pageTitle);
    TitleIsCleanedPrefix(other);
  }

  // ---------------------------------------------------------------------------
  // Click records
  // ---------------------------------------------------------------------------

  /** A `details` element: whether it carries the `open` attribute. */
  datatype Details = Details(open: bool)

  /** A `.summary` element matched by `details summary .summary`, the only
      elements a handler is bound to: its `data-ga-event` attribute, its
      closest enclosing `details` (which the selector guarantees), and its
      text without the visually hidden children. */
  datatype Summary = Summary(gaEvent: Option<string>, details: Details, text: string)

  /** One object pushed onto the data layer. */
  datatype DataLayerEvent = DataLayerEvent(event: string, eventCategory: string, eventAction: string, eventLabel: string)

  /** `dataLayerOpenClose` (ga-events.js lines 13-19): clicking the summary of
      an open details hides it, any other click expands it. */
  function OpenClose(details: Details): (r: string)
    ensures r == "hide" || r == "expand"
    ensures r == "hide" <==> details.open
  {
    if details.open then "hide" else "expand"
  }

  /** A handler is bound to the summary: not on `localhost`, and not when
      it is marked `data-ga-event="false"` (the `:not(...)` part of the
      selector). */
  predicate Tracked(hostname: string, summary: Summary) {
    hostname != "localhost" && summary.gaEvent != Some("false")
  }

  /** The record a click on a tracked summary pushes (ga-events.js lines 32-37). */
  function ClickEvent(title: string, summary: Summary): (e: DataLayerEvent)
    ensures e.event == "custom_agents_request"
    ensures e.eventCategory == "accordion - hide" || e.eventCategory == "accordion - expand"
    ensures e.eventCategory == "accordion - hide" <==> summary.details.open
    ensures e.eventAction == title && e.eventLabel == summary.text
  {
    DataLayerEvent("custom_agents_request", "accordion - " + OpenClose(summary.details), title, summary.text)
  }

  /** The records pushed for a click: one when the summary is tracked, none
      otherwise. */
  function ClickRecords(hostname: string, title: string, summary: Summary): (r: seq<DataLayerEvent>)
    ensures |r| <= 1
    ensures r == [] <==> hostname == "localhost" || summary.gaEvent == Some("false")
    ensures forall e :: e in r ==> e.eventCategory == "accordion - hide" || e.eventCategory == "accordion - expand"
  {
    if Tracked(hostname, summary) then [ClickEvent(title, summary)] else []
  }

  /** A page with the script loaded: the host it runs on, the title computed
      once at load time, and the global `dataLayer`. */
  class Page {
    const hostname: string
    const title: string
    var dataLayer: seq<DataLayerEvent>

    constructor (hostname: string, pageTitle: string, dataLayer: seq<DataLayerEvent>)
      ensures this.hostname == hostname && title == Title(pageTitle)
      ensures this.dataLayer == dataLayer
    {
      this.hostname := hostname;
      this.title := Title(pageTitle);
      this.dataLayer := dataLayer;
    }

    /** A click on a `.summary` element: a tracked summary appends its record
        to the data layer; nothing else is recorded. */
    method SummaryClick(summary: Summary)
      modifies this
      ensures dataLayer == old(dataLayer) + ClickRecords(hostname, title, summary)
    {
      if hostname != "localhost" && summary.gaEvent != Some("false") {
        dataLayer := dataLayer + [ClickEvent(title, summary)];
      }
    }
  }
}
