/**
 The report document of the HTML reporter, as an abstract tree.

 A page has a head title, a body heading with an optional sub-heading, and
 one browser section. A section has an overview (`Browser: <name>`), a
 results paragraph that collects summary fragments, and a list of blocks:
 one per spec result and one per system-output flush. Serialisation by the
 markup library and pretty-printing are not modelled; the timestamp of the
 overview and the decimal rendering of seconds are not modelled either
 (runtimes stay integer milliseconds).
 */
module Document {
  import opened Optional
  import opened LogEscape
  import opened Seqs

  // ---------------------------------------------------------------------------
  // Configuration and page titles

  /** The reporter's `htmlReporter` configuration: the two title strings (output path is not modelled). */
  datatype Config = Config(pageTitle: Option<string>, subPageTitle: Option<string>)

  const DefaultPageTitle: string := "Unit Test Results"

  /** `pageTitle || 'Unit Test Results'`: the empty string is falsy, so it falls back to the default too. */
  function PageTitle(cfg: Config): (t: string)
    ensures t != []
    ensures cfg.pageTitle.Some? && cfg.pageTitle.value != [] ==> t == cfg.pageTitle.value
    ensures cfg.pageTitle.None? || cfg.pageTitle.value == [] ==> t == DefaultPageTitle
  {
    match cfg.pageTitle
    case Some(v) => if v != [] then v else DefaultPageTitle
    case None => DefaultPageTitle
  }

  /** `subPageTitle || false`: a sub-title is shown only when it is present and non-empty. */
  function SubTitle(cfg: Config): (sub: Option<string>)
    ensures sub.Some? <==> cfg.subPageTitle.Some? && cfg.subPageTitle.value != []
    ensures sub.Some? ==> sub == cfg.subPageTitle
  {
    match cfg.subPageTitle
    case Some(v) => if v != [] then Some(v) else None
    case None => None
  }

  /** The `<title>` of the head: the page title, then ` - ` and the sub-title when there is one. */
  function HeadTitle(cfg: Config): (t: string)
    ensures PageTitle(cfg) <= t
    ensures SubTitle(cfg).None? <==> t == PageTitle(cfg)
    ensures SubTitle(cfg).Some? ==> t == PageTitle(cfg) + " - " + SubTitle(cfg).value
  {
    PageTitle(cfg) + (if SubTitle(cfg).Some? then " - " + SubTitle(cfg).value else [])
  }

  // ---------------------------------------------------------------------------
  // Spec entries

  /** One spec result as the test runner reports it (times in milliseconds). */
  datatype SpecResult = SpecResult(
    suite: seq<string>,
    description: string,
    success: bool,
    skipped: bool,
    time: Option<nat>,
    log: seq<string>)

  /** The style class of a spec entry: `spec--pass`, `spec--skip` or `spec--fail`. */
  datatype Status = Pass | Skip | Fail

  function StatusName(s: Status): string
  {
    match s
    case Pass => "pass"
    case Skip => "skip"
    case Fail => "fail"
  }

  /** The `class` attribute of a spec entry. */
  function ClassAttribute(s: Status): string
  {
    "spec spec--" + StatusName(s)
  }

  /** `skipped` takes precedence over `success`. */
  function SpecStatus(r: SpecResult): (s: Status)
    ensures s == Skip <==> r.skipped
    ensures s == Pass <==> !r.skipped && r.success
    ensures s == Fail <==> !r.skipped && !r.success
  {
    if r.skipped then Skip else if r.success then Pass else Fail
  }

  /** The status text of a spec entry. `PassedIn` keeps the time in milliseconds;
      its rendering as decimal seconds is not modelled. */
  datatype StatusLine = SkippedLine | PassedIn(ms: nat) | FailedLine

  /** The literal text of a status line, up to the (unmodelled) seconds of `PassedIn`. */
  function StatusLabel(l: StatusLine): string
  {
    match l
    case SkippedLine => "Skipped"
    case PassedIn(_) => "Passed in "
    case FailedLine => "Failed"
  }

  /** The status text follows the same precedence as the class; an absent time counts as 0. */
  function StatusLineOf(r: SpecResult): (l: StatusLine)
    ensures l.SkippedLine? <==> r.skipped
    ensures l.PassedIn? <==> !r.skipped && r.success
    ensures l.FailedLine? <==> !r.skipped && !r.success
    ensures l.PassedIn? ==> l.ms == (if r.time.Some? then r.time.value else 0)
  {
    if r.skipped then SkippedLine else if r.success then PassedIn(r.time.GetOr(0)) else FailedLine
  }

  /** The rendered entry of one spec result. `log` holds the raw markup pieces
      of the log paragraph, present only when the spec did not succeed. */
  datatype SpecEntry = SpecEntry(
    status: Status,
    suite: seq<string>,
    description: string,
    statusLine: StatusLine,
    log: Option<seq<string>>)

  /** The transformed failure-log entries, in their original order. */
  function FormattedEntries(format: string -> string, log: seq<string>): seq<string>
  {
    seq(|log|, i requires 0 <= i < |log| => FormatLog(format(log[i])))
  }

  /** The items written one after another, every item but the first prefixed
      with a line-break tag. */
  function BreakPrefixed(items: seq<string>): seq<string>
  {
    seq(|items|, i requires 0 <= i < |items| => (if i == 0 then [] else BreakTag) + items[i])
  }

  /** Writing the items with a line-break tag before every item but the first
      is joining them with line-break tags. */
  lemma LogBlockIsJoin(items: seq<string>)
    ensures Concat(BreakPrefixed(items)) == Join(items, BreakTag)
  {
    var pieces := BreakPrefixed(items);
    if |items| > 0 {
      JoinAsPrefixed(items, BreakTag);
      var tail := seq(|items| - 1, i requires 0 <= i < |items| - 1 => BreakTag + items[i + 1]);
      assert pieces[1..] == tail;
      assert pieces[0] == items[0];
    }
  }

  /** The pieces appended to the log paragraph, one per failure-log entry. They
      read as the transformed entries in their original order, joined by
      line-break tags, and no `<` or `>` of a message reaches the paragraph
      unescaped. */
  function LogPieces(format: string -> string, log: seq<string>): (p: seq<string>)
    ensures |p| == |log|
    ensures forall i :: 0 <= i < |p| ==> p[i] == (if i == 0 then [] else BreakTag) + FormatLog(format(log[i]))
    ensures Concat(p) == Join(FormattedEntries(format, log), BreakTag)
    ensures OnlyBreakTags(Concat(p))
  {
    var entries := FormattedEntries(format, log);
    LogBlockIsJoin(entries);
    assert forall i :: 0 <= i < |entries| ==> OnlyBreakTags(entries[i]);
    JoinOnlyBreakTags(entries);
    BreakPrefixed(entries)
  }

  /** The entry built for one spec event. `format` is the runner's error formatter. */
  function MakeEntry(format: string -> string, r: SpecResult): (e: SpecEntry)
    ensures e.status == SpecStatus(r) && e.statusLine == StatusLineOf(r)
    ensures e.suite == r.suite && e.description == r.description
    ensures e.log.Some? <==> !r.success
    ensures e.log.Some? ==> e.log.value == LogPieces(format, r.log) && |e.log.value| == |r.log|
    ensures e.log.Some? ==> Concat(e.log.value) == Join(FormattedEntries(format, r.log), BreakTag)
    ensures e.log.Some? ==> OnlyBreakTags(Concat(e.log.value))
    ensures ClassAttribute(e.status)
         == "spec spec--" + (if r.skipped then "skip" else if r.success then "pass" else "fail")
    ensures StatusLabel(e.statusLine)
         == (if r.skipped then "Skipped" else if r.success then "Passed in " else "Failed")
  {
    SpecEntry(
      SpecStatus(r), r.suite, r.description, StatusLineOf(r),
      if r.success then None else Some(LogPieces(format, r.log)))
  }

  // ---------------------------------------------------------------------------
  // Browser summary

  /** A browser's last result as the test runner reports it (times in milliseconds). */
  datatype BrowserResult = BrowserResult(
    total: nat,
    failed: nat,
    skipped: nat,
    disconnected: bool,
    error: bool,
    netTime: Option<nat>)

  /** A text fragment appended to a section's results paragraph: a count and
      its label, or the runtime (rendered as decimal seconds, not modelled). */
  datatype Fragment = Count(n: nat, caption: string) | Runtime(ms: nat)

  const TestsLabel: string := " tests / "
  const ErrorsLabel: string := " errors / "
  const FailuresLabel: string := " failures / "
  const SkippedLabel: string := " skipped / "

  /** The summary line of a browser, as five fragments in their written order. */
  function Summary(res: BrowserResult): (line: seq<Fragment>)
    ensures |line| == 5
    ensures line[0] == Count(res.total, TestsLabel)
    ensures line[1].Count? && line[1].caption == ErrorsLabel
    ensures line[1].n == 1 <==> res.disconnected || res.error
    ensures line[1].n == 0 <==> !(res.disconnected || res.error)
    ensures line[2] == Count(res.failed, FailuresLabel)
    ensures line[3] == Count(res.skipped, SkippedLabel)
    ensures line[4].Runtime?
    ensures res.netTime.None? ==> line[4].ms == 0
    ensures res.netTime.Some? ==> line[4].ms == res.netTime.value
  {
    [ Count(res.total, TestsLabel),
      Count(if res.disconnected || res.error then 1 else 0, ErrorsLabel),
      Count(res.failed, FailuresLabel),
      Count(res.skipped, SkippedLabel),
      Runtime(res.netTime.GetOr(0)) ]
  }

  // ---------------------------------------------------------------------------
  // Sections and pages

  /** A block appended to a section: a spec entry, or a raw system-output block. */
  datatype Block = SpecBlock(entry: SpecEntry) | SystemOut(markup: string)

  /** One browser's section of the report. */
  datatype Section = Section(overview: string, results: seq<Fragment>, blocks: seq<Block>)

  const BrowserLabel: string := "Browser: "
  const SystemOutHeading: string := "<strong>System output:</strong><br />"

  /** A fresh section: the overview names the browser, nothing else is filled in yet. */
  function NewSection(browserName: string): (s: Section)
    ensures s.overview == BrowserLabel + browserName
    ensures s.results == [] && s.blocks == []
  {
    Section(BrowserLabel + browserName, [], [])
  }

  /** The raw system-output markup: the heading, then every buffered message
      verbatim (not escaped), in order, each but the first after a line-break tag. */
  function SystemOutMarkup(messages: seq<string>): (m: string)
    ensures SystemOutHeading <= m
    ensures m[|SystemOutHeading|..] == Concat(BreakPrefixed(messages))
  {
    LogBlockIsJoin(messages);
    var m := SystemOutHeading + Join(messages, BreakTag);
    assert m[|SystemOutHeading|..] == Join(messages, BreakTag);
    m
  }

  /** One more buffered message extends the system-output block by a line-break
      tag and that message; nothing written before changes. */
  lemma SystemOutAppend(messages: seq<string>, msg: string)
    requires messages != []
    ensures SystemOutMarkup(messages + [msg]) == SystemOutMarkup(messages) + BreakTag + msg
  {
    JoinSnoc(messages, msg, BreakTag);
    Regroup(SystemOutHeading, Join(messages, BreakTag), BreakTag + msg);
    Regroup(SystemOutHeading + Join(messages, BreakTag), BreakTag, msg);
  }

  /** A whole report document: head title, body heading, optional sub-heading, one section. */
  datatype Page = Page(title: string, heading: string, subheading: Option<string>, section: Section)

  /** The document of one section: the head title agrees with the body
      headings, so the sub-title is shown in both places or in neither. */
  function PageOf(cfg: Config, section: Section): (p: Page)
    ensures p.heading == PageTitle(cfg) && p.subheading == SubTitle(cfg) && p.section == section
    ensures p.subheading.None? <==> p.title == p.heading
    ensures p.subheading.Some? ==> p.title == p.heading + " - " + p.subheading.value
  {
    Page(HeadTitle(cfg), PageTitle(cfg), SubTitle(cfg), section)
  }
}
