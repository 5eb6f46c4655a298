# HTML reporter for Karma: a Dafny model

This project models the core of `karma-htmlfile-reporter`, a reporter plug-in for the Karma test runner. The plug-in turns the runner's event stream into an HTML report. It does four things:

- It keeps a registry that maps each browser id to its report section.
- It appends one entry per spec result to that section, with failure logs escaped for HTML.
- It adds a summary line, and a block with the buffered console output, when a browser completes.
- It writes the document once per run and makes the runner's `onExit` wait until every pending write has finished.

The model is a functional state machine:

- `optional.dfy` — `Option`, standing for JavaScript's `undefined`/`null`.
- `seqs.dfy` (module `Seqs`) — a shared fact about sequence concatenation.
- `escape.dfy` (module `LogEscape`) — the failure-log transform. It has three global replacements: `<` to `&lt;`, `>` to `&gt;`, and any line terminator to `<br />`, with `\r\n` treated as one terminator. It also has a one-pass reference definition, proved equal to the transform, and a decoder for the round-trip property.
- `document.dfy` (module `Document`) — the report as an abstract tree:
  - titles from the configuration;
  - the status class and status text of a spec entry;
  - the log paragraph;
  - the five summary fragments;
  - sections and pages.
- `reporter.dfy` (module `Reporter`) — the reporter state and one pure transition per callback: `onRunStart`, `onBrowserStart`, the spec callbacks, `onBrowserComplete`, the message adapter, `onRunComplete`, the completion of a write, and `onExit`.
  - Sections live in an arena (a sequence indexed by creation order).
  - The registry maps a browser id to an index in it.
  - `html` is the index of the section of the one global document.
  - This makes the sharing of the original explicit. A spec event writes into the section named by the registry. That section is part of the written document only if it is the most recently created one.
- `lifecycle.dfy` (module `Lifecycle`) — events and runs (sequences of events), with the properties that hold over every run.

Write completion is a separate event. It can complete any outstanding write, in any order, with success or failure. Invoked callbacks are recorded in order in `fired`, and successfully written pages in `written`.

Where the code differs from a natural reading of the plug-in's design, the model follows the code:

- There is one global document, replaced at every browser initialisation. With several browsers in a run, only the last initialised browser's section is written; the other browsers' entries go to sections that are never written (`EarlierBrowsersOffDocument`, `SpecReachesDocumentIff`). Each run completion issues exactly one write.
- `onBrowserComplete` does not clear the message buffer. Only `onRunComplete` clears it, so a later browser's system-output block repeats the earlier messages (`MessagesKeptUntilRunComplete`).
- The stored `done` continuation is never reset, so a later run's write completion invokes it again (`DoneFiresAgain`).
- At run completion without a document (no browser was initialised since the last run completed), the write is counted. Its callback then throws on the missing document before it reaches the decrement. The model therefore keeps that write outstanding for ever, and `done` never fires (`UndocumentedWriteBlocksExit`).
- `onBrowserStart`, `onBrowserComplete` and the spec callbacks throw when no run has started (the registry is `undefined`/`null`). The spec callbacks also throw when the browser has no section. These cases are preconditions, and `Lifecycle.Enabled` leaves these events out of runs.

## Model

| member | source | states |
|---|---|---|
| LogEscape.ThreePassIsOnePass | index.js:157 | the three chained global replacements equal a single left-to-right reading that tries `\r\n` before `\r` and `\n` |
| LogEscape.FormatLog | index.js:157 | a transformed log entry equals the one-pass reading; no `\r` or `\n` remains in it; it splits into `<br />` tags and characters other than `<`, `>`, `\r` and `\n`, so every `<` or `>` left belongs to an inserted line break |
| LogEscape.CrLfIsOneBreak | index.js:157 | a `\r\n` anywhere in the text becomes one `<br />`, not two, and the text around it is transformed independently |
| LogEscape.FormatLogRoundTrip | index.js:157 | for text without `&`, decoding the three markup forms gives back the original text with every line terminator unified to `\n` |
| LogEscape.AmpersandIsNotEscaped | index.js:157 | `&` is not escaped, so the messages `&lt;` and `<` are written identically; this is why the round trip needs its precondition |
| Document.PageTitle | index.js:8 | the page title is the configured one when it is present and non-empty, otherwise `Unit Test Results` |
| Document.SubTitle | index.js:9 | a sub-title is shown exactly when one is configured and it is non-empty |
| Document.HeadTitle | index.js:39 | the head title is the page title exactly when there is no sub-title, and otherwise the page title, ` - ` and the sub-title |
| Document.SpecStatus | index.js:138 | the class is `skip` iff the spec was skipped, whatever `success` is; otherwise `pass` iff it succeeded, else `fail` |
| Document.StatusLineOf | index.js:150 | the status text has the same precedence: `Skipped`, else `Passed in` with the spec's time (absent time taken as 0), else `Failed` |
| Document.LogBlockIsJoin | index.js:155-158 | writing items one after another, with `<br />` before every item but the first, is joining them with `<br />` |
| Document.LogPieces | index.js:155-159 | one piece per failure-log entry: the first is the transformed entry alone, every later one `<br />` followed by its transformed entry; the pieces read as the transformed entries in their original order, joined by `<br />`, and contain no `<` or `>` outside inserted line breaks |
| Document.MakeEntry | index.js:137-160 | a spec entry has a log paragraph iff the spec did not succeed (skipped specs included), made of exactly the log pieces, one per log entry, whose concatenation is the `<br />` join of the transformed entries; its class is `spec spec--` with `skip`, `pass` or `fail`, and its status text `Skipped`, `Passed in ` or `Failed`, by the same precedence |
| Document.Summary | index.js:98-102 | the summary line has five fragments in the order tests, errors, failures, skipped, runtime; errors is 1 iff the browser disconnected or errored, else 0; an absent `netTime` counts as 0 |
| Document.NewSection | index.js:57-65 | a fresh section's overview reads `Browser: ` followed by the browser name, with an empty results paragraph and no entries |
| Document.SystemOutMarkup | index.js:105 | the system-output block is the heading followed by every buffered message, verbatim and in order, each but the first after a `<br />` |
| Document.SystemOutAppend | index.js:104-106 | one more buffered message extends the system-output block by `<br />` and that message, leaving what was there unchanged |
| Document.PageOf | index.js:36-49 | a document's head title agrees with its body headings: it is the `h1` text alone when there is no `h2`, and otherwise the `h1` text, ` - ` and the `h2` text |
| Reporter.Create | index.js:7-17 | a new reporter keeps the configured titles and has no registry, no document, no sections, an empty buffer, a zero counter, nothing issued or written, and the empty function as its continuation |
| Reporter.Initialize | index.js:69-78 | initialising a browser makes a fresh section the global document and registers it under the browser's id; the other registry entries are unchanged |
| Reporter.InitializeAll | index.js:86 | initialising a list of browsers appends one section per browser and leaves the buffer and the write protocol unchanged |
| Reporter.OnRunStart | index.js:84-87 | after run start, the registry's keys are exactly the announced ids, and earlier sections are untouched |
| Reporter.RunStartLastWins | index.js:84-87 | every announced id is registered to the section created for its last announcement, so later duplicates replace earlier ones |
| Reporter.ResetRegistry | index.js:85 | run start first empties the registry and changes nothing else |
| Reporter.RunStartSections | index.js:84-87 | run start appends one fresh section per announced browser, in order; the global document is the last one, and unchanged when no browser is announced |
| Reporter.OnBrowserStart | index.js:89-91 | browser start replaces only this id's section with a fresh one, which becomes the global document; other entries are untouched |
| Reporter.OnSpec | index.js:137-139 | a spec event appends exactly one entry to the section of the browser's id; earlier entries, other sections, the registry and the buffer are unchanged |
| Reporter.OnBrowserComplete | index.js:93-108 | browser complete changes nothing for an unknown id; otherwise it appends the summary and, only when the buffer is non-empty, one system-output block; it never clears the buffer |
| Reporter.OnMessage | index.js:80-82 | the adapter appends the message at the end of the buffer and changes nothing else |
| Reporter.CurrentPage | index.js:111 | the document a run completion captures exists exactly when a browser was initialised since the last run completion, and holds that browser's section under the configured titles |
| Reporter.OnRunComplete | index.js:110-135 | run completion increments the counter and issues exactly one write, a snapshot of the current document; then it drops the registry and the document and empties the buffer |
| Reporter.OnWriteDone | index.js:119-130 | a write completion decrements the counter whether or not the write failed; the counter stays non-negative; the continuation is invoked iff the counter reaches 0 and is not reset; only successful writes persist the page |
| Reporter.OnExit | index.js:164-170 | exit calls `done` at once when no write is pending; otherwise it stores `done` and calls nothing |
| Lifecycle.Run | index.js:113 | over every run of events, the counter equals the number of outstanding writes and so is never negative |
| Lifecycle.CounterBalance | index.js:110-131 | over any run, the counter moves up by one per run completion and down by one per write completion, and nothing else moves it |
| Lifecycle.DrainFiresOnce | index.js:127-129 | completing outstanding writes in any order fires the stored continuation exactly once, at the completion that brings the counter to 0, and at no earlier one |
| Lifecycle.ExitWaitsForLastWrite | index.js:164-170 | after exit with N writes pending, `done` has fired after k completions iff k = N, and then exactly once |
| Lifecycle.UndocumentedWriteBlocksExit | index.js:110-131 | once a write has been issued without a document, no later run of events brings the counter to 0 or fires any continuation |
| Lifecycle.SpecsKeepOrder | index.js:139 | spec events for one browser add one entry per event to its section, in emission order; every other section is unchanged |
| Lifecycle.SpecReachesDocumentIff | index.js:139 | a spec event changes the document that will be written iff the browser's section is that document's section |
| Lifecycle.EarlierBrowsersOffDocument | index.js:69-78 | after run start, a browser other than the last announced one is registered to a section outside the global document |
| Lifecycle.MessagesKeptUntilRunComplete | index.js:104-106 | until run completion, the buffer keeps every message in arrival order, across any number of browser completions |
| Lifecycle.DoneFiresAgain | index.js:127-128 | once `done` has been stored, the next run's write completion invokes it again |
| Lifecycle.OneBrowserDocument | index.js:84-108 | one browser, one spec and its completion produce a document whose single section holds the summary and the one entry |
| Lifecycle.CompleteExitWrite | index.js:110-170 | with no writes pending, run completion, exit and the completion of that write persist the document and fire `done` exactly once |
| Lifecycle.OneBrowserRun | index.js:84-170 | end to end for one browser: the written page holds the summary and the entry, and `done` fires exactly once |

## Left out

- Serialisation and pretty-printing by the markup library: the document is an abstract tree (`Page`, `Section`, `Block`). The fixed head markup, meta charset, doctype and inline stylesheet are constants of that serialisation.
- File system and path handling: directory creation, the file write itself, `basePath` resolution and Windows path normalisation. A write is an event that completes with a success flag. The output path is not modelled.
- The error formatter: it is the parameter `format`, an arbitrary string function.
- Logging of write failures and successes: it has no effect on the reporter's state.
- Document.NewSection, Reporter.Initialize: the overview's `Timestamp:` line is not modelled, because it comes from the clock and the host locale.
- Document.StatusLineOf: `PassedIn` keeps the time in integer milliseconds. Its rendering as decimal seconds (`time / 1000` printed as a JavaScript number) is not modelled, because it is floating-point formatting.
- Document.Summary: the counts and the runtime are kept as numbers in fragments. They are not rendered to text, and the runtime stays in milliseconds rather than being divided by 1000 (floating point).
- Document.MakeEntry: the suite path is kept as the runner's sequence of strings. How the markup library turns that array into element text is not modelled.
- Reporter.OnBrowserComplete: the original also checks that the section has a results paragraph. Every section is created with one, so the model checks only that the section exists.
- Dependency-injection registration and the base reporter decorator are plumbing.
- Results that are not well formed (for example `undefined` counts printed as text) are not modelled. Counts and times are natural numbers, and an absent time is `None`.
