/**
 Runs of the reporter: sequences of runner callbacks and write completions.

 An `Event` is one callback of the test runner or the completion of one
 issued write. `Run` applies a sequence of events, and is undefined (`None`)
 as soon as an event arrives that the original cannot handle (a spec for an
 unknown browser, a browser event before any run started) or that cannot
 happen (the completion of a write that was never issued or can never
 complete). The lemmas are about every run: the write counter stays equal to
 the number of outstanding writes, the exit callback fires exactly at the
 last completion, spec entries keep their order, and the message buffer only
 grows until the run completes.
 */
module Lifecycle {
  import opened Optional
  import opened Document
  import opened Reporter
  import opened Seqs

  datatype Event =
    | RunStart(browsers: seq<Browser>)
    | BrowserStart(browser: Browser)
    | Spec(browser: Browser, result: SpecResult)
    | BrowserComplete(browser: Browser, summary: BrowserResult)
    | Message(text: string)
    | RunComplete
    | WriteDone(index: nat, ok: bool)
    | Exit(token: nat)

  /** The events the original handles in state `st`. */
  predicate Enabled(st: State, ev: Event)
  {
    match ev
    case BrowserStart(_) => st.registry.Some?
    case Spec(b, _) => st.registry.Some? && b.id in st.registry.value
    case BrowserComplete(_, _) => st.registry.Some?
    case WriteDone(i, _) => i < |st.inflight| && st.inflight[i].page.Some?
    case _ => true
  }

  /** One event; `format` is the runner's error formatter. */
  function Apply(st: State, format: string -> string, ev: Event): (st': State)
    requires Valid(st) && Enabled(st, ev)
    ensures Valid(st')
  {
    match ev
    case RunStart(bs) => OnRunStart(st, bs)
    case BrowserStart(b) => OnBrowserStart(st, b)
    case Spec(b, r) => OnSpec(st, format, b, r)
    case BrowserComplete(b, res) => OnBrowserComplete(st, b, res)
    case Message(m) => OnMessage(st, m)
    case RunComplete => OnRunComplete(st)
    case WriteDone(i, ok) => OnWriteDone(st, i, ok)
    case Exit(t) => OnExit(st, t)
  }

  /** A sequence of events, in order; `None` once an event is not enabled. */
  function Run(st: State, format: string -> string, evs: seq<Event>): (r: Option<State>)
    requires Valid(st)
    ensures r.Some? ==> Valid(r.value) && r.value.pending >= 0
    decreases |evs|
  {
    if evs == [] then Some(st)
    else if !Enabled(st, evs[0]) then None
    else Run(Apply(st, format, evs[0]), format, evs[1..])
  }

  /** The number of events of `evs` satisfying `p`. */
  function CountOf(evs: seq<Event>, p: Event -> bool): nat
    decreases |evs|
  {
    if evs == [] then 0 else (if p(evs[0]) then 1 else 0) + CountOf(evs[1..], p)
  }

  predicate IsRunComplete(ev: Event) { ev.RunComplete? }
  predicate IsWriteDone(ev: Event) { ev.WriteDone? }

  /** The counter is incremented once per run completion and decremented once
      per write completion, successful or not, and nothing else moves it. */
  lemma {:induction false} CounterBalance(st: State, format: string -> string, evs: seq<Event>)
    requires Valid(st) && Run(st, format, evs).Some?
    ensures Run(st, format, evs).value.pending
         == st.pending + CountOf(evs, IsRunComplete) - CountOf(evs, IsWriteDone)
    decreases |evs|
  {
    if evs != [] {
      CounterBalance(Apply(st, format, evs[0]), format, evs[1..]);
    }
  }

  /** Completing writes, in any order: the counter drops by one per completion,
      and the stored continuation fires once, at the completion that brings
      the counter to zero, and at no other. */
  lemma {:induction false} DrainFiresOnce(st: State, format: string -> string, evs: seq<Event>)
    requires Valid(st) && Run(st, format, evs).Some?
    requires forall i :: 0 <= i < |evs| ==> evs[i].WriteDone?
    ensures |evs| <= st.pending
    ensures Run(st, format, evs).value.pending == st.pending - |evs|
    ensures Run(st, format, evs).value.finished == st.finished
    ensures Run(st, format, evs).value.fired
         == st.fired + (if evs != [] && |evs| == st.pending then [st.finished] else [])
    decreases |evs|
  {
    if evs != [] {
      var next := Apply(st, format, evs[0]);
      DrainFiresOnce(next, format, evs[1..]);
    }
  }

  /** `onExit` with writes outstanding: `done` is invoked exactly once, after
      the last of the outstanding writes completes, whatever their order. */
  lemma ExitWaitsForLastWrite(st: State, format: string -> string, token: nat, evs: seq<Event>)
    requires Valid(st) && st.pending > 0
    requires forall i :: 0 <= i < |evs| ==> evs[i].WriteDone?
    ensures Run(OnExit(st, token), format, evs).Some? ==>
      Run(OnExit(st, token), format, evs).value.fired
      == st.fired + (if |evs| == st.pending then [Done(token)] else [])
  {
    if Run(OnExit(st, token), format, evs).Some? {
      DrainFiresOnce(OnExit(st, token), format, evs);
    }
  }

  /** A write issued when there was no document can never complete, so from
      then on the counter never returns to zero and no continuation fires,
      whatever happens. */
  lemma {:induction false} UndocumentedWriteBlocksExit(st: State, format: string -> string, evs: seq<Event>)
    requires Valid(st) && Write(None) in st.inflight
    requires Run(st, format, evs).Some?
    ensures Write(None) in Run(st, format, evs).value.inflight
    ensures Run(st, format, evs).value.pending > 0
    ensures Run(st, format, evs).value.fired == st.fired
    decreases |evs|
  {
    if evs != [] {
      var next := Apply(st, format, evs[0]);
      assert Write(None) in next.inflight && next.fired == st.fired by {
        match evs[0]
        case WriteDone(i, ok) =>
          assert st.inflight[i] != Write(None);
          assert Write(None) in multiset(next.inflight);
        case RunComplete =>
          assert next.inflight == st.inflight + [Write(CurrentPage(st))];
        case _ =>
      }
      UndocumentedWriteBlocksExit(next, format, evs[1..]);
    }
  }

  /** The events of `rs` reported for one browser, in order. */
  function SpecEvents(b: Browser, rs: seq<SpecResult>): seq<Event>
  {
    seq(|rs|, i requires 0 <= i < |rs| => Spec(b, rs[i]))
  }

  /** The entries the spec results of `rs` produce, in order. */
  function SpecBlocks(format: string -> string, rs: seq<SpecResult>): seq<Block>
  {
    seq(|rs|, i requires 0 <= i < |rs| => SpecBlock(MakeEntry(format, rs[i])))
  }

  lemma SpecBlocksCons(format: string -> string, rs: seq<SpecResult>)
    requires rs != []
    ensures SpecBlocks(format, rs) == [SpecBlock(MakeEntry(format, rs[0]))] + SpecBlocks(format, rs[1..])
  {
    assert SpecBlocks(format, rs)[1..] == SpecBlocks(format, rs[1..]);
  }

  /** Spec events for one browser append exactly one entry each to its section,
      in emission order, and leave every other section as it was. */
  lemma {:induction false} SpecsKeepOrder(st: State, format: string -> string, b: Browser, rs: seq<SpecResult>)
    requires Valid(st) && st.registry.Some? && b.id in st.registry.value
    ensures Run(st, format, SpecEvents(b, rs)).Some?
    ensures var st' := Run(st, format, SpecEvents(b, rs)).value;
      var k := st.registry.value[b.id];
      && |st'.sections| == |st.sections|
      && st'.sections[k].blocks
         == st.sections[k].blocks + SpecBlocks(format, rs)
      && (forall j :: 0 <= j < |st.sections| && j != k ==> st'.sections[j] == st.sections[j])
      && st'.registry == st.registry && st'.html == st.html
    decreases |rs|
  {
    var evs := SpecEvents(b, rs);
    if rs != [] {
      var next := OnSpec(st, format, b, rs[0]);
      assert evs[0] == Spec(b, rs[0]);
      assert Apply(st, format, evs[0]) == next;
      assert evs[1..] == SpecEvents(b, rs[1..]);
      SpecsKeepOrder(next, format, b, rs[1..]);
      var k := st.registry.value[b.id];
      SpecBlocksCons(format, rs);
      Regroup(st.sections[k].blocks, [SpecBlock(MakeEntry(format, rs[0]))], SpecBlocks(format, rs[1..]));
    } else {
      assert evs == [];
    }
  }

  /** A spec event changes the document that will be written if and only if
      the browser's section is that document's section. */
  lemma SpecReachesDocumentIff(st: State, format: string -> string, b: Browser, r: SpecResult)
    requires Valid(st) && st.registry.Some? && b.id in st.registry.value
    ensures CurrentPage(OnSpec(st, format, b, r)) != CurrentPage(st)
        <==> st.html == Some(st.registry.value[b.id])
  {
    var st' := OnSpec(st, format, b, r);
    var k := st.registry.value[b.id];
    if st.html == Some(k) {
      assert |st'.sections[k].blocks| == |st.sections[k].blocks| + 1;
      assert CurrentPage(st').value.section != CurrentPage(st).value.section;
    }
  }

  /** With several browsers announced at run start, every browser other than
      the last announced one writes into a section that is not in the
      document the run completion writes. */
  lemma EarlierBrowsersOffDocument(st: State, bs: seq<Browser>, id: BrowserId)
    requires Valid(st) && id in Ids(bs) && id != bs[|bs| - 1].id
    ensures OnRunStart(st, bs).html != Some(OnRunStart(st, bs).registry.value[id])
  {
    RunStartLastWins(st, bs, id);
    RunStartSections(st, bs);
  }

  /** The texts of the `Message` events of `evs`, in order. */
  function MessagesOf(evs: seq<Event>): seq<string>
    decreases |evs|
  {
    if evs == [] then []
    else (if evs[0].Message? then [evs[0].text] else []) + MessagesOf(evs[1..])
  }

  /** Until the run completes, the buffer only grows: every message is kept,
      in arrival order, across any number of browser completions. */
  lemma {:induction false} MessagesKeptUntilRunComplete(st: State, format: string -> string, evs: seq<Event>)
    requires Valid(st) && Run(st, format, evs).Some?
    requires forall i :: 0 <= i < |evs| ==> !evs[i].RunComplete?
    ensures Run(st, format, evs).value.messages == st.messages + MessagesOf(evs)
    decreases |evs|
  {
    if evs != [] {
      assert Enabled(st, evs[0]);
      var head := if evs[0].Message? then [evs[0].text] else [];
      var next := Apply(st, format, evs[0]);
      ApplyKeepsMessages(st, format, evs[0]);
      RunCons(st, format, evs);
      MessagesKeptUntilRunComplete(next, format, evs[1..]);
      assert MessagesOf(evs) == head + MessagesOf(evs[1..]);
      Regroup(st.messages, head, MessagesOf(evs[1..]));
    }
  }

  /** Every event but run completion appends to the buffer (a message) or leaves it alone. */
  lemma ApplyKeepsMessages(st: State, format: string -> string, ev: Event)
    requires Valid(st) && Enabled(st, ev) && !ev.RunComplete?
    ensures Apply(st, format, ev).messages == st.messages + (if ev.Message? then [ev.text] else [])
  {
    if !ev.Message? {
      assert st.messages + [] == st.messages;
    }
  }

  /** The stored continuation is not reset once it has fired: a later run's
      write completion invokes it again. */
  lemma DoneFiresAgain(st: State, token: nat, ok: bool)
    requires Valid(st) && st.pending == 0 && st.finished == Done(token) && st.html.Some?
    ensures OnWriteDone(OnRunComplete(st), 0, ok).fired == st.fired + [Done(token)]
  {
  }

  /** The state after one browser starts, reports one spec and completes. */
  function OneBrowserState(cfg: Config, format: string -> string, b: Browser, r: SpecResult, res: BrowserResult): State
  {
    IdsSingleton(b);
    var s1 := OnRunStart(Create(cfg), [b]);
    OnBrowserComplete(OnSpec(s1, format, b, r), b, res)
  }

  lemma OneBrowserDocument(cfg: Config, format: string -> string, b: Browser, r: SpecResult, res: BrowserResult)
    ensures var st := OneBrowserState(cfg, format, b, r, res);
      && Valid(st) && st.pending == 0 && st.fired == []
      && CurrentPage(st) == Some(PageOf(cfg, Section(BrowserLabel + b.name, Summary(res), [SpecBlock(MakeEntry(format, r))])))
  {
    var e := SpecBlock(MakeEntry(format, r));
    var s0 := Create(cfg);
    var s1 := OnRunStart(s0, [b]);
    assert b.id in Ids([b]);
    RunStartSections(s0, [b]);
    RunStartLastWins(s0, [b], b.id);
    assert s1.sections == [NewSection(b.name)] && s1.registry.value[b.id] == 0 && s1.html == Some(0);
    var s2 := OnSpec(s1, format, b, r);
    assert |s2.sections| == 1 && s2.sections[0].blocks == [] + [e] && s2.sections[0].results == [];
    var s3 := OnBrowserComplete(s2, b, res);
    var sec := Section(BrowserLabel + b.name, Summary(res), [e]);
    assert s3.sections[0].blocks == [e] && s3.sections[0].results == [] + Summary(res);
    assert s3.sections[0] == sec;
  }

  /** With nothing outstanding, run completion, exit and the completion of the
      one write it issued: the document is written and `done` fires, once. */
  lemma CompleteExitWrite(st: State, format: string -> string, token: nat, ok: bool)
    requires Valid(st) && st.pending == 0 && CurrentPage(st).Some?
    ensures var evs := [RunComplete, Exit(token), WriteDone(0, ok)];
      && Run(st, format, evs).Some?
      && Run(st, format, evs).value.fired == st.fired + [Done(token)]
      && Run(st, format, evs).value.written
         == st.written + (if ok then [CurrentPage(st).value] else [])
  {
    var evs := [RunComplete, Exit(token), WriteDone(0, ok)];
    var s4 := OnRunComplete(st);
    var s5 := OnExit(s4, token);
    var s6 := OnWriteDone(s5, 0, ok);
    assert s5.inflight == [Write(CurrentPage(st))] && s5.finished == Done(token) && s5.fired == st.fired;
    RunCons(st, format, evs);
    assert evs[1..] == [Exit(token), WriteDone(0, ok)];
    RunCons(s4, format, evs[1..]);
    assert evs[2..] == [WriteDone(0, ok)];
    RunCons(s5, format, evs[2..]);
    assert evs[3..] == [];
  }

  /** One browser, one passing spec, a browser summary, run completion, exit,
      then the write completes: the written page holds the one pass entry and
      the summary, and `done` fires once, at the completion. */
  lemma OneBrowserRun(cfg: Config, format: string -> string, b: Browser, r: SpecResult, res: BrowserResult, token: nat)
    ensures var evs := [RunComplete, Exit(token), WriteDone(0, true)];
      var st := OneBrowserState(cfg, format, b, r, res);
      && Valid(st)
      && Run(st, format, evs).Some?
      && Run(st, format, evs).value.fired == [Done(token)]
      && Run(st, format, evs).value.written
         == [PageOf(cfg, Section(BrowserLabel + b.name, Summary(res), [SpecBlock(MakeEntry(format, r))]))]
  {
    var st := OneBrowserState(cfg, format, b, r, res);
    OneBrowserDocument(cfg, format, b, r, res);
    CompleteExitWrite(st, format, token, true);
  }

  lemma RunCons(st: State, format: string -> string, evs: seq<Event>)
    requires Valid(st) && evs != [] && Enabled(st, evs[0])
    ensures Run(st, format, evs) == Run(Apply(st, format, evs[0]), format, evs[1..])
  {
  }
}
