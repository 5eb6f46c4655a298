/**
 The HTML reporter as a functional state machine.

 Every callback the test runner invokes is a pure transition on `State`.
 Sections are kept in an arena (`sections`, indexed by creation order) so
 that the sharing of the original is explicit: the registry maps a browser
 id to the index of its section, and `html` is the index of the section in
 the one global document. Every (re)initialisation creates a fresh document
 holding exactly one new section; a spec event writes into the section the
 registry names, which is in the written document only when it is the most
 recently created one.

 The asynchrony of file writes is split in two transitions: `OnRunComplete`
 issues a write (a snapshot of the current document) and `OnWriteDone`
 completes any issued write, in any order, successfully or not. Invoked
 callbacks are recorded, in order, in `fired`.
 */
module Reporter {
  import opened Optional
  import opened LogEscape
  import opened Document

  /** The opaque key the test runner gives a browser. */
  type BrowserId = string

  datatype Browser = Browser(id: BrowserId, name: string)

  /** The stored continuation: the initial empty function, or the `done` given to `OnExit`. */
  datatype Callback = NoOp | Done(token: nat)

  /** An issued write. `page` is the document it serialises; it is absent when
      no document existed at run completion, in which case the write's
      callback throws before it reaches the counter, and the write never completes. */
  datatype Write = Write(page: Option<Page>)

  datatype State = State(
    config: Config,
    sections: seq<Section>,
    registry: Option<map<BrowserId, nat>>,
    html: Option<nat>,
    messages: seq<string>,
    pending: int,
    inflight: seq<Write>,
    finished: Callback,
    fired: seq<Callback>,
    written: seq<Page>)

  /** The invariant every reachable state keeps: the counter counts the issued,
      not yet completed writes, and every reference names an existing section. */
  predicate Valid(st: State)
  {
    && st.pending == |st.inflight|
    && (st.registry.Some? ==> forall id :: id in st.registry.value ==> st.registry.value[id] < |st.sections|)
    && (st.html.Some? ==> st.html.value < |st.sections|)
  }

  /** The part of the state the write protocol owns is unchanged. */
  predicate SameWrites(st: State, st': State)
  {
    && st'.pending == st.pending
    && st'.inflight == st.inflight
    && st'.finished == st.finished
    && st'.fired == st.fired
    && st'.written == st.written
  }

  /** The set of ids of a list of browsers. */
  function Ids(bs: seq<Browser>): set<BrowserId>
  {
    set i | 0 <= i < |bs| :: bs[i].id
  }

  /** `k` is the position of the last browser in `bs` whose id is `id`. */
  predicate LastAnnounced(bs: seq<Browser>, id: BrowserId, k: int)
  {
    && 0 <= k < |bs|
    && bs[k].id == id
    && forall j :: k < j < |bs| ==> bs[j].id != id
  }

  /** A single browser announces its own id and no other. */
  lemma IdsSingleton(b: Browser)
    ensures Ids([b]) == {b.id}
  {
    assert [b][0].id == b.id;
  }

  /** The reporter as constructed: no registry, no document, nothing pending,
      and the stored continuation is the empty function. */
  function Create(cfg: Config): (st: State)
    ensures Valid(st)
    ensures st.pending == 0 && st.finished == NoOp && st.fired == []
    ensures st.registry.None? && st.html.None? && st.messages == []
    ensures st.config == cfg && st.sections == [] && st.inflight == [] && st.written == []
  {
    State(cfg, [], None, None, [], 0, [], NoOp, [], [])
  }

  /** The document the next run completion writes, if any: there is one
      exactly when a browser was initialised since the last run completion,
      and it holds that browser's section under the configured titles. */
  function CurrentPage(st: State): (p: Option<Page>)
    requires Valid(st)
    ensures p.Some? <==> st.html.Some?
    ensures p.Some? ==> p.value.section == st.sections[st.html.value]
    ensures p.Some? ==> p.value.heading == PageTitle(st.config) && p.value.subheading == SubTitle(st.config)
    ensures p.Some? ==> p.value.title == HeadTitle(st.config)
  {
    if st.html.Some? then Some(PageOf(st.config, st.sections[st.html.value])) else None
  }

  /** `initializeHtmlForBrowser`: a fresh document becomes the global one, and
      its single new section is registered for the browser's id. */
  function Initialize(st: State, b: Browser): (st': State)
    requires Valid(st) && st.registry.Some?
    ensures Valid(st')
    ensures st'.sections == st.sections + [NewSection(b.name)]
    ensures st'.registry.Some? && st'.registry.value.Keys == st.registry.value.Keys + {b.id}
    ensures st'.registry.value[b.id] == |st.sections|
    ensures forall id :: id in st.registry.value && id != b.id ==> st'.registry.value[id] == st.registry.value[id]
    ensures st'.html == Some(|st.sections|)
    ensures st'.messages == st.messages && st'.config == st.config && SameWrites(st, st')
  {
    st.(sections := st.sections + [NewSection(b.name)],
        registry := Some(st.registry.value[b.id := |st.sections|]),
        html := Some(|st.sections|))
  }

  /** Initialises the browsers one after another, in the order given. */
  function InitializeAll(st: State, bs: seq<Browser>): (st': State)
    requires Valid(st) && st.registry.Some?
    ensures Valid(st') && st'.registry.Some?
    ensures |st'.sections| == |st.sections| + |bs| && st'.sections[..|st.sections|] == st.sections
    ensures st'.messages == st.messages && st'.config == st.config && SameWrites(st, st')
    decreases |bs|
  {
    if bs == [] then st
    else InitializeAll(Initialize(st, bs[0]), bs[1..])
  }

  lemma IdsCons(bs: seq<Browser>)
    requires bs != []
    ensures Ids(bs) == {bs[0].id} + Ids(bs[1..])
  {
    var rest := bs[1..];
    forall id | id in Ids(bs) ensures id in {bs[0].id} + Ids(rest) {
      var i :| 0 <= i < |bs| && bs[i].id == id;
      if i > 0 { assert rest[i - 1].id == id; }
    }
    forall id | id in Ids(rest) ensures id in Ids(bs) {
      var i :| 0 <= i < |rest| && rest[i].id == id;
      assert bs[i + 1].id == id;
    }
  }

  /** The new sections are appended in announcement order. */
  lemma {:induction false} InitializeAllSections(st: State, bs: seq<Browser>)
    requires Valid(st) && st.registry.Some?
    ensures InitializeAll(st, bs).sections == st.sections + seq(|bs|, i requires 0 <= i < |bs| => NewSection(bs[i].name))
    decreases |bs|
  {
    if bs != [] {
      var next := Initialize(st, bs[0]);
      var rest := bs[1..];
      InitializeAllSections(next, rest);
      assert st.sections + seq(|bs|, i requires 0 <= i < |bs| => NewSection(bs[i].name))
          == next.sections + seq(|rest|, i requires 0 <= i < |rest| => NewSection(rest[i].name));
    }
  }

  /** The global document is the last initialised browser's. */
  lemma {:induction false} InitializeAllHtml(st: State, bs: seq<Browser>)
    requires Valid(st) && st.registry.Some?
    ensures bs == [] ==> InitializeAll(st, bs).html == st.html
    ensures bs != [] ==> InitializeAll(st, bs).html.Some? && InitializeAll(st, bs).html.value == |st.sections| + |bs| - 1
    decreases |bs|
  {
    if bs != [] {
      InitializeAllHtml(Initialize(st, bs[0]), bs[1..]);
    }
  }

  /** The registry gains exactly the announced ids. */
  lemma {:induction false} InitializeAllKeys(st: State, bs: seq<Browser>)
    requires Valid(st) && st.registry.Some?
    ensures InitializeAll(st, bs).registry.value.Keys == st.registry.value.Keys + Ids(bs)
    decreases |bs|
  {
    if bs == [] {
      assert Ids(bs) == {};
    } else {
      InitializeAllKeys(Initialize(st, bs[0]), bs[1..]);
      IdsCons(bs);
    }
  }

  /** Ids that are not announced keep their entries. */
  lemma {:induction false} InitializeAllKeepsOthers(st: State, bs: seq<Browser>, id: BrowserId)
    requires Valid(st) && st.registry.Some?
    requires id in st.registry.value && id !in Ids(bs)
    ensures id in InitializeAll(st, bs).registry.value
    ensures InitializeAll(st, bs).registry.value[id] == st.registry.value[id]
    decreases |bs|
  {
    if bs != [] {
      IdsCons(bs);
      InitializeAllKeepsOthers(Initialize(st, bs[0]), bs[1..], id);
    }
  }

  /** Every announced id is registered for the section of its last announcement. */
  lemma {:induction false} InitializeAllLastWins(st: State, bs: seq<Browser>, id: BrowserId)
    requires Valid(st) && st.registry.Some?
    requires id in Ids(bs)
    ensures id in InitializeAll(st, bs).registry.value
    ensures LastAnnounced(bs, id, InitializeAll(st, bs).registry.value[id] - |st.sections|)
    decreases |bs|
  {
    var next := Initialize(st, bs[0]);
    var rest := bs[1..];
    var reg := InitializeAll(next, rest).registry.value;
    assert InitializeAll(st, bs).registry.value == reg;
    IdsCons(bs);
    if id in Ids(rest) {
      InitializeAllLastWins(next, rest, id);
      var k := reg[id] - |next.sections|;
      assert bs[k + 1] == rest[k];
      forall j | k + 1 < j < |bs| ensures bs[j].id != id {
        assert bs[j] == rest[j - 1];
      }
    } else {
      assert id == bs[0].id;
      InitializeAllKeepsOthers(next, rest, id);
      forall j | 0 < j < |bs| ensures bs[j].id != id {
        assert bs[j] == rest[j - 1];
        assert rest[j - 1].id in Ids(rest);
      }
    }
  }

  /** `onRunStart`: the registry is reset to empty, then every announced
      browser is initialised in turn; the registry ends up holding exactly
      the announced ids. */
  function OnRunStart(st: State, bs: seq<Browser>): (st': State)
    requires Valid(st)
    ensures Valid(st') && st'.registry.Some?
    ensures st'.registry.value.Keys == Ids(bs)
    ensures |st'.sections| == |st.sections| + |bs| && st'.sections[..|st.sections|] == st.sections
    ensures st'.messages == st.messages && st'.config == st.config && SameWrites(st, st')
  {
    InitializeAllKeys(ResetRegistry(st), bs);
    InitializeAll(ResetRegistry(st), bs)
  }

  /** A later duplicate id replaces an earlier one: every announced id is
      registered for the fresh section of its last announcement. */
  lemma RunStartLastWins(st: State, bs: seq<Browser>, id: BrowserId)
    requires Valid(st) && id in Ids(bs)
    ensures LastAnnounced(bs, id, OnRunStart(st, bs).registry.value[id] - |st.sections|)
  {
    InitializeAllLastWins(ResetRegistry(st), bs, id);
  }

  /** One fresh section per announced browser, in announcement order; the
      global document is the last one's, and unchanged when none is announced. */
  lemma RunStartSections(st: State, bs: seq<Browser>)
    requires Valid(st)
    ensures OnRunStart(st, bs).sections == st.sections + seq(|bs|, i requires 0 <= i < |bs| => NewSection(bs[i].name))
    ensures bs == [] ==> OnRunStart(st, bs).html == st.html
    ensures bs != [] ==> OnRunStart(st, bs).html.Some? && OnRunStart(st, bs).html.value == |st.sections| + |bs| - 1
  {
    InitializeAllSections(ResetRegistry(st), bs);
    InitializeAllHtml(ResetRegistry(st), bs);
  }

  /** `suites = {}`: an empty registry, nothing else changed. */
  function ResetRegistry(st: State): (st': State)
    requires Valid(st)
    ensures Valid(st') && st'.registry == Some(map[])
    ensures st'.sections == st.sections && st'.html == st.html
    ensures st'.messages == st.messages && st'.config == st.config && SameWrites(st, st')
  {
    st.(registry := Some(map[]))
  }

  /** `onBrowserStart`: a fresh section replaces the one registered for this
      browser's id; other entries of the registry are untouched. The original
      throws when no run has started, hence the precondition. */
  function OnBrowserStart(st: State, b: Browser): (st': State)
    requires Valid(st) && st.registry.Some?
    ensures Valid(st')
    ensures st'.registry.Some? && st'.registry.value.Keys == st.registry.value.Keys + {b.id}
    ensures forall id :: id in st.registry.value && id != b.id ==> st'.registry.value[id] == st.registry.value[id]
    ensures |st'.sections| == |st.sections| + 1 && st'.sections[..|st.sections|] == st.sections
    ensures st'.registry.value[b.id] == |st.sections| && st'.sections[|st.sections|] == NewSection(b.name)
    ensures st'.html == Some(|st.sections|)
    ensures st'.messages == st.messages && st'.config == st.config && SameWrites(st, st')
  {
    Initialize(st, b)
  }

  /** `specSuccess`, `specSkipped` and `specFailure`: one new entry is appended
      to the section registered for the browser. The original does not guard a
      missing section (it throws), hence the precondition. */
  function OnSpec(st: State, format: string -> string, b: Browser, r: SpecResult): (st': State)
    requires Valid(st) && st.registry.Some? && b.id in st.registry.value
    ensures Valid(st')
    ensures |st'.sections| == |st.sections|
    ensures forall k :: 0 <= k < |st.sections| && k != st.registry.value[b.id] ==> st'.sections[k] == st.sections[k]
    ensures var k := st.registry.value[b.id];
      && st'.sections[k].blocks == st.sections[k].blocks + [SpecBlock(MakeEntry(format, r))]
      && st'.sections[k].overview == st.sections[k].overview
      && st'.sections[k].results == st.sections[k].results
    ensures st'.registry == st.registry && st'.html == st.html
    ensures st'.messages == st.messages && st'.config == st.config && SameWrites(st, st')
  {
    var k := st.registry.value[b.id];
    var sec := st.sections[k];
    st.(sections := st.sections[k := sec.(blocks := sec.blocks + [SpecBlock(MakeEntry(format, r))])])
  }

  /** `onBrowserComplete`: nothing changes for an unknown browser; otherwise
      the summary is appended to the section's results, and a system-output
      block with every buffered message when the buffer is not empty. The
      buffer is NOT cleared. The original throws when no run has started. */
  function OnBrowserComplete(st: State, b: Browser, res: BrowserResult): (st': State)
    requires Valid(st) && st.registry.Some?
    ensures Valid(st')
    ensures b.id !in st.registry.value ==> st' == st
    ensures b.id in st.registry.value ==>
      var k := st.registry.value[b.id];
      && |st'.sections| == |st.sections|
      && (forall j :: 0 <= j < |st.sections| && j != k ==> st'.sections[j] == st.sections[j])
      && st'.sections[k].overview == st.sections[k].overview
      && st'.sections[k].results == st.sections[k].results + Summary(res)
      && st'.sections[k].blocks ==
           st.sections[k].blocks + (if st.messages == [] then [] else [SystemOut(SystemOutMarkup(st.messages))])
    ensures st'.registry == st.registry && st'.html == st.html
    ensures st'.messages == st.messages && st'.config == st.config && SameWrites(st, st')
  {
    if b.id !in st.registry.value then st
    else
      var k := st.registry.value[b.id];
      var sec := st.sections[k];
      var blocks := if |st.messages| > 0 then sec.blocks + [SystemOut(SystemOutMarkup(st.messages))] else sec.blocks;
      st.(sections := st.sections[k := sec.(results := sec.results + Summary(res), blocks := blocks)])
  }

  /** The adapter: an out-of-band message is appended to the buffer. */
  function OnMessage(st: State, msg: string): (st': State)
    requires Valid(st)
    ensures Valid(st')
    ensures st'.messages == st.messages + [msg] && |st'.messages| == |st.messages| + 1
    ensures st' == st.(messages := st'.messages)
  {
    st.(messages := st.messages + [msg])
  }

  /** `onRunComplete`: exactly one write is issued, of the current document,
      and counted before it is issued; then the registry and the document are
      dropped and the message buffer is emptied. */
  function OnRunComplete(st: State): (st': State)
    requires Valid(st)
    ensures Valid(st')
    ensures st'.pending == st.pending + 1
    ensures st'.inflight == st.inflight + [Write(CurrentPage(st))]
    ensures st'.registry.None? && st'.html.None? && st'.messages == []
    ensures st'.finished == st.finished && st'.fired == st.fired && st'.written == st.written
    ensures st'.sections == st.sections && st'.config == st.config
  {
    st.(pending := st.pending + 1,
        inflight := st.inflight + [Write(CurrentPage(st))],
        registry := None,
        html := None,
        messages := [])
  }

  /** The completion callback of the write at `index`, successful (`ok`) or not:
      the counter is decremented either way, and when it reaches zero the stored
      continuation is invoked. The continuation is not reset afterwards. */
  function OnWriteDone(st: State, index: nat, ok: bool): (st': State)
    requires Valid(st) && index < |st.inflight| && st.inflight[index].page.Some?
    ensures Valid(st')
    ensures st'.pending == st.pending - 1 && st'.pending >= 0
    ensures multiset(st'.inflight) == multiset(st.inflight) - multiset{st.inflight[index]}
    ensures st'.fired == if st'.pending == 0 then st.fired + [st.finished] else st.fired
    ensures st'.finished == st.finished
    ensures st'.written == if ok then st.written + [st.inflight[index].page.value] else st.written
    ensures st'.sections == st.sections && st'.registry == st.registry && st'.html == st.html
    ensures st'.messages == st.messages && st'.config == st.config
  {
    var n := st.pending - 1;
    var w := st.inflight[index];
    assert st.inflight == st.inflight[..index] + [w] + st.inflight[index + 1..];
    st.(pending := n,
        inflight := st.inflight[..index] + st.inflight[index + 1..],
        written := if ok then st.written + [w.page.value] else st.written,
        fired := if n == 0 then st.fired + [st.finished] else st.fired)
  }

  /** `onExit(done)`: with writes outstanding, `done` is stored to be invoked by
      the last completion; otherwise it is invoked at once. */
  function OnExit(st: State, token: nat): (st': State)
    requires Valid(st)
    ensures Valid(st')
    ensures st.pending == 0 ==> st'.fired == st.fired + [Done(token)] && st'.finished == st.finished
    ensures st.pending != 0 ==> st'.fired == st.fired && st'.finished == Done(token)
    ensures st'.pending == st.pending && st'.inflight == st.inflight && st'.written == st.written
    ensures st'.sections == st.sections && st'.registry == st.registry && st'.html == st.html
    ensures st'.messages == st.messages && st'.config == st.config
  {
    if st.pending != 0 then st.(finished := Done(token)) else st.(fired := st.fired + [Done(token)])
  }
}
