/** One keyset-paginated list over a read-only route: generations, one read in flight, late replies. */
module PaginatedList {
  import opened Outcomes

  /** A row, and the route with its parameters; the list looks into neither. */
  type Row = string
  type Parameters = string
  type Cursor = string

  datatype Page = Page(items: seq<Row>, nextCursor: Option<Cursor>)

  datatype Reply = Answer(page: Page) | Failed(message: string)

  datatype Request = Request(generation: nat, parameters: Parameters, after: Option<Cursor>)

  datatype Delivery = Delivery(request: Request, reply: Reply)

  /** The hook's state, with the requests on the wire and the replies delivered so far. */
  datatype ListState = ListState(
    mounted: bool, parameters: Parameters, enabled: bool,
    generation: nat, inFlight: bool,
    rows: seq<Row>, cursor: Option<Cursor>, loading: bool, error: Option<string>,
    outstanding: seq<Request>, delivered: seq<Delivery>)

  datatype Event =
    | Render(parameters: Parameters, enabled: bool)
    | Unmount
    | LoadMore
    | Retry
    | Deliver(index: nat, reply: Reply)

  const FRESH := ListState(false, "", false, 0, false, [], None, true, None, [], [])

  // Each event with the render it causes is one step.

  function Cleanup(s: ListState): ListState {
    s.(generation := s.generation + 1, inFlight := s.inFlight && !s.enabled)
  }

  function Effect(s: ListState, parameters: Parameters, enabled: bool): ListState {
    var t := s.(mounted := true, parameters := parameters, enabled := enabled, generation := s.generation + 1,
                inFlight := enabled, loading := enabled, error := None, rows := [], cursor := None);
    if enabled then t.(outstanding := s.outstanding + [Request(t.generation, parameters, None)]) else t
  }

  function Restart(s: ListState, parameters: Parameters, enabled: bool): ListState {
    Effect(if s.mounted then Cleanup(s) else s, parameters, enabled)
  }

  function More(s: ListState): ListState {
    if !s.enabled || s.cursor.None? || s.inFlight then s
    else s.(inFlight := true, loading := true, error := None,
            outstanding := s.outstanding + [Request(s.generation, s.parameters, s.cursor)])
  }

  function Received(s: ListState, request: Request, reply: Reply): ListState {
    if request.generation != s.generation then s
    else
      match reply
      case Answer(page) =>
        s.(inFlight := false, loading := false, cursor := page.nextCursor,
           rows := if request.after.None? then page.items else s.rows + page.items)
      case Failed(message) => s.(inFlight := false, loading := false, error := Some(message))
  }

  predicate Possible(s: ListState, e: Event) {
    match e
    case Render(_, _) => true
    case Deliver(index, _) => index < |s.outstanding|
    case _ => s.mounted
  }

  function Step(s: ListState, e: Event): ListState
    requires Possible(s, e)
  {
    match e
    case Render(parameters, enabled) =>
      if s.mounted && parameters == s.parameters && enabled == s.enabled then s else Restart(s, parameters, enabled)
    case Unmount => Cleanup(s).(mounted := false)
    case LoadMore => More(s)
    case Retry =>
      // A held list hands out the retry of the read it waits for.
      if !s.enabled then s
      else if s.error.Some? && s.rows != [] && s.cursor.Some? then More(s)
      else Restart(s, s.parameters, s.enabled)
    case Deliver(index, reply) =>
      var request := s.outstanding[index];
      Received(s, request, reply).(
        outstanding := s.outstanding[..index] + s.outstanding[index + 1..],
        delivered := s.delivered + [Delivery(request, reply)])
  }

  // What a generation has been answered, read off the replies alone.

  function Answers(delivered: seq<Delivery>, generation: nat): seq<Delivery> {
    if delivered == [] then []
    else
      var k := |delivered| - 1;
      var d := delivered[k];
      Answers(delivered[..k], generation) + if d.request.generation == generation && d.reply.Answer? then [d] else []
  }

  function RowsOf(answers: seq<Delivery>): seq<Row>
    requires forall d :: d in answers ==> d.reply.Answer?
  {
    if answers == [] then []
    else RowsOf(answers[..|answers| - 1]) + answers[|answers| - 1].reply.page.items
  }

  /** Where the page after these would start; nothing, before the first page. */
  function NextAfter(answers: seq<Delivery>): Option<Cursor>
    requires forall d :: d in answers ==> d.reply.Answer?
  {
    if answers == [] then None else answers[|answers| - 1].reply.page.nextCursor
  }

  /** Each page was asked for with the list's parameters, after the page before it. */
  predicate Chained(answers: seq<Delivery>, parameters: Parameters)
    requires forall d :: d in answers ==> d.reply.Answer?
  {
    forall i :: 0 <= i < |answers| ==> Links(answers, parameters, i)
  }

  predicate Links(answers: seq<Delivery>, parameters: Parameters, i: nat)
    requires i < |answers| && forall d :: d in answers ==> d.reply.Answer?
  {
    && answers[i].request.parameters == parameters
    && answers[i].request.after == NextAfter(answers[..i])
    && (i > 0 ==> answers[i].request.after.Some?)
  }

  lemma {:induction false} AnswersAre(delivered: seq<Delivery>, generation: nat)
    ensures forall d :: d in Answers(delivered, generation) ==>
              d in delivered && d.reply.Answer? && d.request.generation == generation
  {
    if delivered != [] {
      AnswersAre(delivered[..|delivered| - 1], generation);
    }
  }

  /** The pages received for the generation on display. */
  function Shown(s: ListState): (answers: seq<Delivery>)
    ensures forall d :: d in answers ==> d.reply.Answer?
  {
    AnswersAre(s.delivered, s.generation);
    Answers(s.delivered, s.generation)
  }

  predicate Current(s: ListState, i: int) {
    0 <= i < |s.outstanding| && s.outstanding[i].generation == s.generation
  }

  /** At most one read of the current generation is on the wire, exactly when the list says so. */
  ghost predicate OneInFlight(s: ListState) {
    && (s.inFlight <==> exists i :: Current(s, i))
    && (forall i, j :: Current(s, i) && Current(s, j) ==> i == j)
  }

  predicate PastOnly(s: ListState) {
    && (forall q :: q in s.outstanding ==> q.generation <= s.generation)
    && (forall d :: d in s.delivered ==> d.request.generation <= s.generation)
  }

  /** The read in flight asks for the page that follows those shown. */
  ghost predicate AsksNext(s: ListState) {
    forall i :: Current(s, i) ==>
      && s.mounted && s.enabled
      && s.outstanding[i].parameters == s.parameters
      && s.outstanding[i].after == NextAfter(Shown(s))
      && (Shown(s) != [] ==> s.outstanding[i].after.Some?)
  }

  predicate ShowsPages(s: ListState) {
    && s.rows == RowsOf(Shown(s))
    && s.cursor == NextAfter(Shown(s))
    && Chained(Shown(s), s.parameters)
    && s.loading == s.inFlight
    && (s.error.Some? ==> !s.inFlight && (Shown(s) != [] ==> s.cursor.Some?))
  }

  ghost predicate Valid(s: ListState) {
    OneInFlight(s) && PastOnly(s) && AsksNext(s) && (s.mounted ==> ShowsPages(s))
  }

  lemma {:induction false} NoAnswersYet(delivered: seq<Delivery>, generation: nat)
    requires forall d :: d in delivered ==> d.request.generation < generation
    ensures Answers(delivered, generation) == []
  {
    if delivered != [] {
      NoAnswersYet(delivered[..|delivered| - 1], generation);
    }
  }

  lemma RestartKeepsValid(s: ListState, parameters: Parameters, enabled: bool)
    requires Valid(s)
    ensures Valid(Restart(s, parameters, enabled))
  {
    hide Answers, RowsOf;
    var t := Restart(s, parameters, enabled);
    NoAnswersYet(t.delivered, t.generation);
    EmptyShows(t);
    assert forall i :: 0 <= i < |s.outstanding| ==> t.outstanding[i] == s.outstanding[i];
    assert forall i :: 0 <= i < |s.outstanding| ==> s.outstanding[i] in s.outstanding;
    assert enabled ==> Current(t, |s.outstanding|);
  }

  lemma EmptyShows(t: ListState)
    requires Shown(t) == []
    ensures RowsOf(Shown(t)) == [] && NextAfter(Shown(t)) == None && Chained(Shown(t), t.parameters)
  {
  }

  lemma MoreKeepsValid(s: ListState)
    requires Valid(s) && s.mounted
    ensures Valid(More(s))
  {
    hide Answers, RowsOf;
    var t := More(s);
    if t != s {
      assert Shown(t) == Shown(s);
      assert t.outstanding == s.outstanding + [Request(s.generation, s.parameters, s.cursor)];
      assert forall i :: 0 <= i < |s.outstanding| ==> t.outstanding[i] == s.outstanding[i];
      assert forall i :: Current(t, i) ==> i == |s.outstanding| || Current(s, i);
      assert Current(t, |s.outstanding|);
    }
  }

  lemma UnmountKeepsValid(s: ListState)
    requires Valid(s) && s.mounted
    ensures Valid(Step(s, Unmount))
  {
    hide Answers, RowsOf;
    assert forall i :: 0 <= i < |s.outstanding| ==> s.outstanding[i] in s.outstanding;
    assert !s.enabled ==> !s.inFlight by {
      if s.inFlight {
        var i :| Current(s, i);
      }
    }
  }

  lemma OneLeft(s: ListState, index: nat, t: ListState)
    requires index < |s.outstanding| && t.generation == s.generation && OneInFlight(s)
    requires t.outstanding == s.outstanding[..index] + s.outstanding[index + 1..]
    requires t.inFlight == (s.inFlight && !Current(s, index))
    ensures OneInFlight(t)
  {
    forall i, j | Current(t, i) && Current(t, j) ensures i == j {
      var a, b := if i < index then i else i + 1, if j < index then j else j + 1;
      assert Current(s, a) && Current(s, b);
    }
    if t.inFlight {
      var i :| Current(s, i);
      assert Current(t, if i < index then i else i - 1);
    }
    if i :| Current(t, i) {
      assert Current(s, if i < index then i else i + 1);
    }
  }

  lemma DeliverKeepsValid(s: ListState, index: nat, reply: Reply)
    requires Valid(s) && index < |s.outstanding|
    ensures Valid(Step(s, Deliver(index, reply)))
  {
    hide RowsOf, Chained, OneInFlight, Answers;
    var t := Step(s, Deliver(index, reply));
    OneLeft(s, index, t);
    assert s.outstanding[index] in s.outstanding;
    AnsweredOnce(s, index, reply);
    if Current(s, index) {
      CurrentIsInFlight(s, index);
      if reply.Answer? {
        ExtendChain(Shown(s), s.parameters, Delivery(s.outstanding[index], reply));
      }
    } else {
    }
  }

  lemma CurrentIsInFlight(s: ListState, i: nat)
    requires OneInFlight(s) && Current(s, i)
    ensures s.inFlight
  {
  }

  lemma AnsweredOnce(s: ListState, index: nat, reply: Reply)
    requires index < |s.outstanding|
    ensures var t, d := Step(s, Deliver(index, reply)), Delivery(s.outstanding[index], reply);
      Shown(t) == if Current(s, index) && reply.Answer? then Shown(s) + [d] else Shown(s)
  {
    var d := Delivery(s.outstanding[index], reply);
    assert (s.delivered + [d])[..|s.delivered|] == s.delivered;
    assert Shown(s) + [] == Shown(s);
  }

  lemma ExtendChain(answers: seq<Delivery>, parameters: Parameters, d: Delivery)
    requires d.reply.Answer? && forall e :: e in answers ==> e.reply.Answer?
    requires Chained(answers, parameters)
    requires d.request.parameters == parameters && d.request.after == NextAfter(answers)
    requires answers != [] ==> d.request.after.Some?
    ensures Chained(answers + [d], parameters)
    ensures RowsOf(answers + [d]) == RowsOf(answers) + d.reply.page.items
    ensures answers == [] ==> RowsOf(answers) == []
  {
    var more := answers + [d];
    assert more[..|answers|] == answers;
    forall i | 0 <= i < |more| ensures Links(more, parameters, i) {
      if i < |answers| {
        assert Links(answers, parameters, i);
        assert more[..i] == answers[..i];
      }
    }
  }

  lemma StepKeepsValid(s: ListState, e: Event)
    requires Valid(s) && Possible(s, e)
    ensures Valid(Step(s, e))
  {
    hide Valid, More, Restart, Received;
    match e
    case Render(parameters, enabled) => RestartKeepsValid(s, parameters, enabled);
    case Unmount => UnmountKeepsValid(s);
    case LoadMore => MoreKeepsValid(s);
    case Retry =>
      MoreKeepsValid(s);
      RestartKeepsValid(s, s.parameters, s.enabled);
    case Deliver(index, reply) => DeliverKeepsValid(s, index, reply);
  }

  // Whole runs.

  predicate PossibleRun(s: ListState, events: seq<Event>)
    decreases |events|
  {
    events == [] || (Possible(s, events[0]) && PossibleRun(Step(s, events[0]), events[1..]))
  }

  function Run(s: ListState, events: seq<Event>): ListState
    requires PossibleRun(s, events)
    decreases |events|
  {
    if events == [] then s else Run(Step(s, events[0]), events[1..])
  }

  lemma {:induction false} RunKeepsValid(s: ListState, events: seq<Event>)
    requires Valid(s) && PossibleRun(s, events)
    ensures Valid(Run(s, events)) && Run(s, events).generation >= s.generation
    decreases |events|
  {
    hide Valid;
    if events != [] {
      StepKeepsValid(s, events[0]);
      RunKeepsValid(Step(s, events[0]), events[1..]);
    }
  }

  /** In every interleaving: the rows shown are the pages of the current generation joined up, each
      asked for after the one before with the current parameters, and at most one read of that
      generation is in flight. */
  lemma EveryRunShowsPages(events: seq<Event>)
    requires PossibleRun(FRESH, events)
    ensures var s := Run(FRESH, events);
      OneInFlight(s) && (s.mounted ==> s.rows == RowsOf(Shown(s)) && Chained(Shown(s), s.parameters) && s.loading == s.inFlight)
  {
    assert FRESH.outstanding == [] && forall i :: !Current(FRESH, i);
    assert Valid(FRESH);
    RunKeepsValid(FRESH, events);
  }

  /** The first `k` pages a server that always answers alike would give. */
  function FirstPages(fetch: (Parameters, Option<Cursor>) -> Page, parameters: Parameters, k: nat): (pages: seq<Page>)
    ensures |pages| == k
  {
    if k == 0 then []
    else
      var before := FirstPages(fetch, parameters, k - 1);
      before + [fetch(parameters, if k == 1 then None else before[k - 2].nextCursor)]
  }

  function Joined(pages: seq<Page>): seq<Row> {
    if pages == [] then [] else Joined(pages[..|pages| - 1]) + pages[|pages| - 1].items
  }

  ghost predicate AnswersAlike(fetch: (Parameters, Option<Cursor>) -> Page, answers: seq<Delivery>) {
    forall d :: d in answers && d.reply.Answer? ==> d.reply.page == fetch(d.request.parameters, d.request.after)
  }

  function PagesOf(answers: seq<Delivery>): (pages: seq<Page>)
    requires forall d :: d in answers ==> d.reply.Answer?
  {
    seq(|answers|, i requires 0 <= i < |answers| => answers[i].reply.page)
  }

  lemma {:induction false} RowsOfPages(answers: seq<Delivery>)
    requires forall d :: d in answers ==> d.reply.Answer?
    ensures RowsOf(answers) == Joined(PagesOf(answers))
  {
    if answers != [] {
      var n := |answers| - 1;
      RowsOfPages(answers[..n]);
      assert PagesOf(answers)[..n] == PagesOf(answers[..n]);
    }
  }

  lemma {:induction false} ChainIsFirstPages(fetch: (Parameters, Option<Cursor>) -> Page, parameters: Parameters,
                                             answers: seq<Delivery>)
    requires forall d :: d in answers ==> d.reply.Answer?
    requires Chained(answers, parameters) && AnswersAlike(fetch, answers)
    ensures PagesOf(answers) == FirstPages(fetch, parameters, |answers|)
  {
    hide Links, AnswersAlike, Chained;
    if answers != [] {
      var n := |answers| - 1;
      var before := answers[..n];
      ChainOfPrefix(fetch, parameters, answers);
      ChainIsFirstPages(fetch, parameters, before);
      assert PagesOf(answers) == PagesOf(before) + [answers[n].reply.page];
    }
  }

  lemma ChainOfPrefix(fetch: (Parameters, Option<Cursor>) -> Page, parameters: Parameters, answers: seq<Delivery>)
    requires answers != [] && forall d :: d in answers ==> d.reply.Answer?
    requires Chained(answers, parameters) && AnswersAlike(fetch, answers)
    ensures var n := |answers| - 1;
      && Chained(answers[..n], parameters) && AnswersAlike(fetch, answers[..n])
      && answers[n].reply.page == fetch(parameters, NextAfter(answers[..n]))
  {
    var n := |answers| - 1;
    var before := answers[..n];
    forall i | 0 <= i < n ensures Links(before, parameters, i) {
      assert Links(answers, parameters, i) && before[..i] == answers[..i];
    }
    assert Links(answers, parameters, n);
    assert answers[n] in answers;
  }

  /** Against one unchanging listing, the rows shown are its first pages, however the run went. */
  lemma EveryRunShowsFirstPages(fetch: (Parameters, Option<Cursor>) -> Page, events: seq<Event>)
    requires PossibleRun(FRESH, events) && Run(FRESH, events).mounted
    requires AnswersAlike(fetch, Run(FRESH, events).delivered)
    ensures var s := Run(FRESH, events); s.rows == Joined(FirstPages(fetch, s.parameters, |Shown(s)|))
  {
    hide Run, PossibleRun, FirstPages, Joined, RowsOf, Chained, Answers;
    EveryRunShowsPages(events);
    var s := Run(FRESH, events);
    AnswersAre(s.delivered, s.generation);
    ChainIsFirstPages(fetch, s.parameters, Shown(s));
    RowsOfPages(Shown(s));
  }

  /** What the user sees, apart from the wire. */
  function View(s: ListState): (seq<Row>, Option<Cursor>, bool, Option<string>) {
    (s.rows, s.cursor, s.loading, s.error)
  }

  /** A request whose generation has ended can never change the list again, whatever happens before
      its reply arrives. */
  lemma StaleForever(s: ListState, request: Request, events: seq<Event>, index: nat, reply: Reply)
    requires Valid(s) && request.generation < s.generation && PossibleRun(s, events)
    requires index < |Run(s, events).outstanding| && Run(s, events).outstanding[index] == request
    ensures var t := Run(s, events);
      View(Step(t, Deliver(index, reply))) == View(t) && Step(t, Deliver(index, reply)).inFlight == t.inFlight
  {
    hide Run, PossibleRun, Valid;
    RunKeepsValid(s, events);
  }

  /** A restart ends the generation of every request on the wire. */
  lemma RestartEndsGeneration(s: ListState, parameters: Parameters, enabled: bool)
    requires Valid(s)
    ensures var t := Restart(s, parameters, enabled);
      forall q :: q in s.outstanding ==> q.generation < t.generation
  {
  }

  /** A render with new parameters or a new hold, or the first one, ends the generation of every request on the
      wire, empties the list and asks for the first page with these parameters unless held; any other render
      changes nothing. */
  lemma RenderAsks(s: ListState, parameters: Parameters, enabled: bool)
    requires Valid(s)
    ensures var t := Step(s, Render(parameters, enabled));
      if s.mounted && parameters == s.parameters && enabled == s.enabled then t == s
      else
        && t.mounted && t.parameters == parameters && t.enabled == enabled
        && (forall q :: q in s.outstanding ==> q.generation < t.generation)
        && View(t) == ([], None, enabled, None) && t.inFlight == enabled
        && t.outstanding == s.outstanding + (if enabled then [Request(t.generation, parameters, None)] else [])
  {
    hide Chained, Answers, RowsOf;
  }

  /** Asking for more asks for the page after those shown, once: not while held, at the end, or in flight. */
  lemma MoreAsks(s: ListState)
    requires Valid(s) && s.mounted
    ensures var t := Step(s, LoadMore);
      if s.enabled && s.cursor.Some? && !s.inFlight then
        && View(t) == (s.rows, s.cursor, true, None) && t.inFlight && t.generation == s.generation
        && t.outstanding == s.outstanding + [Request(s.generation, s.parameters, s.cursor)]
      else t == s
  {
    hide Valid;
  }

  /** A retry repeats the page that failed behind rows already shown; any other starts over with the same
      parameters; a held list ignores it. */
  lemma RetryAsks(s: ListState)
    requires Valid(s) && s.mounted
    ensures var t := Step(s, Retry);
      if !s.enabled then t == s
      else if s.error.Some? && s.rows != [] && s.cursor.Some? then
        && View(t) == (s.rows, s.cursor, true, None) && t.generation == s.generation
        && t.outstanding == s.outstanding + [Request(s.generation, s.parameters, s.cursor)]
      else
        && View(t) == ([], None, true, None) && t.parameters == s.parameters
        && (forall q :: q in s.outstanding ==> q.generation < t.generation)
        && t.outstanding == s.outstanding + [Request(t.generation, s.parameters, None)]
  {
    hide Chained, Answers, RowsOf;
  }

  /** The reply to the read in flight adds its page behind the rows, or shows its message; either way the list is
      free to ask again. */
  lemma ReplyShows(s: ListState, index: nat, reply: Reply)
    requires Valid(s) && s.mounted && Current(s, index)
    ensures var t := Step(s, Deliver(index, reply));
      && !t.inFlight
      && match reply
         case Answer(page) => View(t) == (s.rows + page.items, page.nextCursor, false, None)
         case Failed(message) => View(t) == (s.rows, s.cursor, false, Some(message))
  {
    hide Answers, Chained;
    FirstFindsNothing(s, index);
    if reply.Answer? && s.outstanding[index].after.None? {
      assert s.rows + reply.page.items == reply.page.items;
    }
  }

  lemma FirstFindsNothing(s: ListState, index: nat)
    requires Valid(s) && s.mounted && Current(s, index)
    ensures s.inFlight && s.error.None? && (s.outstanding[index].after.None? ==> s.rows == [])
  {
    hide Answers, Chained;
    CurrentIsInFlight(s, index);
    if Shown(s) == [] {
      EmptyShows(s);
    }
  }

  /** A failed read loses nothing: rows and cursor stay through the failure and through the retry,
      which asks again for the page that failed. */
  lemma FailureKeepsRows(s: ListState, index: nat, message: string)
    requires Valid(s) && s.mounted && Current(s, index)
    ensures var t := Step(s, Deliver(index, Failed(message)));
      && t.rows == s.rows && t.cursor == s.cursor
      && Step(t, Retry).rows == s.rows && Step(t, Retry).inFlight
      && Step(t, Retry).outstanding[|t.outstanding|].parameters == s.outstanding[index].parameters
      && (s.rows != [] ==> Step(t, Retry).outstanding[|t.outstanding|] == s.outstanding[index])
  {
    hide Answers, Chained, Links;
    var t := Step(s, Deliver(index, Failed(message)));
  }

  /** Whenever an error is shown, retrying keeps every loaded row. */
  lemma RetryAfterErrorKeepsRows(s: ListState)
    requires Valid(s) && s.mounted && s.error.Some?
    ensures Step(s, Retry).rows == s.rows
  {
    hide Answers, Chained;
  }

  /** The hook itself, updated in place. */
  class PaginatedList {
    var mounted: bool
    var parameters: Parameters
    var enabled: bool
    var generation: nat
    var inFlight: bool
    var rows: seq<Row>
    var cursor: Option<Cursor>
    var loading: bool
    var error: Option<string>
    var outstanding: seq<Request>
    ghost var delivered: seq<Delivery>

    ghost function State(): ListState reads this {
      ListState(mounted, parameters, enabled, generation, inFlight, rows, cursor, loading, error, outstanding, delivered)
    }

    constructor ()
      ensures State() == FRESH
    {
      mounted, parameters, enabled, generation, inFlight := false, "", false, 0, false;
      rows, cursor, loading, error, outstanding, delivered := [], None, true, None, [], [];
    }

    method CleanUp()
      modifies this
      ensures State() == Cleanup(old(State()))
    {
      generation := generation + 1;
      if enabled {
        inFlight := false;
      }
    }

    method RunEffect()
      modifies this
      ensures State() == Effect(old(State()), parameters, enabled)
      ensures parameters == old(parameters) && enabled == old(enabled)
    {
      mounted := true;
      generation := generation + 1;
      var current := generation;
      if !enabled {
        inFlight, loading, error, rows, cursor := false, false, None, [], None;
        return;
      }
      inFlight := true;
      loading, error, rows, cursor := true, None, [], None;
      outstanding := outstanding + [Request(current, parameters, None)];
    }

    /** Rendered with these parameters: the effect runs when they or the hold changed. */
    method RenderWith(newParameters: Parameters, newEnabled: bool)
      modifies this
      ensures State() == Step(old(State()), Render(newParameters, newEnabled))
    {
      if mounted && newParameters == parameters && newEnabled == enabled {
        return;
      }
      if mounted {
        CleanUp();
      }
      parameters, enabled := newParameters, newEnabled;
      RunEffect();
    }

    method UnmountList()
      requires mounted
      modifies this
      ensures State() == Step(old(State()), Unmount)
    {
      CleanUp();
      mounted := false;
    }

    method LoadNextPage()
      requires mounted
      modifies this
      ensures State() == Step(old(State()), LoadMore)
    {
      if !enabled || cursor.None? || inFlight {
        return;
      }
      var current := generation;
      inFlight := true;
      loading, error := true, None;
      outstanding := outstanding + [Request(current, parameters, cursor)];
    }

    method RetryRead()
      requires mounted
      modifies this
      ensures State() == Step(old(State()), Retry)
    {
      if !enabled {
        return;
      }
      var failedPage := error.Some? && |rows| > 0 && cursor.Some?;
      if failedPage {
        LoadNextPage();
        return;
      }
      CleanUp();
      RunEffect();
    }

    /** The reply to one request arrives, perhaps long after its generation ended. */
    method Settle(index: nat, reply: Reply)
      requires index < |outstanding|
      modifies this
      ensures State() == Step(old(State()), Deliver(index, reply))
    {
      var request := outstanding[index];
      outstanding := outstanding[..index] + outstanding[index + 1..];
      delivered := delivered + [Delivery(request, reply)];
      if generation != request.generation {
        return;
      }
      inFlight := false;
      match reply {
        case Answer(page) =>
          rows := if request.after.None? then page.items else rows + page.items;
          cursor := page.nextCursor;
        case Failed(message) =>
          error := Some(message);
      }
      loading := false;
    }
  }
}
