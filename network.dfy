/** utils.py `_wait_for_stable_network`: a watcher that tracks the outstanding
    requests of a tab, and a poll loop that waits until none is outstanding and the
    network has been quiet for `idle` time units, or gives up after `timeout`.

    Clock readings (`time.monotonic()`) are parameters: each event and each poll
    carries the time at which it is observed. */
module Network {
  import opened Wrappers
  import opened Text
  import opened Tabs

  /** A protocol `Headers` object: a dict looked up by exact key. */
  type Headers = map<string, string>

  /** `headers.get(key)`. */
  function Header(h: Headers, key: string): Option<string> {
    if key in h then Some(h[key]) else None
  }

  /** `Network.requestWillBeSent`: the request id, the resource type (absent for
      some requests) and the request's URL and headers. */
  datatype RequestEvent = RequestEvent(requestId: string, resourceType: Option<string>, url: string, headers: Headers)

  /** `Network.responseReceived`: the request id and the response headers. */
  datatype ResponseEvent = ResponseEvent(requestId: string, headers: Headers)

  /** `Network.loadingFailed`. */
  datatype LoadingFailedEvent = LoadingFailedEvent(requestId: string)

  const RelevantResourceTypes: set<string> :=
    {"Document", "Stylesheet", "Image", "Font", "Script", "XHR", "Fetch"}

  const RelevantContentTypes: seq<string> :=
    ["text/html", "text/css", "application/javascript", "image/", "font/", "application/json"]

  const IgnoredUrlPatterns: seq<string> :=
    ["analytics", "tracking", "telemetry", "beacon", "metrics", "doubleclick", "adsystem",
     "adserver", "advertising", "facebook.com/plugins", "platform.twitter", "linkedin.com/embed",
     "livechat", "zendesk", "intercom", "crisp.chat", "hotjar", "push-notifications", "onesignal",
     "pushwoosh", "heartbeat", "ping", "alive", "webrtc", "rtmp://", "wss://", "cloudfront.net",
     "fastly.net"]

  const StreamingTypes: seq<string> :=
    ["streaming", "video", "audio", "webm", "mp4", "event-stream", "websocket", "protobuf"]

  /** Responses declaring more bytes than this are not waited for. */
  const LargeResponseBytes: int := 5 * 1024 * 1024

  /** `any(p in s for p in patterns)`. */
  predicate AnyIn(s: string, patterns: seq<string>) {
    exists i :: 0 <= i < |patterns| && Contains(s, patterns[i])
  }

  /** The URL test of `on_request`, on the lower-cased URL. */
  predicate IgnoredUrl(url: string) {
    var u := Lower(url);
    AnyIn(u, IgnoredUrlPatterns) || StartsWith(u, "data:") || StartsWith(u, "blob:")
  }

  /** The header test of `on_request`: prefetches and media loads. */
  predicate SkippedByHeaders(h: Headers) {
    Header(h, "purpose") == Some("prefetch") ||
    Header(h, "sec-fetch-dest") == Some("video") || Header(h, "sec-fetch-dest") == Some("audio")
  }

  /** A request `on_request` starts tracking. */
  predicate Tracked(e: RequestEvent) {
    e.resourceType.Some? && e.resourceType.value in RelevantResourceTypes &&
    !IgnoredUrl(e.url) && !SkippedByHeaders(e.headers)
  }

  /** Which branch of `on_response` a response takes. `Unparsable` is the
      `ValueError` of `int()` on a non-numeric `content-length`. */
  datatype ResponseKind = NotPending | Streaming | Irrelevant | Oversized | Unparsable | Completed

  function ClassifyResponse(pending: set<string>, e: ResponseEvent): ResponseKind {
    if e.requestId !in pending then NotPending
    else
      var contentType := Lower(Header(e.headers, "content-type").GetOr(""));
      if AnyIn(contentType, StreamingTypes) then Streaming
      else if !AnyIn(contentType, RelevantContentTypes) then Irrelevant
      else
        var length := Header(e.headers, "content-length");
        if length.None? || length.value == "" then Completed
        else
          match ParseInt(length.value)
          case None => Unparsable
          case Some(n) => if n > LargeResponseBytes then Oversized else Completed
  }

  /** The watcher's state: `pending_requests` and `last_activity`. */
  datatype NetState = NetState(pending: set<string>, lastActivity: real)

  function AfterRequest(s: NetState, e: RequestEvent, now: real): NetState {
    if Tracked(e) then NetState(s.pending + {e.requestId}, now) else s
  }

  /** `on_response`: a pending request is dropped by every branch except the
      `int()` failure, and only a completed relevant response counts as activity. */
  function AfterResponse(s: NetState, e: ResponseEvent, now: real): (r: NetState)
    ensures var k := ClassifyResponse(s.pending, e);
            (k == NotPending <==> e.requestId !in s.pending) &&
            (k == NotPending || k == Unparsable ==> r == s) &&
            (k != NotPending && k != Unparsable ==> r.pending == s.pending - {e.requestId} && e.requestId !in r.pending) &&
            (r.lastActivity != s.lastActivity ==> k == Completed) &&
            (k == Completed ==> r.lastActivity == now)
  {
    match ClassifyResponse(s.pending, e)
    case NotPending => s
    case Unparsable => s
    case Completed => NetState(s.pending - {e.requestId}, now)
    case _ => NetState(s.pending - {e.requestId}, s.lastActivity)
  }

  function AfterLoadingFailed(s: NetState, e: LoadingFailedEvent, now: real): NetState {
    if e.requestId in s.pending then NetState(s.pending - {e.requestId}, now) else s
  }

  datatype NetEvent = Req(req: RequestEvent) | Resp(resp: ResponseEvent) | Failed(failed: LoadingFailedEvent)

  /** An event together with the clock reading its handler takes. */
  datatype TimedEvent = TimedEvent(at: real, ev: NetEvent)

  function Apply(s: NetState, t: TimedEvent): NetState {
    match t.ev
    case Req(e) => AfterRequest(s, e, t.at)
    case Resp(e) => AfterResponse(s, e, t.at)
    case Failed(e) => AfterLoadingFailed(s, e, t.at)
  }

  /** The state after the handlers have run on `evs`, in order. */
  function Run(s: NetState, evs: seq<TimedEvent>): NetState {
    if evs == [] then s else Apply(Run(s, evs[..|evs| - 1]), evs[|evs| - 1])
  }

  /** The ids of the requests in `evs` that `on_request` tracks. */
  function TrackedIds(evs: seq<TimedEvent>): set<string> {
    if evs == [] then {}
    else
      var last := evs[|evs| - 1];
      TrackedIds(evs[..|evs| - 1]) + (if last.ev.Req? && Tracked(last.ev.req) then {last.ev.req.requestId} else {})
  }

  /** An event that answers request `x`: a response or a loading failure for it. */
  predicate Answers(t: TimedEvent, x: string) {
    (t.ev.Resp? && t.ev.resp.requestId == x) || (t.ev.Failed? && t.ev.failed.requestId == x)
  }

  /** The poll condition: nothing outstanding and quiet for longer than `idle`. */
  predicate Settled(s: NetState, now: real, idle: real) {
    s.pending == {} && now - s.lastActivity > idle
  }

  /** A streaming content type wins over everything the response declares after it. */
  lemma StreamingNeverRefreshes(s: NetState, e: ResponseEvent, now: real)
    requires e.requestId in s.pending
    requires Contains(Lower(Header(e.headers, "content-type").GetOr("")), "video")
    ensures AfterResponse(s, e, now) == NetState(s.pending - {e.requestId}, s.lastActivity)
  {
    assert StreamingTypes[1] == "video";
  }

  /** Only tracked requests are ever pending. */
  lemma {:induction false} PendingAreTracked(s: NetState, evs: seq<TimedEvent>)
    ensures Run(s, evs).pending <= s.pending + TrackedIds(evs)
  {
    if evs != [] {
      var init := evs[..|evs| - 1];
      PendingAreTracked(s, init);
      var t := evs[|evs| - 1];
      var before := Run(s, init);
      assert Run(s, evs) == Apply(before, t);
      match t.ev
      case Req(e) =>
      case Resp(e) =>
        assert Run(s, evs).pending <= before.pending;
      case Failed(e) =>
    }
  }

  /** The quiet period restarts only at events: the last activity is the starting
      one or the clock reading of one of the events. */
  lemma {:induction false} ActivityComesFromEvents(s: NetState, evs: seq<TimedEvent>)
    ensures Run(s, evs).lastActivity == s.lastActivity ||
            exists i :: 0 <= i < |evs| && Run(s, evs).lastActivity == evs[i].at
  {
    if evs != [] {
      var init := evs[..|evs| - 1];
      ActivityComesFromEvents(s, init);
      var t := evs[|evs| - 1];
      var before := Run(s, init);
      assert Run(s, evs) == Apply(before, t);
      if Run(s, evs).lastActivity != before.lastActivity {
        assert Run(s, evs).lastActivity == evs[|evs| - 1].at;
      } else if before.lastActivity != s.lastActivity {
        var i :| 0 <= i < |init| && before.lastActivity == init[i].at;
        assert evs[i] == init[i];
      }
    }
  }

  /** A pending request nobody answers stays pending. */
  lemma {:induction false} UnansweredStaysPending(s: NetState, evs: seq<TimedEvent>, x: string)
    requires x in s.pending
    requires forall i :: 0 <= i < |evs| ==> !Answers(evs[i], x)
    ensures x in Run(s, evs).pending
  {
    if evs != [] {
      var init := evs[..|evs| - 1];
      forall i | 0 <= i < |init| ensures !Answers(init[i], x) {
        assert init[i] == evs[i];
      }
      UnansweredStaysPending(s, init, x);
      assert !Answers(evs[|evs| - 1], x);
    }
  }

  /** The watcher of one `_wait_for_stable_network` call. */
  class Watcher {
    var pending: set<string>
    var lastActivity: real

    function State(): NetState
      reads this
    {
      NetState(pending, lastActivity)
    }

    constructor(now: real)
      ensures State() == NetState({}, now)
    {
      pending := {};
      lastActivity := now;
    }

    /** `on_request`. */
    method OnRequest(e: RequestEvent, now: real)
      modifies this
      ensures State() == AfterRequest(old(State()), e, now)
    {
      if e.resourceType.None? || e.resourceType.value !in RelevantResourceTypes {
        return;
      }
      if IgnoredUrl(e.url) {
        return;
      }
      if SkippedByHeaders(e.headers) {
        return;
      }
      pending := pending + {e.requestId};
      lastActivity := now;
    }

    /** `on_response`; `raised` is the `ValueError`, which leaves the state as it was. */
    method OnResponse(e: ResponseEvent, now: real) returns (raised: bool)
      modifies this
      ensures State() == AfterResponse(old(State()), e, now)
      ensures raised <==> ClassifyResponse(old(pending), e) == Unparsable
    {
      raised := false;
      if e.requestId !in pending {
        return;
      }
      var contentType := Lower(Header(e.headers, "content-type").GetOr(""));
      if AnyIn(contentType, StreamingTypes) {
        pending := pending - {e.requestId};
        return;
      }
      if !AnyIn(contentType, RelevantContentTypes) {
        pending := pending - {e.requestId};
        return;
      }
      var length := Header(e.headers, "content-length");
      if length.Some? && length.value != "" {
        var n := ParseInt(length.value);
        if n.None? {
          raised := true;
          return;
        }
        if n.value > LargeResponseBytes {
          pending := pending - {e.requestId};
          return;
        }
      }
      pending := pending - {e.requestId};
      lastActivity := now;
    }

    /** `on_loading_failed`. */
    method OnLoadingFailed(e: LoadingFailedEvent, now: real)
      modifies this
      ensures State() == AfterLoadingFailed(old(State()), e, now)
    {
      if e.requestId in pending {
        pending := pending - {e.requestId};
        lastActivity := now;
      }
    }

    /** Dispatches the events that arrive between two polls, in order. */
    method Deliver(evs: seq<TimedEvent>)
      modifies this
      ensures State() == Run(old(State()), evs)
    {
      var i := 0;
      while i < |evs|
        invariant 0 <= i <= |evs|
        invariant State() == Run(old(State()), evs[..i])
      {
        assert evs[..i + 1][..i] == evs[..i];
        match evs[i].ev {
          case Req(e) => OnRequest(e, evs[i].at);
          case Resp(e) => var _ := OnResponse(e, evs[i].at);
          case Failed(e) => OnLoadingFailed(e, evs[i].at);
        }
        i := i + 1;
      }
      assert evs[..|evs|] == evs;
    }

    /** The `while` loop of `_wait_for_stable_network`: events arrive during each
        sleep, then the stability test may break the loop. */
    method AwaitStable(start: real, idle: real, timeout: real, ticks: seq<Tick>) returns (outcome: WaitOutcome)
      modifies this
      ensures outcome == Poll(old(State()), start, idle, timeout, ticks)
    {
      outcome := ScheduleEnded;
      assert ticks[0..] == ticks;
      var i := 0;
      while i < |ticks|
        invariant 0 <= i <= |ticks|
        invariant Poll(State(), start, idle, timeout, ticks[i..]) == Poll(old(State()), start, idle, timeout, ticks)
        invariant outcome == ScheduleEnded
      {
        if !(ticks[i].guardAt - start < timeout) {
          outcome := TimedOut;
          return;
        }
        Deliver(ticks[i].events);
        if pending == {} && ticks[i].checkAt - lastActivity > idle {
          outcome := Stable(ticks[i].checkAt);
          return;
        }
        assert ticks[i..][1..] == ticks[i + 1..];
        i := i + 1;
      }
    }
  }

  /** One turn of the poll loop: the clock reading of the `while` test, the events
      delivered during the sleep, and the clock reading of the stability test. */
  datatype Tick = Tick(guardAt: real, events: seq<TimedEvent>, checkAt: real)

  /** How the wait ends: the loop breaks on a stable network, the `while` test
      fails (the timeout warning), or the given schedule runs out. */
  datatype WaitOutcome = Stable(at: real) | TimedOut | ScheduleEnded

  /** The outcome of the poll loop from state `s` over `ticks`. */
  function Poll(s: NetState, start: real, idle: real, timeout: real, ticks: seq<Tick>): WaitOutcome
    decreases |ticks|
  {
    if ticks == [] then ScheduleEnded
    else if !(ticks[0].guardAt - start < timeout) then TimedOut
    else
      var next := Run(s, ticks[0].events);
      if Settled(next, ticks[0].checkAt, idle) then Stable(ticks[0].checkAt)
      else Poll(next, start, idle, timeout, ticks[1..])
  }

  /** The network state after the events of the first `n` ticks. */
  function StateAfter(s: NetState, ticks: seq<Tick>, n: nat): NetState
    requires n <= |ticks|
    decreases n
  {
    if n == 0 then s else StateAfter(Run(s, ticks[0].events), ticks[1..], n - 1)
  }

  /** Tick `k` is where the loop breaks: every `while` test up to it is within the
      timeout, the state after its events is settled at its stability reading, and
      no earlier tick's was. */
  ghost predicate BreaksAt(s: NetState, start: real, idle: real, timeout: real, ticks: seq<Tick>, k: int) {
    && 0 <= k < |ticks|
    && (forall j :: 0 <= j <= k ==> ticks[j].guardAt - start < timeout)
    && Settled(StateAfter(s, ticks, k + 1), ticks[k].checkAt, idle)
    && (forall j :: 0 <= j < k ==> !Settled(StateAfter(s, ticks, j + 1), ticks[j].checkAt, idle))
  }

  /** Shifting a break point past a first tick that is within the timeout and not
      settled. */
  lemma BreaksAtShift(s: NetState, start: real, idle: real, timeout: real, ticks: seq<Tick>, k: nat)
    requires ticks != [] && ticks[0].guardAt - start < timeout
    requires !Settled(Run(s, ticks[0].events), ticks[0].checkAt, idle)
    ensures BreaksAt(s, start, idle, timeout, ticks, k + 1) <==>
            BreaksAt(Run(s, ticks[0].events), start, idle, timeout, ticks[1..], k)
  {
    var next := Run(s, ticks[0].events);
    forall j | 0 <= j < |ticks| - 1 ensures StateAfter(s, ticks, j + 1) == StateAfter(next, ticks[1..], j) && ticks[j + 1] == ticks[1..][j] {
    }
    if BreaksAt(next, start, idle, timeout, ticks[1..], k) {
      forall j | 0 <= j <= k + 1 ensures ticks[j].guardAt - start < timeout {
        if j > 0 {
          assert ticks[j] == ticks[1..][j - 1];
        }
      }
      forall j | 0 <= j < k + 1 ensures !Settled(StateAfter(s, ticks, j + 1), ticks[j].checkAt, idle) {
        if j > 0 {
          assert ticks[j] == ticks[1..][j - 1];
        }
      }
    }
    if BreaksAt(s, start, idle, timeout, ticks, k + 1) {
      forall j | 0 <= j <= k ensures ticks[1..][j].guardAt - start < timeout {
        assert ticks[1..][j] == ticks[j + 1];
      }
      forall j | 0 <= j < k ensures !Settled(StateAfter(next, ticks[1..], j + 1), ticks[1..][j].checkAt, idle) {
        assert ticks[1..][j] == ticks[j + 1];
      }
    }
  }

  /** A stable outcome is the break of the loop: the first tick, with every `while`
      test up to it within the timeout, whose state is settled -- no pending request
      and more than `idle` since the last activity. */
  lemma {:induction false} PollStable(s: NetState, start: real, idle: real, timeout: real, ticks: seq<Tick>)
    requires Poll(s, start, idle, timeout, ticks).Stable?
    ensures exists k :: BreaksAt(s, start, idle, timeout, ticks, k) && ticks[k].checkAt == Poll(s, start, idle, timeout, ticks).at
    decreases |ticks|
  {
    var next := Run(s, ticks[0].events);
    assert StateAfter(s, ticks, 1) == next;
    if Settled(next, ticks[0].checkAt, idle) {
      assert BreaksAt(s, start, idle, timeout, ticks, 0);
    } else {
      PollStable(next, start, idle, timeout, ticks[1..]);
      var k :| BreaksAt(next, start, idle, timeout, ticks[1..], k) && ticks[1..][k].checkAt == Poll(next, start, idle, timeout, ticks[1..]).at;
      BreaksAtShift(s, start, idle, timeout, ticks, k);
      assert ticks[k + 1] == ticks[1..][k];
    }
  }

  /** Conversely, the loop reports stability at the tick where it breaks. */
  lemma {:induction false} BreakGivesStable(s: NetState, start: real, idle: real, timeout: real, ticks: seq<Tick>, k: int)
    requires BreaksAt(s, start, idle, timeout, ticks, k)
    ensures Poll(s, start, idle, timeout, ticks) == Stable(ticks[k].checkAt)
    decreases |ticks|
  {
    var next := Run(s, ticks[0].events);
    assert StateAfter(s, ticks, 1) == next;
    if k > 0 {
      assert !Settled(StateAfter(s, ticks, 1), ticks[0].checkAt, idle);
      assert ticks[0].guardAt - start < timeout;
      BreaksAtShift(s, start, idle, timeout, ticks, k - 1);
      BreakGivesStable(next, start, idle, timeout, ticks[1..], k - 1);
      assert ticks[k] == ticks[1..][k - 1];
    } else {
      assert ticks[0].guardAt - start < timeout;
    }
  }

  /** Tick `k` is where the loop gives up: its `while` test is at or past the
      timeout, every earlier test was within it, and no earlier tick's state was
      settled. */
  ghost predicate TimesOutAt(s: NetState, start: real, idle: real, timeout: real, ticks: seq<Tick>, k: int) {
    && 0 <= k < |ticks|
    && ticks[k].guardAt - start >= timeout
    && (forall j :: 0 <= j < k ==> ticks[j].guardAt - start < timeout)
    && (forall j :: 0 <= j < k ==> !Settled(StateAfter(s, ticks, j + 1), ticks[j].checkAt, idle))
  }

  /** Shifting a time-out point past a first tick that is within the timeout and
      not settled. */
  lemma TimesOutAtShift(s: NetState, start: real, idle: real, timeout: real, ticks: seq<Tick>, k: nat)
    requires ticks != [] && ticks[0].guardAt - start < timeout
    requires !Settled(Run(s, ticks[0].events), ticks[0].checkAt, idle)
    ensures TimesOutAt(s, start, idle, timeout, ticks, k + 1) <==>
            TimesOutAt(Run(s, ticks[0].events), start, idle, timeout, ticks[1..], k)
  {
    var next := Run(s, ticks[0].events);
    forall j | 0 <= j < |ticks| - 1 ensures StateAfter(s, ticks, j + 1) == StateAfter(next, ticks[1..], j) && ticks[j + 1] == ticks[1..][j] {
    }
    if TimesOutAt(next, start, idle, timeout, ticks[1..], k) {
      forall j | 0 <= j < k + 1 ensures ticks[j].guardAt - start < timeout && !Settled(StateAfter(s, ticks, j + 1), ticks[j].checkAt, idle) {
        if j > 0 {
          assert ticks[j] == ticks[1..][j - 1];
        }
      }
    }
    if TimesOutAt(s, start, idle, timeout, ticks, k + 1) {
      forall j | 0 <= j < k ensures ticks[1..][j].guardAt - start < timeout && !Settled(StateAfter(next, ticks[1..], j + 1), ticks[1..][j].checkAt, idle) {
        assert ticks[1..][j] == ticks[j + 1];
      }
    }
  }

  /** A timed-out wait gave up at a `while` test at or past the timeout, after
      earlier tests within it whose states were never settled. */
  lemma {:induction false} PollTimedOut(s: NetState, start: real, idle: real, timeout: real, ticks: seq<Tick>)
    requires Poll(s, start, idle, timeout, ticks) == TimedOut
    ensures exists k :: TimesOutAt(s, start, idle, timeout, ticks, k)
    decreases |ticks|
  {
    if ticks[0].guardAt - start < timeout {
      var next := Run(s, ticks[0].events);
      PollTimedOut(next, start, idle, timeout, ticks[1..]);
      var k :| TimesOutAt(next, start, idle, timeout, ticks[1..], k);
      TimesOutAtShift(s, start, idle, timeout, ticks, k);
    } else {
      assert TimesOutAt(s, start, idle, timeout, ticks, 0);
    }
  }

  /** Conversely, the loop times out when it reaches a `while` test at or past the
      timeout without having settled before. */
  lemma {:induction false} TimeOutGivesTimedOut(s: NetState, start: real, idle: real, timeout: real, ticks: seq<Tick>, k: int)
    requires TimesOutAt(s, start, idle, timeout, ticks, k)
    ensures Poll(s, start, idle, timeout, ticks) == TimedOut
    decreases |ticks|
  {
    if k > 0 {
      var next := Run(s, ticks[0].events);
      assert StateAfter(s, ticks, 1) == next;
      assert !Settled(next, ticks[0].checkAt, idle);
      assert ticks[0].guardAt - start < timeout;
      TimesOutAtShift(s, start, idle, timeout, ticks, k - 1);
      TimeOutGivesTimedOut(next, start, idle, timeout, ticks[1..], k - 1);
    }
  }

  /** A request that is pending and never answered keeps the network from being
      reported stable. */
  lemma {:induction false} PendingBlocksStability(s: NetState, start: real, idle: real, timeout: real, ticks: seq<Tick>, x: string)
    requires x in s.pending
    requires forall k, i :: 0 <= k < |ticks| && 0 <= i < |ticks[k].events| ==> !Answers(ticks[k].events[i], x)
    ensures !Poll(s, start, idle, timeout, ticks).Stable?
    decreases |ticks|
  {
    if ticks != [] && ticks[0].guardAt - start < timeout {
      var next := Run(s, ticks[0].events);
      forall i | 0 <= i < |ticks[0].events| ensures !Answers(ticks[0].events[i], x) {
      }
      UnansweredStaysPending(s, ticks[0].events, x);
      assert !Settled(next, ticks[0].checkAt, idle);
      forall k, i | 0 <= k < |ticks[1..]| && 0 <= i < |ticks[1..][k].events| ensures !Answers(ticks[1..][k].events[i], x) {
        assert ticks[1..][k] == ticks[k + 1];
      }
      PendingBlocksStability(next, start, idle, timeout, ticks[1..], x);
    }
  }

  /** Registering three handlers and then removing each once restores the list. */
  lemma AddThenRemove(h: multiset<Subscription>, a: Subscription, b: Subscription, c: Subscription)
    ensures h + multiset{a} + multiset{b} + multiset{c} - multiset{a} - multiset{b} - multiset{c} == h
  {
  }

  /** `_wait_for_stable_network`: registers the three handlers, polls, and in its
      `finally` removes them again. `created` is the clock reading that initialises
      `last_activity`, `start` the one taken after registration. */
  method WaitForStableNetwork(tab: Tab, idle: real, timeout: real, created: real, start: real, ticks: seq<Tick>)
    returns (outcome: WaitOutcome)
    modifies tab
    ensures outcome == Poll(NetState({}, created), start, idle, timeout, ticks)
    ensures tab.handlers == old(tab.handlers)
    ensures tab.url == old(tab.url) && tab.domTreeState == old(tab.domTreeState)
  {
    var w := new Watcher(created);
    var onRequest := Subscription(RequestWillBeSent, w);
    var onResponse := Subscription(ResponseReceived, w);
    var onFailed := Subscription(LoadingFailed, w);
    ghost var before := tab.handlers;
    tab.AddHandler(onRequest);
    tab.AddHandler(onResponse);
    tab.AddHandler(onFailed);

    outcome := w.AwaitStable(start, idle, timeout, ticks);

    tab.RemoveHandler(onRequest);
    tab.RemoveHandler(onResponse);
    tab.RemoveHandler(onFailed);
    AddThenRemove(before, onRequest, onResponse, onFailed);
  }

  /** The protocol's `Network.RequestId` of the examples below. */
  const ExampleId: string := "1"

  /** A URL whose lower-cased form holds ignore pattern `i` at offset `k` is
      ignored. */
  lemma IgnoredAt(url: string, i: nat, k: nat)
    requires i < |IgnoredUrlPatterns| && k + |IgnoredUrlPatterns[i]| <= |url|
    requires Lower(url)[k..k + |IgnoredUrlPatterns[i]|] == IgnoredUrlPatterns[i]
    ensures IgnoredUrl(url)
  {
    var u, p := Lower(url), IgnoredUrlPatterns[i];
    assert u[k..][..|p|] == p;
    ContainsAt(u, p, k);
  }

  /** The URL test lower-cases first: an upper-case tracker host is ignored. */
  lemma UpperCaseTrackerIsIgnored()
    ensures !Tracked(RequestEvent(ExampleId, Some("Script"), "https://AD.DOUBLECLICK.NET/", map[]))
  {
    var url := "https://AD.DOUBLECLICK.NET/";
    assert Lower(url)[11..22] == "doubleclick";
    IgnoredAt(url, 5, 11);
  }

  /** Patterns match anywhere in the URL: "ping" drops a stylesheet from a shopping site. */
  lemma ShoppingStylesheetIsIgnored()
    ensures !Tracked(RequestEvent(ExampleId, Some("Stylesheet"), "https://shopping.example/a.css", map[]))
  {
    var url := "https://shopping.example/a.css";
    assert Lower(url)[12..16] == "ping";
    IgnoredAt(url, 21, 12);
  }

  /** Header keys are looked up as given: a `Content-Type` header is not seen, so
      the response counts as irrelevant and does not refresh the activity clock. */
  lemma CapitalisedContentTypeIsIrrelevant(s: NetState, now: real)
    requires ExampleId in s.pending
    ensures ClassifyResponse(s.pending, ResponseEvent(ExampleId, map["Content-Type" := "text/html"])) == Irrelevant
  {
    var h := map["Content-Type" := "text/html"];
    assert Header(h, "content-type") == None;
    assert Lower("") == "";
    forall i | 0 <= i < |StreamingTypes| ensures !Contains("", StreamingTypes[i]) {
      assert StreamingTypes[i] != [];
    }
    forall i | 0 <= i < |RelevantContentTypes| ensures !Contains("", RelevantContentTypes[i]) {
      assert RelevantContentTypes[i] != [];
    }
  }
}
