/**
 At-least-once event delivery: the publisher's retry loop (`publisher.py`), a network that may
 lose the request or the reply, and the deduplicating endpoint (`endpoint.py`) that other
 clients keep using meanwhile.
 */
module EventDelivery {
  import opened Wrappers

  /** `EventEnvelope`. */
  datatype Event = Event(tenant: string, id: string, body: string)

  /** A post to `/v1/tenants/{pathTenant}/events`; `None` is a body that fails validation. */
  datatype Request = Request(pathTenant: string, payload: Option<Event>)

  // ----- the endpoint -----

  /** One item of the `accepted` dictionary, which keeps insertion order. */
  datatype Entry = Entry(tenant: string, id: string, event: Event)

  predicate HasKey(accepted: seq<Entry>, tenant: string, id: string) {
    exists i :: 0 <= i < |accepted| && accepted[i].tenant == tenant && accepted[i].id == id
  }

  lemma HasKeyIff(accepted: seq<Entry>, tenant: string, id: string)
    ensures HasKey(accepted, tenant, id) <==> exists x :: x in accepted && x.tenant == tenant && x.id == id
  {
    if x :| x in accepted && x.tenant == tenant && x.id == id {
      var i :| 0 <= i < |accepted| && accepted[i] == x;
    }
  }

  /** Keys are unique, and every entry is filed under its own event's key. */
  ghost predicate ValidLog(accepted: seq<Entry>) {
    && (forall i, j :: 0 <= i < j < |accepted| ==>
          (accepted[i].tenant, accepted[i].id) != (accepted[j].tenant, accepted[j].id))
    && (forall i :: 0 <= i < |accepted| ==>
          accepted[i].event.tenant == accepted[i].tenant && accepted[i].event.id == accepted[i].id)
  }

  /** What `ingest` does: the checks in order, then a write that never overwrites. */
  function Ingested(accepted: seq<Entry>, req: Request, limited: bool): (seq<Entry>, int) {
    match req.payload
    case None => (accepted, 400)
    case Some(e) =>
      if e.tenant != req.pathTenant then (accepted, 403)
      else if limited then (accepted, 429)
      else if HasKey(accepted, req.pathTenant, e.id) then (accepted, 409)
      else (accepted + [Entry(req.pathTenant, e.id, e)], 202)
  }

  /** The log is write-once and stays well-formed; success codes mean the key is filed. */
  lemma IngestIsWriteOnce(accepted: seq<Entry>, req: Request, limited: bool)
    requires ValidLog(accepted)
    ensures var (after, code) := Ingested(accepted, req, limited);
            && ValidLog(after) && accepted <= after
            && (code == 202 || code == 409 <==>
                  req.payload.Some? && req.payload.value.tenant == req.pathTenant && !limited)
            && (code == 202 || code == 409 ==> HasKey(after, req.pathTenant, req.payload.value.id))
            && (forall i :: |accepted| <= i < |after| ==> req.payload == Some(after[i].event))
  {
    var (after, code) := Ingested(accepted, req, limited);
    if code == 202 {
      assert after[|accepted|].tenant == req.pathTenant;
    }
  }

  /** `replay`: the accepted events of one tenant, in order of acceptance. */
  function ReplayOf(accepted: seq<Entry>, tenant: string): seq<Event> {
    if accepted == [] then []
    else
      var last := accepted[|accepted| - 1];
      ReplayOf(accepted[..|accepted| - 1], tenant) + (if last.tenant == tenant then [last.event] else [])
  }

  /** `events` are the tenant's entries and nothing else, in order of acceptance; `at` says where each stands. */
  ghost predicate RepeatsInOrder(events: seq<Event>, accepted: seq<Entry>, tenant: string, at: seq<nat>) {
    && |at| == |events|
    && (forall i, j :: 0 <= i < j < |at| ==> at[i] < at[j])
    && (forall i :: 0 <= i < |at| ==> at[i] < |accepted| && accepted[at[i]].tenant == tenant
                                      && events[i] == accepted[at[i]].event)
    && (forall k :: 0 <= k < |accepted| && accepted[k].tenant == tenant ==> k in at)
  }

  lemma RepeatsOneMore(events: seq<Event>, accepted: seq<Entry>, i: nat, tenant: string, at: seq<nat>)
    requires i < |accepted| && accepted[i].tenant == tenant && RepeatsInOrder(events, accepted[..i], tenant, at)
    ensures RepeatsInOrder(events + [accepted[i].event], accepted[..i + 1], tenant, at + [i])
  {
    var before, after := accepted[..i], accepted[..i + 1];
    assert forall k :: 0 <= k < i ==> after[k] == before[k];
    assert (at + [i])[|at|] == i;
    forall k | 0 <= k < i + 1 && after[k].tenant == tenant ensures k in at + [i] {
      if k < i {
        assert before[k].tenant == tenant;
      }
    }
  }

  lemma RepeatsSkip(events: seq<Event>, accepted: seq<Entry>, i: nat, tenant: string, at: seq<nat>)
    requires i < |accepted| && accepted[i].tenant != tenant && RepeatsInOrder(events, accepted[..i], tenant, at)
    ensures RepeatsInOrder(events, accepted[..i + 1], tenant, at)
  {
    var before, after := accepted[..i], accepted[..i + 1];
    assert forall k :: 0 <= k < i ==> after[k] == before[k];
  }

  /** An event filed under its key is replayed exactly once; nothing else is replayed under that id. */
  lemma {:induction false} ReplayedOnce(accepted: seq<Entry>, e: Event)
    requires ValidLog(accepted)
    ensures multiset(ReplayOf(accepted, e.tenant))[e] == if Entry(e.tenant, e.id, e) in accepted then 1 else 0
  {
    if accepted != [] {
      var n := |accepted| - 1;
      var last := accepted[n];
      assert accepted == accepted[..n] + [last];
      ReplayedOnce(accepted[..n], e);
      if Entry(e.tenant, e.id, e) in accepted[..n] {
        var i :| 0 <= i < n && accepted[i] == Entry(e.tenant, e.id, e);
        assert (last.tenant, last.id) != (e.tenant, e.id);
      }
      if last.event == e {
        assert last == Entry(e.tenant, e.id, e);
      }
    }
  }

  class Endpoint {
    var accepted: seq<Entry>

    constructor ()
      ensures accepted == [] && ValidLog(accepted)
    {
      accepted := [];
    }

    /** `limited` is the rate limiter's verdict. A 429 carries `Retry-After: 1`. */
    method Ingest(req: Request, limited: bool) returns (code: int, retryAfter: Option<real>)
      requires ValidLog(accepted)
      modifies this
      ensures (accepted, code) == Ingested(old(accepted), req, limited)
      ensures code == 400 <==> req.payload.None?
      ensures code == 403 <==> req.payload.Some? && req.payload.value.tenant != req.pathTenant
      ensures code == 429 <==> req.payload.Some? && req.payload.value.tenant == req.pathTenant && limited
      ensures code == 409 <==>
              req.payload.Some? && req.payload.value.tenant == req.pathTenant && !limited
              && exists x :: x in old(accepted) && x.tenant == req.pathTenant && x.id == req.payload.value.id
      ensures code in {202, 400, 403, 409, 429}
      ensures accepted == old(accepted) + if code == 202
                                          then [Entry(req.pathTenant, req.payload.value.id, req.payload.value)] else []
      ensures ValidLog(accepted) && old(accepted) <= accepted
      ensures retryAfter == if code == 429 then Some(1.0) else None
    {
      IngestIsWriteOnce(accepted, req, limited);
      if req.payload.Some? {
        HasKeyIff(accepted, req.pathTenant, req.payload.value.id);
      }
      retryAfter := None;
      if req.payload.None? {
        code := 400;
      } else if req.payload.value.tenant != req.pathTenant {
        code := 403;
      } else if limited {
        code := 429;
        retryAfter := Some(1.0);
      } else if HasKey(accepted, req.pathTenant, req.payload.value.id) {
        code := 409;
      } else {
        accepted := accepted + [Entry(req.pathTenant, req.payload.value.id, req.payload.value)];
        code := 202;
      }
    }

    method Replay(tenant: string) returns (events: seq<Event>)
      ensures events == ReplayOf(accepted, tenant)
      ensures exists at :: RepeatsInOrder(events, accepted, tenant, at)
    {
      events := [];
      ghost var at: seq<nat> := [];
      for i := 0 to |accepted|
        invariant events == ReplayOf(accepted[..i], tenant)
        invariant RepeatsInOrder(events, accepted[..i], tenant, at)
      {
        hide RepeatsInOrder;
        assert accepted[..i + 1][..i] == accepted[..i];
        if accepted[i].tenant == tenant {
          RepeatsOneMore(events, accepted, i, tenant, at);
          events := events + [accepted[i].event];
          at := at + [i];
        } else {
          RepeatsSkip(events, accepted, i, tenant, at);
        }
      }
      assert accepted[..|accepted|] == accepted;
    }
  }

  // ----- the network -----

  /**
   One send: the request is lost, the reply is lost, the reply arrives, or something on the way
   answers in the endpoint's stead, before or after the request got through. Only the endpoint
   answers 202 or 409.
   */
  datatype Fate =
    | RequestLost
    | ReplyLost
    | Delivered
    | Gateway(code: int, retryAfter: Option<real>, reached: bool)

  /** Other clients' requests before this attempt, the limiter's verdict on it, and its fate. */
  datatype Attempt = Attempt(traffic: seq<(Request, bool)>, limited: bool, fate: Fate)

  datatype Verdict = Success | Terminal | Retry

  /** How the publisher reads an attempt's outcome for a well-addressed event. */
  function VerdictOf(a: Attempt): Verdict {
    match a.fate
    case Delivered => if a.limited then Retry else Success
    case Gateway(code, _, _) => if code in {400, 401, 403} then Terminal else Retry
    case _ => Retry
  }

  /** The status code the publisher sees on an attempt that does not succeed. */
  function Seen(a: Attempt): Option<int> {
    match a.fate
    case Delivered => Some(429)
    case Gateway(code, _, _) => Some(code)
    case _ => None
  }

  ghost predicate HonestGateway(script: nat -> Attempt) {
    forall i: nat :: script(i).fate.Gateway? ==> script(i).fate.code !in {202, 409}
  }

  /** Every request seen with this event's key carries this very event. */
  predicate KeyIsOurs(req: Request, e: Event) {
    req.payload.Some? && req.pathTenant == e.tenant && req.payload.value.id == e.id ==> req.payload.value == e
  }

  ghost predicate UniqueId(accepted: seq<Entry>, script: nat -> Attempt, e: Event) {
    && (forall x :: x in accepted && x.tenant == e.tenant && x.id == e.id ==> x.event == e)
    && (forall i: nat :: OursAmong(script(i).traffic, e))
  }

  ghost predicate OursAmong(traffic: seq<(Request, bool)>, e: Event) {
    forall t :: t in traffic ==> KeyIsOurs(t.0, e)
  }

  // ----- the publisher -----

  datatype PublishStatus = Emitted | Rejected | DeadLettered

  datatype PublishResult = PublishResult(
    status: PublishStatus, attempts: int, lastCode: Option<int>, deadLettered: bool)

  datatype Reason = TerminalCode(code: int) | Exhausted(attempts: int)

  /** The wait after a retryable attempt: the server's hint, else the backoff table, clipped at its end. */
  function WaitAfter(backoff: seq<real>, attempt: nat, a: Attempt): real
    requires backoff != [] && attempt > 0
  {
    match a.fate
    case Delivered => if a.limited then 1.0 else Backoff(backoff, attempt)
    case Gateway(code, hint, _) => if code == 429 && hint.Some? then hint.value else Backoff(backoff, attempt)
    case _ => Backoff(backoff, attempt)
  }

  function Backoff(backoff: seq<real>, attempt: nat): real
    requires backoff != [] && attempt > 0
  {
    backoff[if attempt - 1 < |backoff| - 1 then attempt - 1 else |backoff| - 1]
  }

  /** The first attempt among `n`, from `i` on, that decides; `n` if none does. */
  function FirstDecisive(script: nat -> Attempt, i: nat, n: nat): (k: nat)
    requires i <= n
    ensures i <= k <= n
    ensures forall j: nat :: i <= j < k ==> VerdictOf(script(j)) == Retry
    ensures k < n ==> VerdictOf(script(k)) != Retry
    decreases n - i
  {
    if i == n || VerdictOf(script(i)) != Retry then i else FirstDecisive(script, i + 1, n)
  }

  /** The outcome is that of the first deciding attempt, with one sleep between attempts. */
  ghost predicate Concluded(r: PublishResult, sleeps: nat, script: nat -> Attempt, maxAttempts: int) {
    var n := if maxAttempts > 0 then maxAttempts else 0;
    var k := FirstDecisive(script, 0, n);
    && (r.status == Emitted <==> k < n && VerdictOf(script(k)) == Success)
    && (r.status == Rejected <==> k < n && VerdictOf(script(k)) == Terminal)
    && r.attempts == (if k < n then k + 1 else maxAttempts)
    && sleeps == (if k < n then k else if n > 0 then n - 1 else 0)
  }

  /** The code reported is that of the last attempt made. */
  ghost predicate ReportsLastCode(r: PublishResult, script: nat -> Attempt) {
    if r.status == Emitted then r.lastCode in {Some(202), Some(409)}
    else r.lastCode == if r.attempts > 0 then Seen(script(r.attempts - 1)) else None
  }

  /** Why an event that was not emitted is in the dead-letter queue. */
  function ReasonOf(r: PublishResult): Reason {
    if r.status == Rejected && r.lastCode.Some? then TerminalCode(r.lastCode.value) else Exhausted(r.attempts)
  }

  lemma {:induction false} FirstDecisiveIs(script: nat -> Attempt, i: nat, k: nat, n: nat)
    requires i <= k <= n && forall j: nat :: i <= j < k ==> VerdictOf(script(j)) == Retry
    requires k < n ==> VerdictOf(script(k)) != Retry
    ensures FirstDecisive(script, i, n) == k
    decreases k - i
  {
    if i < k {
      FirstDecisiveIs(script, i + 1, k, n);
    }
  }

  lemma Concludes(r: PublishResult, sleeps: nat, script: nat -> Attempt, maxAttempts: int, k: nat)
    requires forall j: nat :: j < k ==> VerdictOf(script(j)) == Retry
    requires if r.status == DeadLettered
             then k == (if maxAttempts > 0 then maxAttempts else 0) && r.attempts == maxAttempts
                  && sleeps == (if k > 0 then k - 1 else 0)
             else k < maxAttempts && r.attempts == k + 1 && sleeps == k
                  && VerdictOf(script(k)) == (if r.status == Emitted then Success else Terminal)
    ensures Concluded(r, sleeps, script, maxAttempts)
  {
    FirstDecisiveIs(script, 0, k, if maxAttempts > 0 then maxAttempts else 0);
  }

  /** Every sleep is the one its attempt calls for. */
  ghost predicate WaitsFollow(waits: seq<real>, backoff: seq<real>, script: nat -> Attempt) {
    backoff != [] ==> forall i :: 0 <= i < |waits| ==> waits[i] == WaitAfter(backoff, i + 1, script(i))
  }

  /** The sleep after attempt `i + 1`: a 429's hint, and otherwise the `i`-th table entry or, past its end, the last. */
  lemma WaitsAre(waits: seq<real>, backoff: seq<real>, script: nat -> Attempt, i: nat)
    requires WaitsFollow(waits, backoff, script) && backoff != [] && i < |waits|
    ensures match script(i).fate
            case Delivered => script(i).limited ==> waits[i] == 1.0
            case Gateway(429, Some(hint), _) => waits[i] == hint
            case _ => waits[i] == if i < |backoff| then backoff[i] else backoff[|backoff| - 1]
  {
  }

  lemma WaitsGrow(waits: seq<real>, backoff: seq<real>, script: nat -> Attempt, w: real)
    requires WaitsFollow(waits, backoff, script)
    requires backoff != [] ==> w == WaitAfter(backoff, |waits| + 1, script(|waits|))
    ensures WaitsFollow(waits + [w], backoff, script)
  {
  }

  /** From `before` to `after` the first `n` posts of the script were made, each once and in order. */
  ghost predicate PostedOnce(before: seq<Attempt>, after: seq<Attempt>, script: nat -> Attempt, n: nat) {
    && |after| == |before| + n && before <= after
    && forall i :: 0 <= i < n ==> after[|before| + i] == script(i)
  }

  lemma PostedNext(before: seq<Attempt>, after: seq<Attempt>, script: nat -> Attempt, n: nat)
    requires PostedOnce(before, after, script, n)
    ensures PostedOnce(before, after + [script(n)], script, n + 1)
  {
  }

  lemma NothingPosted(before: seq<Attempt>, script: nat -> Attempt)
    ensures PostedOnce(before, before, script, 0)
  {
  }

  /** `posts` records every post put on the network, for the specification only. */
  class EventPublisher {
    const maxAttempts: int
    const backoff: seq<real>
    var dlq: seq<(Event, Reason)>
    ghost var posts: seq<Attempt>

    constructor (maxAttempts: int, backoff: seq<real>)
      ensures this.maxAttempts == maxAttempts && this.backoff == backoff && dlq == [] && posts == []
    {
      this.maxAttempts := maxAttempts;
      this.backoff := backoff;
      dlq := [];
      posts := [];
    }

    /** One post over the network; `None` is the connection failure. */
    method Send(endpoint: Endpoint, event: Event, a: Attempt) returns (code: Option<int>, retryAfter: Option<real>)
      requires ValidLog(endpoint.accepted)
      requires a.fate.Gateway? ==> a.fate.code !in {202, 409}
      modifies endpoint, this`posts
      ensures posts == old(posts) + [a]
      ensures ValidLog(endpoint.accepted) && old(endpoint.accepted) <= endpoint.accepted
      ensures VerdictOf(a) == Success <==> code == Some(202) || code == Some(409)
      ensures VerdictOf(a) == Terminal <==> code.Some? && code.value in {400, 401, 403}
      ensures VerdictOf(a) != Success ==> code == Seen(a)
      ensures VerdictOf(a) == Success ==> HasKey(endpoint.accepted, event.tenant, event.id)
      ensures OnlyOurs(old(endpoint.accepted), event) && OursAmong(a.traffic, event) ==>
                OnlyOurs(endpoint.accepted, event)
      ensures VerdictOf(a) == Retry && code == Some(429) && retryAfter.Some? ==>
                forall b: seq<real>, n: nat :: b != [] && n > 0 ==> WaitAfter(b, n, a) == retryAfter.value
      ensures VerdictOf(a) == Retry && !(code == Some(429) && retryAfter.Some?) ==>
                forall b: seq<real>, n: nat :: b != [] && n > 0 ==> WaitAfter(b, n, a) == Backoff(b, n)
    {
      OtherTraffic(endpoint, event, a.traffic);
      posts := posts + [a];
      code, retryAfter := None, None;
      var req := Request(event.tenant, Some(event));
      if a.fate.Gateway? && !a.fate.reached {
        code, retryAfter := Some(a.fate.code), a.fate.retryAfter;
      } else if a.fate != RequestLost {
        ghost var before := endpoint.accepted;
        IngestIsWriteOnce(before, req, a.limited);
        var answer, hint := endpoint.Ingest(req, a.limited);
        if a.fate == Delivered {
          code, retryAfter := Some(answer), hint;
        } else if a.fate.Gateway? {
          code, retryAfter := Some(a.fate.code), a.fate.retryAfter;
        }
      }
    }

    /**
     `publish`, with everybody else using the endpoint between the attempts. The first attempt
     that decides settles the outcome: emitted on success, rejected on a terminal code; if none
     of the `maxAttempts` decides, the event is dead-lettered. It is dead-lettered exactly
     once unless emitted. It posts once per attempt and so at most `maxAttempts` times. Emitted
     means the endpoint has filed the key, and with a unique event id that it has filed this very
     event, so `ReplayedOnce` applies.
     */
    method Publish(endpoint: Endpoint, event: Event, script: nat -> Attempt)
      returns (r: Result<PublishResult, ()>, waits: seq<real>)
      requires ValidLog(endpoint.accepted) && HonestGateway(script)
      modifies this, endpoint
      ensures ValidLog(endpoint.accepted) && old(endpoint.accepted) <= endpoint.accepted
      ensures r.Ok? ==> PostedOnce(old(posts), posts, script, if r.value.attempts > 0 then r.value.attempts else 0)
      ensures r.Err? ==> exists n: nat :: 1 <= n < maxAttempts && PostedOnce(old(posts), posts, script, n)
      ensures backoff != [] ==> r.Ok?
      ensures r.Err? ==> dlq == old(dlq)
      ensures r.Ok? ==> Concluded(r.value, |waits|, script, maxAttempts) && WaitsFollow(waits, backoff, script)
      ensures r.Ok? && r.value.status == Emitted ==>
                dlq == old(dlq) && !r.value.deadLettered && HasKey(endpoint.accepted, event.tenant, event.id)
      ensures r.Ok? && r.value.status != Emitted ==>
                r.value.deadLettered && dlq == old(dlq) + [(event, ReasonOf(r.value))]
      ensures r.Ok? ==> ReportsLastCode(r.value, script)
      ensures r.Ok? && r.value.status == Emitted && UniqueId(old(endpoint.accepted), script, event) ==>
                Entry(event.tenant, event.id, event) in endpoint.accepted
    {
      hide Concluded, VerdictOf, Seen, WaitsFollow, OnlyOurs, OursAmong, HasKey, WaitAfter, Backoff, UniqueId, ValidLog,
           PostedOnce;
      NothingPosted(posts, script);
      assert WaitsFollow([], backoff, script) by { NoWaits(backoff, script); }
      ghost var unique := UniqueId(endpoint.accepted, script, event);
      UniqueIdIsOnlyOurs(endpoint.accepted, script, event);
      var lastCode: Option<int> := None;
      waits := [];
      ghost var n := if maxAttempts > 0 then maxAttempts else 0;
      var attempt := 1;
      while attempt <= maxAttempts
        invariant 1 <= attempt <= n + 1
        invariant forall j: nat :: j < attempt - 1 ==> VerdictOf(script(j)) == Retry
        invariant ValidLog(endpoint.accepted) && old(endpoint.accepted) <= endpoint.accepted
        invariant unique ==> OnlyOurs(endpoint.accepted, event)
        invariant dlq == old(dlq)
        invariant PostedOnce(old(posts), posts, script, attempt - 1)
        invariant |waits| == if attempt <= n || n == 0 then attempt - 1 else n - 1
        invariant WaitsFollow(waits, backoff, script)
        invariant lastCode == if attempt > 1 then Seen(script(attempt - 2)) else None
      {
        var a := script(attempt - 1);
        assert unique ==> OursAmong(a.traffic, event);
        PostedNext(old(posts), posts, script, attempt - 1);
        var code, retryAfter := Send(endpoint, event, a);
        lastCode := code;
        assert PostedOnce(old(posts), posts, script, attempt);
        if code.Some? && code.value in {202, 409} {
          if unique {
            FiledIsOurs(endpoint.accepted, event);
          }
          r := Ok(PublishResult(Emitted, attempt, lastCode, false));
          Concludes(r.value, |waits|, script, maxAttempts, attempt - 1);
          return r, waits;
        }
        if code.Some? && code.value in {400, 401, 403} {
          dlq := dlq + [(event, TerminalCode(code.value))];
          r := Ok(PublishResult(Rejected, attempt, lastCode, true));
          Concludes(r.value, |waits|, script, maxAttempts, attempt - 1);
          return r, waits;
        }
        if attempt < maxAttempts {
          if code == Some(429) && retryAfter.Some? {
            WaitsGrow(waits, backoff, script, retryAfter.value);
            waits := waits + [retryAfter.value];
          } else if backoff == [] {
            return Err(()), waits;
          } else {
            WaitsGrow(waits, backoff, script, Backoff(backoff, attempt));
            waits := waits + [Backoff(backoff, attempt)];
          }
        }
        attempt := attempt + 1;
      }
      dlq := dlq + [(event, Exhausted(maxAttempts))];
      r := Ok(PublishResult(DeadLettered, maxAttempts, lastCode, true));
      Concludes(r.value, |waits|, script, maxAttempts, n);
    }
  }

  lemma NoWaits(backoff: seq<real>, script: nat -> Attempt)
    ensures WaitsFollow([], backoff, script)
  {
  }

  lemma UniqueIdIsOnlyOurs(accepted: seq<Entry>, script: nat -> Attempt, e: Event)
    ensures UniqueId(accepted, script, e) ==> OnlyOurs(accepted, e) && forall i: nat :: OursAmong(script(i).traffic, e)
  {
  }

  /** Whatever is filed under this event's key is this event. */
  ghost predicate OnlyOurs(accepted: seq<Entry>, e: Event) {
    forall x :: x in accepted && x.tenant == e.tenant && x.id == e.id ==> x.event == e
  }

  lemma FiledIsOurs(accepted: seq<Entry>, e: Event)
    requires HasKey(accepted, e.tenant, e.id) && OnlyOurs(accepted, e)
    ensures Entry(e.tenant, e.id, e) in accepted
  {
    var i :| 0 <= i < |accepted| && accepted[i].tenant == e.tenant && accepted[i].id == e.id;
    assert accepted[i] in accepted;
    assert accepted[i] == Entry(e.tenant, e.id, e);
  }

  /** Other clients post; none of it can displace or forge this event. */
  method OtherTraffic(endpoint: Endpoint, event: Event, traffic: seq<(Request, bool)>)
    requires ValidLog(endpoint.accepted)
    modifies endpoint
    ensures ValidLog(endpoint.accepted) && old(endpoint.accepted) <= endpoint.accepted
    ensures OnlyOurs(old(endpoint.accepted), event) && OursAmong(traffic, event) ==> OnlyOurs(endpoint.accepted, event)
  {
    for i := 0 to |traffic|
      invariant ValidLog(endpoint.accepted) && old(endpoint.accepted) <= endpoint.accepted
      invariant OnlyOurs(old(endpoint.accepted), event) && OursAmong(traffic, event) ==>
                  OnlyOurs(endpoint.accepted, event)
    {
      IngestIsWriteOnce(endpoint.accepted, traffic[i].0, traffic[i].1);
      assert traffic[i] in traffic;
      var _, _ := endpoint.Ingest(traffic[i].0, traffic[i].1);
    }
  }

  /**
   Without unique ids emission does not mean delivery: if another event is already filed under
   the key, the endpoint answers 409, the publisher reports success, and the event is never replayed.
   */
  lemma CollidingIdIsDropped(accepted: seq<Entry>, e: Event, other: Event)
    requires ValidLog(accepted) && Entry(e.tenant, e.id, other) in accepted && other != e
    ensures Ingested(accepted, Request(e.tenant, Some(e)), false) == (accepted, 409)
    ensures multiset(ReplayOf(accepted, e.tenant))[e] == 0
  {
    var i :| 0 <= i < |accepted| && accepted[i] == Entry(e.tenant, e.id, other);
    ReplayedOnce(accepted, e);
  }
}
