/** `bonjour_base`: the supervision of one outstanding asynchronous operation
    of the discovery facility. The worker thread (`bonjour_thread`) that polls
    the facility is not modelled; the session only knows whether it holds a
    handle to one. Calls into the facility are recorded in a ghost trace, and
    the user's notification callbacks in a ghost event log. */
module BonjourBase {
  import opened Wrappers
  import opened DnsSd
  import Utils
  import opened BonjourNamed

  /** `m_thread`: null, or a pointer to a running worker. */
  datatype WorkerHandle = NoWorker | Worker

  /** The start request a session passes to the facility (`T::service`). */
  datatype Request =
    | RegisterRequest(named: Identity, port: uint16)
    | BrowseRequest(regtype: string, domain: string)
    | ResolveRequest(named: Identity)

  /** What the session does to the facility: begin an operation, or tell the
      worker that owns one to end it (`bonjour_thread::stop`). */
  datatype FacilityCall = Begin(request: Request) | Cancel

  /** A call of one of the user's notification callbacks (`bonjour_notify`),
      with the arguments after the object pointer. */
  datatype Event =
    | Stopped
    | Added(name: string, regtype: string, domain: string, complete: bool)
    | Removed(name: string, regtype: string, domain: string, complete: bool)
    | Resolved(fullname: string, host: string, port: uint16, complete: bool)

  /** The whole state of a session, as a value. */
  datatype SessionState = SessionState(
    regtype: string,
    domain: string,
    worker: WorkerHandle,
    calls: seq<FacilityCall>,
    events: seq<Event>)

  /** `active()`: a worker handle is held. */
  predicate IsActive(st: SessionState) {
    st.worker.Worker?
  }

  /** The state a constructor produces: no worker, nothing called, nothing notified. */
  function Fresh(regtype: string, domain: string): (st: SessionState)
    ensures !IsActive(st) && st.calls == [] && st.events == []
    ensures st.regtype == regtype && st.domain == domain
  {
    SessionState(regtype, domain, NoWorker, [], [])
  }

  /** `stop()`: when active, the worker is told to end and the handle is
      dropped; when inactive, nothing happens. */
  function AfterStop(st: SessionState): (r: SessionState)
    ensures !IsActive(r)
    ensures IsActive(st) ==> r == st.(worker := NoWorker, calls := st.calls + [Cancel])
    ensures !IsActive(st) ==> r == st
  {
    if IsActive(st) then st.(worker := NoWorker, calls := st.calls + [Cancel]) else st
  }

  /** `spawn(object, args...)`: when inactive, the facility is called once with
      the request, and a worker is spawned exactly when it answers NoError
      (`ok`); when active, nothing happens. The result is `active()` afterwards. */
  function AfterSpawn(st: SessionState, req: Request, ok: bool): (r: (SessionState, bool))
    ensures r.1 == IsActive(r.0)
    ensures IsActive(st) ==> r == (st, true)
    ensures !IsActive(st) ==> r.0 == st.(worker := r.0.worker, calls := st.calls + [Begin(req)])
    ensures !IsActive(st) ==> (r.1 <==> ok)
  {
    if IsActive(st) then (st, true)
    else
      var called := st.(calls := st.calls + [Begin(req)]);
      if ok then (called.(worker := Worker), true) else (AfterStop(called), false)
  }

  /** `notify(func, args...)`: the callback is called only when it is not null. */
  function AfterNotify(st: SessionState, installed: bool, e: Event): (r: SessionState)
    ensures installed ==> r == st.(events := st.events + [e])
    ensures !installed ==> r == st
  {
    if installed then st.(events := st.events + [e]) else st
  }

  /** `stop_notify(func, args...)`: stop, then at most one notification. */
  function AfterStopNotify(st: SessionState, installed: bool, e: Event): (r: SessionState)
    ensures !IsActive(r)
    ensures r.regtype == st.regtype && r.domain == st.domain
    ensures r.calls == st.calls + (if IsActive(st) then [Cancel] else [])
    ensures r.events == st.events + (if installed then [e] else [])
  {
    AfterNotify(AfterStop(st), installed, e)
  }

  /** Stopping twice is stopping once. */
  lemma StopIdempotent(st: SessionState)
    ensures AfterStop(AfterStop(st)) == AfterStop(st)
  {
  }

  /** Whatever the facility answers, spawning leaves the identity fields and
      the notification log as they were, and calls the facility at most once. */
  lemma SpawnCallsAtMostOnce(st: SessionState, req: Request, ok: bool)
    ensures var r := AfterSpawn(st, req, ok).0;
            r.regtype == st.regtype && r.domain == st.domain && r.events == st.events &&
            (r.calls == st.calls || r.calls == st.calls + [Begin(req)])
  {
  }

  /** One `bonjour_base` object: its service type, its domain and its worker handle. */
  class Session {
    var regtype: string
    var domain: string
    var worker: WorkerHandle
    ghost var calls: seq<FacilityCall>
    ghost var events: seq<Event>

    ghost function State(): SessionState
      reads this
    {
      SessionState(regtype, domain, worker, calls, events)
    }

    /** `bonjour_base(regtype, domain)`: both validated, no worker. */
    constructor (regtype: string, domain: Option<string>)
      ensures State() == Fresh(Utils.ValidateRegtype(regtype), Utils.ValidateDomain(domain))
    {
      this.regtype := Utils.ValidateRegtype(regtype);
      this.domain := Utils.ValidateDomain(domain);
      worker := NoWorker;
      calls := [];
      events := [];
    }

    /** The copy constructor: regtype and domain of the original, never its worker. */
    constructor Copy(regtype: string, domain: string)
      ensures State() == Fresh(regtype, domain)
    {
      this.regtype := regtype;
      this.domain := domain;
      worker := NoWorker;
      calls := [];
      events := [];
    }

    /** `operator =`: copies regtype and domain; the worker handle stays as it is. */
    method Assign(rhs: Session)
      modifies this
      ensures State() == old(State()).(regtype := old(rhs.regtype), domain := old(rhs.domain))
    {
      regtype, domain := rhs.regtype, rhs.domain;
    }

    /** `active()` */
    function Active(): (b: bool)
      reads this
      ensures b == IsActive(State())
    {
      worker.Worker?
    }

    /** `stop()` */
    method Stop()
      modifies this
      ensures State() == AfterStop(old(State()))
    {
      if Active() {
        calls := calls + [Cancel];
        worker := NoWorker;
      }
    }

    /** `spawn(object, args...)`, where `ok` is whether the facility's start
        call returned NoError. */
    method Spawn(req: Request, ok: bool) returns (r: bool)
      modifies this
      ensures (State(), r) == AfterSpawn(old(State()), req, ok)
    {
      if !Active() {
        calls := calls + [Begin(req)];
        if ok {
          worker := Worker;
        } else {
          Stop();
        }
      }
      r := Active();
    }

    /** `notify(func, args...)`, where `installed` is whether `func` is not null. */
    method Notify(installed: bool, e: Event)
      modifies this
      ensures State() == AfterNotify(old(State()), installed, e)
    {
      if installed {
        events := events + [e];
      }
    }

    /** `stop_notify(func, args...)` */
    method StopNotify(installed: bool, e: Event)
      modifies this
      ensures State() == AfterStopNotify(old(State()), installed, e)
    {
      Stop();
      Notify(installed, e);
    }
  }
}

/** What the register and browse reply handlers tell the user: both have a
    `notify_type` with a stop, an add and a remove callback, and both pick
    the add or the remove callback by the Add bit. */
module StateNotify {
  import opened DnsSd
  import opened BonjourBase

  /** A `notify_type` of bonjour_register or bonjour_browse: which of its three
      callbacks are set (not null). */
  datatype Callbacks = Callbacks(stop: bool, add: bool, remove: bool)

  /** `notify_type()`: every callback null. */
  const DEFAULT: Callbacks := Callbacks(false, false, false)

  /** The notifications of one reply (flags, name, regtype, domain): the add
      callback when the Add bit is set, the remove callback otherwise, each
      only when installed, with the reply's own strings and with `complete`
      exactly when MoreComing is clear. */
  function ReplyEvents(cb: Callbacks, flags: Flags, name: string, regtype: string, domain: string): (r: seq<Event>)
    ensures |r| <= 1
    ensures r != [] <==> (if IsAdd(flags) then cb.add else cb.remove)
    ensures r != [] ==> (r[0].Added? <==> IsAdd(flags)) && (r[0].Added? || r[0].Removed?)
    ensures r != [] ==>
              && (r[0].Added? || r[0].Removed?)
              && r[0].name == name && r[0].regtype == regtype && r[0].domain == domain
              && (r[0].complete <==> IsComplete(flags))
  {
    var complete := IsComplete(flags);
    if IsAdd(flags) then
      if cb.add then [Added(name, regtype, domain, complete)] else []
    else
      if cb.remove then [Removed(name, regtype, domain, complete)] else []
  }

  /** With the default callbacks a reply notifies nothing. */
  lemma DefaultNotifiesNothing(flags: Flags, name: string, regtype: string, domain: string)
    ensures ReplyEvents(DEFAULT, flags, name, regtype, domain) == []
  {
  }
}
