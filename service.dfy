/** `bonjour_service`: resolves one named service to its full name, host and
    port. Resolution is one-shot: the first successful reply stops it. */
module BonjourService {
  import opened Wrappers
  import opened Utils
  import opened DnsSd
  import opened BonjourNamed
  import opened BonjourBase
  import opened ReplyAdapter

  /** A `notify_type` of bonjour_service: which of its two callbacks are set. */
  datatype ServiceNotify = ServiceNotify(stop: bool, resolve: bool)

  /** `notify_type()`: both callbacks null. */
  const DEFAULT: ServiceNotify := ServiceNotify(false, false)

  /** The session a service built from `named` holds when its constructor
      returns: a fresh copy of the identity's regtype and domain, then one
      resolve request when the name is not empty. */
  function AutoResolved(named: Identity, ok: bool): (st: SessionState)
    ensures st.regtype == named.regtype && st.domain == named.domain && st.events == []
    ensures named.name == "" ==> st == Fresh(named.regtype, named.domain)
    ensures named.name != "" ==> st.calls == [Begin(ResolveRequest(named))] && (IsActive(st) <==> ok)
  {
    var st := Fresh(named.regtype, named.domain);
    if |named.name| > 0 then AfterSpawn(st, ResolveRequest(named), ok).0 else st
  }

  /** A service starts resolving at construction exactly when it has a name,
      and is then active exactly when the facility accepted the request. */
  lemma AutoResolveIffNamed(named: Identity, ok: bool)
    ensures AutoResolved(named, ok).calls != [] <==> named.name != ""
    ensures IsActive(AutoResolved(named, ok)) <==> named.name != "" && ok
  {
  }

  class Service {
    const session: Session
    var name: string
    var fullname: string
    var host: string
    var port: uint16
    var notify: ServiceNotify

    /** The identity this object resolves. */
    function Named(): Identity
      reads this, session
    {
      Identity(name, session.regtype, session.domain)
    }

    /** `bonjour_service(named, notify)`: copies the identity (never a
        worker), clears the resolved fields, and resolves when the name is
        not empty; `ok` is the facility's answer to that request. */
    constructor FromNamed(named: Identity, notify: ServiceNotify, ok: bool)
      ensures fresh(session)
      ensures Named() == named
      ensures fullname == "" && host == "" && port == 0 && this.notify == notify
      ensures session.State() == AutoResolved(named, ok)
    {
      session := new Session.Copy(named.regtype, named.domain);
      name := named.name;
      fullname := "";
      host := "";
      port := 0;
      this.notify := notify;
      new;
      if |name| > 0 {
        var _ := Resolve(ok);
      }
    }

    /** `bonjour_service(name, regtype, domain, notify)`: the same, for the
        identity the three strings validate to. */
    constructor (name: string, regtype: string, domain: Option<string>, notify: ServiceNotify, ok: bool)
      ensures fresh(session)
      ensures Named() == MakeIdentity(name, regtype, domain)
      ensures fullname == "" && host == "" && port == 0 && this.notify == notify
      ensures session.State() == AutoResolved(MakeIdentity(name, regtype, domain), ok)
    {
      var named := MakeIdentity(name, regtype, domain);
      session := new Session.Copy(named.regtype, named.domain);
      this.name := named.name;
      fullname := "";
      host := "";
      port := 0;
      this.notify := notify;
      new;
      if |this.name| > 0 {
        var _ := Resolve(ok);
      }
    }

    /** The copy constructor: a service with empty strings, assigned from `rhs`.
        It has every stored field of `rhs` and is inactive with nothing called. */
    constructor Copy(rhs: Service)
      ensures fresh(session)
      ensures Named() == rhs.Named()
      ensures fullname == rhs.fullname && host == rhs.host && port == rhs.port && notify == rhs.notify
      ensures session.State() == Fresh(rhs.session.regtype, rhs.session.domain)
    {
      session := new Session("", Some(""));
      name := ValidateName("");
      fullname := "";
      host := "";
      port := 0;
      notify := DEFAULT;
      new;
      Assign(rhs);
    }

    /** `operator =`: stops this service first, then copies the identity,
        fullname, host, port and notify of `rhs`; `rhs` is not changed.
        Self-assignment is allowed (the mutex is recursive) and only stops. */
    method Assign(rhs: Service)
      modifies this, session
      ensures Named() == old(rhs.Named())
      ensures fullname == old(rhs.fullname) && host == old(rhs.host) && port == old(rhs.port)
      ensures notify == old(rhs.notify)
      ensures session.State() ==
              AfterStop(old(session.State())).(regtype := old(rhs.session.regtype), domain := old(rhs.session.domain))
      ensures !session.Active()
    {
      session.Stop();
      session.Assign(rhs.session);
      name := rhs.name;
      fullname := rhs.fullname;
      host := rhs.host;
      port := rhs.port;
      notify := rhs.notify;
    }

    /** `resolve()`: asks the facility to resolve this object's identity; a
        no-op returning true while active. */
    method Resolve(ok: bool) returns (r: bool)
      modifies session
      ensures Named() == old(Named())
      ensures (session.State(), r) == AfterSpawn(old(session.State()), ResolveRequest(old(Named())), ok)
    {
      r := session.Spawn(ResolveRequest(Named()), ok);
    }

    /** `fullname()` */
    function FullName(): (s: string)
      reads this
      ensures s == fullname
    {
      fullname
    }

    /** `host()` */
    function Host(): (s: string)
      reads this
      ensures s == host
    {
      host
    }

    /** `port()`: the port as the facility delivered it (network byte order). */
    function Port(): (p: uint16)
      reads this
      ensures p == port
    {
      port
    }

    /** `reply(flags, fullname, host, port)`: stores the three resolved values,
        stops the resolution, then notifies the resolve callback with them. */
    method Reply(flags: Flags, fullname: string, host: string, port: uint16)
      modifies this, session
      ensures this.fullname == fullname && this.host == host && this.port == port
      ensures name == old(name) && notify == old(notify)
      ensures session.State() ==
              AfterStopNotify(old(session.State()), notify.resolve, Resolved(fullname, host, port, IsComplete(flags)))
    {
      var complete := IsComplete(flags);
      this.fullname := fullname;
      this.host := host;
      this.port := port;
      session.Stop();
      session.Notify(notify.resolve, Resolved(fullname, host, port, complete));
    }

    /** `callback_type::reply` for `DNSServiceResolveReply`: the error code is at
        position 3; positions 1, 4, 5, 6 are the flags, full name, host target
        and port; the object is the context argument. Either way the service
        ends inactive. */
    static method Callback(args: seq<Arg<Service>>)
      requires Conforms(RESOLVE_SHAPE, args)
      modifies args[|args| - 1].target, args[|args| - 1].target.session
      ensures var obj := args[|args| - 1].target;
              && !obj.session.Active()
              && obj.name == old(obj.name) && obj.notify == old(obj.notify)
              && if args[3].code == NO_ERROR then
                   && obj.fullname == args[4].text && obj.host == args[5].text && obj.port == args[6].port
                   && obj.session.State() == AfterStopNotify(old(obj.session.State()), obj.notify.resolve,
                        Resolved(args[4].text, args[5].text, args[6].port, IsComplete(args[1].flags)))
                 else
                   && obj.fullname == old(obj.fullname) && obj.host == old(obj.host) && obj.port == old(obj.port)
                   && obj.session.State() == AfterStopNotify(old(obj.session.State()), obj.notify.stop, Stopped)
    {
      ShapesWellFormed();
      assert KindOf(args[1]) == FlagsKind && KindOf(args[4]) == TextKind;
      assert KindOf(args[5]) == TextKind && KindOf(args[6]) == PortKind;
      var d := Adapt(RESOLVE_SHAPE, args);
      var obj := d.target;
      if d.Forward? {
        obj.Reply(d.forwarded[0].flags, d.forwarded[1].text, d.forwarded[2].text, d.forwarded[3].port);
      } else {
        obj.session.StopNotify(obj.notify.stop, Stopped);
      }
    }
  }
}
