/** `bonjour_register`: advertises one named service on a port. Its reply
    handler keeps no list; it only relays add and remove notifications. */
module BonjourRegister {
  import opened Wrappers
  import opened DnsSd
  import opened BonjourNamed
  import opened BonjourBase
  import opened StateNotify
  import opened ReplyAdapter

  class Register {
    const name: string
    const session: Session
    const port: uint16
    const notify: Callbacks

    /** The identity this object registers. */
    function Named(): Identity
      reads session
    {
      Identity(name, session.regtype, session.domain)
    }

    /** `bonjour_register(name, regtype, domain, port, notify)` */
    constructor (name: string, regtype: string, domain: Option<string>, port: uint16, notify: Callbacks)
      ensures fresh(session)
      ensures Named() == MakeIdentity(name, regtype, domain)
      ensures this.port == port && this.notify == notify
      ensures session.State() == Fresh(regtype, Named().domain)
    {
      this.name := name;
      session := new Session(regtype, domain);
      this.port := port;
      this.notify := notify;
    }

    /** `port()`: the port given at construction. */
    function Port(): (p: uint16)
      ensures p == port
    {
      port
    }

    /** `start()`: asks the facility to register this object's own name,
        regtype, domain and port; a no-op returning true while active. */
    method Start(ok: bool) returns (r: bool)
      modifies session
      ensures (session.State(), r) == AfterSpawn(old(session.State()), RegisterRequest(old(Named()), port), ok)
    {
      r := session.Spawn(RegisterRequest(Named(), port), ok);
    }

    /** `reply(flags, name, regtype, domain)`: relays the reply to the add or the
        remove callback; nothing stored changes. */
    method Reply(flags: Flags, serviceName: string, serviceType: string, replyDomain: string)
      modifies session
      ensures session.State() ==
              old(session.State()).(events := old(session.events) + ReplyEvents(notify, flags, serviceName, serviceType, replyDomain))
    {
      var complete := IsComplete(flags);
      if IsAdd(flags) {
        session.Notify(notify.add, Added(serviceName, serviceType, replyDomain, complete));
      } else {
        session.Notify(notify.remove, Removed(serviceName, serviceType, replyDomain, complete));
      }
    }

    /** `callback_type::reply` for `DNSServiceRegisterReply`: the error code is at
        position 2; positions 1, 3, 4, 5 are the flags, name, regtype and domain;
        the object is the context argument. */
    static method Callback(args: seq<Arg<Register>>)
      requires Conforms(REGISTER_SHAPE, args)
      modifies args[|args| - 1].target.session
      ensures var obj := args[|args| - 1].target;
              if args[2].code == NO_ERROR then
                obj.session.State() == old(obj.session.State()).(events := old(obj.session.events) +
                  ReplyEvents(obj.notify, args[1].flags, args[3].text, args[4].text, args[5].text))
              else
                obj.session.State() == AfterStopNotify(old(obj.session.State()), obj.notify.stop, Stopped)
    {
      ShapesWellFormed();
      assert KindOf(args[1]) == FlagsKind && KindOf(args[3]) == TextKind;
      assert KindOf(args[4]) == TextKind && KindOf(args[5]) == TextKind;
      var d := Adapt(REGISTER_SHAPE, args);
      var obj := d.target;
      if d.Forward? {
        obj.Reply(d.forwarded[0].flags, d.forwarded[1].text, d.forwarded[2].text, d.forwarded[3].text);
      } else {
        obj.session.StopNotify(obj.notify.stop, Stopped);
      }
    }
  }
}
