/** `bonjour_browse`: browses for services of one type and keeps the list of
    those currently discovered, without duplicates. */
module BonjourBrowse {
  import opened Wrappers
  import opened Utils
  import opened DnsSd
  import opened BonjourNamed
  import opened BonjourBase
  import opened StateNotify
  import opened ReplyAdapter

  /** The list with every element equal to `x` left out, the rest in order. */
  function Without(s: seq<Identity>, x: Identity): (r: seq<Identity>)
    ensures x !in r
    ensures forall y :: y in r <==> y in s && y != x
    ensures |r| <= |s|
  {
    if s == [] then []
    else if s[0] == x then Without(s[1..], x)
    else [s[0]] + Without(s[1..], x)
  }

  /** The update `reply` makes to the discovered list for an identity: an Add
      appends it when no equal identity is present, a remove erases the
      first equal one when present. */
  function Discovered(services: seq<Identity>, add: bool, named: Identity): (r: seq<Identity>)
    ensures add && named in services ==> r == services
    ensures add && named !in services ==> r == services + [named]
    ensures !add && named !in services ==> r == services
    ensures !add ==> |r| == |services| - (if named in services then 1 else 0)
  {
    var i := Find(services, named);
    if add then
      if i == |services| then services + [named] else services
    else
      if i < |services| then RemoveAt(services, i) else services
  }

  /** Without an element that is not there changes nothing. */
  lemma {:induction false} WithoutAbsent(s: seq<Identity>, x: Identity)
    requires x !in s
    ensures Without(s, x) == s
  {
    if s != [] {
      WithoutAbsent(s[1..], x);
    }
  }

  /** On a list without duplicates, erasing the first equal element is the
      same as leaving out every equal element, keeping the others in order. */
  lemma {:induction false} RemoveFirstIsWithout(s: seq<Identity>, x: Identity)
    requires NoDuplicates(s)
    requires x in s
    ensures RemoveAt(s, Find(s, x)) == Without(s, x)
  {
    NoDuplicatesTail(s);
    if s[0] == x {
      WithoutAbsent(s[1..], x);
      assert RemoveAt(s, 0) == s[1..];
    } else {
      assert x in s[1..];
      RemoveFirstIsWithout(s[1..], x);
      assert Find(s, x) == 1 + Find(s[1..], x);
      RemoveAtTail(s, Find(s, x));
    }
  }

  /** Erasing past the head erases in the tail. */
  lemma RemoveAtTail<T>(s: seq<T>, i: nat)
    requires 0 < i < |s|
    ensures RemoveAt(s, i) == [s[0]] + RemoveAt(s[1..], i - 1)
  {
  }

  /** Without duplicates, the head does not recur in the tail, which has no
      duplicates either. */
  lemma NoDuplicatesTail(s: seq<Identity>)
    requires NoDuplicates(s) && s != []
    ensures s[0] !in s[1..] && NoDuplicates(s[1..])
  {
    forall k | 0 <= k < |s[1..]| ensures s[1..][k] != s[0] {
      assert s[1..][k] == s[k + 1];
    }
  }

  /** Leaving elements out of a list without duplicates keeps it without duplicates. */
  lemma {:induction false} WithoutNoDuplicates(s: seq<Identity>, x: Identity)
    requires NoDuplicates(s)
    ensures NoDuplicates(Without(s, x))
  {
    if s != [] {
      assert NoDuplicates(s[1..]) by {
        forall i, j | 0 <= i < j < |s[1..]| ensures s[1..][i] != s[1..][j] {
          assert s[1..][i] == s[i + 1] && s[1..][j] == s[j + 1];
        }
      }
      WithoutNoDuplicates(s[1..], x);
      if s[0] != x {
        assert s[0] !in s[1..] by {
          forall k | 0 <= k < |s[1..]| ensures s[1..][k] != s[0] {
            assert s[1..][k] == s[k + 1];
          }
        }
        assert s[0] !in Without(s[1..], x);
      }
    }
  }

  /** The reply keeps the discovered list free of duplicates; after an Add the
      identity is listed, after a remove it is not, and every other identity
      is listed exactly when it was before. */
  lemma DiscoveredInvariant(services: seq<Identity>, add: bool, named: Identity)
    requires NoDuplicates(services)
    ensures NoDuplicates(Discovered(services, add, named))
    ensures add ==> named in Discovered(services, add, named)
    ensures !add ==> Discovered(services, add, named) == Without(services, named)
    ensures forall y :: y != named ==> (y in Discovered(services, add, named) <==> y in services)
  {
    if !add && named in services {
      RemoveFirstIsWithout(services, named);
      WithoutNoDuplicates(services, named);
    } else if !add {
      WithoutAbsent(services, named);
    }
  }

  /** An identity discovered and later removed leaves the list it entered as
      it was. */
  lemma AddThenRemove(services: seq<Identity>, named: Identity)
    requires named !in services
    ensures Discovered(Discovered(services, true, named), false, named) == services
  {
  }

  class Browse {
    const session: Session
    const notify: Callbacks
    var services: seq<Identity>

    /** `m_services` never holds two equal identities. */
    ghost predicate Valid()
      reads this
    {
      NoDuplicates(services)
    }

    /** `bonjour_browse(regtype, domain, notify)` */
    constructor (regtype: string, domain: Option<string>, notify: Callbacks)
      ensures Valid() && fresh(session)
      ensures services == [] && this.notify == notify
      ensures session.State() == Fresh(ValidateRegtype(regtype), ValidateDomain(domain))
    {
      session := new Session(regtype, domain);
      this.notify := notify;
      services := [];
    }

    /** `start()`: empties the list, even when already browsing, then spawns a
        browse for this object's regtype and domain. */
    method Start(ok: bool) returns (r: bool)
      modifies this, session
      ensures Valid() && services == []
      ensures (session.State(), r) ==
              AfterSpawn(old(session.State()), BrowseRequest(old(session.regtype), old(session.domain)), ok)
    {
      Clear();
      r := session.Spawn(BrowseRequest(session.regtype, session.domain), ok);
    }

    /** `clear()` */
    method Clear()
      modifies this
      ensures Valid() && services == []
    {
      services := [];
    }

    /** `list_services(services)`: a copy of the current list. */
    method ListServices() returns (s: seq<Identity>)
      ensures s == services
    {
      s := services;
    }

    /** `reply(flags, name, regtype, domain)`: updates the list for the identity
        the reply names (its domain validated), then notifies the add or the
        remove callback with the reply's strings, whether or not the list changed. */
    method Reply(flags: Flags, serviceName: string, serviceType: string, replyDomain: string)
      requires Valid()
      modifies this, session
      ensures Valid()
      ensures services == Discovered(old(services), IsAdd(flags), MakeIdentity(serviceName, serviceType, Some(replyDomain)))
      ensures session.State() ==
              old(session.State()).(events := old(session.events) + ReplyEvents(notify, flags, serviceName, serviceType, replyDomain))
    {
      var complete := IsComplete(flags);
      var named := MakeIdentity(serviceName, serviceType, Some(replyDomain));
      DiscoveredInvariant(services, IsAdd(flags), named);
      var i := FindFirst(services, named);
      if IsAdd(flags) {
        if i == |services| {
          services := services + [named];
        }
        session.Notify(notify.add, Added(serviceName, serviceType, replyDomain, complete));
      } else {
        if i < |services| {
          services := RemoveAt(services, i);
        }
        session.Notify(notify.remove, Removed(serviceName, serviceType, replyDomain, complete));
      }
    }

    /** `callback_type::reply` for `DNSServiceBrowseReply`: the error code is at
        position 3; positions 1, 4, 5, 6 are the flags, service name, regtype and
        reply domain; the object is the context argument. */
    static method Callback(args: seq<Arg<Browse>>)
      requires Conforms(BROWSE_SHAPE, args)
      requires args[|args| - 1].target.Valid()
      modifies args[|args| - 1].target, args[|args| - 1].target.session
      ensures var obj := args[|args| - 1].target;
              obj.Valid() &&
              if args[3].code == NO_ERROR then
                && obj.services == Discovered(old(obj.services), IsAdd(args[1].flags),
                                              MakeIdentity(args[4].text, args[5].text, Some(args[6].text)))
                && obj.session.State() == old(obj.session.State()).(events := old(obj.session.events) +
                     ReplyEvents(obj.notify, args[1].flags, args[4].text, args[5].text, args[6].text))
              else
                && obj.services == old(obj.services)
                && obj.session.State() == AfterStopNotify(old(obj.session.State()), obj.notify.stop, Stopped)
    {
      ShapesWellFormed();
      assert KindOf(args[1]) == FlagsKind && KindOf(args[4]) == TextKind;
      assert KindOf(args[5]) == TextKind && KindOf(args[6]) == TextKind;
      var d := Adapt(BROWSE_SHAPE, args);
      var obj := d.target;
      if d.Forward? {
        obj.Reply(d.forwarded[0].flags, d.forwarded[1].text, d.forwarded[2].text, d.forwarded[3].text);
      } else {
        obj.session.StopNotify(obj.notify.stop, Stopped);
      }
    }
  }
}
