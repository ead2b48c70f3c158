/** `bonjour_peer`: registers one service and browses for others of the same
    type, keeping a list of resolvers for the peers it has seen. It has no
    notifications of its own; the list is brought up to date on demand by
    `list_peers`. */
module BonjourPeer {
  import opened Wrappers
  import opened DnsSd
  import opened BonjourNamed
  import opened BonjourBase
  import StateNotify
  import opened BonjourRegister
  import opened BonjourBrowse
  import opened BonjourService
  import opened PeerReconcile

  /** `bonjour_peer_options::modes` */
  datatype Mode = BrowseOnly | RegisterOnly | Both

  /** `bonjour_peer_options` */
  datatype PeerOptions = PeerOptions(mode: Mode, selfDiscover: bool)

  /** `bonjour_peer_options()`: browse and register, without self-discovery. */
  const DEFAULT_OPTIONS: PeerOptions := PeerOptions(Both, false)

  /** The identities of a list of services, in order. */
  function Names(ps: seq<Service>): (r: seq<Identity>)
    reads set p | p in ps, set p | p in ps :: p.session
    ensures |r| == |ps|
    ensures forall i :: 0 <= i < |ps| ==> r[i] == ps[i].Named()
    decreases |ps|
  {
    if ps == [] then [] else Names(ps[..|ps| - 1]) + [ps[|ps| - 1].Named()]
  }

  /** Every service in the list owns its own session, and none of them is one
      of `others`: each list element is a separate C++ object with its own base. */
  ghost predicate Separate(ps: seq<Service>, others: set<Session>) {
    && (forall i, j :: 0 <= i < j < |ps| ==> ps[i].session != ps[j].session)
    && (forall i :: 0 <= i < |ps| ==> ps[i].session !in others)
  }

  /** Selecting from separate services keeps them separate. */
  lemma {:induction false} SeparateSelect(ps: seq<Service>, keep: seq<bool>, others: set<Session>)
    requires |keep| == |ps| && Separate(ps, others)
    ensures Separate(Select(ps, keep), others)
    decreases |ps|
  {
    if ps != [] {
      var n := |ps| - 1;
      var pre := ps[..n];
      assert Separate(pre, others) by {
        assert forall i :: 0 <= i < n ==> pre[i] == ps[i];
      }
      SeparateSelect(pre, keep[..n], others);
      var s := Select(pre, keep[..n]);
      assert Select(ps, keep) == s + (if keep[n] then [ps[n]] else []);
      if keep[n] {
        var r := s + [ps[n]];
        forall a, b | 0 <= a < b < |r| ensures r[a].session != r[b].session {
          if b == |s| {
            assert r[a] == s[a] && s[a] in pre;
            var k :| 0 <= k < n && pre[k] == r[a];
            assert ps[k] == r[a];
          } else {
            assert r[a] == s[a] && r[b] == s[b];
          }
        }
        forall a | 0 <= a < |r| ensures r[a].session !in others {
          if a < |s| {
            assert r[a] == s[a] && s[a] in pre;
          }
        }
      }
    }
  }

  /** A list extending `peers` by services named `added` is named by the
      names of `peers` followed by `added`. */
  lemma NamesExtended(peers: seq<Service>, ps: seq<Service>, added: seq<Identity>)
    requires |ps| == |peers| + |added| && ps[..|peers|] == peers
    requires forall q :: |peers| <= q < |ps| ==> Stored(ps[q]).0 == added[q - |peers|]
    ensures Names(ps) == Names(peers) + added
  {
    assert ps == peers + ps[|peers|..];
    NamesAppend(peers, ps[|peers|..]);
    assert Names(ps[|peers|..]) == added;
  }

  /** Erasing a peer erases its identity. */
  lemma NamesRemoveAt(ps: seq<Service>, i: nat)
    requires i < |ps|
    ensures Names(RemoveAt(ps, i)) == RemoveAt(Names(ps), i)
  {
  }

  /** The names of the selected services are the selected names. */
  lemma {:induction false} NamesSelect(ps: seq<Service>, keep: seq<bool>)
    requires |keep| == |ps|
    ensures Names(Select(ps, keep)) == Select(Names(ps), keep)
    decreases |ps|
  {
    if ps != [] {
      var n := |ps| - 1;
      var s := Select(ps[..n], keep[..n]);
      var ids := Names(ps);
      NamesSelect(ps[..n], keep[..n]);
      assert ids[..n] == Names(ps[..n]);
      assert Select(ids, keep) == Select(ids[..n], keep[..n]) + (if keep[n] then [ids[n]] else []);
      assert Select(ps, keep) == s + (if keep[n] then [ps[n]] else []);
      NamesAppend(s, if keep[n] then [ps[n]] else []);
    }
  }

  /** The self-resolver of the root variant: resolved once at construction
      when the registered name is not empty, then `resolve()` again, which
      only calls the facility if the first attempt did not start. */
  lemma SelfResolverCalls(named: Identity, autoOk: bool, resolveOk: bool)
    ensures var st := AfterSpawn(AutoResolved(named, autoOk), ResolveRequest(named), resolveOk).0;
            var first := named.name != "";
            && (IsActive(st) <==> (first && autoOk) || resolveOk)
            && st.calls == (if first then [Begin(ResolveRequest(named))] else []) +
                           (if first && autoOk then [] else [Begin(ResolveRequest(named))])
            && st.events == []
  {
  }

  /** Everything a service holds: its identity, its stored resolve answer, its
      callbacks and the state of its session. */
  ghost function Stored(p: Service): (Identity, string, string, uint16, ServiceNotify, SessionState)
    reads p, p.session
  {
    (p.Named(), p.fullname, p.host, p.port, p.notify, p.session.State())
  }

  /** A resolver `list_peers` has just added: nothing resolved yet, the
      default callbacks, and the session its constructor left. */
  ghost predicate NewResolver(p: Service, resolveOk: Identity -> bool)
    reads p, p.session
  {
    IsNewResolver(Stored(p), resolveOk)
  }

  /** `NewResolver` on the stored fields. */
  predicate IsNewResolver(s: (Identity, string, string, uint16, ServiceNotify, SessionState),
                          resolveOk: Identity -> bool)
  {
    && s.1 == "" && s.2 == "" && s.3 == 0
    && s.4 == BonjourService.DEFAULT
    && s.5 == AutoResolved(s.0, resolveOk(s.0))
  }

  /** `c` holds what `p` holds: its identity, resolved fields and callbacks. */
  ghost predicate Holds(c: Service, p: Service)
    reads c, c.session, p, p.session
  {
    SameHeld(Stored(c), Stored(p))
  }

  /** `Holds` on the stored fields: all but the session state agree. */
  predicate SameHeld(a: (Identity, string, string, uint16, ServiceNotify, SessionState),
                     b: (Identity, string, string, uint16, ServiceNotify, SessionState))
  {
    a.0 == b.0 && a.1 == b.1 && a.2 == b.2 && a.3 == b.3 && a.4 == b.4
  }

  /** `c` is a copy of `p`: it holds what `p` holds, and has a session with the
      same regtype and domain that was never started. */
  ghost predicate IsCopy(c: Service, p: Service)
    reads c, c.session, p, p.session
  {
    Holds(c, p) && c.session.State() == Fresh(p.session.regtype, p.session.domain)
  }

  /** The session state `st` of a service once `operator =` has assigned over
      it a service whose session is in state `rhs`: stopped, and holding the
      regtype and domain of `rhs`. */
  function AssignedState(st: SessionState, rhs: SessionState): SessionState {
    AfterStop(st).(regtype := rhs.regtype, domain := rhs.domain)
  }

  /** The services of `dst` are objects of their own: no two share an object
      or a session, and none is, or shares a session with, one of `src`. */
  ghost predicate Apart(dst: seq<Service>, src: seq<Service>) {
    && (forall i, j :: 0 <= i < j < |dst| ==> dst[i] != dst[j] && dst[i].session != dst[j].session)
    && (forall i, j :: 0 <= i < |dst| && 0 <= j < |src| ==> dst[i] != src[j] && dst[i].session != src[j].session)
  }

  /** The caller's list stays apart from the peers after an update: the kept
      peers come from `before`, and the new ones are objects the caller's
      list cannot hold. */
  lemma ApartKept(given: seq<Service>, before: seq<Service>, keep: seq<bool>, ps: seq<Service>)
    requires Apart(given, before) && |keep| == |before|
    requires var n := |Select(before, keep)|;
             && n <= |ps| && ps[..n] == Select(before, keep)
             && forall i, j :: 0 <= i < |given| && n <= j < |ps| ==> given[i] != ps[j] && given[i].session != ps[j].session
    ensures Apart(given, ps)
  {
    var kept := Select(before, keep);
    forall i, j | 0 <= i < |given| && 0 <= j < |kept|
      ensures given[i] != ps[j] && given[i].session != ps[j].session
    {
      assert ps[j] == kept[j] && kept[j] in kept;
      var k :| 0 <= k < |before| && before[k] == ps[j];
    }
  }

  /** The names of services whose identities are unchanged are unchanged. */
  twostate lemma NamesStable(ps: seq<Service>)
    requires forall q :: 0 <= q < |ps| ==> old(ps[q].Named()) == ps[q].Named()
    ensures old(Names(ps)) == Names(ps)
  {
  }

  /** The names of two lists joined are their names joined. */
  lemma {:induction false} NamesAppend(a: seq<Service>, b: seq<Service>)
    ensures Names(a + b) == Names(a) + Names(b)
    decreases |b|
  {
    if b != [] {
      var n := |b| - 1;
      NamesAppend(a, b[..n]);
      assert (a + b)[..|a| + n] == a + b[..n];
    }
  }

  class Peer {
    const options: PeerOptions
    const register: Register
    const browse: Browse
    /** `m_this_service` of the root variant; null for the variant without it. */
    const thisService: Service?
    var peers: seq<Service>

    /** The sessions the peer owns besides those of its peers. */
    function Owned(): set<Session> {
      {register.session, browse.session} + (if thisService == null then {} else {thisService.session})
    }

    ghost predicate Valid()
      reads this, browse, set p | p in peers, set p | p in peers :: p.session
    {
      && browse.Valid()
      && register.session != browse.session
      && (thisService != null ==> thisService.session != register.session && thisService.session != browse.session)
      && Separate(peers, Owned())
      && NoDuplicates(Names(peers))
    }

    /** No peer shares a session with the register, the browser or the self-resolver. */
    lemma PeersApart()
      requires Valid()
      ensures forall p :: p in peers ==> p.session !in Owned()
    {
      forall p | p in peers ensures p.session !in Owned() {
        var i :| 0 <= i < |peers| && peers[i] == p;
      }
    }

    /** `bonjour_peer(name, regtype, domain, port, options)` without a self-resolver. */
    constructor (name: string, regtype: string, domain: Option<string>, port: uint16, options: PeerOptions)
      ensures Valid()
      ensures this.options == options && thisService == null && peers == []
      ensures fresh(register) && fresh(register.session) && fresh(browse) && fresh(browse.session)
      ensures register.Named() == MakeIdentity(name, regtype, domain) && register.port == port
      ensures register.notify == StateNotify.DEFAULT && browse.notify == StateNotify.DEFAULT
      ensures register.session.State() == Fresh(regtype, register.Named().domain)
      ensures browse.services == [] && browse.session.State() == Fresh(regtype, register.Named().domain)
    {
      this.options := options;
      register := new Register(name, regtype, domain, port, StateNotify.DEFAULT);
      browse := new Browse(regtype, domain, StateNotify.DEFAULT);
      thisService := null;
      peers := [];
    }

    /** The root variant's constructor: as above, and `m_this_service` is built
        from the registered identity (resolving it when the name is not empty,
        with the facility answering `autoOk`) and then resolved (`resolveOk`). */
    constructor WithSelfResolver(name: string, regtype: string, domain: Option<string>, port: uint16,
                                 options: PeerOptions, autoOk: bool, resolveOk: bool)
      ensures Valid()
      ensures this.options == options && peers == []
      ensures fresh(register) && fresh(register.session) && fresh(browse) && fresh(browse.session)
      ensures register.Named() == MakeIdentity(name, regtype, domain) && register.port == port
      ensures register.session.State() == Fresh(regtype, register.Named().domain)
      ensures browse.services == [] && browse.session.State() == Fresh(regtype, register.Named().domain)
      ensures thisService != null && fresh(thisService) && fresh(thisService.session)
      ensures thisService.Named() == register.Named() && thisService.notify == BonjourService.DEFAULT
      ensures thisService.fullname == "" && thisService.host == "" && thisService.port == 0
      ensures thisService.session.State() ==
              AfterSpawn(AutoResolved(register.Named(), autoOk), ResolveRequest(register.Named()), resolveOk).0
    {
      this.options := options;
      var reg := new Register(name, regtype, domain, port, StateNotify.DEFAULT);
      register := reg;
      browse := new Browse(regtype, domain, StateNotify.DEFAULT);
      var self := new Service.FromNamed(reg.Named(), BonjourService.DEFAULT, autoOk);
      thisService := self;
      peers := [];
      new;
      var _ := thisService.Resolve(resolveOk);
    }

    /** `port()`: the registered port. */
    function Port(): (p: uint16)
      ensures p == register.port
    {
      register.Port()
    }

    /** `resolved_host()` of the root variant: the self-resolver's current host. */
    function ResolvedHost(): (h: string)
      requires thisService != null
      reads thisService
      ensures h == thisService.host
    {
      thisService.Host()
    }

    /** `start()`: by mode, starts the browser, the register, or the register
        and then, only if that succeeded, the browser. */
    method Start(registerOk: bool, browseOk: bool) returns (r: bool)
      requires Valid()
      modifies register.session, browse, browse.session
      ensures Valid() && peers == old(peers)
      ensures var reg := AfterSpawn(old(register.session.State()), RegisterRequest(old(register.Named()), register.port), registerOk);
              var brw := AfterSpawn(old(browse.session.State()), BrowseRequest(old(browse.session.regtype), old(browse.session.domain)), browseOk);
              var registerStarted := options.mode != BrowseOnly;
              var browseStarted := options.mode == BrowseOnly || (options.mode == Both && reg.1);
              && register.session.State() == (if registerStarted then reg.0 else old(register.session.State()))
              && browse.session.State() == (if browseStarted then brw.0 else old(browse.session.State()))
              && browse.services == (if browseStarted then [] else old(browse.services))
              && r == (if options.mode == BrowseOnly then brw.1
                       else if options.mode == RegisterOnly then reg.1
                       else reg.1 && brw.1)
    {
      PeersApart();
      label Entry:
      match options.mode
      case BrowseOnly =>
        r := browse.Start(browseOk);
      case RegisterOnly =>
        r := register.Start(registerOk);
      case Both =>
        r := register.Start(registerOk);
        if r {
          r := browse.Start(browseOk);
        }
      NamesStable@Entry(peers);
    }

    /** `stop()`: stops the register and the browser. */
    method Stop()
      requires Valid()
      modifies register.session, browse.session
      ensures Valid()
      ensures register.session.State() == AfterStop(old(register.session.State()))
      ensures browse.session.State() == AfterStop(old(browse.session.State()))
    {
      register.session.Stop();
      browse.session.Stop();
    }

    /** `clear()`: empties the browser's list; the peers stay. */
    method Clear()
      requires Valid()
      modifies browse
      ensures Valid() && browse.services == [] && peers == old(peers)
    {
      browse.Clear();
    }

    /** `resolve()`: asks every peer to resolve, in order; `resolveOk` is the
        facility's answer for each identity. The list and every other session
        stay as they were. */
    method ResolveAll(resolveOk: Identity -> bool)
      requires Valid()
      modifies set p | p in peers :: p.session
      ensures Valid()
      ensures forall k :: 0 <= k < |peers| ==>
                peers[k].session.State() ==
                AfterSpawn(old(peers[k].session.State()), ResolveRequest(old(peers[k].Named())),
                           resolveOk(old(peers[k].Named()))).0
      ensures register.session.State() == old(register.session.State())
      ensures browse.session.State() == old(browse.session.State())
    {
      PeersApart();
      label Entry:
      ResolveEach(peers, resolveOk);
      NamesStable@Entry(peers);
    }

    /** The loop of `resolve()` over a list of separate services: each one,
        in order, asks to resolve its own identity; the services themselves
        are untouched. */
    static method ResolveEach(ps: seq<Service>, resolveOk: Identity -> bool)
      requires forall i, j :: 0 <= i < j < |ps| ==> ps[i].session != ps[j].session
      modifies set p | p in ps :: p.session
      ensures forall k :: 0 <= k < |ps| ==>
                ps[k].session.State() ==
                AfterSpawn(old(ps[k].session.State()), ResolveRequest(ps[k].Named()), resolveOk(ps[k].Named())).0
    {
      for i := 0 to |ps|
        invariant forall k :: 0 <= k < i ==>
                    ps[k].session.State() ==
                    AfterSpawn(old(ps[k].session.State()), ResolveRequest(ps[k].Named()), resolveOk(ps[k].Named())).0
        invariant forall k :: i <= k < |ps| ==> ps[k].session.State() == old(ps[k].session.State())
      {
        var _ := ps[i].Resolve(resolveOk(ps[i].Named()));
      }
    }

    /** `resolve(named)`: asks the first peer equal to `named` to resolve; when
        there is none nothing happens. No other peer is touched. */
    method ResolveNamed(named: Identity, ok: bool)
      requires Valid()
      modifies set p | p in peers :: p.session
      ensures Valid()
      ensures var i := Find(old(Names(peers)), named);
              forall k :: 0 <= k < |peers| ==>
                peers[k].session.State() ==
                if k == i then AfterSpawn(old(peers[k].session.State()), ResolveRequest(named), ok).0
                else old(peers[k].session.State())
    {
      PeersApart();
      var i := FindFirst(Names(peers), named);
      if i < |peers| {
        var _ := peers[i].Resolve(ok);
        assert forall k :: 0 <= k < |peers| && k != i ==> peers[k].session != peers[i].session;
      }
      NamesStable(peers);
    }

    /** `list_peers(peers)`: brings the maintained peers up to date with the
        browser's current list (see `Update`), then assigns them to the
        caller's list `given` (see `AssignList`), whose services are objects
        of the caller's, apart from those the peer holds. */
    method ListPeers(resolveOk: Identity -> bool, given: seq<Service>) returns (out: seq<Service>)
      requires Valid()
      requires Apart(given, peers)
      requires forall i :: 0 <= i < |given| ==> given[i] != thisService && given[i].session !in Owned()
      modifies this, set p | p in given, set p | p in given :: p.session
      ensures Valid()
      ensures Names(peers) ==
              Reconciled(old(Names(peers)), old(browse.services), old(register.Named()), options.selfDiscover)
      ensures var kept := Select(old(peers), Match(old(Names(peers)), old(browse.services)).keep);
              && |kept| <= |peers| && peers[..|kept|] == kept
              && forall q :: |kept| <= q < |peers| ==> fresh(peers[q]) && fresh(peers[q].session)
      ensures |out| == |peers|
      ensures forall q :: 0 <= q < |peers| ==> Holds(out[q], peers[q])
      ensures forall q :: 0 <= q < |peers| && q < |given| ==>
                && out[q] == given[q]
                && out[q].session.State() == AssignedState(old(given[q].session.State()), peers[q].session.State())
      ensures forall q :: |given| <= q < |peers| ==>
                fresh(out[q]) && fresh(out[q].session) && IsCopy(out[q], peers[q])
      ensures forall q :: |peers| <= q < |given| ==>
                given[q].session.State() == AfterStop(old(given[q].session.State()))
    {
      ghost var before := peers;
      ghost var names := Names(peers);
      label Entry:
      Update(resolveOk);
      assert forall q :: 0 <= q < |given| ==> given[q].session.State() == old@Entry(given[q].session.State());
      ghost var keep := Match(names, old(browse.services)).keep;
      ghost var ps := peers;
      ghost var n := |Select(before, keep)|;
      assert forall q :: n <= q < |ps| ==> fresh(ps[q]) && fresh(ps[q].session);
      ApartKept(given, before, keep, peers);
      out := Deliver(given);
    }

    /** `peers = m_peers`, the last step of `list_peers`: the maintained peers
        assigned to the caller's list, which changes nothing the peer holds. */
    method Deliver(given: seq<Service>) returns (out: seq<Service>)
      requires Valid()
      requires Apart(given, peers)
      requires forall i :: 0 <= i < |given| ==> given[i] != thisService && given[i].session !in Owned()
      modifies set p | p in given, set p | p in given :: p.session
      ensures Valid() && peers == old(peers) && Names(peers) == old(Names(peers))
      ensures |out| == |peers|
      ensures forall q :: 0 <= q < |peers| ==> Holds(out[q], peers[q])
      ensures forall q :: 0 <= q < |peers| && q < |given| ==>
                && out[q] == given[q]
                && out[q].session.State() == AssignedState(old(given[q].session.State()), peers[q].session.State())
      ensures forall q :: |given| <= q < |peers| ==>
                fresh(out[q]) && fresh(out[q].session) && IsCopy(out[q], peers[q])
      ensures forall q :: |peers| <= q < |given| ==>
                given[q].session.State() == AfterStop(old(given[q].session.State()))
    {
      out := AssignList(given, peers);
    }

    /** The two loops of `list_peers`. A peer with no equal entry left in the
        browser's list is dropped; a peer with one keeps its object and
        consumes that entry; the entries left over become new resolvers (each
        resolving at once, `resolveOk` answering for the facility), appended in
        list order, except one equal to the registered identity unless
        self-discovery is on. */
    method Update(resolveOk: Identity -> bool)
      requires Valid()
      modifies this
      ensures Valid()
      ensures Names(peers) ==
              Reconciled(old(Names(peers)), old(browse.services), old(register.Named()), options.selfDiscover)
      ensures var kept := Select(old(peers), Match(old(Names(peers)), old(browse.services)).keep);
              && |kept| <= |peers| && peers[..|kept|] == kept
              && forall q :: |kept| <= q < |peers| ==> fresh(peers[q]) && fresh(peers[q].session)
    {
      label Entry:
      var services := browse.ListServices();
      NamesStable@Entry(peers);
      var ps := Reconcile(peers, services, register.Named(), options.selfDiscover, Owned(), resolveOk);
      label Assign:
      peers := ps;
      NamesStable@Assign(ps);
    }

    /** Both loops of `list_peers` on the list `peers`, with the snapshot
        `services`, the registered identity `self` and the sessions `owned`
        the peer keeps apart from its peers. */
    static method Reconcile(peers: seq<Service>, services: seq<Identity>, self: Identity, selfDiscover: bool,
                            owned: set<Session>, resolveOk: Identity -> bool)
      returns (ps: seq<Service>)
      requires Separate(peers, owned) && NoDuplicates(services)
      ensures Separate(ps, owned)
      ensures Names(ps) == Reconciled(old(Names(peers)), services, self, selfDiscover)
      ensures NoDuplicates(Names(ps))
      ensures var kept := Select(peers, Match(old(Names(peers)), services).keep);
              && |kept| <= |ps| && ps[..|kept|] == kept
              && forall q :: |kept| <= q < |ps| ==> fresh(ps[q]) && fresh(ps[q].session)
    {
      ghost var ids0 := Names(peers);
      ghost var m := Match(ids0, services);
      var kept, rest := RetainListed(peers, services);
      assert Names(kept) == Select(ids0, m.keep) by {
        NamesSelect(peers, m.keep);
      }
      assert Separate(kept, owned) by {
        SeparateSelect(peers, m.keep, owned);
      }
      ps := AppendResolvers(kept, rest, self, selfDiscover, owned, resolveOk);
      assert Names(ps) == Reconciled(ids0, services, self, selfDiscover);
      assert NoDuplicates(Names(ps)) by {
        ReconciledNoDuplicates(ids0, services, self, selfDiscover);
      }
    }

    /** The first loop of `list_peers`: keeps the peers the list still names,
        in order, consuming the entry each one matches, and returns them with
        the entries left over. The source erases an unmatched peer with
        `it = --m_peers.erase(it)`, which is undefined when that peer is the
        first one; this is the evidently intended drop-and-continue. */
    static method RetainListed(peers: seq<Service>, snap: seq<Identity>)
      returns (ps: seq<Service>, services: seq<Identity>)
      ensures ps == Select(peers, Match(Names(peers), snap).keep)
      ensures services == Match(Names(peers), snap).rest
    {
      ps := peers;
      services := snap;
      var i := 0;
      while i < |ps|
        invariant i <= |ps|
        invariant RetainFrom(ps, Names(ps), i, services) == RetainFrom(peers, Names(peers), 0, snap)
        decreases |ps| - i
      {
        label Scan:
        var j := FindFirst(services, ps[i].Named());
        NamesStable@Scan(ps);
        NamesStable@Scan(peers);
        assert Names(ps)[i] == ps[i].Named();
        if j == |services| {
          NamesRemoveAt(ps, i);
          assert RetainFrom(ps, Names(ps), i, services) == RetainFrom(RemoveAt(ps, i), Names(RemoveAt(ps, i)), i, services);
          ps := RemoveAt(ps, i);
        } else {
          services := RemoveAt(services, j);
          i := i + 1;
        }
      }
      RetainFromSpec(peers, Names(peers), snap);
    }

    /** The second loop of `list_peers`: a new resolver for each entry, in
        order, except an entry equal to `self` unless `selfDiscover`. */
    static method AppendResolvers(peers: seq<Service>, rest: seq<Identity>, self: Identity, selfDiscover: bool,
                                  owned: set<Session>, resolveOk: Identity -> bool)
      returns (ps: seq<Service>)
      requires Separate(peers, owned)
      ensures Separate(ps, owned)
      ensures |ps| >= |peers| && ps[..|peers|] == peers
      ensures Names(ps) == old(Names(peers)) + SelfFilter(rest, self, selfDiscover)
      ensures forall q :: |peers| <= q < |ps| ==> fresh(ps[q]) && fresh(ps[q].session)
      ensures forall q :: |peers| <= q < |ps| ==> NewResolver(ps[q], resolveOk)
    {
      ps := peers;
      ghost var added: seq<Identity> := [];
      for t := 0 to |rest|
        invariant |ps| == |peers| + |added| && ps[..|peers|] == peers
        invariant added == SelfFilter(rest[..t], self, selfDiscover)
        invariant Separate(ps, owned)
        invariant forall q :: |peers| <= q < |ps| ==> fresh(ps[q]) && fresh(ps[q].session)
        invariant forall q :: |peers| <= q < |ps| ==>
                    Stored(ps[q]).0 == added[q - |peers|] && IsNewResolver(Stored(ps[q]), resolveOk)
      {
        assert rest[..t + 1] == rest[..t] + [rest[t]];
        if selfDiscover || rest[t] != self {
          ps := PushResolver(ps, rest[t], owned, resolveOk);
          added := added + [rest[t]];
        }
      }
      assert rest[..|rest|] == rest;
      NamesStable(peers);
      NamesExtended(peers, ps, added);
    }

    /** `m_peers.emplace_back(*it)`, with `*it` the entry's identity: a new
        resolver on its own new session behind the services already held,
        which are left as they were. */
    static method PushResolver(ps: seq<Service>, named: Identity, owned: set<Session>, resolveOk: Identity -> bool)
      returns (r: seq<Service>)
      requires Separate(ps, owned)
      ensures |r| == |ps| + 1 && r == ps + [r[|ps|]]
      ensures Separate(r, owned)
      ensures fresh(r[|ps|]) && fresh(r[|ps|].session)
      ensures Stored(r[|ps|]).0 == named && IsNewResolver(Stored(r[|ps|]), resolveOk)
      ensures forall q :: 0 <= q < |ps| ==> Stored(ps[q]) == old(Stored(ps[q]))
    {
      var p := new Service.FromNamed(named, BonjourService.DEFAULT, resolveOk(named));
      r := ps + [p];
    }

    /** `peers = m_peers` with `std::list`'s copy assignment: the elements the
        caller's list `dst` already has are assigned over with `operator =`
        (which stops each of them first), the further elements of `src` are
        appended as copies, and the further elements of `dst` are destroyed,
        which stops them. `src` is left as it was. */
    static method AssignList(dst: seq<Service>, src: seq<Service>) returns (out: seq<Service>)
      requires Apart(dst, src)
      modifies set p | p in dst, set p | p in dst :: p.session
      ensures |out| == |src|
      ensures forall q :: 0 <= q < |src| ==> Holds(out[q], src[q])
      ensures forall q :: 0 <= q < |src| && q < |dst| ==>
                && out[q] == dst[q]
                && out[q].session.State() == AssignedState(old(dst[q].session.State()), src[q].session.State())
      ensures forall q :: |dst| <= q < |src| ==>
                fresh(out[q]) && fresh(out[q].session) && IsCopy(out[q], src[q])
      ensures forall q :: |src| <= q < |dst| ==> dst[q].session.State() == AfterStop(old(dst[q].session.State()))
      ensures Names(src) == old(Names(src))
    {
      if |src| <= |dst| {
        out := AssignShorter(dst, src);
      } else {
        out := AssignLonger(dst, src);
      }
    }

    /** `AssignList` when `src` is no longer than `dst`: the remaining elements
        of `dst` are destroyed. */
    static method AssignShorter(dst: seq<Service>, src: seq<Service>) returns (out: seq<Service>)
      requires Apart(dst, src) && |src| <= |dst|
      modifies set p | p in dst, set p | p in dst :: p.session
      ensures |out| == |src|
      ensures forall q :: 0 <= q < |src| ==> Holds(out[q], src[q])
      ensures forall q :: 0 <= q < |src| && q < |dst| ==>
                && out[q] == dst[q]
                && out[q].session.State() == AssignedState(old(dst[q].session.State()), src[q].session.State())
      ensures forall q :: |src| <= q < |dst| ==> dst[q].session.State() == AfterStop(old(dst[q].session.State()))
      ensures Names(src) == old(Names(src))
    {
      label Entry:
      out := AssignOver(dst, src, |src|);
      label Assigned:
      DestroyFrom(dst, src, |src|);
      forall q | 0 <= q < |src|
        ensures Holds(out[q], src[q])
        ensures out[q].session.State() == AssignedState(old(dst[q].session.State()), src[q].session.State())
      {
        assert old@Assigned(Holds(out[q], src[q]));
        assert Stored(out[q]) == old@Assigned(Stored(out[q]));
        assert Stored(src[q]) == old@Assigned(Stored(src[q]));
      }
      NamesStable@Entry(src);
    }

    /** `AssignList` when `src` is longer than `dst`: copies of the further
        elements of `src` are appended. */
    static method AssignLonger(dst: seq<Service>, src: seq<Service>) returns (out: seq<Service>)
      requires Apart(dst, src) && |src| > |dst|
      modifies set p | p in dst, set p | p in dst :: p.session
      ensures |out| == |src|
      ensures forall q :: 0 <= q < |src| ==> Holds(out[q], src[q])
      ensures forall q :: 0 <= q < |src| && q < |dst| ==>
                && out[q] == dst[q]
                && out[q].session.State() == AssignedState(old(dst[q].session.State()), src[q].session.State())
      ensures forall q :: |dst| <= q < |src| ==>
                fresh(out[q]) && fresh(out[q].session) && IsCopy(out[q], src[q])
      ensures Names(src) == old(Names(src))
    {
      label Entry:
      out := AssignOver(dst, src, |dst|);
      label Assigned:
      var extra := CopyAll(src[|dst|..]);
      forall q | 0 <= q < |dst| ensures Holds(out[q], src[q]) {
        assert old@Assigned(Holds(out[q], src[q]));
        assert Stored(out[q]) == old@Assigned(Stored(out[q]));
        assert Stored(src[q]) == old@Assigned(Stored(src[q]));
      }
      ghost var over := out;
      out := out + extra;
      forall q | |dst| <= q < |src|
        ensures fresh(out[q]) && fresh(out[q].session) && IsCopy(out[q], src[q])
        ensures Holds(out[q], src[q])
      {
        assert out[q] == extra[q - |dst|] && src[q] == src[|dst|..][q - |dst|];
      }
      assert forall q :: 0 <= q < |dst| ==> out[q] == over[q];
      NamesStable@Entry(src);
    }

    /** The first `n` elements of `dst` assigned over from those of `src`; the
        rest of `dst` is untouched. */
    static method AssignOver(dst: seq<Service>, src: seq<Service>, n: nat) returns (out: seq<Service>)
      requires Apart(dst, src) && n <= |dst| && n <= |src|
      modifies set p | p in dst, set p | p in dst :: p.session
      ensures out == dst[..n]
      ensures forall q :: 0 <= q < n ==>
                Holds(dst[q], src[q]) && dst[q].session.State() == AssignedState(old(dst[q].session.State()), src[q].session.State())
      ensures forall q :: n <= q < |dst| ==> Stored(dst[q]) == old(Stored(dst[q]))
      ensures forall q :: 0 <= q < |src| ==> Stored(src[q]) == old(Stored(src[q]))
    {
      out := [];
      for q := 0 to n
        invariant out == dst[..q]
        invariant forall r :: 0 <= r < q ==>
                    Holds(dst[r], src[r]) && dst[r].session.State() == AssignedState(old(dst[r].session.State()), src[r].session.State())
        invariant forall r :: q <= r < |dst| ==> Stored(dst[r]) == old(Stored(dst[r]))
        invariant forall r :: 0 <= r < |src| ==> Stored(src[r]) == old(Stored(src[r]))
      {
        dst[q].Assign(src[q]);
        out := out + [dst[q]];
      }
    }

    /** The elements of `dst` from position `n` on destroyed: the destructor
        of `bonjour_base` stops each one. */
    static method DestroyFrom(dst: seq<Service>, src: seq<Service>, n: nat)
      requires Apart(dst, src) && n <= |dst|
      modifies set p | p in dst :: p.session
      ensures forall q :: 0 <= q < n ==> Stored(dst[q]) == old(Stored(dst[q]))
      ensures forall q :: n <= q < |dst| ==> dst[q].session.State() == AfterStop(old(dst[q].session.State()))
      ensures forall q :: 0 <= q < |src| ==> Stored(src[q]) == old(Stored(src[q]))
    {
      for q := n to |dst|
        invariant forall r :: 0 <= r < n ==> Stored(dst[r]) == old(Stored(dst[r]))
        invariant forall r :: n <= r < q ==> dst[r].session.State() == AfterStop(old(dst[r].session.State()))
        invariant forall r :: q <= r < |dst| ==> dst[r].session.State() == old(dst[r].session.State())
        invariant forall r :: 0 <= r < |src| ==> Stored(src[r]) == old(Stored(src[r]))
      {
        dst[q].session.Stop();
      }
    }

    /** A copy of each service, in order: the list's copy constructor. */
    static method CopyAll(ps: seq<Service>) returns (out: seq<Service>)
      ensures |out| == |ps|
      ensures forall q :: 0 <= q < |out| ==> fresh(out[q]) && fresh(out[q].session) && IsCopy(out[q], ps[q])
    {
      out := [];
      for q := 0 to |ps|
        invariant |out| == q
        invariant forall r :: 0 <= r < q ==> fresh(out[r]) && fresh(out[r].session) && IsCopy(out[r], ps[r])
      {
        var c := new Service.Copy(ps[q]);
        out := out + [c];
      }
    }
  }
}
