# bonjour-for-cpp, modelled in Dafny

bonjour-for-cpp is a small C++ header library that supervises Apple's
`dns_sd` service-discovery facility. It provides four parts:

- `bonjour_register` advertises a named service on a port.
- `bonjour_browse` keeps the list of services of one type that are currently
  discovered.
- `bonjour_service` resolves one named service to a full name, host and port.
- `bonjour_peer` combines a register, a browser and a list of resolvers for
  the peers it has seen. Its `list_peers` reconciles that list against the
  browser's current list.

Each of these objects derives from `bonjour_base`. The base holds one
outstanding asynchronous operation of the facility and a handle to the worker
thread that polls it. The facility answers through a generic reply adapter,
`callback_type::reply`. The adapter picks the error code and a fixed list of
arguments out of the facility's positional arguments.

The model has one Dafny module per header:

- `Wrappers`, `Utils` and `DnsSd` hold the option type, the `validate_*`
  helpers and the constants of the facility's header.
- `BonjourNamed` holds the identity triple, `equal`, `find` and list erasure.
- `BonjourBase` holds the session life cycle. A session is a class whose
  methods are proved against pure transition functions on a `SessionState`
  value.
- `StateNotify` holds the add and remove notifications shared by register and
  browse.
- `ReplyAdapter` holds the reply adapter, with one position map for each of
  the three reply signatures.
- `BonjourRegister`, `BonjourBrowse` and `BonjourService` hold the three
  facility clients, as classes.
- `PeerReconcile` specifies `list_peers` as functions on identity sequences
  and proves its properties.
- `BonjourPeer` holds the peer as a class. Its list is a `seq` of `Service`
  objects that `list_peers` edits with the source's two loops.

Several things the source does are represented rather than run:

- **Inheritance** becomes composition. Every register, browser and service
  owns a `const session: Session`.
- **Facility answers** are parameters. Each start call of the facility
  (`DNSServiceRegister`, `DNSServiceBrowse`, `DNSServiceResolve`) becomes a
  `bool` that says whether it returned NoError. For the resolvers that
  `list_peers` creates, this is a function `Identity -> bool`.
- **Facility calls and notifications** are kept in ghost logs in each session.
  Every call into the facility is recorded in a trace. Every call of a user
  callback is recorded in an event log. A callback struct (`notify_type`) is
  modelled as the set of its callbacks that are not null.
- **Both variants of the headers are modelled.** The root headers are an older
  variant of the `include/` headers.
  - The root `bonjour_peer` has a self-resolver `m_this_service` and
    `resolved_host()`. It is modelled by the `WithSelfResolver` constructor
    and `thisService != null`. The `include/` peer is modelled by the plain
    constructor.
  - The root `bonjour_register.hpp` has no `port()` member, although the root
    `bonjour_peer::port` calls one (bonjour_peer.hpp:85). `Register.Port`
    follows include/bonjour_register.hpp:139-142.
  - The root `find` is not `const`. This makes no difference to the model.
  - The two `stop` variants differ only in how they lock.

Two consequences of the code of `list_peers` are easy to miss:

- Its first loop (bonjour_peer.hpp:118-126) drops a maintained peer only when
  no equal entry is left in the browser's list. It never drops a peer whose
  entry is still listed, however that peer got there. So the registered
  identity, once it is a peer, is never removed, even without self-discovery;
  the self filter of the second loop only keeps it from being added.
  `ReconciledMembers` states exactly this.
- Its last statement, `peers = m_peers`, is the copy assignment of
  `std::list`. It assigns over the elements the caller's list already has,
  with `bonjour_service::operator =`, which stops each one first. It appends
  copies for the further peers, and destroys the caller's further elements,
  which stops them. `AssignList` models this element by element.

## Model

| member | source | states |
|---|---|---|
| Utils.ValidateName | utils.hpp:33-36 | the name is returned unchanged |
| Utils.ValidateRegtype | utils.hpp:38-41 | the service type is returned unchanged |
| Utils.ValidateDomain | include/utils.hpp:90-93 | a null or empty domain becomes "local."; any other domain is returned unchanged; the result is never empty |
| Utils.ValidateDomainIdempotent | utils.hpp:43-46 | validating an already validated domain gives the same domain |
| BonjourNamed.MakeIdentity | bonjour_named.hpp:18-21 | name and regtype are stored verbatim; the domain is stored after "local." defaulting |
| BonjourNamed.MakeIdentityIdempotent | include/bonjour_named.hpp:46-49 | constructing from the fields of a constructed identity gives the same identity back |
| BonjourNamed.Equal | bonjour_named.hpp:28-31 | true exactly when name, regtype and domain are each identical strings (case-sensitive) |
| BonjourNamed.EqualIsEquivalence | include/bonjour_named.hpp:75-78 | `equal` is reflexive, symmetric and transitive |
| BonjourNamed.Find | include/bonjour_named.hpp:91-99 | the result is the position of the first equal element; no element before it is equal; the result is the end exactly when no element is equal |
| BonjourNamed.FindFirst | bonjour_named.hpp:33-41 | the front-to-back scan loop stops exactly at `Find`'s position, without changing the list |
| BonjourNamed.RemoveAt | include/bonjour_browse.hpp:134-137 | `erase` at a position: one element fewer; the elements before stay put; the elements after move down one; the multiset loses exactly that element |
| BonjourBase.Fresh | include/bonjour_base.hpp:331-335 | a new session is inactive, has called nothing and notified nothing, and keeps its regtype and domain |
| BonjourBase.AfterStop | bonjour_base.hpp:127-135 | afterwards the session is inactive; an active session cancels its worker once; an inactive one is unchanged |
| BonjourBase.AfterSpawn | bonjour_base.hpp:162-181 | the result is `active()` afterwards; an active session is unchanged and returns true; an inactive one calls the facility once and is active exactly when the call succeeded |
| BonjourBase.AfterNotify | bonjour_base.hpp:155-160 | a callback is logged exactly when it is installed |
| BonjourBase.AfterStopNotify | bonjour_base.hpp:183-188 | afterwards the session is inactive, the identity fields are kept, a worker is cancelled only if one was active, and at most one notification is logged |
| BonjourBase.StopIdempotent | include/bonjour_base.hpp:394-404 | stopping twice is the same as stopping once |
| BonjourBase.SpawnCallsAtMostOnce | include/bonjour_base.hpp:497-516 | whatever the facility answers, spawning keeps regtype, domain and the notifications, and calls the facility at most once |
| BonjourBase.Session.constructor | bonjour_base.hpp:104-108 | the new session holds the validated regtype and domain and no worker |
| BonjourBase.Session.Copy | bonjour_base.hpp:115-119 | a copy takes the regtype and domain and never the worker |
| BonjourBase.Session.Assign | bonjour_base.hpp:121-125 | assignment copies regtype and domain and leaves the worker and the logs as they were |
| BonjourBase.Session.Active | bonjour_base.hpp:137-141 | true exactly when a worker handle is held |
| BonjourBase.Session.Stop | include/bonjour_base.hpp:394-404 | the new state is `AfterStop` of the old one |
| BonjourBase.Session.Spawn | include/bonjour_base.hpp:497-516 | the new state and the result are `AfterSpawn` of the old state |
| BonjourBase.Session.Notify | include/bonjour_base.hpp:472-477 | the new state is `AfterNotify` of the old one |
| BonjourBase.Session.StopNotify | include/bonjour_base.hpp:535-540 | the new state is `AfterStopNotify` of the old one |
| StateNotify.ReplyEvents | bonjour_register.hpp:51-59 | at most one notification: the add callback when the Add bit is set, the remove callback otherwise, each only when installed; it carries the reply's strings, with `complete` exactly when MoreComing is clear |
| StateNotify.DefaultNotifiesNothing | bonjour_register.hpp:20-27 | with the default (all null) callbacks a reply notifies nothing |
| ReplyAdapter.Pick | bonjour_base.hpp:209 | the forwarded arguments are those at the listed positions, in the listed order |
| ReplyAdapter.Adapt | include/bonjour_base.hpp:574-593 | the object comes from the last (context) argument; the call is forwarded exactly when the error argument is NoError, with the listed positions in order; otherwise the object is stopped and notified |
| ReplyAdapter.ShapesWellFormed | include/bonjour_register.hpp:63 | the register (error 2; forward 1, 3, 4, 5), browse and resolve (error 3; forward 1, 4, 5, 6) position maps fit their signatures; each forwards the flags first and never forwards the error code or the context |
| BonjourRegister.Register.constructor | bonjour_register.hpp:29-37 | the identity is `MakeIdentity` of the arguments; the port and callbacks are stored; the session is fresh |
| BonjourRegister.Register.Port | include/bonjour_register.hpp:139-142 | the port given at construction |
| BonjourRegister.Register.Start | bonjour_register.hpp:44-47 | spawns the register request for the object's own identity and stored port; does nothing but return true while active |
| BonjourRegister.Register.Reply | include/bonjour_register.hpp:161-169 | only the notification log changes, by `ReplyEvents` of the reply |
| BonjourRegister.Register.Callback | bonjour_register.hpp:16 | on NoError the reply's flags, name, regtype and domain (positions 1, 3, 4, 5) reach `Reply`; otherwise the object is stopped and its stop callback notified |
| BonjourBrowse.Without | include/bonjour_browse.hpp:134-137 | the reference list for a remove: every equal element left out, the others kept |
| BonjourBrowse.Discovered | bonjour_browse.hpp:119-141 | an Add appends the identity only when absent; a remove of an absent identity changes nothing; a remove shortens the list by one exactly when the identity is present |
| BonjourBrowse.RemoveFirstIsWithout | include/bonjour_browse.hpp:134-137 | on a list without duplicates, erasing the first equal element is leaving out every equal element, the others kept in order |
| BonjourBrowse.WithoutNoDuplicates | bonjour_browse.hpp:136-137 | a remove keeps a duplicate-free list duplicate-free |
| BonjourBrowse.DiscoveredInvariant | include/bonjour_browse.hpp:125-137 | a reply keeps the list duplicate-free; after an Add the identity is listed; after a remove it is not; every other identity is listed exactly when it was before |
| BonjourBrowse.AddThenRemove | bonjour_browse.hpp:127-137 | discovering a new identity and then removing it restores the list |
| BonjourBrowse.Browse.constructor | bonjour_browse.hpp:47-50 | the list is empty and the session holds the validated regtype and domain |
| BonjourBrowse.Browse.Start | bonjour_browse.hpp:66-70 | the list is emptied, even while active; then the browse request is spawned |
| BonjourBrowse.Browse.Clear | bonjour_browse.hpp:80-84 | the list is empty afterwards |
| BonjourBrowse.Browse.ListServices | bonjour_browse.hpp:96-100 | returns exactly the current list and changes nothing |
| BonjourBrowse.Browse.Reply | bonjour_browse.hpp:119-141 | the list becomes `Discovered` of the old list and stays duplicate-free; the add or remove notification is logged whether or not the list changed |
| BonjourBrowse.Browse.Callback | bonjour_browse.hpp:20 | on NoError positions 1, 4, 5, 6 reach `Reply`; otherwise the object is stopped and its stop callback notified |
| BonjourService.AutoResolved | bonjour_service.hpp:29-36 | a service built from an identity resolves at once exactly when the name is not empty; it is then active exactly when the facility accepted |
| BonjourService.AutoResolveIffNamed | include/bonjour_service.hpp:91-98 | construction calls the facility exactly when the name is not empty, and leaves the service active exactly when the name is not empty and the call succeeded |
| BonjourService.Service.FromNamed | bonjour_service.hpp:29-36 | the identity is copied; fullname and host are empty and the port is 0; the session is `AutoResolved` |
| BonjourService.Service.constructor | bonjour_service.hpp:38-40 | the same, for the identity the three strings validate to |
| BonjourService.Service.Copy | bonjour_service.hpp:42-46 | the copy holds every stored field of the original; its session is fresh |
| BonjourService.Service.Assign | bonjour_service.hpp:48-61 | this service is stopped first, then takes the identity, fullname, host, port and callbacks of the other; it is inactive afterwards; self-assignment, allowed by the recursive mutex, only stops it |
| BonjourService.Service.Resolve | bonjour_service.hpp:63-66 | spawns the resolve request for the service's own identity; does nothing but return true while active |
| BonjourService.Service.FullName | bonjour_service.hpp:68-73 | the stored full name |
| BonjourService.Service.Host | bonjour_service.hpp:75-80 | the stored host |
| BonjourService.Service.Port | bonjour_service.hpp:82-87 | the stored port, verbatim |
| BonjourService.Service.Reply | bonjour_service.hpp:91-102 | the three received values are stored; the session is stopped; then the resolve callback is notified with those values and `complete` exactly when MoreComing is clear |
| BonjourService.Service.Callback | bonjour_service.hpp:17 | on NoError positions 1, 4, 5, 6 reach `Reply`; otherwise the stored values stay and the stop callback is notified; the service ends inactive either way |
| PeerReconcile.Step | include/bonjour_peer.hpp:281-286 | one peer is kept exactly when an equal entry is still unconsumed, and then consumes the first such entry |
| PeerReconcile.MatchFrom | include/bonjour_peer.hpp:279-287 | one flag per peer, the earlier flags unchanged |
| PeerReconcile.Match | bonjour_peer.hpp:118-126 | one keep-or-drop flag per maintained peer |
| PeerReconcile.Select | bonjour_peer.hpp:118-126 | the kept peers are peers of the list, no more of them than the list has |
| PeerReconcile.SelectCount | bonjour_peer.hpp:118-126 | as many peers are kept as flags are set |
| PeerReconcile.SelfFilter | bonjour_peer.hpp:130-134 | under self-discovery every leftover entry is appended; otherwise the registered identity is never appended, and every other entry is appended exactly when it is left over |
| PeerReconcile.RetainState | include/bonjour_peer.hpp:279-287 | the state of the first loop after some visits: the position reached counts the kept peers, and the unvisited peers follow it |
| PeerReconcile.RetainStep | include/bonjour_peer.hpp:281-286 | one visit: the peer at the position reached is the next peer; it stays and consumes its entry when one is left, and is erased otherwise |
| PeerReconcile.RetainFromState | include/bonjour_peer.hpp:279-287 | from any intermediate state, the in-place erase loop ends with the kept peers and the unconsumed entries |
| PeerReconcile.RetainFromSpec | bonjour_peer.hpp:118-126 | the in-place erase loop computes exactly `Select` of `Match`, and the leftover entries |
| PeerReconcile.SelectMembers | bonjour_peer.hpp:118-126 | an element is kept only if it is among the flagged elements |
| PeerReconcile.MatchFromAppend | include/bonjour_peer.hpp:279-287 | matching two lists of peers in turn is matching their concatenation |
| PeerReconcile.MatchPartition | bonjour_peer.hpp:118-126 | the kept peers and the leftover entries together are exactly the snapshot, as multisets |
| PeerReconcile.MatchKeepsOnlyPresent | include/bonjour_peer.hpp:283-284 | every kept peer is listed in the snapshot, so every peer without an entry is dropped |
| PeerReconcile.MatchRestUntouched | include/bonjour_peer.hpp:286 | an entry no peer equals is never consumed |
| PeerReconcile.MatchKeepsIffPresent | include/bonjour_peer.hpp:279-287 | with duplicate-free peers, a peer is kept exactly when it is in the snapshot |
| PeerReconcile.MatchKeepsListed | include/bonjour_peer.hpp:281-286 | with duplicate-free peers, a peer listed in the snapshot finds its entry still unconsumed and is kept |
| PeerReconcile.SelfFilterCounts | bonjour_peer.hpp:130-134 | the self filter keeps every occurrence of an entry, except that it drops the registered identity when self-discovery is off |
| PeerReconcile.ConsumeContained | include/bonjour_peer.hpp:279-287 | peers whose entries are all available are all kept and consume exactly those entries |
| PeerReconcile.MatchOfKept | include/bonjour_peer.hpp:279-287 | matching the kept peers again keeps them all and leaves the same entries |
| PeerReconcile.MatchOfReconciled | include/bonjour_peer.hpp:267-298 | matching the reconciled list again keeps every peer, and consumes exactly the entries the first call appended |
| PeerReconcile.ReconcileIdempotent | include/bonjour_peer.hpp:267-298 | reconciling twice against an unchanged snapshot gives the same identity sequence |
| PeerReconcile.FilterOfConsumed | bonjour_peer.hpp:130-134 | once the appended entries are consumed, nothing is left over to append |
| PeerReconcile.NoDuplicatesByCount | include/bonjour_browse.hpp:125-130 | a list in which each identity occurs at most once has no duplicates |
| PeerReconcile.CountOfNoDuplicates | include/bonjour_browse.hpp:125-130 | in a list without duplicates each identity occurs at most once |
| PeerReconcile.ReconciledNoDuplicates | include/bonjour_peer.hpp:267-298 | the reconciled list has no duplicates when the browse list has none |
| PeerReconcile.ReconciledMembers | include/bonjour_peer.hpp:267-298 | with duplicate-free peers, an identity is a peer afterwards exactly when it is in the snapshot and it was already a peer, or self-discovery is on, or it is not the registered identity |
| PeerReconcile.ExampleMatch | bonjour_peer.hpp:118-126 | peers [a, b] against snapshot [b, c]: a is dropped, b is kept, c is left over |
| PeerReconcile.ReconcileExample | include/bonjour_peer.hpp:267-298 | peers [a, b] with snapshot [b, c] and a registered, without self-discovery, become [b, c] |
| BonjourPeer.Names | include/bonjour_peer.hpp:267-298 | one identity per peer, in order |
| BonjourPeer.SeparateSelect | bonjour_peer.hpp:123 | dropping peers keeps the remaining peers' sessions separate from each other and from the peer's own sessions |
| BonjourPeer.NamesSelect | bonjour_peer.hpp:118-126 | the identities of the kept peers are the kept identities |
| BonjourPeer.NamesRemoveAt | include/bonjour_peer.hpp:284 | erasing a peer erases its identity |
| BonjourPeer.NamesAppend | include/bonjour_peer.hpp:294 | the identities of joined peer lists are the identities joined |
| BonjourPeer.NamesExtended | include/bonjour_peer.hpp:291-295 | peers appended with given identities extend the identity sequence by exactly those identities |
| BonjourPeer.NamesStable | include/bonjour_peer.hpp:222-228 | peers whose identities did not change keep their identity sequence |
| BonjourPeer.SelfResolverCalls | bonjour_peer.hpp:37-40 | the self-resolver is resolved at construction when the name is not empty, then `resolve()` calls the facility again only if that first attempt did not start; it is active exactly when one attempt started |
| BonjourPeer.Peer.PeersApart | include/bonjour_peer.hpp:222-228 | no peer shares a session with the register, the browser or the self-resolver |
| BonjourPeer.Peer.constructor | include/bonjour_peer.hpp:79-87 | a register for `MakeIdentity` of the arguments with the port, and a browser for the same type and domain, all sessions fresh, no peers, no self-resolver |
| BonjourPeer.Peer.WithSelfResolver | bonjour_peer.hpp:29-40 | as above, plus a self-resolver with the registered identity, the default callbacks and nothing resolved; its session is auto-resolved and then resolved once more |
| BonjourPeer.Peer.Port | bonjour_peer.hpp:83-86 | the register's port |
| BonjourPeer.Peer.ResolvedHost | bonjour_peer.hpp:139-142 | the self-resolver's current host |
| BonjourPeer.Peer.Start | include/bonjour_peer.hpp:101-114 | browse-only starts only the browser; register-only starts only the register; both starts the register, and the browser only if the register started, returning the conjunction; the peers are unchanged |
| BonjourPeer.Peer.Stop | bonjour_peer.hpp:57-61 | both the register and the browser are stopped |
| BonjourPeer.Peer.Clear | bonjour_peer.hpp:63-66 | the browser's list is empty and the peers are unchanged |
| BonjourPeer.Peer.ResolveAll | include/bonjour_peer.hpp:222-228 | every peer's session is spawned with its own resolve request; the register and the browser are untouched |
| BonjourPeer.Peer.ResolveNamed | include/bonjour_peer.hpp:244-252 | only the first peer equal to the identity is resolved; when none is equal nothing changes |
| BonjourPeer.Peer.ListPeers | bonjour_peer.hpp:106-137 | the peers become `Reconciled` of the old identities and the browser's list; the kept peers are the same objects, in order, at the front; the others are new; then the caller's list holds each peer's identity, strings, port and callbacks, in order: its existing elements are the same objects, stopped and assigned over; further peers are fresh copies with fresh sessions; its further elements are stopped |
| BonjourPeer.Peer.Deliver | include/bonjour_peer.hpp:297 | `peers = m_peers` on the maintained list, as `AssignList` states it; the peer's own list and identities are unchanged |
| BonjourPeer.Peer.Update | include/bonjour_peer.hpp:269-295 | the snapshot is the browser's list, and the peer list is reconciled against it as in `ListPeers` |
| BonjourPeer.Peer.Reconcile | include/bonjour_peer.hpp:279-295 | both loops turn the list into one whose identities are `Reconciled`, with no duplicates, the kept peers first and fresh resolvers after them |
| BonjourPeer.Peer.RetainListed | bonjour_peer.hpp:118-126 | the first loop, erasing in place, leaves exactly the kept peers and the unconsumed entries |
| BonjourPeer.Peer.AppendResolvers | bonjour_peer.hpp:130-134 | the second loop appends one new resolver per leftover entry that passes the self filter, in order; each starts with nothing resolved and the default callbacks, and resolves at once when its name is non-empty |
| BonjourPeer.Peer.PushResolver | include/bonjour_peer.hpp:294 | `emplace_back` of a new resolver for an identity; the peers already listed are unchanged |
| BonjourPeer.Peer.AssignList | bonjour_peer.hpp:136 | `std::list` copy assignment: the result holds what each source element holds, in order; the target's existing elements are kept as objects and their sessions become `AfterStop` with the source's regtype and domain; further source elements are fresh copies; further target elements are stopped; the source is unchanged |
| BonjourPeer.Peer.AssignShorter | include/bonjour_peer.hpp:297 | the case of a target at least as long as the source: the same, with the target's surplus stopped |
| BonjourPeer.Peer.AssignLonger | include/bonjour_peer.hpp:297 | the case of a longer source: the same, with fresh copies appended for the surplus |
| BonjourPeer.Peer.AssignOver | bonjour_service.hpp:48-61 | the first `n` target elements, in order, each assigned over from its source element and stopped first; every other element is unchanged |
| BonjourPeer.Peer.DestroyFrom | bonjour_base.hpp:110-113 | the destructor, from position `n` on: each such target session is stopped; every other element is unchanged |
| BonjourPeer.Peer.CopyAll | bonjour_service.hpp:42-46 | one fresh copy of each service, in order, through the copy constructor: same stored fields, a fresh inactive session |
| BonjourPeer.ApartKept | bonjour_peer.hpp:118-136 | the caller's list stays apart from the peers after the first loop drops some and the second appends new ones |
| BonjourPeer.Peer.ResolveEach | include/bonjour_peer.hpp:226-227 | the loop of `resolve()`: each service's session is spawned with its own resolve request, in order |
| PeerReconcile.ReconciledWithinSnapshot | include/bonjour_peer.hpp:279-295 | `Reconciled`, the identities after both loops: every maintained peer afterwards stands for an entry of its own in the browser's list; the result is a sub-multiset of the snapshot, and no longer than it |
| PeerReconcile.RetainFrom | bonjour_peer.hpp:118-126 | the first loop from position `i`: the list only shrinks, never below the `i` peers already passed, and the entries left only shrink |
| DnsSd.IsAdd | bonjour_browse.hpp:127 | the Add test reads bit 1 of the flag word |
| DnsSd.IsComplete | bonjour_service.hpp:93 | `complete` holds exactly when bit 0, MoreComing, is clear |
| DnsSd.FlagTestsIndependent | bonjour_browse.hpp:121-127 | the two tests read separate bits: toggling one bit never changes the other test, and always flips its own |

## Left out

- Threads, sockets and the worker (`bonjour_thread`, `impl::wait_on_socket`,
  `DNSServiceProcessResult`) are not modelled. A session only knows whether it
  holds a worker handle.
- The `DNSService*` calls are not modelled. Each start call's answer is a
  parameter, and the calls themselves appear only in the ghost trace.
- Mutexes and lock ordering are not modelled, and neither is the difference in
  locking between the two `stop` variants. The model is sequential.
- Destructors are modelled only where `peers = m_peers` destroys the caller's
  surplus elements (`DestroyFrom`). A destructor only stops the session.
- The callbacks' function pointers are not modelled. A notification is an
  entry in the ghost event log, with the arguments after the object pointer.
- The generic `std::tuple` index machinery of `callback_type` is modelled as
  three concrete position maps.
- The byte order of the resolved port is not modelled. The port is stored
  verbatim.
- The erase step `it = --m_peers.erase(it)` decrements `begin()` when the
  first peer is erased, which is undefined behaviour in C++. The model uses the
  evident intent: drop the unmatched peer and go on with the next one, keeping
  the order of the rest.
- include/bonjour-for-cpp.hpp is not part of this model. It only includes the
  other headers.
- The accessors `name()`, `regtype()` and `domain()` of the peer and of the
  session are not modelled separately. The model reads the fields through
  `Named()`.
- BonjourPeer.Peer.ListPeers: it states that the new peers are fresh objects,
  but not their resolver state. `AppendResolvers` states that state: each new
  resolver starts unresolved with the default callbacks, and resolves at once
  when its name is non-empty.
- BonjourPeer.Peer.ListPeers: the caller's list is a sequence of objects that
  are neither the peer's own nor shared with each other, as distinct C++ list
  nodes are. Passing the peer's own list to itself is not modelled.
- BonjourPeer.Peer.ListPeers: `std::list` may free the destroyed elements and
  reuse storage; the model keeps them as objects and states only that they are
  stopped.
- BonjourPeer.Peer.Update: likewise, it states freshness of the new peers and
  not their resolver state.
- BonjourPeer.Peer.ResolveAll and BonjourPeer.Peer.ResolveNamed: the facility
  answer for each identity is a parameter, so the model has no notion of two
  resolves of one identity getting different answers.
