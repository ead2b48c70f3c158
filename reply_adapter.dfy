/** `bonjour_base::callback_type<...>::reply`: the adapter the facility calls
    back. It receives the facility's positional arguments, takes the owning
    object from the last one (the context pointer), reads the error code at a
    fixed position and either forwards a fixed list of positions, in order, to
    the object's typed reply handler, or stops the object and notifies its stop
    callback. The three reply signatures are written out as three shapes. */
module ReplyAdapter {
  import opened DnsSd

  /** One argument of a reply callback. `C` is the class of the owning object,
      which the context argument points to. */
  datatype Arg<C> =
    | ServiceRefArg                       // DNSServiceRef
    | FlagsArg(flags: Flags)              // DNSServiceFlags
    | InterfaceArg(index: nat)            // uint32_t interfaceIndex
    | ErrorArg(code: int)                 // DNSServiceErrorType
    | TextArg(text: string)               // const char *
    | PortArg(port: uint16)               // uint16_t
    | TxtLenArg(length: uint16)           // uint16_t txtLen
    | TxtRecordArg(bytes: seq<bv8>)       // const unsigned char *txtRecord
    | ContextArg(target: C)               // void *context

  datatype Kind = ServiceRefKind | FlagsKind | InterfaceKind | ErrorKind | TextKind
                | PortKind | TxtLenKind | TxtRecordKind | ContextKind

  function KindOf<C>(a: Arg<C>): Kind {
    match a
    case ServiceRefArg => ServiceRefKind
    case FlagsArg(_) => FlagsKind
    case InterfaceArg(_) => InterfaceKind
    case ErrorArg(_) => ErrorKind
    case TextArg(_) => TextKind
    case PortArg(_) => PortKind
    case TxtLenArg(_) => TxtLenKind
    case TxtRecordArg(_) => TxtRecordKind
    case ContextArg(_) => ContextKind
  }

  /** A reply signature, the position of its error code and the positions it forwards. */
  datatype Shape = Shape(signature: seq<Kind>, errorAt: nat, forward: seq<nat>)

  predicate WellFormed(sh: Shape) {
    && |sh.signature| > 0
    && sh.signature[|sh.signature| - 1] == ContextKind
    && sh.errorAt < |sh.signature|
    && sh.signature[sh.errorAt] == ErrorKind
    && forall k :: 0 <= k < |sh.forward| ==> sh.forward[k] < |sh.signature|
  }

  /** The arguments have the types the signature says. */
  predicate Conforms<C>(sh: Shape, args: seq<Arg<C>>) {
    |args| == |sh.signature| && forall i :: 0 <= i < |args| ==> KindOf(args[i]) == sh.signature[i]
  }

  /** `DNSServiceRegisterReply(sdRef, flags, errorCode, name, regtype, domain, context)`,
      `make_callback_type<bonjour_register, 2, 1, 3, 4, 5>`. */
  const REGISTER_SHAPE: Shape :=
    Shape([ServiceRefKind, FlagsKind, ErrorKind, TextKind, TextKind, TextKind, ContextKind], 2, [1, 3, 4, 5])

  /** `DNSServiceBrowseReply(sdRef, flags, interfaceIndex, errorCode, serviceName,
      regtype, replyDomain, context)`, `make_callback_type<bonjour_browse, 3, 1, 4, 5, 6>`. */
  const BROWSE_SHAPE: Shape :=
    Shape([ServiceRefKind, FlagsKind, InterfaceKind, ErrorKind, TextKind, TextKind, TextKind, ContextKind],
          3, [1, 4, 5, 6])

  /** `DNSServiceResolveReply(sdRef, flags, interfaceIndex, errorCode, fullname,
      hosttarget, port, txtLen, txtRecord, context)`,
      `make_callback_type<bonjour_service, 3, 1, 4, 5, 6>`. */
  const RESOLVE_SHAPE: Shape :=
    Shape([ServiceRefKind, FlagsKind, InterfaceKind, ErrorKind, TextKind, TextKind, PortKind,
           TxtLenKind, TxtRecordKind, ContextKind], 3, [1, 4, 5, 6])

  /** What the adapter does with one call. */
  datatype Dispatch<C> =
    | Forward(target: C, forwarded: seq<Arg<C>>)   // obj->reply(std::get<Idxs>(parameters)...)
    | StopNotify(target: C)                        // obj->stop_notify(obj->m_notify.m_stop, obj)

  /** The arguments at the given positions, in the given order. */
  function Pick<C>(args: seq<Arg<C>>, positions: seq<nat>): (r: seq<Arg<C>>)
    requires forall k :: 0 <= k < |positions| ==> positions[k] < |args|
    ensures |r| == |positions|
    ensures forall k :: 0 <= k < |positions| ==> r[k] == args[positions[k]]
  {
    if positions == [] then []
    else [args[positions[0]]] + Pick(args, positions[1..])
  }

  /** `callback_type::reply(args...)` */
  function Adapt<C>(sh: Shape, args: seq<Arg<C>>): (d: Dispatch<C>)
    requires WellFormed(sh) && Conforms(sh, args)
    ensures args[|args| - 1].ContextArg? && d.target == args[|args| - 1].target
    ensures args[sh.errorAt].ErrorArg?
    ensures d.Forward? <==> args[sh.errorAt].code == NO_ERROR
    ensures d.Forward? ==> |d.forwarded| == |sh.forward|
    ensures d.Forward? ==> forall k :: 0 <= k < |sh.forward| ==> d.forwarded[k] == args[sh.forward[k]]
  {
    assert KindOf(args[|args| - 1]) == ContextKind && KindOf(args[sh.errorAt]) == ErrorKind;
    var obj := args[|args| - 1].target;
    if args[sh.errorAt].code == NO_ERROR then Forward(obj, Pick(args, sh.forward)) else StopNotify(obj)
  }

  /** The three shapes are well formed: each forwards flags and three more
      arguments, and never forwards the error code or the context. */
  lemma ShapesWellFormed()
    ensures WellFormed(REGISTER_SHAPE) && WellFormed(BROWSE_SHAPE) && WellFormed(RESOLVE_SHAPE)
    ensures forall sh :: sh in {REGISTER_SHAPE, BROWSE_SHAPE, RESOLVE_SHAPE} ==>
              |sh.forward| == 4 && sh.signature[sh.forward[0]] == FlagsKind &&
              sh.errorAt !in sh.forward && |sh.signature| - 1 !in sh.forward
  {
  }
}
