/** The few scalar types and constants of the discovery library's C interface
    (`dns_sd.h`) that the supervisory layer relies on. The header itself is not
    part of this model; only the values the core compares against are. */
module DnsSd {

  /** `uint16_t`, the type of a service port. It is stored verbatim, in
      whatever byte order the library hands it over. */
  newtype uint16 = x: int | 0 <= x < 0x1_0000

  /** `DNSServiceFlags`, a 32-bit flag word. */
  type Flags = bv32

  /** `kDNSServiceErr_NoError`, the one error code that means success. */
  const NO_ERROR: int := 0

  /** `kDNSServiceFlagsMoreComing` and `kDNSServiceFlagsAdd`: two distinct single bits. */
  const FLAGS_MORE_COMING: Flags := 0x1
  const FLAGS_ADD: Flags := 0x2

  /** `(flags & kDNSServiceFlagsAdd) != 0`: bit 1 of the flag word is set. */
  function IsAdd(flags: Flags): (b: bool)
    ensures b <==> (flags >> 1) & 1 == 1
  {
    flags & FLAGS_ADD != 0
  }

  /** `(flags & kDNSServiceFlagsMoreComing) == 0`, the `complete` flag every
      reply handler computes: bit 0 of the flag word is clear. */
  function IsComplete(flags: Flags): (b: bool)
    ensures b <==> flags & 1 == 0
  {
    flags & FLAGS_MORE_COMING == 0
  }

  /** The two tests read separate bits: toggling the MoreComing bit never
      changes `IsAdd`, toggling the Add bit never changes `IsComplete`, and
      toggling a test's own bit always flips it. */
  lemma FlagTestsIndependent(flags: Flags)
    ensures IsAdd(flags ^ FLAGS_MORE_COMING) == IsAdd(flags)
    ensures IsComplete(flags ^ FLAGS_ADD) == IsComplete(flags)
    ensures IsAdd(flags ^ FLAGS_ADD) == !IsAdd(flags)
    ensures IsComplete(flags ^ FLAGS_MORE_COMING) == !IsComplete(flags)
  {
  }
}
