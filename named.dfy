/** `bonjour_named`: a service identity, the triple (name, regtype, domain),
    and the list operations the rest of the core performs on lists of them. */
module BonjourNamed {
  import opened Wrappers
  import Utils

  /** A named service. Strings are C strings, so they hold no NUL character and
      `strcmp` equality is sequence equality. */
  datatype Identity = Identity(name: string, regtype: string, domain: string)

  /** The constructor: the name and service type are validated (kept as they
      are), the domain is validated through the base constructor. */
  function MakeIdentity(name: string, regtype: string, domain: Option<string>): (id: Identity)
    ensures id.name == name && id.regtype == regtype
    ensures domain.Some? && domain.value != "" ==> id.domain == domain.value
    ensures domain.None? || domain.value == "" ==> id.domain == Utils.LOCAL_DOMAIN
  {
    Identity(Utils.ValidateName(name), Utils.ValidateRegtype(regtype), Utils.ValidateDomain(domain))
  }

  /** Re-validating the fields of a constructed identity gives back the same identity. */
  lemma MakeIdentityIdempotent(name: string, regtype: string, domain: Option<string>)
    ensures var id := MakeIdentity(name, regtype, domain);
            MakeIdentity(id.name, id.regtype, Some(id.domain)) == id
  {
    Utils.ValidateDomainIdempotent(domain);
  }

  /** `equal`: three case-sensitive `strcmp` comparisons, all of which must succeed. */
  function Equal(a: Identity, b: Identity): (r: bool)
    ensures r <==> a.name == b.name && a.regtype == b.regtype && a.domain == b.domain
  {
    a == b
  }

  lemma EqualIsEquivalence(a: Identity, b: Identity, c: Identity)
    ensures Equal(a, a)
    ensures Equal(a, b) == Equal(b, a)
    ensures Equal(a, b) && Equal(b, c) ==> Equal(a, c)
  {
  }

  /** `find`: the position of the first element equal to `x`, scanning from
      the front, or `|s|` (the end iterator) when there is none. The list is
      only read. */
  function Find(s: seq<Identity>, x: Identity): (i: nat)
    ensures i <= |s|
    ensures i < |s| ==> Equal(s[i], x)
    ensures forall j :: 0 <= j < i ==> !Equal(s[j], x)
    ensures i == |s| <==> x !in s
  {
    if s == [] then 0
    else if Equal(s[0], x) then 0
    else 1 + Find(s[1..], x)
  }

  /** `find` as the loop it is: the scan from the front stops at the first
      equal element, or at the end. */
  method FindFirst(s: seq<Identity>, x: Identity) returns (i: nat)
    ensures i == Find(s, x)
  {
    i := 0;
    while i < |s| && !Equal(s[i], x)
      invariant i <= |s|
      invariant forall j :: 0 <= j < i ==> !Equal(s[j], x)
    {
      i := i + 1;
    }
  }

  /** No two elements of the list are equal. */
  predicate NoDuplicates(s: seq<Identity>) {
    forall i, j :: 0 <= i < j < |s| ==> s[i] != s[j]
  }

  /** `std::list::erase` of the element at position `i`: the others stay, in order. */
  function RemoveAt<T>(s: seq<T>, i: nat): (r: seq<T>)
    requires i < |s|
    ensures |r| == |s| - 1
    ensures forall k :: 0 <= k < i ==> r[k] == s[k]
    ensures forall k :: i <= k < |r| ==> r[k] == s[k + 1]
    ensures multiset(r) + multiset{s[i]} == multiset(s)
  {
    assert s == s[..i] + [s[i]] + s[i + 1..];
    s[..i] + s[i + 1..]
  }
}
