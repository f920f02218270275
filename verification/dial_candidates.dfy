/** Which endpoints a dial tries, and when it tries them again. */
module DialCandidates {
  import opened Collections

  const MAX_CANDIDATES := 16

  /** Addresses as numbers: 32 bits for version 4, 128 for version 6. */
  datatype SocketAddr =
    | V4(ip: nat, port: nat)
    | V6(ip6: nat, port: nat, flowInfo: nat, scopeId: nat)

  const V4_SPACE := 0x1_0000_0000

  /** The IPv4-mapped block ::ffff:0:0/96 of section 2.5.5.2 of RFC 4291. */
  predicate IsMapped(a: SocketAddr) {
    a.V6? && a.ip6 / V4_SPACE == 0xffff
  }

  function Canonical(a: SocketAddr): SocketAddr {
    if IsMapped(a) then V4(a.ip6 % V4_SPACE, a.port) else a
  }

  function CanonicalAll(addresses: seq<SocketAddr>): (r: seq<SocketAddr>)
    ensures |r| == |addresses|
    ensures forall i :: 0 <= i < |r| ==> r[i] == Canonical(addresses[i])
  {
    seq(|addresses|, i requires 0 <= i < |addresses| => Canonical(addresses[i]))
  }

  /** A version 4 address and its mapped form share one canonical form, whatever
      scope or flow label the mapped form carries, and canonical forms are fixed. */
  lemma MappedFormsCoincide(ip: nat, port: nat, flowInfo: nat, scopeId: nat)
    requires ip < V4_SPACE
    ensures var mapped := V6(0xffff * V4_SPACE + ip, port, flowInfo, scopeId);
            IsMapped(mapped) && Canonical(mapped) == Canonical(V4(ip, port)) == V4(ip, port)
  {
  }

  /** The canonical form differs from the address exactly for those of the form
      ::ffff:a.b.c.d, and is then the version 4 address in the last 32 bits. */
  lemma CanonicalExactly(a: SocketAddr)
    ensures Canonical(a) == if a.V6? && 0xffff_0000_0000 <= a.ip6 < 0x1_0000_0000_0000
                            then V4(a.ip6 - 0xffff_0000_0000, a.port) else a
  {
  }

  /** Two addresses take one dial slot exactly when they are equal or denote the
      same version 4 endpoint, plainly or mapped. */
  lemma SharedSlot(a: SocketAddr, b: SocketAddr)
    ensures Canonical(a) == Canonical(b) <==>
              a == b || (a.port == b.port
                         && ((IsMapped(a) && IsMapped(b) && a.ip6 == b.ip6)
                             || (IsMapped(a) && b == V4(a.ip6 - 0xffff * V4_SPACE, b.port))
                             || (IsMapped(b) && a == V4(b.ip6 - 0xffff * V4_SPACE, a.port))))
  {
  }

  /** The dialled list: the first 16 distinct canonical addresses in order of
      first occurrence. */
  method CandidateList(addresses: seq<SocketAddr>) returns (unique: seq<SocketAddr>)
    ensures unique == FirstN(Distinct(CanonicalAll(addresses)), 16)
  {
    unique := [];
    ghost var all := CanonicalAll(addresses);
    var i := 0;
    while i < |addresses|
      invariant 0 <= i <= |addresses|
      invariant unique == Distinct(all[..i]) && |unique| < MAX_CANDIDATES
    {
      var address := Canonical(addresses[i]);
      assert Before(all[..i + 1]) == all[..i] && Last(all[..i + 1]) == address;
      if address !in unique {
        unique := unique + [address];
        if |unique| == MAX_CANDIDATES {
          DistinctGrows(all, i + 1);
          return;
        }
      }
      i := i + 1;
    }
    assert all[..i] == all;
  }

  /** More input only appends to the list of distinct elements. */
  lemma {:induction false} DistinctGrows<T(!new)>(items: seq<T>, n: nat)
    requires n <= |items|
    ensures Distinct(items[..n]) <= Distinct(items)
  {
    if n == |items| {
      assert items[..n] == items;
    } else {
      DistinctGrows(Before(items), n);
      assert Before(items)[..n] == items[..n];
    }
  }

  // ---- Failures and the retry decision ----

  /** The `phase` label a candidate carries when it fails. */
  datatype FailurePhase = CapacityWait | GlobalWait | QuicHandshake | PeerAuthentication

  /** How a candidate task ended without a session. A task that panicked reports
      neither a phase nor a cause. */
  datatype Failure =
    | Failure(phase: FailurePhase, timedOut: bool, idleTimeout: bool)
    | Panicked

  predicate PathTimedOut(f: Failure) {
    f.Failure? && f.phase == QuicHandshake && (f.timedOut || f.idleTimeout)
  }

  predicate AuthenticationFailed(f: Failure) {
    f.Failure? && f.phase == PeerAuthentication
  }

  /** Retry on a fresh path: some candidate got no answer, and none was rejected.
      It depends on which failures occurred, not on their order or number. */
  predicate RetryWarranted(failures: set<Failure>) {
    (exists f :: f in failures && PathTimedOut(f)) && !(exists f :: f in failures && AuthenticationFailed(f))
  }

  method DecideRetry(failures: seq<Failure>) returns (retry: bool)
    ensures retry == RetryWarranted(set f | f in failures)
  {
    var pathTimedOut, authenticationFailed := false, false;
    for i := 0 to |failures|
      invariant pathTimedOut <==> exists f :: f in failures[..i] && PathTimedOut(f)
      invariant authenticationFailed <==> exists f :: f in failures[..i] && AuthenticationFailed(f)
    {
      assert failures[..i + 1] == failures[..i] + [failures[i]];
      pathTimedOut := pathTimedOut || PathTimedOut(failures[i]);
      authenticationFailed := authenticationFailed || AuthenticationFailed(failures[i]);
    }
    assert failures[..|failures|] == failures;
    retry := pathTimedOut && !authenticationFailed;
  }
}
