/** src/application/PortService.cpp:24-71: when two snapshots name the same release targets. */
module PortTargets {
  import opened Common
  import opened Ordering
  import opened Sockets
  import opened Lexical

  datatype Plan = Plan(localPort: nat, ports: seq<PortInfo>, ownerPids: seq<int>, recommendedUnit: Option<string>)

  /** What prepareRelease guarantees of every plan it returns. */
  ghost predicate Prepared(plan: Plan) {
    && plan.ports != []
    && (forall p :: p in plan.ports ==> p.socket.ownerPids != [] && StrictlyIncreasing(p.socket.ownerPids))
    && (forall p, q :: p in plan.ports && q in plan.ports && p.socket.inode == q.socket.inode
                       ==> p.socket.ownerPids == q.socket.ownerPids)
    && StrictlyIncreasing(plan.ownerPids)
    && SetOf(plan.ownerPids) == Owners(plan.ports)
  }

  ghost function Owners(ports: seq<PortInfo>): set<int> {
    set i, pid | 0 <= i < |ports| && pid in ports[i].socket.ownerPids :: pid
  }

  lemma OwnerListed(ports: seq<PortInfo>, i: nat, k: nat)
    requires i < |ports| && k < |ports[i].socket.ownerPids|
    ensures ports[i].socket.ownerPids[k] in Owners(ports)
  {
    var pid := ports[i].socket.ownerPids[k];
    assert pid in ports[i].socket.ownerPids;
  }

  // ----- identities and their total order -----

  datatype Identity = Identity(protocol: Protocol, family: Family, address: string, port: nat, inode: nat,
                               owners: seq<int>)

  function IdentityOf(port: PortInfo): Identity {
    Identity(port.socket.protocol, port.socket.family, port.socket.local.address, port.socket.local.port,
             port.socket.inode, port.socket.ownerPids)
  }

  /** Field by field, as std::tuple compares. */
  function Compare(a: Identity, b: Identity): int {
    Then(CompareInt(ProtocolRank(a.protocol), ProtocolRank(b.protocol)),
    Then(CompareInt(FamilyRank(a.family), FamilyRank(b.family)),
    Then(CompareSeq(Codes(a.address), Codes(b.address)),
    Then(CompareInt(a.port, b.port),
    Then(CompareInt(a.inode, b.inode),
         CompareSeq(a.owners, b.owners))))))
  }

  predicate IdentityLe(a: Identity, b: Identity) {
    Compare(a, b) <= 0
  }

  lemma CompareSymmetric(a: Identity, b: Identity)
    ensures Compare(a, b) == -Compare(b, a)
    ensures Compare(a, b) == 0 <==> a == b
  {
    CompareSeqSymmetric(Codes(a.address), Codes(b.address));
    CompareSeqSymmetric(a.owners, b.owners);
    if Codes(a.address) == Codes(b.address) { CodesInjective(a.address, b.address); }
  }

  lemma CompareTransitive(a: Identity, b: Identity, c: Identity)
    requires Compare(a, b) <= 0 && Compare(b, c) <= 0
    ensures Compare(a, c) <= 0
  {
    CompareSeqSymmetric(Codes(a.address), Codes(b.address));
    CompareSeqSymmetric(Codes(b.address), Codes(c.address));
    CompareSeqSymmetric(Codes(a.address), Codes(c.address));
    if CompareSeq(Codes(a.address), Codes(b.address)) <= 0 && CompareSeq(Codes(b.address), Codes(c.address)) <= 0 {
      CompareSeqTransitive(Codes(a.address), Codes(b.address), Codes(c.address));
    }
    if CompareSeq(a.owners, b.owners) <= 0 && CompareSeq(b.owners, c.owners) <= 0 {
      CompareSeqTransitive(a.owners, b.owners, c.owners);
    }
  }

  /** The tuple order is total, so a set of identities has one sorted arrangement. */
  lemma IdentityOrder()
    ensures TotalPreorder(IdentityLe) && Antisymmetric(IdentityLe)
  {
    forall a, b
      ensures IdentityLe(a, b) || IdentityLe(b, a)
      ensures IdentityLe(a, b) && IdentityLe(b, a) ==> a == b
    {
      CompareSymmetric(a, b);
    }
    forall a, b, c | IdentityLe(a, b) && IdentityLe(b, c) ensures IdentityLe(a, c) {
      CompareTransitive(a, b, c);
    }
  }

  function Identities(ports: seq<PortInfo>): (ids: seq<Identity>)
    ensures |ids| == |ports|
  {
    seq(|ports|, i requires 0 <= i < |ports| => IdentityOf(ports[i]))
  }

  /** identities() builds the list one port at a time and sorts it. */
  method SortedIdentities(plan: Plan) returns (values: seq<Identity>)
    ensures values == Sort(IdentityLe, Identities(plan.ports))
  {
    values := [];
    for i := 0 to |plan.ports|
      invariant values == Identities(plan.ports)[..i]
    {
      values := values + [IdentityOf(plan.ports[i])];
    }
    assert Identities(plan.ports)[..|plan.ports|] == Identities(plan.ports);
    values := Sort(IdentityLe, values);
  }

  predicate SameTargets(expected: Plan, current: Plan) {
    Sort(IdentityLe, Identities(expected.ports)) == Sort(IdentityLe, Identities(current.ports))
  }

  method CompareTargets(expected: Plan, current: Plan) returns (same: bool)
    ensures same <==> SameTargets(expected, current)
  {
    var left := SortedIdentities(expected);
    var right := SortedIdentities(current);
    return left == right;
  }

  /** The comparison sees the multiset of identities and nothing of the enumeration order. */
  lemma SameTargetsExactly(expected: Plan, current: Plan)
    ensures SameTargets(expected, current)
       <==> multiset(Identities(expected.ports)) == multiset(Identities(current.ports))
  {
    IdentityOrder();
    var a, b := Identities(expected.ports), Identities(current.ports);
    SortSorted(IdentityLe, a);
    SortSorted(IdentityLe, b);
    if multiset(a) == multiset(b) {
      SortedUnique(IdentityLe, Sort(IdentityLe, a), Sort(IdentityLe, b));
    }
  }

  /** Exchanging one port for another is noticed exactly when one of six facts about it differs; nothing else is seen. */
  lemma ReplacedPort(plan: Plan, i: nat, port: PortInfo)
    requires i < |plan.ports|
    ensures SameTargets(plan, plan.(ports := plan.ports[i := port]))
       <==> && plan.ports[i].socket.protocol == port.socket.protocol && plan.ports[i].socket.family == port.socket.family
            && plan.ports[i].socket.local.address == port.socket.local.address
            && plan.ports[i].socket.local.port == port.socket.local.port
            && plan.ports[i].socket.inode == port.socket.inode
            && plan.ports[i].socket.ownerPids == port.socket.ownerPids
  {
    var ids := Identities(plan.ports);
    assert Identities(plan.ports[i := port]) == ids[i := IdentityOf(port)];
    SameTargetsExactly(plan, plan.(ports := plan.ports[i := port]));
    Exchanged(ids, i, IdentityOf(port));
  }

  lemma Exchanged<T>(s: seq<T>, i: nat, x: T)
    requires i < |s|
    ensures multiset(s[i := x]) == multiset(s) <==> x == s[i]
  {
    var (before, after) := (multiset(s[..i]), multiset(s[i + 1..]));
    assert s == s[..i] + [s[i]] + s[i + 1..];
    assert s[i := x] == s[..i] + [x] + s[i + 1..];
    assert multiset(s) == before + multiset{s[i]} + after;
    assert multiset(s[i := x]) == before + multiset{x} + after;
    assert x != s[i] ==> multiset(s[i := x])[x] == multiset(s)[x] + 1;
  }

  /** Matching plans have the very same list of processes to signal. */
  lemma SameTargetsSameOwners(expected: Plan, current: Plan)
    requires Prepared(expected) && Prepared(current) && SameTargets(expected, current)
    ensures expected.ownerPids == current.ownerPids
  {
    SameTargetsExactly(expected, current);
    OwnersCovered(expected.ports, current.ports);
    OwnersCovered(current.ports, expected.ports);
    StrictlyIncreasingUnique(expected.ownerPids, current.ownerPids);
  }

  lemma OwnersCovered(a: seq<PortInfo>, b: seq<PortInfo>)
    requires multiset(Identities(a)) == multiset(Identities(b))
    ensures Owners(a) <= Owners(b)
  {
    forall pid | pid in Owners(a) ensures pid in Owners(b) {
      var i :| 0 <= i < |a| && pid in a[i].socket.ownerPids;
      assert Identities(a)[i] in multiset(Identities(b));
      var j :| 0 <= j < |b| && Identities(b)[j] == Identities(a)[i];
      assert pid in b[j].socket.ownerPids;
    }
  }

  // ----- what may remain after signalling -----

  /** std::includes over two ranges. */
  predicate Includes(whole: seq<int>, part: seq<int>) {
    if part == [] then true
    else if whole == [] || part[0] < whole[0] then false
    else if whole[0] < part[0] then Includes(whole[1..], part)
    else Includes(whole[1..], part[1..])
  }

  /** On strictly increasing ranges the merge-style walk decides inclusion of sets. */
  lemma {:induction false} IncludesExactly(whole: seq<int>, part: seq<int>)
    requires StrictlyIncreasing(whole) && StrictlyIncreasing(part)
    ensures Includes(whole, part) <==> SetOf(part) <= SetOf(whole)
  {
    if part == [] {
    } else if whole == [] || part[0] < whole[0] {
      assert part[0] in SetOf(part);
      assert part[0] !in SetOf(whole);
    } else if whole[0] < part[0] {
      IncludesExactly(whole[1..], part);
      assert forall x :: x in whole <==> x == whole[0] || x in whole[1..];
      assert whole[0] !in part;
    } else {
      IncludesExactly(whole[1..], part[1..]);
      assert forall x :: x in whole <==> x == whole[0] || x in whole[1..];
      assert forall x :: x in part <==> x == part[0] || x in part[1..];
      assert whole[0] !in part[1..] && whole[0] !in whole[1..];
      if SetOf(part) <= SetOf(whole) {
        forall x | x in SetOf(part[1..]) ensures x in SetOf(whole[1..]) {
          assert x in SetOf(part);
        }
      }
      if SetOf(part[1..]) <= SetOf(whole[1..]) {
        forall x | x in SetOf(part) ensures x in SetOf(whole) {
          assert x != part[0] ==> x in SetOf(part[1..]);
        }
      }
    }
  }

  predicate SameSocket(a: PortInfo, b: PortInfo) {
    && a.socket.protocol == b.socket.protocol && a.socket.family == b.socket.family
    && a.socket.local == b.socket.local && a.socket.inode == b.socket.inode
  }

  /** std::find_if over the original ports. */
  function FindSocket(ports: seq<PortInfo>, wanted: PortInfo): (found: Option<PortInfo>)
    ensures found.Some? ==> found.value in ports && SameSocket(found.value, wanted)
    ensures found.None? ==> forall p :: p in ports ==> !SameSocket(p, wanted)
  {
    if ports == [] then None
    else if SameSocket(ports[0], wanted) then Some(ports[0])
    else FindSocket(ports[1..], wanted)
  }

  predicate PortRemains(original: Plan, port: PortInfo) {
    var found := FindSocket(original.ports, port);
    found.Some? && Includes(found.value.socket.ownerPids, port.socket.ownerPids)
  }

  predicate Remains(original: Plan, current: Plan) {
    forall i :: 0 <= i < |current.ports| ==> PortRemains(original, current.ports[i])
  }

  method RemainingTargetsBelongTo(original: Plan, current: Plan) returns (belong: bool)
    ensures belong <==> Remains(original, current)
  {
    for i := 0 to |current.ports|
      invariant forall k :: 0 <= k < i ==> PortRemains(original, current.ports[k])
    {
      var found := FindSocket(original.ports, current.ports[i]);
      if found.None? || !Includes(found.value.socket.ownerPids, current.ports[i].socket.ownerPids) {
        assert !PortRemains(original, current.ports[i]);
        return false;
      }
    }
    return true;
  }

  /** No new socket and no new owner: exactly when the check lets a later snapshot through. */
  lemma RemainsExactly(original: Plan, current: Plan)
    requires Prepared(original) && Prepared(current)
    ensures Remains(original, current)
       <==> forall c :: c in current.ports ==>
              exists o :: o in original.ports
                && o.socket.protocol == c.socket.protocol && o.socket.family == c.socket.family
                && o.socket.local.address == c.socket.local.address && o.socket.local.port == c.socket.local.port
                && o.socket.inode == c.socket.inode
                && forall pid :: pid in c.socket.ownerPids ==> pid in o.socket.ownerPids
  {
    RemainsBySocket(original, current);
    forall o, c
      ensures SameSocket(o, c) <==>
                && o.socket.protocol == c.socket.protocol && o.socket.family == c.socket.family
                && o.socket.local.address == c.socket.local.address && o.socket.local.port == c.socket.local.port
                && o.socket.inode == c.socket.inode
      ensures SetOf(c.socket.ownerPids) <= SetOf(o.socket.ownerPids)
         <==> forall pid :: pid in c.socket.ownerPids ==> pid in o.socket.ownerPids
    {
      Subset(c.socket.ownerPids, o.socket.ownerPids);
    }
  }

  lemma Subset(part: seq<int>, whole: seq<int>)
    ensures SetOf(part) <= SetOf(whole) <==> forall x :: x in part ==> x in whole
  {
    if SetOf(part) <= SetOf(whole) {
      forall x | x in part ensures x in whole {
        assert x in SetOf(part);
      }
    }
    if forall x :: x in part ==> x in whole {
      forall x | x in SetOf(part) ensures x in SetOf(whole) {
        assert x in part;
      }
    }
  }

  lemma RemainsBySocket(original: Plan, current: Plan)
    requires Prepared(original) && Prepared(current)
    ensures Remains(original, current)
       <==> forall c :: c in current.ports ==>
              exists o :: o in original.ports && SameSocket(o, c)
                          && SetOf(c.socket.ownerPids) <= SetOf(o.socket.ownerPids)
  {
    forall c | c in current.ports
      ensures PortRemains(original, c)
         <==> exists o :: o in original.ports && SameSocket(o, c)
                          && SetOf(c.socket.ownerPids) <= SetOf(o.socket.ownerPids)
    {
      var found := FindSocket(original.ports, c);
      if found.Some? {
        IncludesExactly(found.value.socket.ownerPids, c.socket.ownerPids);
      }
    }
  }

  /** Whoever still owns the port owned it in the original plan. */
  lemma RemainingOwnersAreOriginal(original: Plan, current: Plan)
    requires Prepared(original) && Prepared(current) && Remains(original, current)
    ensures SetOf(current.ownerPids) <= SetOf(original.ownerPids)
  {
    RemainsBySocket(original, current);
    forall pid | pid in Owners(current.ports) ensures pid in Owners(original.ports) {
      var i :| 0 <= i < |current.ports| && pid in current.ports[i].socket.ownerPids;
      OwnerStays(original.ports, current.ports[i], pid);
    }
  }

  lemma OwnerStays(ports: seq<PortInfo>, c: PortInfo, pid: int)
    requires pid in c.socket.ownerPids
    requires exists o :: o in ports && SameSocket(o, c) && SetOf(c.socket.ownerPids) <= SetOf(o.socket.ownerPids)
    ensures pid in Owners(ports)
  {
    var o :| o in ports && SameSocket(o, c) && SetOf(c.socket.ownerPids) <= SetOf(o.socket.ownerPids);
    var j :| 0 <= j < |ports| && ports[j] == o;
    assert pid in SetOf(c.socket.ownerPids);
    assert pid in ports[j].socket.ownerPids;
  }
}
