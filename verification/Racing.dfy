/** Dialing the resolved addresses of one host: serially, or as a race between address families. */
module Racing {
  import opened Octets

  datatype Address = Address(ip: string, ipv6: bool)

  // ---- Ordering the candidates ----

  function Family(addresses: seq<Address>, ipv6: bool): seq<Address> {
    if addresses == [] then []
    else (if addresses[0].ipv6 == ipv6 then [addresses[0]] else []) + Family(addresses[1..], ipv6)
  }

  function Interleaved(six: seq<Address>, four: seq<Address>): seq<Address> {
    if six == [] then four
    else if four == [] then [six[0]] + Interleaved(six[1..], [])
    else [six[0], four[0]] + Interleaved(six[1..], four[1..])
  }

  /** The order in which the candidates of a resolution are tried. */
  function Order(addresses: seq<Address>): seq<Address> {
    Interleaved(Family(addresses, true), Family(addresses, false))
  }

  lemma {:induction false} FamilyOf(addresses: seq<Address>, ipv6: bool)
    ensures forall i :: 0 <= i < |Family(addresses, ipv6)| ==> Family(addresses, ipv6)[i].ipv6 == ipv6
  {
    if addresses != [] {
      FamilyOf(addresses[1..], ipv6);
    }
  }

  lemma {:induction false} FamilyAppend(a: seq<Address>, b: seq<Address>, ipv6: bool)
    ensures Family(a + b, ipv6) == Family(a, ipv6) + Family(b, ipv6)
  {
    if a == [] {
      assert a + b == b;
    } else {
      FamilyAppend(a[1..], b, ipv6);
      assert (a + b)[1..] == a[1..] + b && (a + b)[0] == a[0];
      var first := if a[0].ipv6 == ipv6 then [a[0]] else [];
      assert first + (Family(a[1..], ipv6) + Family(b, ipv6)) == (first + Family(a[1..], ipv6)) + Family(b, ipv6);
    }
  }

  lemma {:induction false} FamilyPure(s: seq<Address>, ipv6: bool)
    requires forall i :: 0 <= i < |s| ==> s[i].ipv6 == ipv6
    ensures Family(s, ipv6) == s && Family(s, !ipv6) == []
  {
    if s != [] {
      FamilyPure(s[1..], ipv6);
    }
  }

  lemma {:induction false} InterleavedFamilies(six: seq<Address>, four: seq<Address>)
    requires forall i :: 0 <= i < |six| ==> six[i].ipv6
    requires forall i :: 0 <= i < |four| ==> !four[i].ipv6
    ensures Family(Interleaved(six, four), true) == six
    ensures Family(Interleaved(six, four), false) == four
  {
    hide Family;
    if six == [] {
      FamilyPure(four, false);
    } else {
      var rest := if four == [] then [] else four[1..];
      InterleavedFamilies(six[1..], rest);
      var more := Interleaved(six[1..], rest);
      if four == [] {
        FamilyCons(six[0], more);
      } else {
        FamilyCons(four[0], more);
        FamilyCons(six[0], [four[0]] + more);
        assert [six[0], four[0]] + more == [six[0]] + ([four[0]] + more);
      }
    }
  }

  lemma {:induction false} FamilyCons(a: Address, more: seq<Address>)
    ensures Family([a] + more, a.ipv6) == [a] + Family(more, a.ipv6)
    ensures Family([a] + more, !a.ipv6) == Family(more, !a.ipv6)
  {
    assert ([a] + more)[1..] == more;
  }

  lemma {:induction false} FamiliesArePartition(addresses: seq<Address>)
    ensures multiset(addresses) == multiset(Family(addresses, true)) + multiset(Family(addresses, false))
  {
    if addresses != [] {
      FamiliesArePartition(addresses[1..]);
      assert addresses == [addresses[0]] + addresses[1..];
    }
  }

  /** The order is a permutation of the resolution that keeps the order within each family. */
  lemma {:induction false} OrderIsFair(addresses: seq<Address>)
    ensures multiset(Order(addresses)) == multiset(addresses)
    ensures forall ipv6 :: Family(Order(addresses), ipv6) == Family(addresses, ipv6)
  {
    FamilyOf(addresses, true);
    FamilyOf(addresses, false);
    InterleavedFamilies(Family(addresses, true), Family(addresses, false));
    FamiliesArePartition(addresses);
    FamiliesArePartition(Order(addresses));
    forall ipv6 ensures Family(Order(addresses), ipv6) == Family(addresses, ipv6) {
    }
  }

  /** And the families alternate while both last, IPv6 first. */
  lemma {:induction false} OrderAlternates(six: seq<Address>, four: seq<Address>, i: nat)
    requires i < |six| && i < |four|
    ensures 2 * i + 1 < |Interleaved(six, four)|
    ensures Interleaved(six, four)[2 * i] == six[i] && Interleaved(six, four)[2 * i + 1] == four[i]
  {
    if i > 0 {
      OrderAlternates(six[1..], four[1..], i - 1);
    }
  }

  lemma {:induction false} InterleavedPositions(six: seq<Address>, four: seq<Address>, j: nat)
    requires forall i :: 0 <= i < |six| ==> six[i].ipv6
    requires forall i :: 0 <= i < |four| ==> !four[i].ipv6
    requires j < |Interleaved(six, four)|
    ensures Interleaved(six, four)[j].ipv6 ==
            if j < 2 * |six| && j < 2 * |four| then j % 2 == 0 else |six| > |four|
  {
    if six != [] && four == [] {
      if j > 0 {
        InterleavedPositions(six[1..], [], j - 1);
      }
    } else if six != [] && j >= 2 {
      InterleavedPositions(six[1..], four[1..], j - 2);
    }
  }

  /** In the order of a resolution, IPv6 and IPv4 addresses alternate, IPv6 first, as long as there are both;
      what is left is all of one family. */
  lemma {:induction false} OrderPositions(addresses: seq<Address>, j: nat)
    requires j < |Order(addresses)|
    ensures var six, four := |Family(addresses, true)|, |Family(addresses, false)|;
            Order(addresses)[j].ipv6 == if j < 2 * six && j < 2 * four then j % 2 == 0 else six > four
  {
    hide Family, Interleaved;
    FamilyOf(addresses, true);
    FamilyOf(addresses, false);
    InterleavedPositions(Family(addresses, true), Family(addresses, false), j);
  }

  method InterleaveAddressFamilies(addresses: seq<Address>) returns (interleaved: seq<Address>)
    ensures interleaved == Order(addresses)
  {
    var ipv6: seq<Address>, ipv4: seq<Address> := [], [];
    var i := 0;
    while i < |addresses|
      invariant i <= |addresses|
      invariant ipv6 == Family(addresses[..i], true) && ipv4 == Family(addresses[..i], false)
    {
      assert addresses[..i + 1] == addresses[..i] + [addresses[i]];
      FamilyAppend(addresses[..i], [addresses[i]], true);
      FamilyAppend(addresses[..i], [addresses[i]], false);
      if addresses[i].ipv6 {
        ipv6 := ipv6 + [addresses[i]];
      } else {
        ipv4 := ipv4 + [addresses[i]];
      }
      i := i + 1;
    }
    assert addresses[..|addresses|] == addresses;
    interleaved := [];
    while ipv6 != []
      invariant interleaved + Interleaved(ipv6, ipv4) == Order(addresses)
      decreases |ipv6|
    {
      interleaved := interleaved + [ipv6[0]];
      ipv6 := ipv6[1..];
      if ipv4 != [] {
        interleaved := interleaved + [ipv4[0]];
        ipv4 := ipv4[1..];
      }
    }
    interleaved := interleaved + ipv4;
  }

  predicate HasBothFamilies(addresses: seq<Address>) {
    (exists i :: 0 <= i < |addresses| && addresses[i].ipv6) && (exists i :: 0 <= i < |addresses| && !addresses[i].ipv6)
  }

  // ---- Dialing ----

  /** No address at all, or the last attempt to fail. */
  datatype DialError = NoAddress | Failed(address: Address)

  /** What serial dialing finds: the first address of the order that connects. */
  function FirstThatConnects(order: seq<Address>, connects: Address -> bool): (r: Option<Address>)
    ensures r.Some? ==> r.value in order && connects(r.value)
    ensures r.Some? ==> exists k: nat :: IsFirst(order, connects, k) && order[k] == r.value
    ensures r.None? ==> forall i :: 0 <= i < |order| ==> !connects(order[i])
  {
    if order == [] then None
    else if connects(order[0]) then assert IsFirst(order, connects, 0); Some(order[0])
    else
      var rest := FirstThatConnects(order[1..], connects);
      FirstBehind(order, connects, rest);
      rest
  }

  /** The candidate at `k` connects and none before it does. */
  predicate IsFirst(order: seq<Address>, connects: Address -> bool, k: nat) {
    k < |order| && connects(order[k]) && forall i :: 0 <= i < k ==> !connects(order[i])
  }

  lemma {:induction false} FirstBehind(order: seq<Address>, connects: Address -> bool, r: Option<Address>)
    requires order != [] && !connects(order[0])
    requires r.Some? ==> exists k: nat :: IsFirst(order[1..], connects, k) && order[1..][k] == r.value
    ensures r.Some? ==> exists k: nat :: IsFirst(order, connects, k) && order[k] == r.value
  {
    if r.Some? {
      var k: nat :| IsFirst(order[1..], connects, k) && order[1..][k] == r.value;
      forall i | 0 <= i < k + 1 ensures !connects(order[i]) {
        assert i > 0 ==> order[i] == order[1..][i - 1];
      }
      assert IsFirst(order, connects, k + 1);
    }
  }

  /** One address after the other. */
  method DialSerially(order: seq<Address>, connects: Address -> bool)
    returns (r: Result<Address, DialError>, launched: seq<Address>)
    ensures r.Ok? ==> FirstThatConnects(order, connects) == Some(r.value)
    ensures r.Err? ==> FirstThatConnects(order, connects) == None && launched == order
    ensures r.Err? ==> r.error == if order == [] then NoAddress else Failed(order[|order| - 1])
    ensures launched <= order && (r.Ok? ==> r.value in launched)
    ensures r.Ok? ==> exists k: nat :: IsFirst(order, connects, k) && order[k] == r.value && launched == order[..k + 1]
  {
    var lastError := NoAddress;
    var i := 0;
    while i < |order|
      invariant i <= |order| && forall j :: 0 <= j < i ==> !connects(order[j])
      invariant FirstThatConnects(order, connects) == FirstThatConnects(order[i..], connects)
      invariant lastError == if i == 0 then NoAddress else Failed(order[i - 1])
    {
      assert order[i..][1..] == order[i + 1..];
      if connects(order[i]) {
        assert IsFirst(order, connects, i);
        return Ok(order[i]), order[..i + 1];
      }
      lastError := Failed(order[i]);
      i := i + 1;
    }
    return Err(lastError), order;
  }

  /** What the race has done so far: the first `next` candidates were launched, those not pending
      have failed. */
  predicate Racing(order: seq<Address>, connects: Address -> bool, next: nat, pending: set<nat>) {
    && next <= |order|
    && (forall i :: i in pending ==> i < next)
    && (forall i :: 0 <= i < next && i !in pending ==> !connects(order[i]))
  }

  /** Candidates are launched one by one, after a failure or when the timer fires; attempts finish in
      any order. With outcomes fixed per address, every timing succeeds exactly when serial dialing
      does; launches follow the order; and failure means that every candidate was tried. */
  method Race(order: seq<Address>, connects: Address -> bool)
    returns (r: Result<Address, DialError>, launched: seq<Address>)
    ensures r.Ok? <==> FirstThatConnects(order, connects).Some?
    ensures r.Ok? ==> r.value in launched && connects(r.value)
    ensures r.Err? ==> launched == order
    ensures r.Err? ==> if order == [] then r.error == NoAddress else r.error.Failed? && r.error.address in order
    ensures launched <= order
  {
    if order == [] {
      return Err(NoAddress), [];
    }
    var lastError := NoAddress;
    var pending: set<nat> := {0};
    var next := 1;
    while next < |order|
      invariant 1 <= next <= |order| && Racing(order, connects, next, pending)
      invariant pending != {}
      invariant lastError.Failed? ==> lastError.address in order
      decreases |order| - next
    {
      if * {
        // the timer fires first
      } else if pending == {} {
        assert false;
      } else {
        var i :| i in pending;
        if connects(order[i]) {
          Found(order, connects, i);
          return Ok(order[i]), order[..next];
        }
        lastError := Failed(order[i]);
        pending := pending - {i};
      }
      pending := pending + {next};
      next := next + 1;
    }
    while pending != {}
      invariant Racing(order, connects, next, pending)
      invariant lastError.Failed? ==> lastError.address in order
      invariant pending == {} ==> lastError.Failed?
      decreases pending
    {
      var i :| i in pending;
      if connects(order[i]) {
        Found(order, connects, i);
        return Ok(order[i]), order[..next];
      }
      lastError := Failed(order[i]);
      pending := pending - {i};
    }
    return Err(lastError), order[..next];
  }

  lemma {:induction false} Found(order: seq<Address>, connects: Address -> bool, i: nat)
    requires i < |order| && connects(order[i])
    ensures FirstThatConnects(order, connects).Some?
  {
  }

  /** The two ways of dialing agree on whether the host can be reached, whatever the timing. */
  method ConnectResolvedAddresses(addresses: seq<Address>, timer: bool, connects: Address -> bool)
    returns (r: Result<Address, DialError>, launched: seq<Address>, raced: bool)
    ensures raced <==> timer && (exists a :: a in addresses && a.ipv6) && (exists a :: a in addresses && !a.ipv6)
    ensures r.Ok? <==> exists i :: 0 <= i < |addresses| && connects(addresses[i])
    ensures r.Ok? ==> r.value in addresses && connects(r.value) && r.value in launched
    ensures launched <= Order(addresses) && (r.Err? ==> launched == Order(addresses))
    ensures !raced && r.Ok? ==> FirstThatConnects(Order(addresses), connects) == Some(r.value)
    ensures r == Err(NoAddress) <==> addresses == []
  {
    var order := InterleaveAddressFamilies(addresses);
    raced := timer && HasBothFamilies(order);
    if !raced {
      r, launched := DialSerially(order, connects);
    } else {
      r, launched := Race(order, connects);
    }
    SameAddresses(addresses);
    BothFamilies(order);
    if i :| 0 <= i < |addresses| && connects(addresses[i]) {
      assert addresses[i] in order;
    }
  }

  lemma {:induction false} BothFamilies(addresses: seq<Address>)
    ensures HasBothFamilies(addresses) <==> (exists a :: a in addresses && a.ipv6) && (exists a :: a in addresses && !a.ipv6)
  {
    if HasBothFamilies(addresses) {
      var i :| 0 <= i < |addresses| && addresses[i].ipv6;
      var j :| 0 <= j < |addresses| && !addresses[j].ipv6;
      assert addresses[i] in addresses && addresses[j] in addresses;
    }
  }

  lemma {:induction false} SameAddresses(addresses: seq<Address>)
    ensures forall a :: a in Order(addresses) <==> a in addresses
    ensures |Order(addresses)| == |addresses|
  {
    OrderIsFair(addresses);
    var order := Order(addresses);
    forall a ensures a in order <==> a in addresses {
      assert a in order <==> a in multiset(order);
      assert a in addresses <==> a in multiset(addresses);
    }
    assert |multiset(order)| == |order| && |multiset(addresses)| == |addresses|;
  }
}
