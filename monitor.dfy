/** One poll cycle of the device monitor (src/monitor.rs): scan the input
    ports, keep the ones whose name contains "usb" in any letter case, open a
    router for each such name not yet in the registry, and drop every router
    whose name was not seen in this scan. */
module Monitor {
  import opened Options

  /** A port as one scan reports it. `name` is `None` when asking the port
      for its name fails. `accepts` stands in for the input driver: whether a
      router subscription opened on this port during this cycle succeeds. */
  datatype Port = Port(id: nat, name: Option<string>, accepts: bool)

  /** A live router, identified by the port it subscribed to. */
  datatype Router = Router(port: nat)

  // ---------------------------------------------------------------------------
  // The device-class filter.

  function LowerChar(c: char): char
  {
    if 'A' <= c <= 'Z' then (c as int - 'A' as int + 'a' as int) as char else c
  }

  /** Lower-casing, letter by letter: the result has no upper-case ASCII
      letter, and every other character is kept in place. */
  function Lower(s: string): (r: string)
    ensures |r| == |s|
    ensures forall i :: 0 <= i < |r| ==> !('A' <= r[i] <= 'Z')
    ensures forall i :: 0 <= i < |s| && !('A' <= s[i] <= 'Z') ==> r[i] == s[i]
    ensures forall i :: 0 <= i < |s| && 'A' <= s[i] <= 'Z' ==> r[i] as int == s[i] as int + 32
  {
    seq(|s|, i requires 0 <= i < |s| => LowerChar(s[i]))
  }

  /** `pat` occurs in `s` as a contiguous substring. */
  predicate Contains(s: string, pat: string)
    decreases |s|
  {
    |pat| <= |s| && (s[..|pat|] == pat || Contains(s[1..], pat))
  }

  /** The filter's test: the lower-cased name contains "usb". */
  predicate IsUsb(name: string)
  {
    Contains(Lower(name), "usb")
  }

  /** A port the monitor considers: its name can be read and passes the
      filter. */
  predicate Candidate(p: Port)
  {
    p.name.Some? && IsUsb(p.name.value)
  }

  /** The names of this scan's candidate ports (the loop's `present` set). */
  function PresentNames(ports: seq<Port>): set<string>
  {
    set i | 0 <= i < |ports| && Candidate(ports[i]) :: ports[i].name.value
  }

  /** Port `p` is a candidate named `n` on which a router would open. */
  predicate ConnectsAs(p: Port, n: string)
  {
    Candidate(p) && p.name.value == n && p.accepts
  }

  /** The index of the first port of the scan on which a router for `n` opens;
      `None` when every candidate port named `n` refuses. */
  function FirstConnecting(ports: seq<Port>, n: string): (r: Option<nat>)
    ensures r.Some? ==> r.value < |ports| && ConnectsAs(ports[r.value], n)
    ensures r.Some? ==> forall j :: 0 <= j < r.value ==> !ConnectsAs(ports[j], n)
    ensures r.None? ==> forall j :: 0 <= j < |ports| ==> !ConnectsAs(ports[j], n)
  {
    if ports == [] then None
    else if ConnectsAs(ports[0], n) then Some(0)
    else
      match FirstConnecting(ports[1..], n)
      case None => None
      case Some(k) => Some(k + 1)
  }

  lemma FirstConnectingExtend(ports: seq<Port>, i: nat, n: string)
    requires i < |ports|
    ensures FirstConnecting(ports[..i + 1], n) ==
              if FirstConnecting(ports[..i], n).Some? then FirstConnecting(ports[..i], n)
              else if ConnectsAs(ports[i], n) then Some(i)
              else None
  {
    var before, after := ports[..i], ports[..i + 1];
    assert forall j :: 0 <= j < i ==> after[j] == before[j];
    assert after[i] == ports[i];
  }

  // ---------------------------------------------------------------------------
  // The outcome of a cycle, stated on sets.

  /** The registry after one cycle. A failed scan (`None`) leaves it as it is.
      Otherwise it holds exactly the present names that either already had a
      router, which is kept as it was, or got one in this cycle, from the
      first of their ports that accepted. */
  function Reconciled(routers: map<string, Router>, scan: Option<seq<Port>>): map<string, Router>
  {
    match scan
    case None => routers
    case Some(ports) =>
      map n | n in PresentNames(ports) && (n in routers || FirstConnecting(ports, n).Some?) ::
        if n in routers then routers[n] else Router(ports[FirstConnecting(ports, n).value].id)
  }

  /** Port `i` gets a connect attempt: it is a candidate, its name has no
      router at the start of the cycle, and no earlier port of the scan opened
      one for that name. */
  predicate Attempted(routers: map<string, Router>, ports: seq<Port>, i: nat)
    requires i < |ports|
  {
    Candidate(ports[i]) && ports[i].name.value !in routers
    && FirstConnecting(ports[..i], ports[i].name.value).None?
  }

  /** The indices among the first `k` ports that get a connect attempt, in
      scan order. */
  function AttemptList(routers: map<string, Router>, ports: seq<Port>, k: nat): seq<nat>
    requires k <= |ports|
  {
    if k == 0 then []
    else AttemptList(routers, ports, k - 1) + if Attempted(routers, ports, k - 1) then [k - 1] else []
  }

  /** The attempt list holds exactly the attempted indices below `k`, each
      once, in increasing order. */
  lemma {:induction false} AttemptListExactly(routers: map<string, Router>, ports: seq<Port>, k: nat)
    requires k <= |ports|
    ensures forall m :: 0 <= m < |AttemptList(routers, ports, k)| ==> AttemptList(routers, ports, k)[m] < k
    ensures forall j :: 0 <= j < k ==> (j in AttemptList(routers, ports, k) <==> Attempted(routers, ports, j))
    ensures forall m, l :: 0 <= m < l < |AttemptList(routers, ports, k)| ==>
              AttemptList(routers, ports, k)[m] < AttemptList(routers, ports, k)[l]
  {
    if k > 0 {
      AttemptListExactly(routers, ports, k - 1);
    }
  }

  /** The registry part-way through the loop, after the ports `ports` have
      been visited and before the departed names are removed: the routers of
      the start of the cycle plus one for every name some visited port
      accepted. */
  function Registered(routers: map<string, Router>, ports: seq<Port>): map<string, Router>
  {
    map n | n in routers.Keys + PresentNames(ports) && (n in routers || FirstConnecting(ports, n).Some?) ::
      if n in routers then routers[n] else Router(ports[FirstConnecting(ports, n).value].id)
  }

  lemma RegisteredExtend(routers: map<string, Router>, ports: seq<Port>, i: nat)
    requires i < |ports|
    ensures var before, p := Registered(routers, ports[..i]), ports[i];
            Registered(routers, ports[..i + 1]) ==
              if Candidate(p) && p.name.value !in before && p.accepts
              then before[p.name.value := Router(p.id)] else before
  {
    var before, after, p := Registered(routers, ports[..i]), Registered(routers, ports[..i + 1]), ports[i];
    var expected := if Candidate(p) && p.name.value !in before && p.accepts
                    then before[p.name.value := Router(p.id)] else before;
    forall n
      ensures n in after <==> n in expected
      ensures n in after ==> after[n] == expected[n]
    {
      FirstConnectingExtend(ports, i, n);
      FirstConnectingPresent(ports[..i], n);
      FirstConnectingPresent(ports[..i + 1], n);
      assert ports[..i + 1][i] == p;
    }
  }

  lemma AttemptedUnregistered(routers: map<string, Router>, ports: seq<Port>, i: nat)
    requires i < |ports|
    ensures Attempted(routers, ports, i) <==>
              Candidate(ports[i]) && ports[i].name.value !in Registered(routers, ports[..i])
  {
  }

  lemma FirstConnectingPresent(ports: seq<Port>, n: string)
    ensures FirstConnecting(ports, n).Some? ==> n in PresentNames(ports)
  {
  }

  lemma RetainRegistered(routers: map<string, Router>, ports: seq<Port>)
    ensures (map n | n in Registered(routers, ports) && n in PresentNames(ports) :: Registered(routers, ports)[n])
            == Reconciled(routers, Some(ports))
  {
  }

  // ---------------------------------------------------------------------------
  // The cycle as the monitor runs it.

  /** One pass of the monitor loop. A failed scan changes nothing. Otherwise
      the ports are visited (collecting the present names and connecting the
      ones without a router), then only the routers whose name is present are
      retained. `attempts` lists, in order, the indices of the ports on which a
      connect was attempted. */
  method Cycle(routers: map<string, Router>, scan: Option<seq<Port>>)
    returns (next: map<string, Router>, attempts: seq<nat>)
    ensures next == Reconciled(routers, scan)
    ensures scan.None? ==> attempts == []
    ensures scan.Some? ==> forall k :: 0 <= k < |attempts| ==> attempts[k] < |scan.value|
    ensures scan.Some? ==> forall j :: 0 <= j < |scan.value| ==> (j in attempts <==> Attempted(routers, scan.value, j))
    ensures forall k, l :: 0 <= k < l < |attempts| ==> attempts[k] < attempts[l]
  {
    if scan.None? {
      return routers, [];
    }
    var registered, present;
    registered, present, attempts := VisitPorts(routers, scan.value);
    next := map n | n in registered && n in present :: registered[n];
    RetainRegistered(routers, scan.value);
    AttemptListExactly(routers, scan.value, |scan.value|);
  }

  /** The `for port in ports` loop of a cycle: the registry it leaves, the
      names it found present and the ports it tried to connect. */
  method VisitPorts(routers: map<string, Router>, ports: seq<Port>)
    returns (registered: map<string, Router>, present: set<string>, attempts: seq<nat>)
    ensures registered == Registered(routers, ports)
    ensures present == PresentNames(ports)
    ensures attempts == AttemptList(routers, ports, |ports|)
  {
    registered, present, attempts := routers, {}, [];
    var i := 0;
    while i < |ports|
      invariant 0 <= i <= |ports|
      invariant present == PresentNames(ports[..i])
      invariant registered == Registered(routers, ports[..i])
      invariant attempts == AttemptList(routers, ports, i)
    {
      registered, present, attempts := VisitPort(routers, ports, i, registered, present, attempts);
      i := i + 1;
    }
    assert ports[..i] == ports;
  }

  /** One iteration of the port loop: port `i` is recorded as present when it
      passes the filter, and connected when its name has no router yet. */
  method VisitPort(routers: map<string, Router>, ports: seq<Port>, i: nat,
                   registered: map<string, Router>, present: set<string>, attempts: seq<nat>)
    returns (registered': map<string, Router>, present': set<string>, attempts': seq<nat>)
    requires i < |ports|
    requires present == PresentNames(ports[..i])
    requires registered == Registered(routers, ports[..i])
    requires attempts == AttemptList(routers, ports, i)
    ensures present' == PresentNames(ports[..i + 1])
    ensures registered' == Registered(routers, ports[..i + 1])
    ensures attempts' == AttemptList(routers, ports, i + 1)
  {
    var port := ports[i];
    RegisteredExtend(routers, ports, i);
    PresentNamesExtend(ports, i);
    AttemptedUnregistered(routers, ports, i);
    registered', present', attempts' := registered, present, attempts;
    if Candidate(port) {
      var name := port.name.value;
      present' := present + {name};
      if name !in registered {
        attempts' := attempts + [i];
        if port.accepts {
          registered' := registered[name := Router(port.id)];
        }
      }
    }
  }

  lemma PresentNamesExtend(ports: seq<Port>, i: nat)
    requires i < |ports|
    ensures PresentNames(ports[..i + 1]) ==
              PresentNames(ports[..i]) + if Candidate(ports[i]) then {ports[i].name.value} else {}
  {
    var before, after := ports[..i], ports[..i + 1];
    forall n | n in PresentNames(after)
      ensures n in PresentNames(before) || (Candidate(ports[i]) && n == ports[i].name.value)
    {
      var j :| 0 <= j < |after| && Candidate(after[j]) && after[j].name.value == n;
      if j < i {
        assert before[j] == after[j];
      }
    }
    forall n | n in PresentNames(before)
      ensures n in PresentNames(after)
    {
      var j :| 0 <= j < |before| && Candidate(before[j]) && before[j].name.value == n;
      assert after[j] == before[j];
    }
    if Candidate(ports[i]) {
      assert after[i] == ports[i];
    }
  }

  // ---------------------------------------------------------------------------
  // What one cycle promises.

  /** A failed scan leaves the registry exactly as it was: nothing is removed. */
  lemma ScanFailureKeepsRegistry(routers: map<string, Router>)
    ensures Reconciled(routers, None) == routers
  {
  }

  /** After a completed cycle every registered name was present in its scan;
      a name that was present and already registered keeps its router,
      untouched and not reconnected. */
  lemma ReconciledKeepsOnlyPresent(routers: map<string, Router>, ports: seq<Port>)
    ensures Reconciled(routers, Some(ports)).Keys <= PresentNames(ports)
    ensures forall n :: n in routers && n in PresentNames(ports) ==>
              n in Reconciled(routers, Some(ports)) && Reconciled(routers, Some(ports))[n] == routers[n]
    ensures forall n :: n in routers && n !in PresentNames(ports) ==> n !in Reconciled(routers, Some(ports))
  {
  }

  /** A present name without a router is registered exactly when one of its
      ports accepts, and then with the router of the first port that did; when
      all of them refuse it stays unregistered, and so is attempted again by
      the next cycle that sees it. */
  lemma ReconciledConnectsArrivals(routers: map<string, Router>, ports: seq<Port>, n: string)
    requires n in PresentNames(ports) && n !in routers
    ensures n in Reconciled(routers, Some(ports)) <==> exists j :: 0 <= j < |ports| && ConnectsAs(ports[j], n)
    ensures n in Reconciled(routers, Some(ports)) ==>
              exists j :: 0 <= j < |ports| && ConnectsAs(ports[j], n)
                          && (forall i :: 0 <= i < j ==> !ConnectsAs(ports[i], n))
                          && Reconciled(routers, Some(ports))[n] == Router(ports[j].id)
  {
    var r := FirstConnecting(ports, n);
    if r.Some? {
      assert ConnectsAs(ports[r.value], n);
    }
  }

  /** The first candidate port of a name that is not registered gets a connect
      attempt, and once a port of that name has connected, no later port of the
      same name in the scan gets one. */
  lemma AttemptsPerName(routers: map<string, Router>, ports: seq<Port>, i: nat, j: nat)
    requires i < j < |ports|
    requires Candidate(ports[i]) && Candidate(ports[j]) && ports[i].name == ports[j].name
    ensures ports[i].accepts ==> !Attempted(routers, ports, j)
    ensures (ports[i].name.value !in routers && forall k :: 0 <= k < i ==> !ConnectsAs(ports[k], ports[i].name.value))
            ==> Attempted(routers, ports, i)
  {
    var n := ports[i].name.value;
    if ports[i].accepts {
      assert ConnectsAs(ports[..j][i], n);
    }
    var before := FirstConnecting(ports[..i], n);
    if before.Some? {
      assert ConnectsAs(ports[before.value], n);
    }
  }

  /** Convergence: when every candidate port accepts, one cycle registers
      exactly the present names. */
  lemma ReconciledConverges(routers: map<string, Router>, ports: seq<Port>)
    requires forall j :: 0 <= j < |ports| && Candidate(ports[j]) ==> ports[j].accepts
    ensures Reconciled(routers, Some(ports)).Keys == PresentNames(ports)
  {
    forall n | n in PresentNames(ports)
      ensures n in Reconciled(routers, Some(ports))
    {
      var j :| 0 <= j < |ports| && Candidate(ports[j]) && ports[j].name.value == n;
      assert ConnectsAs(ports[j], n);
    }
  }

  /** Running a second cycle on the same scan (same ports, same outcomes)
      changes nothing. */
  lemma ReconciledIdempotent(routers: map<string, Router>, scan: Option<seq<Port>>)
    ensures Reconciled(Reconciled(routers, scan), scan) == Reconciled(routers, scan)
  {
  }

  // ---------------------------------------------------------------------------
  // Several cycles.

  /** The registry after a sequence of cycles, one scan each. */
  function Run(routers: map<string, Router>, scans: seq<Option<seq<Port>>>): map<string, Router>
  {
    if scans == [] then routers
    else Reconciled(Run(routers, scans[..|scans| - 1]), scans[|scans| - 1])
  }

  lemma RunStep(routers: map<string, Router>, scans: seq<Option<seq<Port>>>, k: nat)
    requires k < |scans|
    ensures Run(routers, scans[..k + 1]) == Reconciled(Run(routers, scans[..k]), scans[k])
  {
    assert scans[..k + 1][..k] == scans[..k];
  }

  /** A device whose port shows up and accepts in cycle `k` has a router once
      that cycle is over. */
  lemma RegisteredAfterArrival(routers: map<string, Router>, scans: seq<Option<seq<Port>>>, k: nat, j: nat, n: string)
    requires k < |scans| && scans[k].Some? && j < |scans[k].value|
    requires ConnectsAs(scans[k].value[j], n)
    ensures n in Run(routers, scans[..k + 1])
  {
    RunStep(routers, scans, k);
    var ports := scans[k].value;
    assert n in PresentNames(ports) by {
      assert Candidate(ports[j]) && ports[j].name.value == n;
    }
    if n !in Run(routers, scans[..k]) {
      ReconciledConnectsArrivals(Run(routers, scans[..k]), ports, n);
    }
  }

  /** A device missing from the scan of cycle `m` has no router once that
      cycle is over. */
  lemma DroppedAfterDeparture(routers: map<string, Router>, scans: seq<Option<seq<Port>>>, m: nat, n: string)
    requires m < |scans| && scans[m].Some? && n !in PresentNames(scans[m].value)
    ensures n !in Run(routers, scans[..m + 1])
  {
    RunStep(routers, scans, m);
  }

  /** A registered router survives, unchanged, every later cycle whose scan
      failed or still saw its name. */
  lemma {:induction false} KeptWhilePresent(routers: map<string, Router>, scans: seq<Option<seq<Port>>>, k: nat, m: nat, n: string)
    requires k <= m <= |scans|
    requires n in Run(routers, scans[..k])
    requires forall c :: k <= c < m ==> scans[c].None? || n in PresentNames(scans[c].value)
    ensures n in Run(routers, scans[..m]) && Run(routers, scans[..m])[n] == Run(routers, scans[..k])[n]
    decreases m
  {
    if m > k {
      KeptWhilePresent(routers, scans, k, m - 1, n);
      RunStep(routers, scans, m - 1);
    }
  }

  // ---------------------------------------------------------------------------
  // The filter.

  /** `pat` sits in `s` at position `i`. */
  predicate OccursAt(s: string, pat: string, i: int)
  {
    0 <= i && i + |pat| <= |s| && s[i..i + |pat|] == pat
  }

  /** `Contains` agrees with the usual definition by position. */
  lemma {:induction false} ContainsAt(s: string, pat: string)
    ensures Contains(s, pat) <==> exists i :: OccursAt(s, pat, i)
    decreases |s|
  {
    if |pat| <= |s| {
      if s[..|pat|] == pat {
        assert OccursAt(s, pat, 0);
      } else {
        ContainsAt(s[1..], pat);
        if Contains(s[1..], pat) {
          var i :| OccursAt(s[1..], pat, i);
          assert s[i + 1..i + 1 + |pat|] == s[1..][i..i + |pat|];
          assert OccursAt(s, pat, i + 1);
        }
        if exists i :: OccursAt(s, pat, i) {
          var i :| OccursAt(s, pat, i);
          assert i > 0;
          assert s[1..][i - 1..i - 1 + |pat|] == s[i..i + |pat|];
          assert OccursAt(s[1..], pat, i - 1);
        }
      }
    }
  }

  /** The filter ignores letter case, and a port whose name cannot be read is
      never a candidate. */
  lemma FilterIgnoresCase(name: string, p: Port)
    ensures IsUsb(Lower(name)) == IsUsb(name)
    ensures p.name.None? ==> !Candidate(p)
  {
    LowerIdempotent(name);
  }

  /** Lower-casing twice is lower-casing once. */
  lemma LowerIdempotent(s: string)
    ensures Lower(Lower(s)) == Lower(s)
  {
  }

  /** "usb" is found in any letter case and anywhere in the name; a name with
      no letter u at all never passes. */
  lemma FilterMatches(prefix: string, u: char, s: char, b: char, suffix: string)
    requires u in "uU" && s in "sS" && b in "bB"
    ensures IsUsb(prefix + [u, s, b] + suffix)
    ensures forall name: string :: (forall i :: 0 <= i < |name| ==> name[i] !in "uU") ==> !IsUsb(name)
  {
    var name := prefix + [u, s, b] + suffix;
    assert Lower(name)[|prefix|..|prefix| + 3] == "usb";
    assert OccursAt(Lower(name), "usb", |prefix|);
    ContainsAt(Lower(name), "usb");
    forall name: string | forall i :: 0 <= i < |name| ==> name[i] !in "uU"
      ensures !IsUsb(name)
    {
      forall i ensures !OccursAt(Lower(name), "usb", i) {
        if 0 <= i < |name| {
          assert name[i] !in "uU";
        }
      }
      ContainsAt(Lower(name), "usb");
    }
  }

  /** The letters u, s, b in a row, each in either case, at position `i`. */
  predicate UsbAt(name: string, i: int)
  {
    0 <= i && i + 3 <= |name| && name[i] in "uU" && name[i + 1] in "sS" && name[i + 2] in "bB"
  }

  /** The filter passes a name exactly when u, s, b occur in a row in it,
      each letter in either case. */
  lemma IsUsbExactly(name: string)
    ensures IsUsb(name) <==> exists i :: UsbAt(name, i)
  {
    forall i ensures OccursAt(Lower(name), "usb", i) <==> UsbAt(name, i) {
      if 0 <= i && i + 3 <= |name| {
        assert Lower(name)[i..i + 3] == [Lower(name)[i], Lower(name)[i + 1], Lower(name)[i + 2]];
      }
    }
    ContainsAt(Lower(name), "usb");
  }
}
