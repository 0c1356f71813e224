/** Progress accounting of a scan: the mutable accumulator, and what its counters mean for
    the stream of events it is fed. A host is named by a number standing for its address, a
    port by its position in the runner's duplicate-free list. */
module Progress {
  import opened Wrappers

  datatype PortState = Open | Closed | Filtered

  /** What scanning a port yields; `detail` stands for transport, banner and latency. */
  datatype Reading = Reading(state: PortState, detail: nat)

  datatype PortResult = PortResult(port: nat, reading: Reading)

  /** What host tasks send to the coordinator. */
  datatype Event =
    | PortDone(host: nat, result: PortResult)
    | HostDone(host: nat, results: seq<PortResult>)
    | HostFailed(host: nat)

  predicate Terminal(e: Event) { !e.PortDone? }

  function OpenPorts(results: seq<PortResult>): seq<PortResult> {
    if results == [] then []
    else (if results[0].reading.state.Open? then [results[0]] else []) + OpenPorts(results[1..])
  }

  /** A host that answered on any port, open or closed, is up. */
  predicate Alive(results: seq<PortResult>) {
    exists r :: r in results && !r.reading.state.Filtered?
  }

  // ---- counters as a function of the events ------------------------------------

  datatype Counters = Counters(portsScanned: nat, states: map<PortState, nat>,
                               hostsScanned: nat, hostsAnalyzed: nat, hostsUp: nat, errors: nat,
                               hostPorts: map<nat, nat>)

  const Zero := Counters(0, map[Open := 0, Closed := 0, Filtered := 0], 0, 0, 0, 0, map[])

  function Count<K(==)>(m: map<K, nat>, k: K): nat { if k in m then m[k] else 0 }

  function Tally(c: Counters, e: Event, portsPerHost: nat): Counters {
    match e
    case PortDone(h, r) =>
      var count := Count(c.hostPorts, h) + 1;
      c.(portsScanned := c.portsScanned + 1,
         states := c.states[r.reading.state := Count(c.states, r.reading.state) + 1],
         hostPorts := c.hostPorts[h := count],
         hostsScanned := c.hostsScanned + if count == portsPerHost then 1 else 0)
    case HostFailed(_) => c.(hostsScanned := c.hostsScanned + 1, errors := c.errors + 1)
    case HostDone(_, rs) =>
      c.(hostsAnalyzed := c.hostsAnalyzed + 1, hostsUp := c.hostsUp + if Alive(rs) then 1 else 0)
  }

  // ---- everything that ever happened, unbounded -----------------------------------

  datatype HostFinding = HostFinding(host: nat, alive: bool, openPorts: seq<PortResult>, error: bool)
  datatype Service = Service(host: nat, result: PortResult)

  function ServicesOf(h: nat, open: seq<PortResult>): seq<Service> {
    seq(|open|, i requires 0 <= i < |open| => Service(h, open[i]))
  }

  lemma ServicesSnoc(h: nat, open: seq<PortResult>, i: nat, history: seq<Service>)
    requires i < |open|
    ensures history + ServicesOf(h, open[..i + 1]) == (history + ServicesOf(h, open[..i])) + [Service(h, open[i])]
  {
    assert ServicesOf(h, open[..i + 1]) == ServicesOf(h, open[..i]) + [Service(h, open[i])];
  }

  /** Counters and full histories: what the accumulator would hold without bounds. */
  datatype View = View(counters: Counters, ports: seq<Event>, hosts: seq<HostFinding>,
                       services: seq<Service>, enriched: seq<nat>)

  function Advance(v: View, e: Event, portsPerHost: nat): View {
    var c := Tally(v.counters, e, portsPerHost);
    match e
    case PortDone(_, _) => View(c, v.ports + [e], v.hosts, v.services, v.enriched)
    case HostFailed(h) => View(c, v.ports, v.hosts + [HostFinding(h, false, [], true)], v.services, v.enriched)
    case HostDone(h, rs) =>
      View(c, v.ports, v.hosts + [HostFinding(h, Alive(rs), OpenPorts(rs), false)],
           v.services + ServicesOf(h, OpenPorts(rs)), v.enriched + [h])
  }

  function Replay(log: seq<Event>, portsPerHost: nat): View {
    if log == [] then View(Zero, [], [], [], [])
    else Advance(Replay(log[..|log| - 1], portsPerHost), log[|log| - 1], portsPerHost)
  }

  lemma Snoc(log: seq<Event>, e: Event, p: nat)
    ensures Replay(log + [e], p) == Advance(Replay(log, p), e, p)
  {
    assert (log + [e])[..|log|] == log;
  }

  /** Open ports are listed in the order of the results, and nothing else is. */
  lemma {:induction false} OpenPortsInOrder(s: seq<PortResult>, t: seq<PortResult>)
    ensures OpenPorts(s + t) == OpenPorts(s) + OpenPorts(t)
  {
    if s == [] {
      assert s + t == t;
    } else {
      assert (s + t)[1..] == s[1..] + t && (s + t)[0] == s[0];
      OpenPortsInOrder(s[1..], t);
      var head := if s[0].reading.state.Open? then [s[0]] else [];
      calc {
        OpenPorts(s + t);
        head + OpenPorts(s[1..] + t);
        head + (OpenPorts(s[1..]) + OpenPorts(t));
        OpenPorts(s) + OpenPorts(t);
      }
    }
  }

  lemma OpenPortsOfOne(r: PortResult)
    ensures OpenPorts([r]) == if r.reading.state == Open then [r] else []
  {
    assert [r][1..] == [];
  }

  /** The histories of `both` are those of `v` and then those of `w`. */
  predicate Joins(v: View, w: View, both: View) {
    && both.ports == v.ports + w.ports && both.hosts == v.hosts + w.hosts
    && both.services == v.services + w.services && both.enriched == v.enriched + w.enriched
  }

  lemma JoinsStep(v: View, w: View, both: View, e: Event, p: nat)
    requires Joins(v, w, both)
    ensures Joins(v, Advance(w, e, p), Advance(both, e, p))
  {
  }

  /** Histories grow event by event: those of a stream are those of its parts, one after the other. */
  lemma {:induction false} HistoriesInOrder(s: seq<Event>, t: seq<Event>, p: nat)
    ensures var v, w, both := Replay(s, p), Replay(t, p), Replay(s + t, p);
            && both.ports == v.ports + w.ports && both.hosts == v.hosts + w.hosts
            && both.services == v.services + w.services && both.enriched == v.enriched + w.enriched
  {
    if t == [] {
      assert s + t == s;
    } else {
      var front, e := t[..|t| - 1], t[|t| - 1];
      assert (s + t)[..|s + t| - 1] == s + front && (s + t)[|s + t| - 1] == e;
      HistoriesInOrder(s, front, p);
      JoinsStep(Replay(s, p), Replay(front, p), Replay(s + front, p), e, p);
    }
  }

  /** What a single event adds to each history. */
  lemma {:induction false} HistoryOfOne(e: Event, p: nat)
    ensures var v := Replay([e], p);
            match e
            case PortDone(_, _) => v.ports == [e] && v.hosts == [] && v.services == [] && v.enriched == []
            case HostFailed(h) =>
              v.ports == [] && v.hosts == [HostFinding(h, false, [], true)] && v.services == [] && v.enriched == []
            case HostDone(h, rs) =>
              && v.ports == [] && v.enriched == [h]
              && |v.hosts| == 1 && v.hosts[0].host == h && !v.hosts[0].error && v.hosts[0].openPorts == OpenPorts(rs)
              && (v.hosts[0].alive <==> exists r :: r in rs && (r.reading.state == Open || r.reading.state == Closed))
              && |v.services| == |OpenPorts(rs)|
              && forall i :: 0 <= i < |v.services| ==> v.services[i].host == h && v.services[i].result == OpenPorts(rs)[i]
  {
    Snoc([], e, p);
    assert [] + [e] == [e];
  }

  /** The last `limit` elements. */
  function Window<T>(history: seq<T>, limit: nat): seq<T> {
    if |history| <= limit then history else history[|history| - limit..]
  }

  lemma WindowIsTail<T>(history: seq<T>, limit: nat)
    ensures var w := Window(history, limit);
            && |w| == (if |history| < limit then |history| else limit)
            && exists dropped :: dropped + w == history
  {
    var k := |history| - |Window(history, limit)|;
    assert history[..k] + Window(history, limit) == history;
  }

  /** A `deque(maxlen=limit)` together with its truncation flag. */
  datatype Deque<T> = Deque(limit: nat, items: seq<T>, truncated: bool) {
    function Append(x: T): Deque<T> {
      Deque(limit,
            if limit == 0 then [] else if |items| == limit then items[1..] + [x] else items + [x],
            truncated || |items| == limit)
    }

    /** Holds exactly the tail of the history; flagged exactly if an entry was dropped. */
    ghost predicate Shows(history: seq<T>) {
      items == Window(history, limit) && (truncated <==> |history| > limit)
    }
  }

  lemma AppendShows<T>(d: Deque<T>, history: seq<T>, x: T)
    requires d.Shows(history)
    ensures d.Append(x).Shows(history + [x])
  {
  }

  // ---- the accumulator ------------------------------------------------------------

  datatype Phase = Preparing | Scanning | Analyzing | Completed

  class ScanProgress {
    const hostsTotal: nat
    const portsPerHost: nat
    const resultLimit: nat
    const serviceLimit: nat
    const hostLimit: nat

    var phase: Phase
    var portsScanned: nat
    var portStates: map<PortState, nat>
    var hostsScanned: nat
    var hostsAnalyzed: nat
    var hostsUp: nat
    var errors: nat
    var hostPortCounts: map<nat, nat>
    var currentPort: Option<Event>

    var portResults: Deque<Event>
    var services: Deque<Service>
    var hosts: Deque<HostFinding>
    var enrichments: Deque<nat>

    ghost var log: seq<Event>

    function Snapshot(): Counters
      reads this
    {
      Counters(portsScanned, portStates, hostsScanned, hostsAnalyzed, hostsUp, errors, hostPortCounts)
    }

    /** `ports_total` */
    function PortsTotal(): nat { hostsTotal * portsPerHost }

    ghost predicate Shows(v: View)
      reads this
    {
      && Snapshot() == v.counters
      && currentPort == (if v.ports == [] then None else Some(v.ports[|v.ports| - 1]))
      && portResults.Shows(v.ports) && services.Shows(v.services)
      && hosts.Shows(v.hosts) && enrichments.Shows(v.enriched)
      && portResults.limit == resultLimit && services.limit == serviceLimit
      && hosts.limit == enrichments.limit == hostLimit
    }

    /** The accumulator shows what replaying its events without bounds would give. */
    ghost predicate Valid()
      reads this
    {
      Shows(Replay(log, portsPerHost))
    }

    constructor (hostsTotal: nat, portsPerHost: nat, resultLimit: nat := 500, serviceLimit: nat := 200,
                 hostLimit: nat := 200)
      ensures Valid() && log == [] && phase == Preparing
      ensures this.hostsTotal == hostsTotal && this.portsPerHost == portsPerHost
      ensures this.resultLimit == resultLimit && this.serviceLimit == serviceLimit && this.hostLimit == hostLimit
    {
      this.hostsTotal, this.portsPerHost := hostsTotal, portsPerHost;
      this.resultLimit, this.serviceLimit, this.hostLimit := resultLimit, serviceLimit, hostLimit;
      phase := Preparing;
      portsScanned, hostsScanned, hostsAnalyzed, hostsUp, errors := 0, 0, 0, 0, 0;
      portStates := map[Open := 0, Closed := 0, Filtered := 0];
      hostPortCounts, currentPort := map[], None;
      portResults, services := Deque(resultLimit, [], false), Deque(serviceLimit, [], false);
      hosts, enrichments := Deque(hostLimit, [], false), Deque(hostLimit, [], false);
      log := [];
    }

    /** The runner's assignment to the `phase` attribute. */
    method SetPhase(p: Phase)
      requires Valid()
      modifies this`phase
      ensures Valid() && phase == p && Snapshot() == old(Snapshot())
    {
      ghost var v := Replay(log, portsPerHost);
      assert Shows(v);
      phase := p;
      assert Shows(v);
    }

    method RecordPort(h: nat, result: PortResult)
      requires Valid()
      modifies this
      ensures Valid() && log == old(log) + [PortDone(h, result)] && phase == old(phase)
    {
      Snoc(log, PortDone(h, result), portsPerHost);
      ghost var v := Replay(log, portsPerHost);
      log := log + [PortDone(h, result)];
      CountPort(h, result, v);
    }

    method CountPort(h: nat, result: PortResult, ghost v: View)
      requires Shows(v)
      modifies this
      ensures Shows(Advance(v, PortDone(h, result), portsPerHost)) && log == old(log) && phase == old(phase)
    {
      var entry := PortDone(h, result);
      AppendShows(portResults, v.ports, entry);
      BumpCounters(h, result);
      currentPort := Some(entry);
      portResults := portResults.Append(entry);
    }

    method BumpCounters(h: nat, result: PortResult)
      modifies this`portsScanned, this`portStates, this`hostPortCounts, this`hostsScanned
      ensures Snapshot() == Tally(old(Snapshot()), PortDone(h, result), portsPerHost)
    {
      portsScanned := portsScanned + 1;
      portStates := portStates[result.reading.state := Count(portStates, result.reading.state) + 1];
      var count := Count(hostPortCounts, h) + 1;
      hostPortCounts := hostPortCounts[h := count];
      if count == portsPerHost { hostsScanned := hostsScanned + 1; }
    }

    method RecordScanError(h: nat)
      requires Valid()
      modifies this
      ensures Valid() && log == old(log) + [HostFailed(h)] && phase == old(phase)
    {
      ghost var v := Replay(log, portsPerHost);
      Snoc(log, HostFailed(h), portsPerHost);
      log := log + [HostFailed(h)];
      CountError(h, v);
    }

    method CountError(h: nat, ghost v: View)
      requires Shows(v)
      modifies this
      ensures Shows(Advance(v, HostFailed(h), portsPerHost)) && log == old(log) && phase == old(phase)
    {
      var finding := HostFinding(h, false, [], true);
      AppendShows(hosts, v.hosts, finding);
      hostsScanned := hostsScanned + 1;
      errors := errors + 1;
      hosts := hosts.Append(finding);
    }

    method RecordHostResult(h: nat, results: seq<PortResult>)
      requires Valid()
      modifies this
      ensures Valid() && log == old(log) + [HostDone(h, results)] && phase == old(phase)
    {
      ghost var v := Replay(log, portsPerHost);
      Snoc(log, HostDone(h, results), portsPerHost);
      log := log + [HostDone(h, results)];
      CountHost(h, results, v);
    }

    method CountHost(h: nat, results: seq<PortResult>, ghost v: View)
      requires Shows(v)
      modifies this
      ensures Shows(Advance(v, HostDone(h, results), portsPerHost)) && log == old(log) && phase == old(phase)
    {
      var alive, open := Alive(results), OpenPorts(results);
      var finding := HostFinding(h, alive, open, false);
      AppendShows(hosts, v.hosts, finding);
      AppendShows(enrichments, v.enriched, h);
      BumpHosts(h, results, alive);
      hosts := hosts.Append(finding);
      AppendServices(h, open, v.services);
      enrichments := enrichments.Append(h);
    }

    method BumpHosts(h: nat, results: seq<PortResult>, alive: bool)
      requires alive == Alive(results)
      modifies this`hostsAnalyzed, this`hostsUp
      ensures Snapshot() == Tally(old(Snapshot()), HostDone(h, results), portsPerHost)
    {
      hostsAnalyzed := hostsAnalyzed + 1;
      if alive { hostsUp := hostsUp + 1; }
    }

    method AppendServices(h: nat, open: seq<PortResult>, ghost history: seq<Service>)
      requires services.Shows(history)
      modifies this`services
      ensures services.Shows(history + ServicesOf(h, open)) && services.limit == old(services.limit)
    {
      assert open[..0] == [] && history + ServicesOf(h, open[..0]) == history;
      for i := 0 to |open|
        invariant services.Shows(history + ServicesOf(h, open[..i])) && services.limit == old(services.limit)
      {
        var finding := Service(h, open[i]);
        AppendShows(services, history + ServicesOf(h, open[..i]), finding);
        ServicesSnoc(h, open, i, history);
        services := services.Append(finding);
      }
      assert open[..|open|] == open;
    }
  }
}
