/**
 The helpers of one table copy (the command lines of copy/copy_command.go, read by
 helper/config.go): who listens, who dials, and which address each dialling helper takes from
 the texts it is given. Both sides must agree for every strategy and mode.
 */
module Connections {
  import opened Wrappers
  import opened Strings
  import opened Sequences
  import opened PortList
  import opened SegmentMatching

  /** Segments of both clusters, and the addresses their coordinators are reached under. */
  datatype Clusters = Clusters(src: seq<Segment>, dest: seq<Segment>, srcMaster: string, destMaster: string)

  /** The options of a helper's command line that decide about connections. */
  datatype Args =
    | Listen(clientNumbers: Option<string>, receive: bool)
    | Dial(ports: string, hosts: string, numDests: nat, receive: bool)

  datatype Endpoint = Endpoint(port: string, host: string)

  // ------------------------------------------------------------ the command lines

  /** The port list is long enough, and not too long, for the address list to be written. */
  predicate Formattable(st: Strategy, mode: Mode, cl: Clusters, ports: seq<HelperPort>) {
    match st
    case CopyOnMaster => |ports| > 0
    case ExtDestLtCopy => if mode.Push? then |ports| >= |cl.dest| > 0 else |cl.src| <= |ports|
    case _ => |ports| <= if mode.Push? then |cl.dest| else |cl.src|
  }

  function DialList(list: seq<Address>, numDests: nat, receive: bool): Args {
    Dial(Join(PortTexts(list), ','), Join(Hosts(list), ','), numDests, receive)
  }

  /** CopyTo, on the sending cluster: listens in pull mode, dials in push mode. */
  function CopyTo(st: Strategy, mode: Mode, cl: Clusters, ports: seq<HelperPort>): Args
    requires mode.Push? ==> Formattable(st, mode, cl, ports)
  {
    if mode.Pull? then Listen(None, false)
    else
      match st
      case CopyOnMaster => DialList([Address(ports[0].port, cl.destMaster)], 0, false)
      case ExtDestLtCopy => DialList(DestSegsAddresses(cl.src, cl.dest, ports), 0, false)
      case _ => DialList(AllSegsAddresses(mode, cl.src, cl.dest, ports), 0, false)
  }

  /** CopyFrom, on the receiving cluster: listens in push mode, dials in pull mode. */
  function CopyFrom(st: Strategy, mode: Mode, cl: Clusters, ports: seq<HelperPort>): Args
    requires |cl.dest| > 0 && (mode.Pull? ==> Formattable(st, mode, cl, ports))
  {
    if mode.Push? then
      Listen(if st.ExtDestLtCopy? then Some(Join(NumberTexts(ClientNumbers(|cl.src|, |cl.dest|)), ',')) else None, true)
    else
      match st
      case CopyOnMaster => DialList([Address(ports[0].port, cl.srcMaster)], 0, true)
      case ExtDestLtCopy => DialList(SrcSegsAddresses(cl.src, ports), |cl.dest|, true)
      case _ => DialList(AllSegsAddresses(mode, cl.src, cl.dest, ports), 0, true)
  }

  /** Helpers of the source cluster send and those of the destination receive, whoever listens. */
  lemma DirectionsMatch(st: Strategy, mode: Mode, cl: Clusters, ports: seq<HelperPort>)
    requires |cl.dest| > 0 && Formattable(st, mode, cl, ports)
    ensures !CopyTo(st, mode, cl, ports).receive && CopyFrom(st, mode, cl, ports).receive
    ensures CopyTo(st, mode, cl, ports).Listen? <==> CopyFrom(st, mode, cl, ports).Dial?
    ensures CopyFrom(st, mode, cl, ports).Listen? <==> mode.Push?
  {
  }

  function Ids(segs: seq<Segment>): seq<int> {
    seq(|segs|, i requires 0 <= i < |segs| => segs[i].content)
  }

  /** Of `ids` those the shell loop finds among `wanted`. */
  function Matched(ids: seq<int>, wanted: seq<int>): seq<int> {
    if ids == [] then []
    else
      var n := |ids| - 1;
      Matched(ids[..n], wanted) + if ids[n] in wanted then [ids[n]] else []
  }

  /** Ids of the helpers that CopyTo starts; the coordinator's is -1. */
  function Senders(st: Strategy, cl: Clusters): seq<int> {
    if st.CopyOnMaster? then [-1] else Ids(cl.src)
  }

  /** Ids of the helpers that CopyFrom starts; with spare destinations only those with a source of their id. */
  function Receivers(st: Strategy, cl: Clusters): seq<int> {
    if st.CopyOnMaster? then [-1]
    else if st.ExtDestGeCopy? then Matched(Ids(cl.dest), Ids(cl.src))
    else Ids(cl.dest)
  }

  function Listeners(st: Strategy, mode: Mode, cl: Clusters): seq<int> {
    if mode.Push? then Receivers(st, cl) else Senders(st, cl)
  }

  function Dialers(st: Strategy, mode: Mode, cl: Clusters): seq<int> {
    if mode.Push? then Senders(st, cl) else Receivers(st, cl)
  }

  // ------------------------------------------------------------ what the helpers make of them

  /** The lists can be indexed. */
  predicate Dialable(a: Args, segId: int) {
    && a.Dial? && |Split(a.hosts, ',')| <= |Split(a.ports, ',')|
    && (a.receive && |Split(a.hosts, ',')| > a.numDests > 0 ==> segId >= 0)
  }

  /** The connections a dialling helper makes. */
  function Connects(a: Args, segId: int): seq<Endpoint>
    requires Dialable(a, segId)
  {
    var ports, hosts := Split(a.ports, ','), Split(a.hosts, ',');
    var entries := ClientDials(segId, a.receive, |hosts|, a.numDests);
    seq(|entries|, n requires 0 <= n < |entries| => Endpoint(ports[entries[n]], hosts[entries[n]]))
  }

  /** The number of connections a listening helper serves. */
  function Awaits(a: Args, segId: int): int
    requires a.Listen?
  {
    ServerExpects(segId, match a.clientNumbers case None => [] case Some(text) => Split(text, ','))
  }

  // ------------------------------------------------------------ who listens

  lemma IdsAreUpTo(segs: seq<Segment>)
    requires Numbered(segs)
    ensures Ids(segs) == UpTo(|segs|)
  {
  }

  lemma {:induction false} MatchedUpTo(n: nat, m: nat)
    ensures Matched(UpTo(n), UpTo(m)) == UpTo(if n < m then n else m)
  {
    if n > 0 {
      MatchedUpTo(n - 1, m);
      assert UpTo(n) == UpTo(n - 1) + [n - 1];
      MatchedOneMore(UpTo(n - 1), n - 1, UpTo(m));
      InUpTo(n - 1, m);
      assert n <= m ==> UpTo(n - 1) + [n - 1] == UpTo(n);
    }
  }

  lemma MatchedOneMore(ids: seq<int>, id: int, wanted: seq<int>)
    ensures Matched(ids + [id], wanted) == Matched(ids, wanted) + if id in wanted then [id] else []
  {
    assert (ids + [id])[..|ids|] == ids;
  }

  lemma InUpTo(k: nat, n: nat)
    ensures k in UpTo(n) <==> k < n
  {
    assert k < n ==> UpTo(n)[k] == k;
  }

  lemma {:induction false} MatchedAre(ids: seq<int>, wanted: seq<int>, id: int)
    ensures id in Matched(ids, wanted) <==> id in ids && id in wanted
  {
    if ids != [] {
      var n := |ids| - 1;
      MatchedAre(ids[..n], wanted, id);
      assert ids == ids[..n] + [ids[n]];
    }
  }

  predicate HasContent(segs: seq<Segment>, id: int) {
    exists k :: 0 <= k < |segs| && segs[k].content == id
  }

  lemma IdsAreContents(segs: seq<Segment>, id: int)
    ensures id in Ids(segs) <==> HasContent(segs, id)
  {
    if k :| 0 <= k < |segs| && segs[k].content == id {
      assert Ids(segs)[k] == id;
    }
  }

  /** Small tables go from coordinator to coordinator, others from segments to segments. */
  lemma WhoTakesPart(st: Strategy, cl: Clusters, id: int)
    ensures id in Senders(st, cl) <==> if st.CopyOnMaster? then id == -1 else HasContent(cl.src, id)
    ensures id in Receivers(st, cl) <==>
      if st.CopyOnMaster? then id == -1
      else HasContent(cl.dest, id) && (st.ExtDestGeCopy? ==> HasContent(cl.src, id))
  {
    IdsAreContents(cl.src, id);
    IdsAreContents(cl.dest, id);
    MatchedAre(Ids(cl.dest), Ids(cl.src), id);
  }

  /** How many segments take part. */
  function NumReceivers(st: Strategy, cl: Clusters): nat {
    if st.ExtDestGeCopy? then |cl.src| else |cl.dest|
  }

  lemma SegmentsTakePart(st: Strategy, cl: Clusters)
    requires Suits(st, |cl.src|, |cl.dest|) && !st.CopyOnMaster? && Numbered(cl.src) && Numbered(cl.dest)
    ensures Senders(st, cl) == UpTo(|cl.src|)
    ensures Receivers(st, cl) == UpTo(NumReceivers(st, cl))
  {
    IdsAreUpTo(cl.src);
    IdsAreUpTo(cl.dest);
    MatchedUpTo(|cl.dest|, |cl.src|);
  }

  /** The count that ends the wait for port reports is the number of helpers that listen. */
  lemma AwaitsAllListeners(st: Strategy, mode: Mode, cl: Clusters, rows: nat)
    requires Suits(st, |cl.src|, |cl.dest|) && Numbered(cl.src) && Numbered(cl.dest)
    ensures IsCopyFromStarted(st, mode, |cl.src|, |cl.dest|, rows) <==> rows == |Listeners(st, mode, cl)|
  {
    if !st.CopyOnMaster? {
      SegmentsTakePart(st, cl);
    }
  }

  // ------------------------------------------------------------ when the ports are known

  predicate Plain(host: string) {
    ',' !in host
  }

  predicate PlainHosts(cl: Clusters) {
    && Plain(cl.srcMaster) && Plain(cl.destMaster)
    && (forall i :: 0 <= i < |cl.src| ==> Plain(cl.src[i].host))
    && (forall i :: 0 <= i < |cl.dest| ==> Plain(cl.dest[i].host))
  }

  /** The wait has ended: `list` was made of rows reported by listening helpers, and is as long as awaited. */
  ghost predicate Reported(st: Strategy, mode: Mode, cl: Clusters, rows: seq<HelperPort>, list: seq<HelperPort>) {
    && Suits(st, |cl.src|, |cl.dest|) && Numbered(cl.src) && Numbered(cl.dest) && PlainHosts(cl)
    && (forall i :: 0 <= i < |rows| ==> rows[i].content in Listeners(st, mode, cl))
    && IsPortList(rows, list)
    && IsCopyFromStarted(st, mode, |cl.src|, |cl.dest|, |list|)
  }

  /** Then entry `l` of the list is a port that listener `l` reported. */
  lemma ListIsAligned(st: Strategy, mode: Mode, cl: Clusters, rows: seq<HelperPort>, list: seq<HelperPort>)
    requires Reported(st, mode, cl, rows, list)
    ensures |list| == |Listeners(st, mode, cl)| && Formattable(st, mode, cl, list) && HasHosts(st, mode, cl, list)
    ensures forall l :: 0 <= l < |list| ==> list[l].content == Listeners(st, mode, cl)[l] && list[l] in rows
  {
    AwaitsAllListeners(st, mode, cl, |list|);
    ListedAreReported(rows, list);
    if !st.CopyOnMaster? {
      SegmentsTakePart(st, cl);
      FullListIsAligned(rows, list, |list|);
    }
  }

  lemma ListedAreReported(rows: seq<HelperPort>, list: seq<HelperPort>)
    requires IsPortList(rows, list)
    ensures forall l :: 0 <= l < |list| ==> list[l] in rows
  {
    forall l | 0 <= l < |list| ensures list[l] in rows {
      assert FirstPort(rows, list[l].content, list[l].port);
    }
  }

  /** There is a host for every port. */
  predicate HasHosts(st: Strategy, mode: Mode, cl: Clusters, list: seq<HelperPort>) {
    !st.CopyOnMaster? ==> |list| <= if mode.Push? then |cl.dest| else |cl.src|
  }

  /** The host of each listener with the port it reported. */
  function Endpoints(st: Strategy, mode: Mode, cl: Clusters, list: seq<HelperPort>): seq<Endpoint>
    requires HasHosts(st, mode, cl, list)
  {
    seq(|list|, l requires 0 <= l < |list| => Endpoint(FormatInt(list[l].port),
      if st.CopyOnMaster? then (if mode.Push? then cl.destMaster else cl.srcMaster)
      else (if mode.Push? then cl.dest[l] else cl.src[l]).host))
  }

  // ------------------------------------------------------------ what a dialling helper reaches

  function ToEndpoint(a: Address): Endpoint {
    Endpoint(FormatInt(a.port), a.host)
  }

  /** Lists of ports and of plain hosts survive the command line. */
  lemma ListSurvives(list: seq<Address>)
    requires list != [] && forall i :: 0 <= i < |list| ==> Plain(list[i].host)
    ensures Split(Join(PortTexts(list), ','), ',') == PortTexts(list)
    ensures Split(Join(Hosts(list), ','), ',') == Hosts(list)
  {
    forall i | 0 <= i < |list| ensures ',' !in PortTexts(list)[i] && ',' !in Hosts(list)[i] {
      FormatIsClean(list[i].port, ',');
      assert Plain(list[i].host);
    }
    SplitJoin(PortTexts(list), ',');
    SplitJoin(Hosts(list), ',');
  }

  /** A helper that is given `list` connects to the entries its id selects. */
  lemma ConnectsToEntries(list: seq<Address>, numDests: nat, receive: bool, segId: int)
    requires list != [] && forall i :: 0 <= i < |list| ==> Plain(list[i].host)
    requires receive && |list| > numDests > 0 ==> segId >= 0
    ensures Dialable(DialList(list, numDests, receive), segId)
    ensures
      var entries := ClientDials(segId, receive, |list|, numDests);
      Connects(DialList(list, numDests, receive), segId) ==
        seq(|entries|, n requires 0 <= n < |entries| => ToEndpoint(list[entries[n]]))
  {
    ListSurvives(list);
  }

  function DialArgs(st: Strategy, mode: Mode, cl: Clusters, list: seq<HelperPort>): Args
    requires |cl.dest| > 0 && Formattable(st, mode, cl, list)
  {
    if mode.Push? then CopyTo(st, mode, cl, list) else CopyFrom(st, mode, cl, list)
  }

  function ListenArgs(st: Strategy, mode: Mode, cl: Clusters): (a: Args)
    requires |cl.dest| > 0
    ensures a.Listen?
  {
    if mode.Push? then CopyFrom(st, mode, cl, []) else CopyTo(st, mode, cl, [])
  }

  /** Numbers of the listeners that dialling helper `k` reaches. */
  function Targets(st: Strategy, mode: Mode, cl: Clusters, k: nat): seq<nat>
    requires |cl.dest| > 0
  {
    if st.ExtDestLtCopy? then (if mode.Push? then [k % |cl.dest|] else Strided(k, |cl.src|, |cl.dest|))
    else [k]
  }

  predicate AllBelow(at: seq<nat>, size: nat) {
    forall n :: 0 <= n < |at| ==> at[n] < size
  }

  /** The entries of `table` that `at` names. */
  function Select<T>(table: seq<T>, at: seq<nat>): seq<T>
    requires AllBelow(at, |table|)
  {
    seq(|at|, n requires 0 <= n < |at| => table[at[n]])
  }

  /** Reading its command line, helper `segId` connects to the entries `at` of `table`. */
  ghost predicate Reaches(a: Args, segId: int, table: seq<Endpoint>, at: seq<nat>) {
    && AllBelow(at, |table|)
    && Dialable(a, segId)
    && Connects(a, segId) == Select(table, at)
  }

  lemma MasterReaches(mode: Mode, cl: Clusters, list: seq<HelperPort>)
    requires |cl.dest| > 0 && |list| == 1 && PlainHosts(cl)
    ensures Reaches(DialArgs(CopyOnMaster, mode, cl, list), -1, Endpoints(CopyOnMaster, mode, cl, list), [0])
  {
    var host := if mode.Push? then cl.destMaster else cl.srcMaster;
    ConnectsToEntries([Address(list[0].port, host)], 0, mode.Pull?, -1);
  }

  lemma OwnReaches(st: Strategy, mode: Mode, cl: Clusters, list: seq<HelperPort>, k: nat)
    requires st.CopyOnSegment? || st.ExtDestGeCopy?
    requires |cl.dest| > 0 && Formattable(st, mode, cl, list) && PlainHosts(cl) && k < |list|
    ensures HasHosts(st, mode, cl, list)
    ensures Reaches(DialArgs(st, mode, cl, list), k, Endpoints(st, mode, cl, list), [k])
  {
    var all := AllSegsAddresses(mode, cl.src, cl.dest, list);
    forall i | 0 <= i < |all| ensures Plain(all[i].host) {
    }
    ConnectsToEntries(all, 0, mode.Pull?, k);
  }

  lemma PushReaches(cl: Clusters, list: seq<HelperPort>, k: nat)
    requires |list| == |cl.dest| > 0 && PlainHosts(cl) && k < |cl.src|
    ensures Reaches(
      DialArgs(ExtDestLtCopy, Push, cl, list), k, Endpoints(ExtDestLtCopy, Push, cl, list), [k % |cl.dest|])
  {
    var all := DestSegsAddresses(cl.src, cl.dest, list);
    forall i | 0 <= i < |all| ensures Plain(all[i].host) {
    }
    ConnectsToEntries(all, 0, false, k);
  }

  lemma PullReaches(cl: Clusters, list: seq<HelperPort>, k: nat)
    requires |cl.src| == |list| > |cl.dest| > 0 && PlainHosts(cl)
    ensures Reaches(
      DialArgs(ExtDestLtCopy, Pull, cl, list), k, Endpoints(ExtDestLtCopy, Pull, cl, list),
      Strided(k, |cl.src|, |cl.dest|))
  {
    var all := SrcSegsAddresses(cl.src, list);
    forall i | 0 <= i < |all| ensures Plain(all[i].host) {
    }
    ConnectsToEntries(all, |cl.dest|, true, k);
  }

  /** Every port and host a dialling helper picks are the reported port and the host of a listener. */
  lemma DialsListeners(st: Strategy, mode: Mode, cl: Clusters, rows: seq<HelperPort>, list: seq<HelperPort>, k: nat)
    requires Reported(st, mode, cl, rows, list) && k < |Dialers(st, mode, cl)|
    ensures Formattable(st, mode, cl, list) && HasHosts(st, mode, cl, list)
    ensures Reaches(
      DialArgs(st, mode, cl, list), Dialers(st, mode, cl)[k], Endpoints(st, mode, cl, list), Targets(st, mode, cl, k))
  {
    ListIsAligned(st, mode, cl, rows, list);
    if st.CopyOnMaster? {
      MasterReaches(mode, cl, list);
    } else {
      SegmentsTakePart(st, cl);
      if st.ExtDestLtCopy? {
        if mode.Push? {
          PushReaches(cl, list, k);
        } else {
          PullReaches(cl, list, k);
        }
      } else {
        OwnReaches(st, mode, cl, list, k);
      }
    }
  }

  // ------------------------------------------------------------ how often each listener is reached

  predicate Dialables(a: Args, segIds: seq<int>) {
    forall k :: 0 <= k < |segIds| ==> Dialable(a, segIds[k])
  }

  /** All connections of helpers with the same command line. */
  function ConnectionsOf(a: Args, segIds: seq<int>): seq<Endpoint>
    requires Dialables(a, segIds)
  {
    if segIds == [] then []
    else ConnectionsOf(a, segIds[..|segIds| - 1]) + Connects(a, segIds[|segIds| - 1])
  }

  /** The targets of the first `n` helpers. */
  function TargetLists(st: Strategy, mode: Mode, cl: Clusters, n: nat): seq<seq<nat>>
    requires |cl.dest| > 0
  {
    seq(n, k requires 0 <= k < n => Targets(st, mode, cl, k))
  }

  lemma {:induction false} FlatWithin(parts: seq<seq<nat>>, size: nat)
    requires forall k :: 0 <= k < |parts| ==> AllBelow(parts[k], size)
    ensures AllBelow(Flat(parts), size)
  {
    if parts != [] {
      FlatWithin(parts[..|parts| - 1], size);
      assert AllBelow(parts[|parts| - 1], size);
    }
  }

  lemma SelectConcat<T>(table: seq<T>, a: seq<nat>, b: seq<nat>)
    requires AllBelow(a, |table|) && AllBelow(b, |table|)
    ensures AllBelow(a + b, |table|) && Select(table, a + b) == Select(table, a) + Select(table, b)
  {
  }

  lemma {:induction false} AllReached(a: Args, segIds: seq<int>, table: seq<Endpoint>, parts: seq<seq<nat>>)
    requires |parts| == |segIds| && forall k :: 0 <= k < |segIds| ==> Reaches(a, segIds[k], table, parts[k])
    ensures Dialables(a, segIds) && AllBelow(Flat(parts), |table|)
    ensures ConnectionsOf(a, segIds) == Select(table, Flat(parts))
  {
    FlatWithin(parts, |table|);
    if segIds != [] {
      var n := |segIds| - 1;
      AllReached(a, segIds[..n], table, parts[..n]);
      assert Reaches(a, segIds[n], table, parts[n]);
      SelectConcat(table, Flat(parts[..n]), parts[n]);
    }
  }

  lemma {:induction false} OccursConcat<T>(a: seq<T>, b: seq<T>, x: T)
    ensures Occurs(a + b, x) == Occurs(a, x) + Occurs(b, x)
  {
    if a == [] {
      assert a + b == b;
    } else {
      OccursConcat(a[1..], b, x);
      assert (a + b)[1..] == a[1..] + b;
    }
  }

  /** How often the first `n` helpers together reach listener `l`. */
  function TimesReached(st: Strategy, mode: Mode, d: nat, n: nat, l: nat): nat
    requires d > 0
  {
    if st.ExtDestLtCopy? && mode.Push? then Assigned(n, d, l)
    else if st.ExtDestLtCopy? then (if l % d < n then 1 else 0)
    else if l < n then 1 else 0
  }

  lemma {:induction false} TimesTargeted(st: Strategy, mode: Mode, cl: Clusters, n: nat, l: nat)
    requires |cl.dest| > 0 && (st.ExtDestLtCopy? && mode.Pull? ==> n <= |cl.dest| && l < |cl.src|)
    ensures Occurs(Flat(TargetLists(st, mode, cl, n)), l) == TimesReached(st, mode, |cl.dest|, n, l)
  {
    if n > 0 {
      TimesTargeted(st, mode, cl, n - 1, l);
      FlatTargets(st, mode, cl, n - 1);
      OccursConcat(Flat(TargetLists(st, mode, cl, n - 1)), Targets(st, mode, cl, n - 1), l);
      TargetedBy(st, mode, cl, n - 1, l);
    }
  }

  lemma FlatTargets(st: Strategy, mode: Mode, cl: Clusters, n: nat)
    requires |cl.dest| > 0
    ensures Flat(TargetLists(st, mode, cl, n + 1)) == Flat(TargetLists(st, mode, cl, n)) + Targets(st, mode, cl, n)
  {
    assert TargetLists(st, mode, cl, n + 1)[..n] == TargetLists(st, mode, cl, n);
  }

  lemma TargetedBy(st: Strategy, mode: Mode, cl: Clusters, k: nat, l: nat)
    requires |cl.dest| > 0 && (st.ExtDestLtCopy? && mode.Pull? ==> k < |cl.dest| && l < |cl.src|)
    ensures Occurs(Targets(st, mode, cl, k), l) ==
      if (if !st.ExtDestLtCopy? then l == k else if mode.Push? then k % |cl.dest| == l else l % |cl.dest| == k)
      then 1 else 0
  {
    if !st.ExtDestLtCopy? {
      OccursOnce(k, l);
    } else if mode.Push? {
      OccursOnce(k % |cl.dest|, l);
    } else {
      StridedTimes(k, |cl.src|, |cl.dest|, l);
      StrideHits(l, |cl.dest|, k);
    }
  }

  /** Listener `l` waits for as many connections as there are helpers sent to it. */
  lemma AwaitsItsTargets(st: Strategy, mode: Mode, cl: Clusters, l: nat)
    requires Suits(st, |cl.src|, |cl.dest|) && Numbered(cl.src) && Numbered(cl.dest) && |cl.src| < 0x8000_0000
    requires l < |Listeners(st, mode, cl)|
    ensures Awaits(ListenArgs(st, mode, cl), Listeners(st, mode, cl)[l]) ==
      Occurs(Flat(TargetLists(st, mode, cl, |Dialers(st, mode, cl)|)), l)
  {
    if !st.CopyOnMaster? {
      SegmentsTakePart(st, cl);
    }
    TimesTargeted(st, mode, cl, |Dialers(st, mode, cl)|, l);
    if st.ExtDestLtCopy? && mode.Push? {
      AwaitsItsSources(cl, l);
    }
  }

  lemma AwaitsItsSources(cl: Clusters, l: nat)
    requires |cl.src| > |cl.dest| > l && |cl.src| < 0x8000_0000
    ensures Awaits(ListenArgs(ExtDestLtCopy, Push, cl), l) == Assigned(|cl.src|, |cl.dest|, l)
  {
    var s, d := |cl.src|, |cl.dest|;
    var ns := ClientNumbers(s, d);
    forall i | 0 <= i < |ns| ensures -0x8000_0000_0000_0000 <= ns[i] < 0x8000_0000_0000_0000 {
      AssignedAtMost(s, d, i);
    }
    NumberListRoundTrip(ns);
    AssignedEarly(s, d, l);
    AssignedAtMost(s, d, l);
    ServerReadsNumber(l, NumberTexts(ns), Assigned(s, d, l));
  }

  lemma {:induction false} SelectedTimes<T>(table: seq<T>, at: seq<nat>, l: nat)
    requires NoRepeats(table) && l < |table| && AllBelow(at, |table|)
    ensures Occurs(Select(table, at), table[l]) == Occurs(at, l)
  {
    if at != [] {
      SelectedTimes(table, at[1..], l);
      assert Select(table, at)[1..] == Select(table, at[1..]);
      assert table[at[0]] == table[l] ==> at[0] == l;
    }
  }

  /** What the dialling helpers do together. */
  lemma AllDial(st: Strategy, mode: Mode, cl: Clusters, rows: seq<HelperPort>, list: seq<HelperPort>,
                a: Args, table: seq<Endpoint>, ids: seq<int>, parts: seq<seq<nat>>)
    requires Reported(st, mode, cl, rows, list) && Formattable(st, mode, cl, list) && HasHosts(st, mode, cl, list)
    requires a == DialArgs(st, mode, cl, list) && table == Endpoints(st, mode, cl, list)
    requires ids == Dialers(st, mode, cl) && parts == TargetLists(st, mode, cl, |ids|)
    ensures Dialables(a, ids) && AllBelow(Flat(parts), |table|)
    ensures ConnectionsOf(a, ids) == Select(table, Flat(parts))
  {
    forall k | 0 <= k < |ids| ensures Reaches(a, ids[k], table, parts[k]) {
      DialsListeners(st, mode, cl, rows, list, k);
    }
    AllReached(a, ids, table, parts);
  }

  /** The command line of the dialling helpers and the endpoints of the listening ones, once the ports are known. */
  ghost function Prepared(st: Strategy, mode: Mode, cl: Clusters, rows: seq<HelperPort>, list: seq<HelperPort>)
    : (r: (Args, seq<Endpoint>))
    requires Reported(st, mode, cl, rows, list)
    ensures |r.1| == |list| == |Listeners(st, mode, cl)|
    ensures Dialables(r.0, Dialers(st, mode, cl))
  {
    ListIsAligned(st, mode, cl, rows, list);
    var a, table, ids := DialArgs(st, mode, cl, list), Endpoints(st, mode, cl, list), Dialers(st, mode, cl);
    AllDial(st, mode, cl, rows, list, a, table, ids, TargetLists(st, mode, cl, |ids|));
    (a, table)
  }

  /**
   From port reports to connections, for every strategy, mode and cluster size: entry `l` of the
   port list is a port that listener `l` reported, and the dialling helpers together connect to the
   host and port of each listener exactly as often as that listener, reading its own command line,
   waits for. (On one host no two helpers listen on the same port.)
   */
  lemma EveryListenerReached(
    st: Strategy, mode: Mode, cl: Clusters, rows: seq<HelperPort>, list: seq<HelperPort>, l: nat)
    requires Reported(st, mode, cl, rows, list) && |cl.src| < 0x8000_0000
    requires l < |Listeners(st, mode, cl)|
    ensures l < |list| && list[l].content == Listeners(st, mode, cl)[l] && list[l] in rows
    ensures
      var (a, endpoints) := Prepared(st, mode, cl, rows, list);
      NoRepeats(endpoints) ==>
        Occurs(ConnectionsOf(a, Dialers(st, mode, cl)), endpoints[l]) ==
        Awaits(ListenArgs(st, mode, cl), Listeners(st, mode, cl)[l])
  {
    ListIsAligned(st, mode, cl, rows, list);
    AwaitsItsTargets(st, mode, cl, l);
    var (a, table) := Prepared(st, mode, cl, rows, list);
    var ids := Dialers(st, mode, cl);
    var parts := TargetLists(st, mode, cl, |ids|);
    AllDial(st, mode, cl, rows, list, a, table, ids, parts);
    if NoRepeats(table) {
      SelectedTimes(table, Flat(parts), l);
    }
  }

  /** And they connect to nothing else. */
  lemma OnlyListenersReached(
    st: Strategy, mode: Mode, cl: Clusters, rows: seq<HelperPort>, list: seq<HelperPort>, e: Endpoint)
    requires Reported(st, mode, cl, rows, list)
    requires e in ConnectionsOf(Prepared(st, mode, cl, rows, list).0, Dialers(st, mode, cl))
    ensures e in Prepared(st, mode, cl, rows, list).1
  {
    ListIsAligned(st, mode, cl, rows, list);
    var (a, table) := Prepared(st, mode, cl, rows, list);
    var ids := Dialers(st, mode, cl);
    AllDial(st, mode, cl, rows, list, a, table, ids, TargetLists(st, mode, cl, |ids|));
  }
}
