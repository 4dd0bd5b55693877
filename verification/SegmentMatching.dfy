/**
 Which helper process connects to which (copy/copy_command.go on the coordinating side,
 helper/server.go, helper/client.go, helper/concurrent_client.go and helper/one_time_client.go
 on the segments). The coordinator writes address lists and client counts into command lines;
 the helpers pick their part by segment id. Both sides must agree.
 */
module SegmentMatching {
  import opened Strings
  import opened Sequences
  import opened PortList

  datatype Segment = Segment(content: int, host: string)

  datatype Mode = Push | Pull

  datatype Strategy = CopyOnMaster | CopyOnSegment | ExtDestGeCopy | ExtDestLtCopy

  /** Segments as the catalog lists them: contents 0, 1, 2, ... in order. */
  predicate Numbered(segs: seq<Segment>) {
    forall i :: 0 <= i < |segs| ==> segs[i].content == i
  }

  /** CreateCopyStrategy, without the override read from the environment. */
  function CreateCopyStrategy(
    isReplicated: bool, numTuples: int, threshold: int, sameVersion: bool, numSrc: nat, numDest: nat): (st: Strategy)
    ensures st.CopyOnMaster? <==> isReplicated || numTuples <= threshold
    ensures st.CopyOnSegment? ==> sameVersion
    ensures !st.CopyOnMaster? && sameVersion && numSrc == numDest ==> st.CopyOnSegment?
    ensures numSrc > 0 && numDest > 0 ==> Suits(st, numSrc, numDest)
  {
    if isReplicated || numTuples <= threshold then CopyOnMaster
    else if sameVersion && numSrc == numDest then CopyOnSegment
    else if numDest >= numSrc then ExtDestGeCopy
    else ExtDestLtCopy
  }

  /** The cluster sizes a strategy works for. */
  predicate Suits(st: Strategy, numSrc: nat, numDest: nat) {
    && numSrc > 0 && numDest > 0
    && match st
       case CopyOnMaster => true
       case CopyOnSegment => numSrc == numDest
       case ExtDestGeCopy => numSrc <= numDest
       case ExtDestLtCopy => numSrc > numDest
  }

  predicate IsCopyFromStarted(st: Strategy, mode: Mode, numSrc: nat, numDest: nat, rows: nat) {
    match st
    case CopyOnMaster => rows == 1
    case CopyOnSegment => rows == numSrc
    case ExtDestGeCopy => rows == numSrc
    case ExtDestLtCopy => if mode.Pull? then rows == numSrc else rows == numDest
  }

  // ------------------------------------------------------------ address lists

  /** An entry of the two parallel lists a dialling helper is given. */
  datatype Address = Address(port: int, host: string)

  function PortTexts(list: seq<Address>): seq<string> {
    seq(|list|, i requires 0 <= i < |list| => FormatInt(list[i].port))
  }

  function Hosts(list: seq<Address>): seq<string> {
    seq(|list|, i requires 0 <= i < |list| => list[i].host)
  }

  /** The first listeners' ports with the hosts of the listening cluster. */
  function AllSegsAddresses(mode: Mode, src: seq<Segment>, dest: seq<Segment>, ports: seq<HelperPort>): seq<Address>
    requires |ports| <= if mode.Push? then |dest| else |src|
  {
    seq(|ports|, i requires 0 <= i < |ports| => Address(ports[i].port, (if mode.Push? then dest[i] else src[i]).host))
  }

  method FormAllSegsHelperAddress(mode: Mode, src: seq<Segment>, dest: seq<Segment>, ports: seq<HelperPort>)
    returns (pl: string, il: string)
    requires |ports| <= if mode.Push? then |dest| else |src|
    ensures pl == Join(PortTexts(AllSegsAddresses(mode, src, dest, ports)), ',')
    ensures il == Join(Hosts(AllSegsAddresses(mode, src, dest, ports)), ',')
  {
    var ps, hosts: seq<string> := [], [];
    var targets := if mode.Push? then dest else src;
    ghost var list := AllSegsAddresses(mode, src, dest, ports);
    for i := 0 to |ports|
      invariant ps == PortTexts(list)[..i]
    {
      ps := ps + [FormatInt(ports[i].port)];
    }
    for i := 0 to |ps|
      invariant hosts == Hosts(list)[..i]
    {
      hosts := hosts + [targets[i].host];
    }
    assert PortTexts(list)[..|ports|] == PortTexts(list) && Hosts(list)[..|ports|] == Hosts(list);
    return Join(ps, ','), Join(hosts, ',');
  }

  /** For each source the listener of a destination, in turn. */
  function DestSegsAddresses(src: seq<Segment>, dest: seq<Segment>, ports: seq<HelperPort>): seq<Address>
    requires |ports| >= |dest| > 0
  {
    seq(|src|, i requires 0 <= i < |src| => Address(ports[i % |dest|].port, dest[i % |dest|].host))
  }

  lemma DestEntry(src: seq<Segment>, dest: seq<Segment>, ports: seq<HelperPort>, list: seq<Address>, i: nat)
    requires |ports| >= |dest| > 0 && i < |src| && list == DestSegsAddresses(src, dest, ports)
    ensures PortTexts(list)[..i] + [FormatInt(ports[i % |dest|].port)] == PortTexts(list)[..i + 1]
    ensures Hosts(list)[..i] + [dest[i % |dest|].host] == Hosts(list)[..i + 1]
  {
    OneMore(PortTexts(list), i);
    OneMore(Hosts(list), i);
  }

  method FormDestSegsHelperAddress(src: seq<Segment>, dest: seq<Segment>, ports: seq<HelperPort>)
    returns (pl: string, il: string)
    requires |ports| >= |dest| > 0
    ensures pl == Join(PortTexts(DestSegsAddresses(src, dest, ports)), ',')
    ensures il == Join(Hosts(DestSegsAddresses(src, dest, ports)), ',')
  {
    var ps, hosts: seq<string> := [], [];
    ghost var list := DestSegsAddresses(src, dest, ports);
    var j := 0;
    for i := 0 to |src|
      invariant 0 <= j < |dest| && j == i % |dest|
      invariant ps == PortTexts(list)[..i] && hosts == Hosts(list)[..i]
    {
      DestEntry(src, dest, ports, list, i);
      ps := ps + [FormatInt(ports[j].port)];
      hosts := hosts + [dest[j].host];
      NextMod(i, |dest|);
      j := j + 1;
      if j == |dest| {
        j := 0;
      }
    }
    assert PortTexts(list)[..|src|] == PortTexts(list) && Hosts(list)[..|src|] == Hosts(list);
    return Join(ps, ','), Join(hosts, ',');
  }

  lemma NextMod(i: nat, d: nat)
    requires d > 0
    ensures (i + 1) % d == if i % d + 1 == d then 0 else i % d + 1
  {
    var q, r := i / d, i % d;
    assert i == q * d + r;
    if r + 1 == d {
      assert i + 1 == (q + 1) * d;
      ModUnique(i + 1, q + 1, 0, d);
    } else {
      ModUnique(i + 1, q, r + 1, d);
    }
  }

  lemma ModUnique(n: nat, q: int, r: nat, d: nat)
    requires d > 0 && r < d && n == q * d + r
    ensures n % d == r
  {
    var q', r' := n / d, n % d;
    assert n == q' * d + r';
    Distribute(q, q', d);
    if q > q' {
      AtLeastOnce(q - q', d);
    } else if q < q' {
      AtLeastOnce(q' - q, d);
      Distribute(q', q, d);
    }
  }

  lemma Distribute(a: int, b: int, d: int)
    ensures (a - b) * d == a * d - b * d
  {
  }

  lemma AtLeastOnce(k: int, d: nat)
    requires k >= 1
    ensures k * d >= d
  {
  }

  function SrcSegsAddresses(src: seq<Segment>, ports: seq<HelperPort>): seq<Address>
    requires |src| <= |ports|
  {
    seq(|src|, i requires 0 <= i < |src| => Address(ports[i].port, src[i].host))
  }

  method FormSrcSegsHelperAddress(src: seq<Segment>, ports: seq<HelperPort>) returns (pl: string, il: string)
    requires |src| <= |ports|
    ensures pl == Join(PortTexts(SrcSegsAddresses(src, ports)), ',')
    ensures il == Join(Hosts(SrcSegsAddresses(src, ports)), ',')
  {
    var ps, hosts: seq<string> := [], [];
    ghost var list := SrcSegsAddresses(src, ports);
    for i := 0 to |src|
      invariant ps == PortTexts(list)[..i] && hosts == Hosts(list)[..i]
    {
      ps := ps + [FormatInt(ports[i].port)];
      hosts := hosts + [src[i].host];
    }
    assert PortTexts(list)[..|src|] == PortTexts(list) && Hosts(list)[..|src|] == Hosts(list);
    return Join(ps, ','), Join(hosts, ',');
  }

  // ------------------------------------------------------------ client counts

  /** How many of the first `n` sources are assigned destination `l` of `d`. */
  function Assigned(n: nat, d: nat, l: int): nat
    requires d > 0
  {
    if n == 0 then 0 else Assigned(n - 1, d, l) + if (n - 1) % d == l then 1 else 0
  }

  lemma {:induction false} AssignedEarly(n: nat, d: nat, l: nat)
    requires d > 0
    ensures Assigned(n, d, l) > 0 <==> l < n && l < d
  {
    if n > 0 {
      AssignedEarly(n - 1, d, l);
      if n - 1 < d {
        ModUnique(n - 1, 0, n - 1, d);
      }
    }
  }

  /** formClientNumbers: for each destination, in content order, the number of its sources. */
  method FormClientNumbers(numSrc: nat, dest: seq<Segment>) returns (numbers: seq<int>)
    requires |dest| > 0
    ensures Numbered(dest) ==> numbers == ClientNumbers(numSrc, |dest|)
  {
    var d := |dest|;
    var segMap: map<int, int> := map[];
    var j := 0;
    for i := 0 to numSrc
      invariant 0 <= j < d && j == i % d
      invariant Numbered(dest) ==> Counted(segMap, i, d)
    {
      var content := dest[j].content;
      CountOneMore(segMap, i, d);
      if content !in segMap {
        segMap := segMap[content := 1];
      } else {
        segMap := segMap[content := segMap[content] + 1];
      }
      NextMod(i, d);
      j := j + 1;
      if j == d {
        j := 0;
      }
    }
    var keys := KeysInAnyOrder(segMap);
    keys := SortInts(keys);
    assert forall i :: 0 <= i < |keys| ==> keys[i] in Members(keys);
    numbers := [];
    for i := 0 to |keys|
      invariant |numbers| == i && forall l :: 0 <= l < i ==> numbers[l] == segMap[keys[l]]
    {
      numbers := numbers + [segMap[keys[i]]];
    }
    if Numbered(dest) {
      KeysAreRange(keys, segMap.Keys, if numSrc < d then numSrc else d);
    }
  }

  /** The client counts: one per destination that has a source, each the number of its sources. */
  function ClientNumbers(numSrc: nat, d: nat): (numbers: seq<int>)
    requires d > 0
  {
    seq(if numSrc < d then numSrc else d, l => Assigned(numSrc, d, l))
  }

  /** `m` counts the first `i` sources by destination. */
  ghost predicate Counted(m: map<int, int>, i: nat, d: nat)
    requires d > 0
  {
    && (forall l :: l in m <==> 0 <= l < d && l < i)
    && (forall l :: l in m ==> m[l] == Assigned(i, d, l))
  }

  lemma CountOneMore(m: map<int, int>, i: nat, d: nat)
    requires d > 0
    ensures Counted(m, i, d) ==>
      Counted(m[i % d := if i % d in m then m[i % d] + 1 else 1], i + 1, d)
  {
    var j := i % d;
    if i < d {
      ModUnique(i, 0, i, d);
    }
    AssignedEarly(i, d, j);
  }

  lemma KeysAreRange(keys: seq<int>, s: set<int>, n: nat)
    requires Increasing(keys) && Members(keys) == s && forall l: int :: l in s <==> 0 <= l < n
    ensures |keys| == n && forall i :: 0 <= i < n ==> keys[i] == i && i in s
  {
    var up := seq(n, i => i);
    assert Members(up) == s by {
      forall l | l in s ensures l in up {
        assert up[l] == l;
      }
    }
    IncreasingUnique(keys, up);
  }

  function Sum(s: seq<int>): int {
    if s == [] then 0 else Sum(s[..|s| - 1]) + s[|s| - 1]
  }

  /** Every source is counted once. */
  lemma {:induction false} AssignedSum(n: nat, d: nat)
    requires d > 0
    ensures SumAssigned(n, d, d) == n
  {
    if n > 0 {
      AssignedSum(n - 1, d);
      SumOneMore(n, d, d);
    } else {
      SumZero(d, d);
    }
  }

  function SumAssigned(n: nat, d: nat, k: nat): nat
    requires d > 0
  {
    if k == 0 then 0 else SumAssigned(n, d, k - 1) + Assigned(n, d, k - 1)
  }

  lemma {:induction false} SumOneMore(n: nat, d: nat, k: nat)
    requires d > 0 && n > 0
    ensures SumAssigned(n, d, k) == SumAssigned(n - 1, d, k) + if (n - 1) % d < k then 1 else 0
  {
    if k > 0 {
      SumOneMore(n, d, k - 1);
    }
  }

  lemma {:induction false} SumZero(d: nat, k: nat)
    requires d > 0
    ensures SumAssigned(0, d, k) == 0
  {
    if k > 0 {
      SumZero(d, k - 1);
    }
  }

  lemma {:induction false} SumIsSumAssigned(n: nat, d: nat, k: nat)
    requires d > 0 && k <= d <= n
    ensures Sum(ClientNumbers(n, d)[..k]) == SumAssigned(n, d, k)
  {
    if k > 0 {
      SumIsSumAssigned(n, d, k - 1);
      assert ClientNumbers(n, d)[..k][..k - 1] == ClientNumbers(n, d)[..k - 1];
    }
  }

  /** With at least as many sources as destinations the client counts add up to the sources. */
  lemma ClientNumbersSum(n: nat, d: nat)
    requires 0 < d <= n
    ensures Sum(ClientNumbers(n, d)) == n
  {
    SumIsSumAssigned(n, d, d);
    AssignedSum(n, d);
    assert ClientNumbers(n, d)[..d] == ClientNumbers(n, d);
  }

  // ------------------------------------------------------------ through the command line

  function NumberTexts(ns: seq<int>): seq<string> {
    seq(|ns|, i requires 0 <= i < |ns| => FormatInt(ns[i]))
  }

  /** A comma-separated list of numbers arrives as the list that was written. */
  lemma NumberListRoundTrip(ns: seq<int>)
    requires |ns| > 0 && forall i :: 0 <= i < |ns| ==> -0x8000_0000_0000_0000 <= ns[i] < 0x8000_0000_0000_0000
    ensures Split(Join(NumberTexts(ns), ','), ',') == NumberTexts(ns)
    ensures forall i :: 0 <= i < |ns| ==> ParseInt(NumberTexts(ns)[i]) == ns[i]
  {
    forall i | 0 <= i < |ns| ensures ',' !in NumberTexts(ns)[i] && ParseInt(NumberTexts(ns)[i]) == ns[i] {
      FormatIsClean(ns[i], ',');
      FormatParse(ns[i]);
    }
    SplitJoin(NumberTexts(ns), ',');
  }

  // ------------------------------------------------------------ the helpers' side

  /** The index a helper uses for its segment id; the coordinator passes -1. */
  function HelperIndex(segId: int): nat {
    if segId >= 0 then segId else 0
  }

  function ToInt32(n: int): int {
    (n + 0x8000_0000) % 0x1_0000_0000 - 0x8000_0000
  }

  /** createServerImpl: how many connections the listening helper serves. */
  function ServerExpects(segId: int, numClients: seq<string>): int {
    var index := HelperIndex(segId);
    if index < |numClients| && ParseInt(numClients[index]) > 1 then ToInt32(ParseInt(numClients[index])) else 1
  }

  /** A count is taken as written as long as it fits 32 bits, and then wraps; without one it is one connection. */
  lemma ExpectsWhatIsWritten(segId: int, numClients: seq<string>, at: nat, n: int)
    requires at == if segId < 0 then 0 else segId
    requires at < |numClients| ==> n < 4294967296 && numClients[at] == FormatInt(n)
    ensures ServerExpects(segId, numClients) ==
      if at >= |numClients| || n <= 1 then 1 else if n < 2147483648 then n else n - 4294967296
  {
    ParseClamps(n);
  }

  /** Every `d`-th index from `i` on. */
  function Strided(i: nat, n: nat, d: nat): (s: seq<nat>)
    requires d > 0
    ensures forall k :: 0 <= k < |s| ==> s[k] < n
    decreases n - i
  {
    if i >= n then [] else [i] + Strided(i + d, n, d)
  }

  /** The target loop of ConcurrentClient.Run. */
  method ConcurrentTargets(segId: nat, numSrc: nat, numDests: nat) returns (targets: seq<nat>)
    requires numDests > 0
    ensures targets == Strided(segId, numSrc, numDests)
  {
    targets := [];
    var i := segId;
    while i < numSrc
      invariant targets + Strided(i, numSrc, numDests) == Strided(segId, numSrc, numDests)
      decreases numSrc - i
    {
      Associate(targets, [i], Strided(i + numDests, numSrc, numDests));
      targets := targets + [i];
      i := i + numDests;
    }
  }

  /** createClientImpl and the two clients: which entries of its address list a helper dials. */
  function ClientDials(segId: int, receive: bool, numHosts: nat, numDests: nat): (entries: seq<nat>)
    requires receive && numHosts > numDests > 0 ==> segId >= 0
    ensures forall n :: 0 <= n < |entries| ==> entries[n] < numHosts
  {
    if receive && numHosts > numDests && numDests > 0 then Strided(segId, numHosts, numDests)
    else if HelperIndex(segId) >= numHosts then []
    else [HelperIndex(segId)]
  }

  /** A helper that is not concurrent dials the entry of its id, the coordinator's the first, or nothing. */
  lemma DialsItsEntry(segId: int, receive: bool, numHosts: nat, numDests: nat)
    requires !receive || numDests == 0 || numHosts <= numDests
    ensures ClientDials(segId, receive, numHosts, numDests) ==
      if 0 <= segId < numHosts then [segId] else if segId < 0 && numHosts > 0 then [0] else []
  {
  }

  /** How often `x` occurs in `s`. */
  function Occurs<T(==)>(s: seq<T>, x: T): nat {
    if s == [] then 0 else Occurs(s[1..], x) + if s[0] == x then 1 else 0
  }

  lemma OccursOnce<T>(y: T, x: T)
    ensures Occurs([y], x) == if x == y then 1 else 0
  {
    assert [y][1..] == [];
  }

  lemma {:induction false} OccursIffIn(s: seq<nat>, x: nat)
    ensures Occurs(s, x) > 0 <==> x in s
  {
    if s != [] {
      OccursIffIn(s[1..], x);
    }
  }

  lemma {:induction false} StridedTimes(i: nat, n: nat, d: nat, x: nat)
    requires d > 0
    ensures Occurs(Strided(i, n, d), x) == if i <= x < n && (x - i) % d == 0 then 1 else 0
    decreases n - i
  {
    if i < n {
      StridedTimes(i + d, n, d, x);
      assert Strided(i, n, d)[1..] == Strided(i + d, n, d);
      if x >= i {
        ModStep(x - i, d);
      }
    }
  }

  lemma ModStep(a: nat, d: nat)
    requires d > 0
    ensures a < d ==> a % d == a
    ensures a >= d ==> a % d == (a - d) % d
  {
    if a < d {
      ModUnique(a, 0, a, d);
    } else {
      Distribute(a / d, 1, d);
      ModUnique(a - d, a / d - 1, a % d, d);
    }
  }

  lemma StrideHits(l: nat, d: nat, i: nat)
    requires i < d
    ensures (i <= l && (l - i) % d == 0) <==> l % d == i
  {
    var q := l / d;
    assert l == q * d + l % d;
    if l % d == i {
      ModUnique(l - i, q, 0, d);
    } else if i <= l && (l - i) % d == 0 {
      ModUnique(l, (l - i) / d, i, d);
    }
  }

  lemma {:induction false} AssignedAtMost(n: nat, d: nat, l: int)
    requires d > 0
    ensures Assigned(n, d, l) <= n
  {
    if n > 0 {
      AssignedAtMost(n - 1, d, l);
    }
  }

  lemma ServerReadsNumber(l: nat, texts: seq<string>, v: int)
    requires l < |texts| && ParseInt(texts[l]) == v && 1 <= v < 0x8000_0000
    ensures ServerExpects(l, texts) == v
  {
  }

  /** In pull mode with more sources than destinations, destination `d` takes exactly the sources s with s mod D = d. */
  lemma StridesPartitionSources(numSrc: nat, numDest: nat, d: nat, s: nat)
    requires d < numDest < numSrc && s < numSrc
    ensures ClientDials(d, true, numSrc, numDest) == Strided(d, numSrc, numDest)
    ensures s in ClientDials(d, true, numSrc, numDest) <==> s % numDest == d
  {
    StridedTimes(d, numSrc, numDest, s);
    OccursIffIn(Strided(d, numSrc, numDest), s);
    StrideHits(s, numDest, d);
  }
}
