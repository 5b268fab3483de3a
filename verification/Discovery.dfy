/** Camera discovery of src/discovery.rs: the datagram parser and the receive loop. */
module Discovery {
  import opened Types
  import opened BigEndian
  import Text

  datatype Ip = V4(a: byte, b: byte, c: byte, d: byte) | V6(groups: seq<u16>)

  datatype Address = Address(ip: Ip, port: u16)

  datatype Camera = Camera(ip: Ip, port: u16, modelName: bytes, vendorId: u32, vendorVersion: u16)

  /** `trim_matches('\0')`. */
  function TrimNuls(s: bytes): (t: bytes)
    ensures t != [] ==> t[0] != 0 && t[|t| - 1] != 0
  {
    if s == [] then []
    else if s[0] == 0 then TrimNuls(s[1..])
    else if s[|s| - 1] == 0 then TrimNuls(s[..|s| - 1])
    else s
  }

  /** A well-formed response: type 2, version 1.0, from an IPv4 address. */
  function CameraIn(buffer: bytes, source: Address): Option<Camera>
  {
    if |buffer| >= 14 && U16At(buffer, 0) == 0x0002 && U16At(buffer, 2) == 0x0100 && source.ip.V4? then
      Some(Camera(source.ip, U16At(buffer, 10), TrimNuls(Text.Lossy(buffer[14..])), U32At(buffer, 4), U16At(buffer, 8)))
    else None
  }

  /** `parse_discovery_response`, reading through a cursor; after the length test no read can fail. */
  method ParseDiscoveryResponse(buffer: bytes, source: Address) returns (camera: Option<Camera>)
    ensures camera == CameraIn(buffer, source)
  {
    if |buffer| < 14 {
      return None;
    }
    var reader := new Cursor(buffer);
    var messageType := reader.ReadU16();
    if messageType.value != 0x0002 {
      return None;
    }
    var version := reader.ReadU16();
    if version.value != 0x0100 {
      return None;
    }
    var vendorId := reader.ReadU32();
    var vendorVersion := reader.ReadU16();
    var port := reader.ReadU16();
    var modelName := TrimNuls(Text.Lossy(buffer[14..]));
    if source.ip.V6? {
      return None;
    }
    return Some(Camera(source.ip, port.value, modelName, vendorId.value, vendorVersion.value));
  }

  /** Which datagrams name a camera, and what they say; the two bytes before the name are skipped. */
  lemma CameraMeans(buffer: bytes, source: Address)
    ensures CameraIn(buffer, source).Some? <==> |buffer| >= 14 && buffer[..4] == [0, 2, 1, 0] && source.ip.V4?
    ensures match CameraIn(buffer, source)
            case None => true
            case Some(c) =>
              && c.ip == source.ip && c.vendorId == U32At(buffer, 4) && c.vendorVersion == U16At(buffer, 8)
              && c.port == U16At(buffer, 10) && c.modelName == TrimNuls(Text.Lossy(buffer[14..]))
  {
    if |buffer| >= 14 {
      var head := buffer[..4];
      assert head == [buffer[0], buffer[1], buffer[2], buffer[3]];
    }
  }

  /** Trimming takes NULs from both ends and nothing else. */
  lemma {:induction false} TrimNulsMeans(s: bytes) returns (i: nat, j: nat)
    ensures i <= j <= |s| && TrimNuls(s) == s[i..j]
    ensures forall k | 0 <= k < i || j <= k < |s| :: s[k] == 0
    decreases |s|
  {
    if s == [] {
      i, j := 0, 0;
    } else if s[0] == 0 {
      i, j := TrimNulsMeans(s[1..]);
      i, j := i + 1, j + 1;
      assert forall k | 1 <= k < |s| :: s[k] == s[1..][k - 1];
    } else if s[|s| - 1] == 0 {
      i, j := TrimNulsMeans(s[..|s| - 1]);
      assert forall k | 0 <= k < |s| - 1 :: s[k] == s[..|s| - 1][k];
    } else {
      i, j := 0, |s|;
    }
  }

  /** The answer of a camera, as its parser reads it: two bytes before the name are skipped. */
  function EncodeResponse(c: Camera, skipped: u16): bytes
  {
    Write16(0x0002) + Write16(0x0100) + Write32(c.vendorId) + Write16(c.vendorVersion) + Write16(c.port)
    + Write16(skipped) + c.modelName
  }

  lemma {:induction false} TrimNulsValid(s: bytes)
    requires Text.ValidUtf8(s)
    ensures Text.ValidUtf8(TrimNuls(s))
    decreases |s|
  {
    if s != [] && s[0] == 0 {
      TrimNulsValid(s[1..]);
    } else if s != [] && s[|s| - 1] == 0 {
      Text.ValidWithoutNul(s);
      TrimNulsValid(s[..|s| - 1]);
    }
  }

  /** The name of a camera is valid text without NULs at its ends, whatever was received. */
  lemma NameIsText(buffer: bytes, source: Address)
    ensures var r := CameraIn(buffer, source);
            r.Some? ==> && Text.ValidUtf8(r.value.modelName)
                        && TrimNuls(r.value.modelName) == r.value.modelName
  {
    if |buffer| >= 14 {
      Text.LossyIsValid(buffer[14..]);
      TrimNulsValid(Text.Lossy(buffer[14..]));
    }
  }

  /** A camera comes back from its own answer exactly if its name is valid text with no NUL at either end. */
  lemma ResponseRoundTrip(c: Camera, skipped: u16, sourcePort: u16)
    requires c.ip.V4?
    ensures CameraIn(EncodeResponse(c, skipped), Address(c.ip, sourcePort)) == Some(c) <==>
            && Text.ValidUtf8(c.modelName)
            && (c.modelName == [] || (c.modelName[0] != 0 && c.modelName[|c.modelName| - 1] != 0))
  {
    var s := EncodeResponse(c, skipped);
    assert s[0..2] == Write16(0x0002);
    Read16(s, 0, 0x0002);
    assert s[2..4] == Write16(0x0100);
    Read16(s, 2, 0x0100);
    assert s[4..8] == Write32(c.vendorId);
    Read32(s, 4, c.vendorId);
    assert s[8..10] == Write16(c.vendorVersion);
    Read16(s, 8, c.vendorVersion);
    assert s[10..12] == Write16(c.port);
    Read16(s, 10, c.port);
    assert s[14..] == c.modelName;
    Text.LossyIsValid(c.modelName);
    NameIsText(s, Address(c.ip, sourcePort));
  }

  // ---------- what discovery should return ----------

  /** What one `recv_from` reports. */
  datatype Arrival =
    | Datagram(payload: bytes, source: Address)
    | Quiet   // nothing before the timeout
    | Fault   // any other error

  const BUFFER_SIZE := 1024
  const MAX_CAMERAS := 10

  /** `recv_from` into the buffer cuts a datagram to its size. */
  function Received(payload: bytes): bytes
  {
    if |payload| <= BUFFER_SIZE then payload else payload[..BUFFER_SIZE]
  }

  predicate From(a: Arrival, source: Address) {
    a.Datagram? && a.source == source
  }

  predicate SourceSeen(arrivals: seq<Arrival>, source: Address) {
    exists i | 0 <= i < |arrivals| :: From(arrivals[i], source)
  }

  /** The cameras in the first datagrams of the sources, in order of arrival. */
  function FirstCameras(arrivals: seq<Arrival>): seq<Camera>
  {
    if arrivals == [] then [] else
    var n := |arrivals| - 1;
    FirstCameras(arrivals[..n]) +
    if arrivals[n].Datagram? && !SourceSeen(arrivals[..n], arrivals[n].source) then
      match CameraIn(Received(arrivals[n].payload), arrivals[n].source)
      case Some(c) => [c]
      case None => []
    else []
  }

  /** The datagram at `j` is the first of its source and names camera `c`; only its first 1024 bytes count. */
  predicate Announces(arrivals: seq<Arrival>, j: nat, c: Camera)
    requires j < |arrivals|
  {
    && arrivals[j].Datagram?
    && (forall i | 0 <= i < j :: !(arrivals[i].Datagram? && arrivals[i].source == arrivals[j].source))
    && var payload := arrivals[j].payload;
    && CameraIn(if |payload| <= 1024 then payload else payload[..1024], arrivals[j].source) == Some(c)
  }

  /** `picks` are the places of all first datagrams that name cameras, and `cameras` what they name. */
  ghost predicate AnnouncedAt(arrivals: seq<Arrival>, picks: seq<nat>, cameras: seq<Camera>) {
    && Rising(picks, |arrivals|) && |cameras| == |picks|
    && (forall k | 0 <= k < |picks| :: Announces(arrivals, picks[k], cameras[k]))
    && forall j: nat, c | j < |arrivals| && Announces(arrivals, j, c) :: j in picks
  }

  /** The list holds exactly the cameras in the first datagrams of the sources, in order of arrival. */
  lemma {:induction false} FirstCamerasAre(arrivals: seq<Arrival>) returns (picks: seq<nat>)
    ensures AnnouncedAt(arrivals, picks, FirstCameras(arrivals))
  {
    if arrivals == [] {
      picks := [];
    } else {
      var n := |arrivals| - 1;
      var before := FirstCamerasAre(arrivals[..n]);
      var c := LastAnnounces(arrivals);
      picks := before + if c.Some? then [n] else [];
      hide FirstCameras, Announces;
      AnnouncedNext(arrivals, n, before, FirstCameras(arrivals[..n]), c);
    }
  }

  /** What the last arrival adds. */
  lemma LastAnnounces(arrivals: seq<Arrival>) returns (c: Option<Camera>)
    requires arrivals != []
    ensures var n := |arrivals| - 1;
            && (c.Some? ==> Announces(arrivals, n, c.value))
            && (c.None? ==> forall d :: !Announces(arrivals, n, d))
            && FirstCameras(arrivals) == FirstCameras(arrivals[..n]) + if c.Some? then [c.value] else []
  {
    var n := |arrivals| - 1;
    var a := arrivals[n];
    c := if a.Datagram? && !SourceSeen(arrivals[..n], a.source) then CameraIn(Received(a.payload), a.source) else None;
    hide CameraIn;
    if a.Datagram? {
      assert SourceSeen(arrivals[..n], a.source) <==>
             exists i | 0 <= i < n :: arrivals[i].Datagram? && arrivals[i].source == a.source by {
        if i :| 0 <= i < n && arrivals[i].Datagram? && arrivals[i].source == a.source {
          assert From(arrivals[..n][i], a.source);
        }
      }
    }
  }

  lemma AnnouncedNext(arrivals: seq<Arrival>, n: nat, before: seq<nat>, cameras: seq<Camera>, c: Option<Camera>)
    requires |arrivals| == n + 1 && AnnouncedAt(arrivals[..n], before, cameras)
    requires c.Some? ==> Announces(arrivals, n, c.value)
    requires c.None? ==> forall d :: !Announces(arrivals, n, d)
    ensures AnnouncedAt(arrivals, before + (if c.Some? then [n] else []),
                        cameras + if c.Some? then [c.value] else [])
  {
    hide Announces;
    forall j: nat, d | j < n ensures Announces(arrivals, j, d) <==> Announces(arrivals[..n], j, d) {
      AnnouncesEarlier(arrivals, j, d);
    }
  }

  lemma AnnouncesEarlier(arrivals: seq<Arrival>, j: nat, c: Camera)
    requires arrivals != [] && j < |arrivals| - 1
    ensures Announces(arrivals, j, c) <==> Announces(arrivals[..|arrivals| - 1], j, c)
  {
    hide CameraIn;
    var before := arrivals[..|arrivals| - 1];
    assert forall i | 0 <= i <= j :: before[i] == arrivals[i];
  }

  predicate SameEndpoint(c: Camera, d: Camera) {
    c.ip == d.ip && c.port == d.port
  }

  predicate EndpointKnown(cameras: seq<Camera>, c: Camera) {
    exists i | 0 <= i < |cameras| :: SameEndpoint(cameras[i], c)
  }

  /** Keeps the first camera of every endpoint, in order. */
  function Distinct(cameras: seq<Camera>): seq<Camera>
  {
    if cameras == [] then [] else
    var n := |cameras| - 1;
    var before := Distinct(cameras[..n]);
    if EndpointKnown(before, cameras[n]) then before else before + [cameras[n]]
  }

  /** No two results share an endpoint. */
  lemma {:induction false} DistinctDiffer(cameras: seq<Camera>)
    ensures var ds := Distinct(cameras);
            && |ds| <= |cameras|
            && (forall i, j | 0 <= i < j < |ds| :: !SameEndpoint(ds[i], ds[j]))
  {
    if cameras != [] {
      DistinctDiffer(cameras[..|cameras| - 1]);
    }
  }

  /** No endpoint is missing from the results. */
  lemma {:induction false} DistinctCovers(cameras: seq<Camera>, i: nat)
    requires i < |cameras|
    ensures EndpointKnown(Distinct(cameras), cameras[i])
    decreases |cameras|
  {
    var n := |cameras| - 1;
    var before, ds := Distinct(cameras[..n]), Distinct(cameras);
    if i < n {
      DistinctCovers(cameras[..n], i);
      var k :| 0 <= k < |before| && SameEndpoint(before[k], cameras[i]);
      assert SameEndpoint(ds[k], cameras[i]);
    } else if !EndpointKnown(before, cameras[n]) {
      assert SameEndpoint(ds[|before|], cameras[n]);
    }
  }

  /** Nothing but what was found is in the results. */
  lemma {:induction false} DistinctWithin(cameras: seq<Camera>, i: nat)
    requires i < |Distinct(cameras)|
    ensures exists j | 0 <= j < |cameras| :: cameras[j] == Distinct(cameras)[i]
                                             && forall k | 0 <= k < j :: !SameEndpoint(cameras[k], cameras[j])
    decreases |cameras|
  {
    var n := |cameras| - 1;
    var before := Distinct(cameras[..n]);
    if i < |before| {
      DistinctWithin(cameras[..n], i);
      var j :| 0 <= j < n && cameras[..n][j] == before[i]
               && forall k | 0 <= k < j :: !SameEndpoint(cameras[..n][k], cameras[..n][j]);
      assert cameras[j] == before[i];
      assert forall k | 0 <= k < j :: !SameEndpoint(cameras[k], cameras[j]) by {
        forall k | 0 <= k < j ensures !SameEndpoint(cameras[k], cameras[j]) {
          assert !SameEndpoint(cameras[..n][k], cameras[..n][j]);
        }
      }
    } else {
      forall k | 0 <= k < n ensures !SameEndpoint(cameras[k], cameras[n]) {
        DistinctCovers(cameras[..n], k);
        var m :| 0 <= m < |before| && SameEndpoint(before[m], cameras[..n][k]);
        assert !SameEndpoint(before[m], cameras[n]);
      }
    }
  }

  /** More arrivals only add results at the end. */
  lemma {:induction false} LongerExtends(arrivals: seq<Arrival>, more: seq<Arrival>)
    ensures FirstCameras(arrivals) <= FirstCameras(arrivals + more)
    ensures Distinct(FirstCameras(arrivals)) <= Distinct(FirstCameras(arrivals + more))
  {
    if more == [] {
      assert arrivals + more == arrivals;
    } else {
      var n := |more| - 1;
      LongerExtends(arrivals, more[..n]);
      var all := arrivals + more;
      assert all[..|all| - 1] == arrivals + more[..n];
      DistinctStep(all);
    }
  }

  /** One more arrival adds at most one result. */
  lemma DistinctStep(arrivals: seq<Arrival>)
    requires arrivals != []
    ensures var before := FirstCameras(arrivals[..|arrivals| - 1]);
            var after := FirstCameras(arrivals);
            && before <= after && |after| <= |before| + 1
            && Distinct(after) == if |after| == |before| || EndpointKnown(Distinct(before), after[|before|])
                                  then Distinct(before) else Distinct(before) + [after[|before|]]
  {
    var before := FirstCameras(arrivals[..|arrivals| - 1]);
    var after := FirstCameras(arrivals);
    if |after| == |before| + 1 {
      assert after[..|before|] == before;
    } else {
      assert after == before;
    }
  }

  /**
   What discovery reports: for each endpoint that was announced the camera of the earliest
   announcement, in their order, and nothing else.
   */
  ghost predicate ReportedAt(arrivals: seq<Arrival>, picks: seq<nat>, cameras: seq<Camera>) {
    && Rising(picks, |arrivals|) && |cameras| == |picks|
    && (forall k | 0 <= k < |picks| ::
          && Announces(arrivals, picks[k], cameras[k])
          && forall j: nat, c | j < picks[k] && Announces(arrivals, j, c) ::
               c.ip != cameras[k].ip || c.port != cameras[k].port)
    && forall j: nat, c | j < |arrivals| && Announces(arrivals, j, c) :: ReportedBy(picks, cameras, j, c)
  }

  /** Some camera at that endpoint, found at `j` at the latest, is in the list. */
  predicate ReportedBy(picks: seq<nat>, cameras: seq<Camera>, j: nat, c: Camera)
    requires |cameras| == |picks|
  {
    exists k | 0 <= k < |picks| :: picks[k] <= j && c.ip == cameras[k].ip && c.port == cameras[k].port
  }

  lemma {:induction false} FoundAre(arrivals: seq<Arrival>) returns (picks: seq<nat>)
    ensures ReportedAt(arrivals, picks, Found(arrivals))
  {
    if arrivals == [] {
      picks := [];
    } else {
      var n := |arrivals| - 1;
      var before := FoundAre(arrivals[..n]);
      var c := LastAnnounces(arrivals);
      DistinctStep(arrivals);
      hide FirstCameras, Announces, Distinct, EndpointKnown, ReportedAt;
      if c.None? {
        picks := before;
        ReportedNothing(arrivals, n, before, Found(arrivals[..n]));
      } else if EndpointKnown(Found(arrivals[..n]), c.value) {
        picks := before;
        ReportedAgain(arrivals, n, before, Found(arrivals[..n]), c.value);
      } else {
        picks := before + [n];
        ReportedNew(arrivals, n, before, Found(arrivals[..n]), c.value);
      }
    }
  }

  lemma ReportedNothing(arrivals: seq<Arrival>, n: nat, before: seq<nat>, cameras: seq<Camera>)
    requires |arrivals| == n + 1 && ReportedAt(arrivals[..n], before, cameras)
    requires forall d :: !Announces(arrivals, n, d)
    ensures ReportedAt(arrivals, before, cameras)
  {
    hide Announces, ReportedBy;
    forall j: nat, d | j < n ensures Announces(arrivals, j, d) <==> Announces(arrivals[..n], j, d) {
      AnnouncesEarlier(arrivals, j, d);
    }
  }

  lemma OneCamera(arrivals: seq<Arrival>, j: nat, c: Camera, d: Camera)
    requires j < |arrivals| && Announces(arrivals, j, c) && Announces(arrivals, j, d)
    ensures c == d
  {
  }

  lemma ReportedAgain(arrivals: seq<Arrival>, n: nat, before: seq<nat>, cameras: seq<Camera>, c: Camera)
    requires |arrivals| == n + 1 && ReportedAt(arrivals[..n], before, cameras)
    requires Announces(arrivals, n, c) && EndpointKnown(cameras, c)
    ensures ReportedAt(arrivals, before, cameras)
  {
    hide Announces;
    forall j: nat, d | j < n ensures Announces(arrivals, j, d) <==> Announces(arrivals[..n], j, d) {
      AnnouncesEarlier(arrivals, j, d);
    }
    forall d | Announces(arrivals, n, d) ensures d == c {
      OneCamera(arrivals, n, c, d);
    }
    assert ReportedBy(before, cameras, n, c) by {
      var k :| 0 <= k < |cameras| && SameEndpoint(cameras[k], c);
      assert before[k] <= n;
    }
    hide ReportedBy, EndpointKnown;
  }

  lemma ReportedNew(arrivals: seq<Arrival>, n: nat, before: seq<nat>, cameras: seq<Camera>, c: Camera)
    requires |arrivals| == n + 1 && ReportedAt(arrivals[..n], before, cameras)
    requires Announces(arrivals, n, c) && !EndpointKnown(cameras, c)
    ensures ReportedAt(arrivals, before + [n], cameras + [c])
  {
    hide Announces;
    forall j: nat, d | j < n ensures Announces(arrivals, j, d) <==> Announces(arrivals[..n], j, d) {
      AnnouncesEarlier(arrivals, j, d);
    }
    forall d | Announces(arrivals, n, d) ensures d == c {
      OneCamera(arrivals, n, c, d);
    }
    forall k | 0 <= k < |cameras| ensures c.ip != cameras[k].ip || c.port != cameras[k].port {
      assert !SameEndpoint(cameras[k], c);
    }
    forall j: nat, d | j < |arrivals| && Announces(arrivals, j, d)
      ensures ReportedBy(before + [n], cameras + [c], j, d)
    {
      ReportedByMore(before, cameras, n, c, j, d);
    }
    hide ReportedBy;
  }

  lemma ReportedByMore(picks: seq<nat>, cameras: seq<Camera>, n: nat, c: Camera, j: nat, d: Camera)
    requires |cameras| == |picks|
    requires ReportedBy(picks, cameras, j, d) || (n <= j && d == c)
    ensures ReportedBy(picks + [n], cameras + [c], j, d)
  {
    var ps, cs := picks + [n], cameras + [c];
    if ReportedBy(picks, cameras, j, d) {
      var k :| 0 <= k < |picks| && picks[k] <= j && d.ip == cameras[k].ip && d.port == cameras[k].port;
      assert ps[k] == picks[k] && cs[k] == cameras[k];
    } else {
      assert ps[|picks|] == n && cs[|picks|] == c;
    }
  }

  // ---------- the receive loop ----------

  /** The discovery socket.  What arrives is fixed beforehand; then it is quiet. */
  class Socket {
    const inbox: seq<Arrival>
    var taken: nat

    constructor (inbox: seq<Arrival>)
      ensures this.inbox == inbox && taken == 0
    {
      this.inbox, taken := inbox, 0;
    }

    method RecvFrom() returns (a: Arrival)
      requires taken <= |inbox|
      modifies this
      ensures old(taken) < |inbox| ==> a == inbox[old(taken)] && taken == old(taken) + 1
      ensures old(taken) == |inbox| ==> a == Quiet && taken == old(taken)
    {
      if taken == |inbox| {
        return Quiet;
      }
      a := inbox[taken];
      taken := taken + 1;
    }
  }

  /** The cameras to report after these arrivals. */
  function Found(arrivals: seq<Arrival>): seq<Camera>
  {
    Distinct(FirstCameras(arrivals))
  }

  function QuietCount(arrivals: seq<Arrival>): nat
  {
    if arrivals == [] then 0 else
    QuietCount(arrivals[..|arrivals| - 1]) + if arrivals[|arrivals| - 1].Quiet? then 1 else 0
  }

  /** Receiving is over: ten cameras are known, or every round has had its timeout. */
  predicate Over(arrivals: seq<Arrival>, rounds: nat) {
    |Found(arrivals)| >= MAX_CAMERAS || QuietCount(arrivals) >= rounds
  }

  /** Receiving was not over at any earlier point. */
  predicate NotOverBefore(arrivals: seq<Arrival>, rounds: nat) {
    arrivals == [] ||
    var before := arrivals[..|arrivals| - 1];
    !Over(before, rounds) && NotOverBefore(before, rounds)
  }

  /** It counts exactly the timeouts. */
  lemma {:induction false} QuietCountMeans(arrivals: seq<Arrival>) returns (picks: seq<nat>)
    ensures Rising(picks, |arrivals|) && QuietCount(arrivals) == |picks|
    ensures forall j: nat | j < |arrivals| :: j in picks <==> arrivals[j] == Quiet
  {
    if arrivals == [] {
      picks := [];
    } else {
      var n := |arrivals| - 1;
      var before := QuietCountMeans(arrivals[..n]);
      assert n !in before;
      assert forall j: nat | j < n :: arrivals[..n][j] == arrivals[j];
      picks := before + if arrivals[n].Quiet? then [n] else [];
    }
  }

  /** After `k` arrivals fewer than ten cameras are known and fewer timeouts than rounds have passed. */
  predicate Receiving(arrivals: seq<Arrival>, k: nat, rounds: nat) {
    k <= |arrivals| && |Found(arrivals[..k])| < 10 && QuietCount(arrivals[..k]) < rounds
  }

  lemma {:induction false} NotOverMeans(arrivals: seq<Arrival>, taken: nat, rounds: nat)
    requires taken <= |arrivals| && NotOverBefore(arrivals[..taken], rounds)
    ensures forall k: nat | k < taken :: Receiving(arrivals, k, rounds)
  {
    hide Found, QuietCount;
    if taken > 0 {
      assert arrivals[..taken][..taken - 1] == arrivals[..taken - 1];
      NotOverMeans(arrivals, taken - 1, rounds);
    }
  }

  lemma ArrivalStep(seen: set<Address>, before: seq<Arrival>, a: Arrival, rounds: nat)
    requires SourcesOf(seen, before) && NotOverBefore(before, rounds) && !Over(before, rounds)
    ensures NotOverBefore(before + [a], rounds)
    ensures QuietCount(before + [a]) == QuietCount(before) + if a.Quiet? then 1 else 0
    ensures SourcesOf(if a.Datagram? then seen + {a.source} else seen, before + [a])
    ensures !a.Datagram? ==> Found(before + [a]) == Found(before)
  {
    hide SourcesOf, Over, Distinct, SourceSeen;
    var after := before + [a];
    assert after[..|after| - 1] == before && after[|after| - 1] == a;
    SourcesStep(seen, before, a);
    if !a.Datagram? {
      assert FirstCameras(after) == FirstCameras(before);
    }
  }

  /** The duplicate test of the receive loop. */
  method KnownEndpoint(cameras: seq<Camera>, c: Camera) returns (known: bool)
    ensures known <==> EndpointKnown(cameras, c)
  {
    for i := 0 to |cameras|
      invariant forall j | 0 <= j < i :: !SameEndpoint(cameras[j], c)
    {
      if cameras[i].ip == c.ip && cameras[i].port == c.port {
        assert SameEndpoint(cameras[i], c);
        return true;
      }
    }
    return false;
  }

  ghost predicate SourcesOf(seen: set<Address>, arrivals: seq<Arrival>) {
    forall a :: a in seen <==> SourceSeen(arrivals, a)
  }

  /** One datagram: skip a known source, parse, and keep a camera at a new endpoint. */
  method TakeDatagram(ghost before: seq<Arrival>, payload: bytes, source: Address, seen: set<Address>,
                      cameras: seq<Camera>)
    returns (seen': set<Address>, cameras': seq<Camera>)
    requires SourcesOf(seen, before) && cameras == Found(before)
    ensures SourcesOf(seen', before + [Datagram(payload, source)])
    ensures cameras' == Found(before + [Datagram(payload, source)])
    ensures |cameras'| <= |cameras| + 1
  {
    ghost var after := before + [Datagram(payload, source)];
    assert after[..|before|] == before;
    DistinctStep(after);
    SourcesStep(seen, before, Datagram(payload, source));
    seen', cameras' := seen + {source}, cameras;
    if source in seen {
      assert seen' == seen;
      return;
    }
    var camera := ParseDiscoveryResponse(Received(payload), source);
    if camera.Some? {
      var known := KnownEndpoint(cameras, camera.value);
      if !known {
        cameras' := cameras + [camera.value];
      }
    }
  }

  lemma SourcesStep(seen: set<Address>, before: seq<Arrival>, a: Arrival)
    requires SourcesOf(seen, before)
    ensures SourcesOf(if a.Datagram? then seen + {a.source} else seen, before + [a])
  {
    forall s ensures SourceSeen(before + [a], s) <==> SourceSeen(before, s) || From(a, s) {
      if SourceSeen(before, s) {
        var i :| 0 <= i < |before| && From(before[i], s);
        assert From((before + [a])[i], s);
      }
      if From(a, s) {
        assert From((before + [a])[|before|], s);
      }
      if SourceSeen(before + [a], s) {
        var i :| 0 <= i < |before + [a]| && From((before + [a])[i], s);
        assert i < |before| ==> From(before[i], s);
      }
    }
  }

  /**
   `discover_cameras`: up to `retryCount` rounds of receiving, each until it is quiet or ten
   cameras are known.  It takes arrivals until receiving is over, and not one more.
   */
  method DiscoverCameras(socket: Socket, retryCount: nat) returns (cameras: seq<Camera>, ghost picks: seq<nat>)
    requires socket.taken == 0
    modifies socket
    ensures socket.taken <= |socket.inbox|
    ensures ReportedAt(socket.inbox[..socket.taken], picks, cameras)
    ensures socket.taken == |socket.inbox| || |cameras| == 10 || QuietCount(socket.inbox[..socket.taken]) >= retryCount
    ensures forall k: nat | k < socket.taken :: Receiving(socket.inbox, k, retryCount)
    ensures cameras == Found(socket.inbox[..socket.taken]) && |cameras| <= MAX_CAMERAS
    ensures socket.taken == |socket.inbox| || Over(socket.inbox[..socket.taken], retryCount)
    ensures NotOverBefore(socket.inbox[..socket.taken], retryCount)
  {
    hide Found, SourcesOf, NotOverBefore, QuietCount, ReportedAt, Receiving;
    cameras := [];
    var seen: set<Address> := {};
    ghost var got: seq<Arrival> := [];
    NothingYet(retryCount);
    for attempt := 0 to retryCount
      invariant socket.taken == |got| <= |socket.inbox| && got == socket.inbox[..socket.taken]
      invariant SourcesOf(seen, got) && cameras == Found(got) && |cameras| <= MAX_CAMERAS
      invariant QuietCount(got) <= attempt && NotOverBefore(got, retryCount)
      invariant socket.taken == |socket.inbox| || Over(got, attempt)
    {
      while |cameras| < MAX_CAMERAS
        invariant socket.taken == |got| <= |socket.inbox| && got == socket.inbox[..socket.taken]
        invariant SourcesOf(seen, got) && cameras == Found(got) && |cameras| <= MAX_CAMERAS
        invariant QuietCount(got) <= attempt && NotOverBefore(got, retryCount)
        invariant socket.taken == |socket.inbox| || Over(got, attempt)
        decreases |socket.inbox| - socket.taken
      {
        ghost var before := got;
        var a := socket.RecvFrom();
        if socket.taken > |got| {
          ArrivalStep(seen, got, a, retryCount);
          got := got + [a];
        }
        match a {
          case Datagram(payload, source) => seen, cameras := TakeDatagram(before, payload, source, seen, cameras);
          case Quiet => break;
          case Fault =>
        }
      }
    }
    NotOverMeans(socket.inbox, socket.taken, retryCount);
    picks := FoundAre(got);
  }

  lemma NothingYet(rounds: nat)
    ensures SourcesOf({}, []) && Found([]) == [] && QuietCount([]) == 0 && NotOverBefore([], rounds)
  {
  }
}
