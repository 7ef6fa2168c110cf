/**
 * WS-Discovery (April 2005) as discovery.go uses it: a Probe for network
 * video transmitters is multicast from one local IPv4 address, and every
 * ProbeMatch that arrives before the deadline and relates to the probe's
 * message ID (WS-Addressing 2004/08, RelatesTo) becomes a Device.
 *
 * The UUID generator, the network interface, the UDP socket and the XML
 * decoder are inputs: a UUID string, the interface's addresses, the results
 * of the socket calls, and a decoding function.
 */
module Discovery {
  import opened Wrappers
  import opened Errors
  import opened Text
  import opened Normalize
  import opened Strconv
  import opened Utf8
  import opened Values
  import opened Model

  // ---------------------------------------------------------------------------
  // The probe (discovery.go:50-74)
  // ---------------------------------------------------------------------------

  /** The probe's message ID: "uuid:" and the UUID in its text form (discovery.go:51). */
  function RequestId(uuid: string): string {
    "uuid:" + uuid
  }

  /** The probe template up to the message ID, leading whitespace included. */
  const ProbeHead: string :=
    "\t\t" + "\n\t\t<?xml version=\"1.0\" encoding=\"UTF-8\"?>"
    + "\n\t\t<e:Envelope"
    + "\n\t\t    xmlns:e=\"http://www.w3.org/2003/05/soap-envelope\""
    + "\n\t\t    xmlns:w=\"http://schemas.xmlsoap.org/ws/2004/08/addressing\""
    + "\n\t\t    xmlns:d=\"http://schemas.xmlsoap.org/ws/2005/04/discovery\""
    + "\n\t\t    xmlns:dn=\"http://www.onvif.org/ver10/network/wsdl\">"
    + "\n\t\t    <e:Header>"
    + "\n\t\t        <w:MessageID>"

  /** The probe template after the message ID: a Probe for dn:NetworkVideoTransmitter. */
  const ProbeTail: string :=
    "</w:MessageID>"
    + "\n\t\t        <w:To e:mustUnderstand=\"true\">urn:schemas-xmlsoap-org:ws:2005:04:discovery</w:To>"
    + "\n\t\t        <w:Action a:mustUnderstand=\"true\">http://schemas.xmlsoap.org/ws/2005/04/discovery/Probe"
    + "\n\t\t        </w:Action>"
    + "\n\t\t    </e:Header>"
    + "\n\t\t    <e:Body>"
    + "\n\t\t        <d:Probe>"
    + "\n\t\t            <d:Types>dn:NetworkVideoTransmitter</d:Types>"
    + "\n\t\t        </d:Probe>"
    + "\n\t\t    </e:Body>"
    + "\n\t\t</e:Envelope>"

  /** The probe sent: the template around the message ID, cleaned as every SOAP request is (discovery.go:52-74). */
  function ProbeMessage(uuid: string): string {
    Clean(ProbeHead + RequestId(uuid) + ProbeTail)
  }

  /** A message ID built from a UUID without whitespace has none either. */
  lemma RequestIdNoSpace(uuid: string)
    requires NoSpace(uuid)
    ensures NoSpace(RequestId(uuid)) && |RequestId(uuid)| > 0
  {
    var id := RequestId(uuid);
    forall i | 0 <= i < |id|
      ensures !IsSpace(id[i])
    {
      if i >= 5 {
        assert id[i] == uuid[i - 5];
      }
    }
  }

  /**
   * The message ID sits verbatim in the probe, between the cleaned template
   * parts, which do not depend on it: the ID compared against RelatesTo is
   * the one the probe carries.
   */
  lemma ProbeCarriesRequestId(uuid: string)
    requires NoSpace(uuid)
    ensures ProbeMessage(uuid) == Clean(ProbeHead) + RequestId(uuid) + Clean(ProbeTail)
  {
    var id := RequestId(uuid);
    assert ProbeHead[|ProbeHead| - 1] == '>';
    assert ProbeTail[0] == '<';
    RequestIdNoSpace(uuid);
    CleanKeepsSpaceless(id);
    CleanAround(ProbeHead, id, ProbeTail);
  }

  /**
   * The template opens with two tabs and a newline before the XML
   * declaration, and cleaning turns that run into one space: the probe does
   * not start with the declaration.
   */
  lemma ProbeStartsWithSpace(uuid: string)
    ensures |ProbeMessage(uuid)| > 0 && ProbeMessage(uuid)[0] == ' '
  {
    var raw := ProbeHead + RequestId(uuid) + ProbeTail;
    assert ProbeHead[0] == '\t';
    assert raw[0] == ProbeHead[0];
    assert CloseTagGaps(raw)[0] == '\t';
  }

  // ---------------------------------------------------------------------------
  // Reading one reply (discovery.go:138-183)
  // ---------------------------------------------------------------------------

  const RelatesToPath: string := "Envelope.Header.RelatesTo"
  const AddressPath: string := "Envelope.Body.ProbeMatches.ProbeMatch.EndpointReference.Address"
  const ScopesPath: string := "Envelope.Body.ProbeMatches.ProbeMatch.Scopes"
  const XAddrsPath: string := "Envelope.Body.ProbeMatches.ProbeMatch.XAddrs"
  const UrnPrefix: string := "urn:uuid:"

  /** The ONVIF scope that carries a device's name. */
  const NamePrefix: string := "onvif://www.onvif.org/name/"

  /** The name a name scope carries: the prefix removed, then every `_` turned into a space. */
  function ScopeName(scope: string): string {
    ReplaceChar(ReplaceFirst(scope, NamePrefix, ""), '_', ' ')
  }

  /** The name of the first name scope in the list, or "" when there is none. */
  function ScopesName(scopes: seq<string>): string {
    if scopes == [] then ""
    else if HasPrefix(scopes[0], NamePrefix) then ScopeName(scopes[0])
    else ScopesName(scopes[1..])
  }

  /**
   * The device name is taken from the first scope that starts with the name
   * prefix, with the prefix cut off and underscores turned into spaces; with
   * no such scope it is empty. Either way it holds no underscore.
   */
  lemma {:induction false} ScopesNameFirst(scopes: seq<string>)
    ensures (forall k | 0 <= k < |scopes| :: !HasPrefix(scopes[k], NamePrefix)) ==> ScopesName(scopes) == ""
    ensures forall k | 0 <= k < |scopes| && HasPrefix(scopes[k], NamePrefix)
                       && (forall j | 0 <= j < k :: !HasPrefix(scopes[j], NamePrefix)) ::
              ScopesName(scopes) == ReplaceChar(scopes[k][|NamePrefix|..], '_', ' ')
    ensures '_' !in ScopesName(scopes)
    decreases |scopes|
  {
    if scopes != [] {
      if HasPrefix(scopes[0], NamePrefix) {
        ReplaceFirstAtStart(scopes[0], NamePrefix);
        forall k | 0 <= k < |scopes| && HasPrefix(scopes[k], NamePrefix)
                   && (forall j | 0 <= j < k :: !HasPrefix(scopes[j], NamePrefix))
          ensures k == 0
        {
        }
      } else {
        ScopesNameFirst(scopes[1..]);
        forall k | 0 <= k < |scopes| && HasPrefix(scopes[k], NamePrefix)
                   && (forall j | 0 <= j < k :: !HasPrefix(scopes[j], NamePrefix))
          ensures ScopesName(scopes) == ReplaceChar(scopes[k][|NamePrefix|..], '_', ' ')
        {
          assert k > 0;
          assert scopes[1..][k - 1] == scopes[k];
          forall j | 0 <= j < k - 1
            ensures !HasPrefix(scopes[1..][j], NamePrefix)
          {
            assert scopes[1..][j] == scopes[j + 1];
          }
        }
        forall k | 0 <= k < |scopes| - 1
          ensures scopes[1..][k] == scopes[k + 1]
        {
        }
      }
    }
  }

  /** The find-first loop over the scopes, leaving it at the first name scope (discovery.go:160-168). */
  method FindDeviceName(scopes: seq<string>) returns (name: string)
    ensures name == ScopesName(scopes)
  {
    name := "";
    var i := 0;
    while i < |scopes|
      invariant 0 <= i <= |scopes|
      invariant name == "" && ScopesName(scopes[i..]) == ScopesName(scopes)
    {
      assert scopes[i..][1..] == scopes[i + 1..];
      if HasPrefix(scopes[i], NamePrefix) {
        name := ReplaceFirst(scopes[i], NamePrefix, "");
        name := ReplaceChar(name, '_', ' ');
        break;
      }
      i := i + 1;
    }
  }

  /** What readDiscoveryResponse returns: a device, and an error that leaves the device empty. */
  datatype Reply = Reply(device: Device, err: Option<Error>)

  /**
   * readDiscoveryResponse on a receive buffer: a buffer that does not decode
   * is an error, a reply to another message is errWrongDiscoveryResponse,
   * and otherwise the device's ID, name and first service address are read
   * from the ProbeMatch.
   */
  function DiscoveryReply(messageId: string, buffer: Bytes, parseXml: Bytes -> Result<Document, string>): Reply {
    match parseXml(buffer)
    case Failure(e) => Reply(EmptyDevice, Some(XmlError(e)))
    case Success(doc) =>
      if ValueForPathString(doc, RelatesToPath) != messageId then Reply(EmptyDevice, Some(WrongDiscoveryResponse))
      else
        var id := ReplaceFirst(ValueForPathString(doc, AddressPath), UrnPrefix, "");
        var name := ScopesName(Split(ValueForPathString(doc, ScopesPath), ' '));
        var xaddrs := Split(ValueForPathString(doc, XAddrsPath), ' ');
        if |xaddrs| == 0 then
          assert false; Reply(EmptyDevice, Some(NoXAddr))
        else
          Reply(EmptyDevice.(id := id, name := name, xaddr := xaddrs[0]), None)
  }

  /** readDiscoveryResponse (discovery.go:139-183). */
  method ReadDiscoveryResponse(messageId: string, buffer: Bytes, parseXml: Bytes -> Result<Document, string>)
    returns (device: Device, err: Option<Error>)
    ensures Reply(device, err) == DiscoveryReply(messageId, buffer, parseXml)
  {
    device := EmptyDevice;
    var parsed := parseXml(buffer);
    if parsed.Failure? {
      return device, Some(XmlError(parsed.error));
    }
    var doc := parsed.value;
    var responseMessageId := ValueForPathString(doc, RelatesToPath);
    if responseMessageId != messageId {
      return device, Some(WrongDiscoveryResponse);
    }
    var deviceId := ValueForPathString(doc, AddressPath);
    deviceId := ReplaceFirst(deviceId, UrnPrefix, "");
    var scopes := ValueForPathString(doc, ScopesPath);
    var deviceName := FindDeviceName(Split(scopes, ' '));
    var xAddrs := ValueForPathString(doc, XAddrsPath);
    var listXAddr := Split(xAddrs, ' ');
    device := device.(id := deviceId, name := deviceName, xaddr := listXAddr[0]);
    return device, None;
  }

  /**
   * The error cases of a reply: a decoding error is passed on, a reply is
   * rejected as unrelated exactly when its RelatesTo differs from the probe's
   * message ID, an error always comes with the empty device, and the
   * "no xAddr" error never arises.
   */
  lemma DiscoveryReplyErrors(messageId: string, buffer: Bytes, parseXml: Bytes -> Result<Document, string>)
    ensures var r := DiscoveryReply(messageId, buffer, parseXml);
      && (parseXml(buffer).Failure? ==> r == Reply(EmptyDevice, Some(XmlError(parseXml(buffer).error))))
      && (parseXml(buffer).Success? ==>
            ((r.err == Some(WrongDiscoveryResponse))
               <==> (ValueForPathString(parseXml(buffer).value, RelatesToPath) != messageId))
            && r.err != Some(NoXAddr))
      && (r.err.Some? ==> r.device == EmptyDevice)
      && (r.err == None ==> ValueForPathString(parseXml(buffer).value, RelatesToPath) == messageId)
  {
  }

  /**
   * The device read from a related reply: the address with its first
   * "urn:uuid:" removed, wherever it occurs (so an address starting with it
   * loses exactly that prefix, and one without it is kept), the name of the first name scope,
   * and as service address the text of XAddrs up to its first space, which
   * is "" when XAddrs is empty; the credentials stay empty.
   */
  lemma DiscoveryReplyDevice(messageId: string, buffer: Bytes, parseXml: Bytes -> Result<Document, string>)
    requires parseXml(buffer).Success?
    requires ValueForPathString(parseXml(buffer).value, RelatesToPath) == messageId
    ensures var doc := parseXml(buffer).value;
      var d := DiscoveryReply(messageId, buffer, parseXml).device;
      var address := ValueForPathString(doc, AddressPath);
      var xaddrs := ValueForPathString(doc, XAddrsPath);
      && DiscoveryReply(messageId, buffer, parseXml).err == None
      && d.id == ReplaceFirst(address, UrnPrefix, "")
      && (HasPrefix(address, UrnPrefix) ==> d.id == address[|UrnPrefix|..])
      && (!Contains(address, UrnPrefix) ==> d.id == address)
      && d.name == ScopesName(Split(ValueForPathString(doc, ScopesPath), ' '))
      && HasPrefix(xaddrs, d.xaddr) && ' ' !in d.xaddr
      && (|d.xaddr| < |xaddrs| ==> xaddrs[|d.xaddr|] == ' ')
      && (xaddrs == "" ==> d.xaddr == "")
      && d.user == "" && d.password == ""
  {
    var doc := parseXml(buffer).value;
    var address := ValueForPathString(doc, AddressPath);
    if HasPrefix(address, UrnPrefix) {
      ReplaceFirstAtStart(address, UrnPrefix);
    }
    SplitFirst(ValueForPathString(doc, XAddrsPath), ' ');
  }

  // ---------------------------------------------------------------------------
  // Listening (discovery.go:106-135)
  // ---------------------------------------------------------------------------

  /** The receive buffer: 10 KiB, made afresh for every read. */
  const BufferSize: nat := 10 * 1024

  /**
   * The buffer after a read: the datagram, cut to the buffer's size, then
   * the zero bytes the read did not overwrite. The whole buffer is decoded.
   */
  function Buffer(datagram: Bytes): (b: Bytes)
    ensures |b| == BufferSize
    ensures |datagram| <= BufferSize ==> b[..|datagram|] == datagram
    ensures forall i | |datagram| <= i < BufferSize :: b[i] == 0
    ensures |datagram| >= BufferSize ==> b == datagram[..BufferSize]
  {
    if |datagram| >= BufferSize then datagram[..BufferSize]
    else datagram + Zeros(BufferSize - |datagram|)
  }

  /** n zero bytes. */
  function Zeros(n: nat): (r: Bytes)
    ensures |r| == n && forall i | 0 <= i < n :: r[i] == 0
  {
    if n == 0 then [] else [0] + Zeros(n - 1)
  }

  /** What one ReadFromUDP call gives: a datagram, or an error (the deadline passing is a timeout). */
  datatype ReadResult = Datagram(bytes: Bytes) | ReadFailed(err: Error)

  /** What the listen loop ends with: the devices in arrival order, and an error if it aborted. */
  datatype Outcome = Outcome(devices: seq<Device>, err: Option<Error>)

  /**
   * The listen loop on a sequence of reads: a timeout ends it without error,
   * another read error or a reply error other than errWrongDiscoveryResponse
   * aborts it with that error, and every other reply, related or not, adds
   * its device. Running out of reads stands for the deadline being reached.
   */
  function Listen(messageId: string, received: seq<ReadResult>, parseXml: Bytes -> Result<Document, string>): Outcome
    decreases |received|
  {
    if received == [] then Outcome([], None)
    else match received[0]
      case ReadFailed(e) => if e.IsTimeout() then Outcome([], None) else Outcome([], Some(e))
      case Datagram(bytes) =>
        var reply := DiscoveryReply(messageId, Buffer(bytes), parseXml);
        if reply.err.Some? && reply.err.value != WrongDiscoveryResponse then Outcome([], reply.err)
        else
          var rest := Listen(messageId, received[1..], parseXml);
          Outcome([reply.device] + rest.devices, rest.err)
  }

  /** A reply that does not stop the loop: decoded and related, or unrelated. */
  predicate Accepted(messageId: string, r: ReadResult, parseXml: Bytes -> Result<Document, string>) {
    r.Datagram? &&
    var err := DiscoveryReply(messageId, Buffer(r.bytes), parseXml).err;
    err.None? || err == Some(WrongDiscoveryResponse)
  }

  /**
   * The devices are the replies to the first received, one per read and in
   * arrival order (an unrelated reply contributing the empty device); those
   * received were all accepted, and the read after them, if any, is the one
   * that ended the loop: it carries the loop's error, or is a timeout.
   */
  lemma {:induction false} ListenOrder(messageId: string, received: seq<ReadResult>, parseXml: Bytes -> Result<Document, string>)
    ensures var o := Listen(messageId, received, parseXml);
      && |o.devices| <= |received|
      && (forall k | 0 <= k < |o.devices| ::
            Accepted(messageId, received[k], parseXml)
            && o.devices[k] == DiscoveryReply(messageId, Buffer(received[k].bytes), parseXml).device)
      && (|o.devices| == |received| ==> o.err == None)
      && (|o.devices| < |received| ==> !Accepted(messageId, received[|o.devices|], parseXml))
    decreases |received|
  {
    if received != [] && Accepted(messageId, received[0], parseXml) {
      ListenOrder(messageId, received[1..], parseXml);
      ListenAccepted(messageId, received, parseXml);
      var o := Listen(messageId, received, parseXml);
      var rest := Listen(messageId, received[1..], parseXml);
      forall k | 1 <= k < |o.devices|
        ensures received[k] == received[1..][k - 1] && o.devices[k] == rest.devices[k - 1]
      {
      }
    }
  }

  /** An accepted first read contributes its reply's device ahead of the rest. */
  lemma ListenAccepted(messageId: string, received: seq<ReadResult>, parseXml: Bytes -> Result<Document, string>)
    requires received != [] && Accepted(messageId, received[0], parseXml)
    ensures var o, rest := Listen(messageId, received, parseXml), Listen(messageId, received[1..], parseXml);
      o.devices == [DiscoveryReply(messageId, Buffer(received[0].bytes), parseXml).device] + rest.devices
      && o.err == rest.err
  {
  }

  /**
   * How the loop ends: without error exactly when it stopped at a timeout or
   * ran out of received; otherwise with the stopping read's error, or the
   * decoding error of its datagram.
   */
  lemma {:induction false} ListenError(messageId: string, received: seq<ReadResult>, parseXml: Bytes -> Result<Document, string>)
    ensures var o := Listen(messageId, received, parseXml);
      var n := |o.devices|;
      n <= |received|
      && (o.err == None <==> n == |received| || (received[n].ReadFailed? && received[n].err.IsTimeout()))
      && (n < |received| && received[n].ReadFailed? && !received[n].err.IsTimeout() ==> o.err == Some(received[n].err))
      && (n < |received| && received[n].Datagram? ==>
            o.err == DiscoveryReply(messageId, Buffer(received[n].bytes), parseXml).err)
    decreases |received|
  {
    ListenOrder(messageId, received, parseXml);
    if received != [] && Accepted(messageId, received[0], parseXml) {
      ListenError(messageId, received[1..], parseXml);
      var o := Listen(messageId, received, parseXml);
      var rest := Listen(messageId, received[1..], parseXml);
      assert |o.devices| == 1 + |rest.devices|;
      if |rest.devices| < |received| - 1 {
        assert received[|o.devices|] == received[1..][|rest.devices|];
      }
    }
  }

  /**
   * A datagram that does not decode stops the loop with the decoder's error:
   * when the reads before it were all accepted, the loop ends there with
   * their devices and that error.
   */
  lemma ListenStopsAtUndecodable(messageId: string, received: seq<ReadResult>, parseXml: Bytes -> Result<Document, string>, k: nat)
    requires k < |received| && received[k].Datagram? && parseXml(Buffer(received[k].bytes)).Failure?
    requires forall j | 0 <= j < k :: Accepted(messageId, received[j], parseXml)
    ensures var o := Listen(messageId, received, parseXml);
      |o.devices| == k && o.err == Some(XmlError(parseXml(Buffer(received[k].bytes)).error))
  {
    ListenOrder(messageId, received, parseXml);
    ListenError(messageId, received, parseXml);
    assert !Accepted(messageId, received[k], parseXml);
  }

  /** One step of the loop at read i: how Listen on the reads from i on unfolds. */
  lemma ListenAt(messageId: string, received: seq<ReadResult>, i: nat, parseXml: Bytes -> Result<Document, string>)
    requires i < |received|
    ensures var here, rest := Listen(messageId, received[i..], parseXml), Listen(messageId, received[i + 1..], parseXml);
      && (received[i].ReadFailed? ==>
            here == if received[i].err.IsTimeout() then Outcome([], None) else Outcome([], Some(received[i].err)))
      && (received[i].Datagram? ==>
            var reply := DiscoveryReply(messageId, Buffer(received[i].bytes), parseXml);
            here == if reply.err.Some? && reply.err.value != WrongDiscoveryResponse then Outcome([], reply.err)
                    else Outcome([reply.device] + rest.devices, rest.err))
  {
    assert received[i..][0] == received[i] && received[i..][1..] == received[i + 1..];
  }

  /** What the UDP socket calls return; the deadline shows as the timeout among the received. */
  datatype Udp = Udp(
    resolve: string -> Result<string, Error>,  // net.ResolveUDPAddr("udp4", ·)
    listen: string -> Option<Error>,           // net.ListenUDP on the local address
    setDeadline: Option<Error>,                // conn.SetDeadline(now + duration)
    write: (Bytes, string) -> Option<Error>,   // conn.WriteToUDP(probe, multicast address)
    received: seq<ReadResult>)                    // the successive conn.ReadFromUDP calls

  /** The WS-Discovery multicast group and port. */
  const MulticastAddress: string := "239.255.255.250:3702"

  /**
   * discoverDevices: the probe built from the UUID is sent, and its message ID
   * is the one replies must answer.
   */
  function Discover(ipAddr: string, uuid: string, udp: Udp, parseXml: Bytes -> Result<Document, string>): Outcome {
    Exchange(ipAddr, Encode(ProbeMessage(uuid)), RequestId(uuid), udp, parseXml)
  }

  /**
   * The socket part of discoverDevices: the first failing set-up step is the
   * error, with no devices; otherwise the probe is written to the multicast
   * address and the outcome is that of the listen loop.
   */
  function Exchange(ipAddr: string, probe: Bytes, requestId: string, udp: Udp, parseXml: Bytes -> Result<Document, string>): Outcome {
    match udp.resolve(ipAddr + ":0")
    case Failure(e) => Outcome([], Some(e))
    case Success(local) =>
      match udp.resolve(MulticastAddress)
      case Failure(e) => Outcome([], Some(e))
      case Success(multicast) =>
        if udp.listen(local).Some? then Outcome([], udp.listen(local))
        else if udp.setDeadline.Some? then Outcome([], udp.setDeadline)
        else if udp.write(probe, multicast).Some? then Outcome([], udp.write(probe, multicast))
        else Listen(requestId, udp.received, parseXml)
  }

  /** discoverDevices (discovery.go:48-136): the probe and its message ID, then the exchange. */
  method DiscoverDevices(ipAddr: string, uuid: string, udp: Udp, parseXml: Bytes -> Result<Document, string>)
    returns (devices: seq<Device>, err: Option<Error>)
    ensures Outcome(devices, err) == Discover(ipAddr, uuid, udp, parseXml)
  {
    var requestId := RequestId(uuid);
    var request := ProbeMessage(uuid);
    devices, err := SendProbe(ipAddr, Encode(request), requestId, udp, parseXml);
  }

  /** The socket set-up of discoverDevices with its early returns (discovery.go:75-104), then the read loop. */
  method SendProbe(ipAddr: string, probe: Bytes, requestId: string, udp: Udp, parseXml: Bytes -> Result<Document, string>)
    returns (devices: seq<Device>, err: Option<Error>)
    ensures Outcome(devices, err) == Exchange(ipAddr, probe, requestId, udp, parseXml)
  {
    var localAddress := udp.resolve(ipAddr + ":0");
    if localAddress.Failure? {
      return [], Some(localAddress.error);
    }
    var multicastAddress := udp.resolve(MulticastAddress);
    if multicastAddress.Failure? {
      return [], Some(multicastAddress.error);
    }
    err := udp.listen(localAddress.value);
    if err.Some? {
      return [], err;
    }
    err := udp.setDeadline;
    if err.Some? {
      return [], err;
    }
    err := udp.write(probe, multicastAddress.value);
    if err.Some? {
      return [], err;
    }
    devices, err := ReadLoop(requestId, udp.received, parseXml);
  }

  /** The read loop of discoverDevices (discovery.go:106-135), over the successive reads. */
  method ReadLoop(requestId: string, received: seq<ReadResult>, parseXml: Bytes -> Result<Document, string>)
    returns (devices: seq<Device>, err: Option<Error>)
    ensures Outcome(devices, err) == Listen(requestId, received, parseXml)
  {
    devices := [];
    var i := 0;
    while i < |received|
      invariant 0 <= i <= |received|
      invariant var rest := Listen(requestId, received[i..], parseXml);
        Listen(requestId, received, parseXml) == Outcome(devices + rest.devices, rest.err)
    {
      ListenAt(requestId, received, i, parseXml);
      assert devices + [] == devices;
      if received[i].ReadFailed? {
        var e := received[i].err;
        if e.IsTimeout() {
          break;
        }
        return devices, Some(e);
      }
      var buffer := Buffer(received[i].bytes);
      var device, replyErr := ReadDiscoveryResponse(requestId, buffer, parseXml);
      if replyErr.Some? && replyErr.value != WrongDiscoveryResponse {
        return devices, replyErr;
      }
      ghost var rest := Listen(requestId, received[i + 1..], parseXml);
      assert devices + ([device] + rest.devices) == (devices + [device]) + rest.devices;
      devices := devices + [device];
      i := i + 1;
    }
    return devices, None;
  }

  // ---------------------------------------------------------------------------
  // Choosing the local address (discovery.go:17-46)
  // ---------------------------------------------------------------------------

  /** A net.IP: 4 or 16 bytes. */
  type IP = seq<byte>

  /** An interface address: an IP network, or an address of another kind. */
  datatype Addr = IPNet(ip: IP) | OtherAddr

  /** net.IP.To4: the four bytes of an IPv4 address, also one written in the 16-byte IPv4-mapped form. */
  function To4(ip: IP): (r: Option<IP>)
    ensures r.Some? ==> |r.value| == 4
  {
    if |ip| == 4 then Some(ip)
    else if |ip| == 16 && (forall i | 0 <= i < 10 :: ip[i] == 0) && ip[10] == 0xff && ip[11] == 0xff then Some(ip[12..16])
    else None
  }

  /** net.IPv6loopback, ::1. */
  const IPv6Loopback: IP := Zeros(15) + [1]

  /** net.IP.IsLoopback: 127.0.0.0/8 for IPv4, ::1 otherwise. */
  predicate IsLoopback(ip: IP) {
    match To4(ip)
    case Some(v) => v[0] == 127
    case None => ip == IPv6Loopback
  }

  /** An address the selection keeps: an IP network whose address is IPv4 and not loopback. */
  predicate Usable(a: Addr) {
    a.IPNet? && !IsLoopback(a.ip) && To4(a.ip).Some?
  }

  /** The last usable address of the list, if any. */
  function LastIPv4(addrs: seq<Addr>): (r: Option<IP>)
    ensures r.Some? ==> To4(r.value).Some? && !IsLoopback(r.value)
  {
    if addrs == [] then None
    else if Usable(addrs[|addrs| - 1]) then Some(addrs[|addrs| - 1].ip)
    else LastIPv4(addrs[..|addrs| - 1])
  }

  /** The selection finds an address exactly when some address is usable, and then it is the last usable one. */
  lemma {:induction false} LastIPv4Meaning(addrs: seq<Addr>)
    ensures LastIPv4(addrs).Some? <==> exists k | 0 <= k < |addrs| :: Usable(addrs[k])
    ensures LastIPv4(addrs).Some? ==>
      exists k | 0 <= k < |addrs| :: Usable(addrs[k]) && addrs[k].ip == LastIPv4(addrs).value
        && forall j | k < j < |addrs| :: !Usable(addrs[j])
    decreases |addrs|
  {
    if addrs != [] {
      var n := |addrs| - 1;
      if !Usable(addrs[n]) {
        var front := addrs[..n];
        LastIPv4Meaning(front);
        if LastIPv4(addrs).Some? {
          var k :| 0 <= k < |front| && Usable(front[k]) && front[k].ip == LastIPv4(front).value
            && forall j | k < j < |front| :: !Usable(front[j]);
          assert addrs[k] == front[k];
        } else {
          forall k | 0 <= k < |addrs|
            ensures !Usable(addrs[k])
          {
            if k < n {
              assert addrs[k] == front[k];
            }
          }
        }
      }
    }
  }

  /** The loop over the interface's addresses, overwriting the choice at every usable one (discovery.go:26-36). */
  method PickIPv4(addrs: seq<Addr>) returns (ip: Option<IP>)
    ensures ip == LastIPv4(addrs)
  {
    ip := None;
    for i := 0 to |addrs|
      invariant ip == LastIPv4(addrs[..i])
    {
      assert addrs[..i + 1][..i] == addrs[..i];
      match addrs[i]
      case IPNet(v) =>
        if !IsLoopback(v) {
          if To4(v).Some? {
            ip := Some(v);
          }
        }
      case OtherAddr =>
    }
    assert addrs[..|addrs|] == addrs;
  }

  /** net.IP.String for an IPv4 address: the four bytes in decimal, separated by dots. */
  function IPv4String(ip: IP): string
    requires To4(ip).Some?
  {
    var v := To4(ip).value;
    Itoa(v[0] as int) + "." + Itoa(v[1] as int) + "." + Itoa(v[2] as int) + "." + Itoa(v[3] as int)
  }

  /** The dotted form received back: split at the dots, its four pieces parse to the four bytes. */
  lemma IPv4StringReadsBack(ip: IP)
    requires To4(ip).Some?
    ensures var pieces := Split(IPv4String(ip), '.');
      |pieces| == 4 && forall k | 0 <= k < 4 :: Atoi(pieces[k]) == Parsed(To4(ip).value[k] as int, None)
  {
    var v := To4(ip).value;
    var parts := [Itoa(v[0] as int), Itoa(v[1] as int), Itoa(v[2] as int), Itoa(v[3] as int)];
    forall k | 0 <= k < 4
      ensures '.' !in parts[k] && Atoi(parts[k]) == Parsed(v[k] as int, None)
    {
      var d := parts[k];
      assert d == Digits(v[k] as int);
      AtoiItoa(v[k] as int);
    }
    assert Join(parts, '.') == IPv4String(ip) by {
      assert Join(parts[3..], '.') == parts[3];
      assert Join(parts[2..], '.') == parts[2] + "." + parts[3];
      assert Join(parts[1..], '.') == parts[1] + "." + (parts[2] + "." + parts[3]);
    }
    JoinSplit(parts, '.');
  }

  /**
   * StartDiscovery: an interface lookup failure is returned with no devices;
   * with no usable address the result is empty and, as in the code, carries
   * no error; otherwise the devices found from the dotted form of the last
   * usable address are returned, and the discovery error is dropped.
   */
  method StartDiscovery(lookup: Result<seq<Addr>, Error>, uuid: string, udp: Udp,
                        parseXml: Bytes -> Result<Document, string>)
    returns (devices: seq<Device>, err: Option<Error>)
    ensures lookup.Failure? ==> devices == [] && err == Some(lookup.error)
    ensures lookup.Success? ==> err == None
    ensures lookup.Success? && LastIPv4(lookup.value).None? ==> devices == []
    ensures lookup.Success? && LastIPv4(lookup.value).Some? ==>
      devices == Discover(IPv4String(LastIPv4(lookup.value).value), uuid, udp, parseXml).devices
  {
    if lookup.Failure? {
      return [], Some(lookup.error);
    }
    var ip := PickIPv4(lookup.value);
    if ip.None? {
      return [], None;
    }
    var discoveryErr;
    devices, discoveryErr := DiscoverDevices(IPv4String(ip.value), uuid, udp, parseXml);
    return devices, None;
  }
}
