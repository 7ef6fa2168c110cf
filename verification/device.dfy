/**
 * The request bodies the device service of device.go builds from its
 * arguments, and the normalisation of the capability keys that
 * GetCapabilities reads from the answer. Sending the requests is the SOAP
 * client's part.
 */
module DeviceService {
  import opened Wrappers
  import opened Errors
  import opened Text
  import opened Strconv
  import opened Values
  import opened Utils

  // ---------------------------------------------------------------------------
  // Pieces of the body templates
  // ---------------------------------------------------------------------------

  /** n tab characters. */
  function Tabs(n: nat): (r: string)
    ensures |r| == n && forall i | 0 <= i < n :: r[i] == '\t'
  {
    if n == 0 then "" else "\t" + Tabs(n - 1)
  }

  /** A line break followed by n tabs, as in the templates' layout. */
  function Line(n: nat): string {
    "\n" + Tabs(n)
  }

  /** An element without attributes holding a text. */
  function Element(name: string, text: string): string {
    "<" + name + ">" + text + "</" + name + ">"
  }

  /** The namespace of the ONVIF schema types. */
  const SchemaNamespace: string := "http://www.onvif.org/ver10/schema"

  /** The namespace of the device service. */
  const DeviceNamespace: string := "http://www.onvif.org/ver10/device/wsdl"

  /** A default namespace declaration and the end of the start tag it sits in. */
  function XmlnsClose(ns: string): string {
    " xmlns=\"" + ns + "\">"
  }

  /** The start tag of an element of the ONVIF schema namespace. */
  function SchemaOpen(name: string): string {
    "<" + name + XmlnsClose(SchemaNamespace)
  }

  /** An element of the ONVIF schema namespace holding a text. */
  function SchemaElement(name: string, text: string): string {
    SchemaOpen(name) + text + "</" + name + ">"
  }

  /** The start tag of a device-service operation. */
  function OperationOpen(name: string): string {
    "<" + name + XmlnsClose(DeviceNamespace)
  }

  // ---------------------------------------------------------------------------
  // SetSystemDateAndTime (device.go:378-411)
  // ---------------------------------------------------------------------------

  /** The fields of SystemDateAndTime that SetSystemDateAndTime sends. */
  datatype SystemDateAndTime = SystemDateAndTime(
    dateTimeType: string,
    daylightSavings: bool,
    tz: string,
    hour: Int64,
    minute: Int64,
    second: Int64,
    year: Int64,
    month: Int64,
    day: Int64)

  /** The part both branches start with: the operation tag, the DateTimeType and the DaylightSavings flag. */
  function DateTimeHead(dt: SystemDateAndTime): seq<string> {
    [OperationOpen("SetSystemDateAndTime"),
     Line(5), Element("DateTimeType", dt.dateTimeType),
     Line(5), Element("DaylightSavings", BoolToString(dt.daylightSavings))]
  }

  /** The time zone part of the manual body. */
  function ZonePieces(dt: SystemDateAndTime): seq<string> {
    [Line(5), "<TimeZone>",
     Line(6), SchemaElement("TZ", dt.tz),
     Line(5), "</TimeZone>",
     Line(5), "<UTCDateTime>",
     Line(6), SchemaOpen("Time")]
  }

  /** The hour, minute and second, written by intToString. */
  function TimePieces(dt: SystemDateAndTime): seq<string> {
    [Line(7), Element("Hour", IntToString(dt.hour)),
     Line(7), Element("Minute", IntToString(dt.minute)),
     Line(7), Element("Second", IntToString(dt.second)),
     Line(6), "</Time>",
     Line(6), SchemaOpen("Date")]
  }

  /** The year, month and day, written by intToString, and the closing tags. */
  function DatePieces(dt: SystemDateAndTime): seq<string> {
    [Line(7), Element("Year", IntToString(dt.year)),
     Line(7), Element("Month", IntToString(dt.month)),
     Line(7), Element("Day", IntToString(dt.day)),
     Line(6), "</Date>",
     Line(5), "</UTCDateTime>",
     Line(4), "</SetSystemDateAndTime>"]
  }

  /** The body in manual mode: the time zone, then the UTC time and date. */
  function ManualPieces(dt: SystemDateAndTime): seq<string> {
    DateTimeHead(dt) + ZonePieces(dt) + TimePieces(dt) + DatePieces(dt)
  }

  /** The compact TimeZone element of the NTP branch. */
  function TimeZoneElement(tz: string): string {
    "<TimeZone>" + SchemaElement("TZ", tz) + "</TimeZone>"
  }

  /** The body in NTP mode: no date or time, and a time zone only when one is set. */
  function NtpPieces(dt: SystemDateAndTime): seq<string> {
    DateTimeHead(dt)
    + (if dt.tz != "" then [TimeZoneElement(dt.tz)] else [])
    + ["</SetSystemDateAndTime>"]
  }

  /** The body of SetSystemDateAndTime: the manual template, or the NTP one grown by appending. */
  method SetSystemDateAndTimeBody(dt: SystemDateAndTime) returns (body: string)
    ensures dt.dateTimeType == "Manual" ==> body == Concat(ManualPieces(dt))
    ensures dt.dateTimeType != "Manual" ==> body == Concat(NtpPieces(dt))
  {
    if dt.dateTimeType == "Manual" {
      body := Concat(ManualPieces(dt));
    } else {
      body := Concat(DateTimeHead(dt));
      ghost var zone: seq<string> := [];
      if dt.tz != "" {
        body := body + TimeZoneElement(dt.tz);
        zone := [TimeZoneElement(dt.tz)];
        assert Concat(zone) == TimeZoneElement(dt.tz) + Concat([]);
      }
      assert body == Concat(DateTimeHead(dt)) + Concat(zone);
      body := body + "</SetSystemDateAndTime>";
      assert Concat(["</SetSystemDateAndTime>"]) == "</SetSystemDateAndTime>" + Concat([]);
      ConcatAppend(DateTimeHead(dt), zone);
      ConcatAppend(DateTimeHead(dt) + zone, ["</SetSystemDateAndTime>"]);
    }
  }

  /** Both branches begin with the same head. */
  lemma DateTimeHeadShared(dt: SystemDateAndTime)
    ensures HasPrefix(Concat(ManualPieces(dt)), Concat(DateTimeHead(dt)))
    ensures HasPrefix(Concat(NtpPieces(dt)), Concat(DateTimeHead(dt)))
  {
    var head := DateTimeHead(dt);
    assert ManualPieces(dt) == head + (ZonePieces(dt) + TimePieces(dt) + DatePieces(dt));
    ConcatPrefix(head, ZonePieces(dt) + TimePieces(dt) + DatePieces(dt));
    var tail := (if dt.tz != "" then [TimeZoneElement(dt.tz)] else []) + ["</SetSystemDateAndTime>"];
    assert NtpPieces(dt) == head + tail;
    ConcatPrefix(head, tail);
  }

  /** The head carries the DateTimeType verbatim and the DaylightSavings flag in a form that reads back. */
  lemma DateTimeHeadFields(dt: SystemDateAndTime)
    ensures Contains(Concat(DateTimeHead(dt)), Element("DateTimeType", dt.dateTimeType))
    ensures Contains(Concat(DateTimeHead(dt)), Element("DaylightSavings", BoolToString(dt.daylightSavings)))
    ensures InterfaceToBool(Str(BoolToString(dt.daylightSavings))) == dt.daylightSavings
  {
    ConcatOccurs(DateTimeHead(dt), 2);
    ConcatOccurs(DateTimeHead(dt), 4);
    BoolRoundTrip(dt.daylightSavings);
  }

  /** The concatenation of a list of parts begins with that of its first parts. */
  lemma ConcatPrefix(a: seq<string>, b: seq<string>)
    ensures HasPrefix(Concat(a + b), Concat(a))
  {
    ConcatAppend(a, b);
    Slices(Concat(a), Concat(b));
  }

  /** Where the time zone, time and date elements sit in their own parts. */
  lemma ZonePiecesAt(dt: SystemDateAndTime)
    ensures |ZonePieces(dt)| == 10 && ZonePieces(dt)[3] == SchemaElement("TZ", dt.tz)
    ensures ZonePieces(dt)[7] == "<UTCDateTime>"
  {}

  lemma TimePiecesAt(dt: SystemDateAndTime)
    ensures var t := TimePieces(dt);
      && |t| == 10
      && t[1] == Element("Hour", IntToString(dt.hour))
      && t[3] == Element("Minute", IntToString(dt.minute))
      && t[5] == Element("Second", IntToString(dt.second))
  {}

  lemma DatePiecesAt(dt: SystemDateAndTime)
    ensures var t := DatePieces(dt);
      && |t| == 12
      && t[1] == Element("Year", IntToString(dt.year))
      && t[3] == Element("Month", IntToString(dt.month))
      && t[5] == Element("Day", IntToString(dt.day))
  {}

  /** Where the time zone, UTCDateTime, time and date elements sit in the manual body's parts. */
  lemma ManualPiecesAt(dt: SystemDateAndTime)
    ensures var p := ManualPieces(dt);
      && |p| == 37
      && p[8] == SchemaElement("TZ", dt.tz)
      && p[12] == "<UTCDateTime>"
      && p[16] == Element("Hour", IntToString(dt.hour))
      && p[18] == Element("Minute", IntToString(dt.minute))
      && p[20] == Element("Second", IntToString(dt.second))
      && p[26] == Element("Year", IntToString(dt.year))
      && p[28] == Element("Month", IntToString(dt.month))
      && p[30] == Element("Day", IntToString(dt.day))
  {
    ZonePiecesAt(dt);
    TimePiecesAt(dt);
    DatePiecesAt(dt);
    var h, z, t, d := DateTimeHead(dt), ZonePieces(dt), TimePieces(dt), DatePieces(dt);
    assert |h| == 5;
    IndexAppend(h, z, 8);
    IndexAppend(h, z, 12);
    IndexAppend(h + z, t, 16);
    IndexAppend(h + z, t, 18);
    IndexAppend(h + z, t, 20);
    IndexAppend(h + z + t, d, 26);
    IndexAppend(h + z + t, d, 28);
    IndexAppend(h + z + t, d, 30);
  }

  /**
   * The manual body carries the time zone verbatim and the hour, minute,
   * second, year, month and day, each written by intToString (so that each
   * reads back to its number, by Utils.IntRoundTrip).
   */
  lemma ManualBodyFields(dt: SystemDateAndTime)
    ensures var body := Concat(ManualPieces(dt));
      && Contains(body, SchemaElement("TZ", dt.tz))
      && Contains(body, Element("Hour", IntToString(dt.hour)))
      && Contains(body, Element("Minute", IntToString(dt.minute)))
      && Contains(body, Element("Second", IntToString(dt.second)))
      && Contains(body, Element("Year", IntToString(dt.year)))
      && Contains(body, Element("Month", IntToString(dt.month)))
      && Contains(body, Element("Day", IntToString(dt.day)))
  {
    var p := ManualPieces(dt);
    ManualPiecesAt(dt);
    ConcatOccurs(p, 8);
    ConcatOccurs(p, 16);
    ConcatOccurs(p, 18);
    ConcatOccurs(p, 20);
    ConcatOccurs(p, 26);
    ConcatOccurs(p, 28);
    ConcatOccurs(p, 30);
  }

  /** A layout break holds no tag. */
  lemma LineNoTag(n: nat)
    ensures '<' !in Line(n)
  {
    assert forall i | 0 <= i < n :: Tabs(n)[i] == '\t';
  }

  /** A plain element's tags are its own, when its name and text hold no '<'. */
  lemma ElementOpensAvoid(name: string, text: string, c: char)
    requires c != '/' && |name| > 0 && name[0] != c && '<' !in name && '<' !in text
    ensures OpensAvoid(Element(name, text), c)
  {
    OpensAvoidTag(name, c);
    OpensAvoidPlain("<" + name, ">", c);
    OpensAvoidPlain("<" + name + ">", text, c);
    OpensAvoidAppend("<" + name + ">" + text, "</", c);
    OpensAvoidPlain("<" + name + ">" + text + "</", name, c);
    OpensAvoidPlain("<" + name + ">" + text + "</" + name, ">", c);
  }

  /** A declaration of a namespace without '<' holds no '<'. */
  lemma XmlnsCloseNoTag(ns: string)
    requires '<' !in ns
    ensures '<' !in XmlnsClose(ns)
  {
  }

  /** Neither namespace holds a '<'. */
  lemma NamespacesNoTag()
    ensures '<' !in SchemaNamespace && '<' !in DeviceNamespace
  {
  }

  /** A schema element's tags are its own, when its name and text hold no '<'. */
  lemma SchemaElementOpensAvoid(name: string, text: string, c: char)
    requires c != '/' && |name| > 0 && name[0] != c && '<' !in name && '<' !in text
    ensures OpensAvoid(SchemaElement(name, text), c)
  {
    var open := SchemaOpen(name);
    OpensAvoidTag(name, c);
    NamespacesNoTag();
    XmlnsCloseNoTag(SchemaNamespace);
    OpensAvoidPlain("<" + name, XmlnsClose(SchemaNamespace), c);
    OpensAvoidPlain(open, text, c);
    OpensAvoidAppend(open + text, "</", c);
    OpensAvoidPlain(open + text + "</", name, c);
    OpensAvoidPlain(open + text + "</" + name, ">", c);
  }


  /** An operation's start tag is its only tag, when its name holds no '<'. */
  lemma OperationOpenOpensAvoid(name: string, c: char)
    requires |name| > 0 && name[0] != c && '<' !in name
    ensures OpensAvoid(OperationOpen(name), c)
  {
    NamespacesNoTag();
    XmlnsCloseNoTag(DeviceNamespace);
    OpensAvoidTag(name, c);
    OpensAvoidPlain("<" + name, XmlnsClose(DeviceNamespace), c);
  }

  /** The compact TimeZone element has no tag starting with U, when the zone holds no '<'. */
  lemma TimeZoneElementOpensAvoid(tz: string)
    requires '<' !in tz
    ensures OpensAvoid(TimeZoneElement(tz), 'U')
  {
    SchemaElementOpensAvoid("TZ", tz, 'U');
    OpensAvoidAppend("<TimeZone>", SchemaElement("TZ", tz), 'U');
    OpensAvoidAppend("<TimeZone>" + SchemaElement("TZ", tz), "</TimeZone>", 'U');
  }

  /** No part of the shared head has a tag starting with U, when the DateTimeType holds no '<'. */
  lemma DateTimeHeadOpensAvoid(dt: SystemDateAndTime)
    requires '<' !in dt.dateTimeType
    ensures forall k | 0 <= k < |DateTimeHead(dt)| :: OpensAvoid(DateTimeHead(dt)[k], 'U')
  {
    OperationOpenOpensAvoid("SetSystemDateAndTime", 'U');
    LineNoTag(5);
    OpensAvoidPlain("", Line(5), 'U');
    ElementOpensAvoid("DateTimeType", dt.dateTimeType, 'U');
    ElementOpensAvoid("DaylightSavings", BoolToString(dt.daylightSavings), 'U');
  }

  /** The tags of the NTP body are the template's own, none of them UTCDateTime. */
  lemma NtpBodyOpensAvoid(dt: SystemDateAndTime)
    requires '<' !in dt.dateTimeType && '<' !in dt.tz
    ensures OpensAvoid(Concat(NtpPieces(dt)), 'U')
  {
    var head := DateTimeHead(dt);
    DateTimeHeadOpensAvoid(dt);
    var zone := if dt.tz != "" then [TimeZoneElement(dt.tz)] else [];
    if dt.tz != "" {
      TimeZoneElementOpensAvoid(dt.tz);
    }
    var close := ["</SetSystemDateAndTime>"];
    assert OpensAvoid(close[0], 'U');
    var p := NtpPieces(dt);
    assert p == head + zone + close;
    OpensAvoidConcat(p, 'U');
  }

  /**
   * Only the manual body has a UTCDateTime element: the manual body text
   * contains "<UTCDateTime>", and the NTP body text does not, provided the
   * DateTimeType and time zone, which are written verbatim, hold no tag.
   */
  lemma UtcOnlyWhenManual(dt: SystemDateAndTime)
    ensures Contains(Concat(ManualPieces(dt)), "<UTCDateTime>")
    ensures '<' !in dt.dateTimeType && '<' !in dt.tz ==> !Contains(Concat(NtpPieces(dt)), "<UTCDateTime>")
  {
    ManualPiecesAt(dt);
    ConcatOccurs(ManualPieces(dt), 12);
    if '<' !in dt.dateTimeType && '<' !in dt.tz {
      NtpBodyOpensAvoid(dt);
      OpensAvoidExcludes(Concat(NtpPieces(dt)), "<UTCDateTime>");
    }
  }

  /** In NTP mode the time zone element is present exactly when a time zone is set. */
  lemma NtpTimeZone(dt: SystemDateAndTime)
    ensures dt.tz != "" ==> Contains(Concat(NtpPieces(dt)), TimeZoneElement(dt.tz))
    ensures dt.tz == "" ==> Concat(NtpPieces(dt)) == Concat(DateTimeHead(dt)) + "</SetSystemDateAndTime>"
  {
    var p := NtpPieces(dt);
    if dt.tz != "" {
      ConcatOccurs(p, 5);
    } else {
      ConcatAppend(DateTimeHead(dt), ["</SetSystemDateAndTime>"]);
      assert Concat(["</SetSystemDateAndTime>"]) == "</SetSystemDateAndTime>" + Concat([]);
      assert p == DateTimeHead(dt) + ["</SetSystemDateAndTime>"];
    }
  }

  // ---------------------------------------------------------------------------
  // SetNTP and SetDNS (device.go:517-531, 635-649)
  // ---------------------------------------------------------------------------

  /** One NTP server. */
  datatype NetworkHost = NetworkHost(hostType: string, ipv4Address: string, dnsName: string)

  /** The NTP settings SetNTP sends. */
  datatype NtpInformation = NtpInformation(fromDhcp: bool, ntpNetworkHost: seq<NetworkHost>)

  /** One DNS server. */
  datatype DnsAddress = DnsAddress(addressType: string, ipv4Address: string)

  /** The DNS settings SetDNS sends. */
  datatype DnsInformation = DnsInformation(fromDhcp: bool, searchDomain: string, dnsAddress: seq<DnsAddress>)

  /** The body of SetNTP: the DHCP flag and the first host only. */
  function SetNtpPieces(info: NtpInformation): seq<string>
    requires |info.ntpNetworkHost| > 0
  {
    var host := info.ntpNetworkHost[0];
    [OperationOpen("SetNTP"),
     Line(5), Element("FromDHCP", BoolToString(info.fromDhcp)),
     Line(5), "<NTPManual>",
     Line(6), SchemaElement("Type", host.hostType),
     Line(6), SchemaElement("IPv4Address", host.ipv4Address),
     Line(6), SchemaElement("DNSname", host.dnsName),
     Line(5), "</NTPManual>",
     Line(4), "</SetNTP>"]
  }

  /** SetNTP's body (device.go:523-530); an empty host list is not accepted, as the code indexes its first entry. */
  function SetNtpBody(info: NtpInformation): string
    requires |info.ntpNetworkHost| > 0
  {
    Concat(SetNtpPieces(info))
  }

  /** Where the DHCP flag and the first host's fields sit in SetNTP's parts. */
  lemma SetNtpPiecesAt(info: NtpInformation)
    requires |info.ntpNetworkHost| > 0
    ensures var p, host := SetNtpPieces(info), info.ntpNetworkHost[0];
      && |p| == 15
      && p[2] == Element("FromDHCP", BoolToString(info.fromDhcp))
      && p[6] == SchemaElement("Type", host.hostType)
      && p[8] == SchemaElement("IPv4Address", host.ipv4Address)
      && p[10] == SchemaElement("DNSname", host.dnsName)
  {}

  /** The SetNTP body carries the DHCP flag, written by boolToString (which reads back, by Utils.BoolRoundTrip). */
  lemma SetNtpBodyDhcp(info: NtpInformation)
    requires |info.ntpNetworkHost| > 0
    ensures Contains(SetNtpBody(info), Element("FromDHCP", BoolToString(info.fromDhcp)))
  {
    SetNtpPiecesAt(info);
    ConcatOccurs(SetNtpPieces(info), 2);
  }

  /** The SetNTP body carries the first host's type, IPv4 address and DNS name verbatim. */
  lemma SetNtpBodyHost(info: NtpInformation)
    requires |info.ntpNetworkHost| > 0
    ensures var host := info.ntpNetworkHost[0];
      && Contains(SetNtpBody(info), SchemaElement("Type", host.hostType))
      && Contains(SetNtpBody(info), SchemaElement("IPv4Address", host.ipv4Address))
      && Contains(SetNtpBody(info), SchemaElement("DNSname", host.dnsName))
  {
    var p := SetNtpPieces(info);
    SetNtpPiecesAt(info);
    ConcatOccurs(p, 6);
    ConcatOccurs(p, 8);
    ConcatOccurs(p, 10);
  }

  /** Only the first NTP host is sent: the others do not change the body. */
  lemma SetNtpFirstHostOnly(info: NtpInformation, others: seq<NetworkHost>)
    requires |info.ntpNetworkHost| > 0
    ensures SetNtpBody(info) == SetNtpBody(info.(ntpNetworkHost := [info.ntpNetworkHost[0]] + others))
  {
  }

  /** The body of SetDNS: the DHCP flag, the search domain and the first server only. */
  function SetDnsPieces(info: DnsInformation): seq<string>
    requires |info.dnsAddress| > 0
  {
    var address := info.dnsAddress[0];
    [OperationOpen("SetDNS"),
     Line(4), Element("FromDHCP", BoolToString(info.fromDhcp)),
     Line(4), Element("SearchDomain", info.searchDomain),
     Line(4), "<DNSManual>",
     Line(5), SchemaElement("Type", address.addressType),
     Line(5), SchemaElement("IPv4Address", address.ipv4Address),
     Line(4), "</DNSManual>",
     Line(3) + "  ", "</SetDNS>"]
  }

  /** SetDNS's body (device.go:641-648); an empty server list is not accepted, as the code indexes its first entry. */
  function SetDnsBody(info: DnsInformation): string
    requires |info.dnsAddress| > 0
  {
    Concat(SetDnsPieces(info))
  }

  /** Where the DHCP flag, the search domain and the first server's fields sit in SetDNS's parts. */
  lemma SetDnsPiecesAt(info: DnsInformation)
    requires |info.dnsAddress| > 0
    ensures var p, address := SetDnsPieces(info), info.dnsAddress[0];
      && |p| == 15
      && p[2] == Element("FromDHCP", BoolToString(info.fromDhcp))
      && p[4] == Element("SearchDomain", info.searchDomain)
      && p[8] == SchemaElement("Type", address.addressType)
      && p[10] == SchemaElement("IPv4Address", address.ipv4Address)
  {}

  /** The SetDNS body carries the DHCP flag, written by boolToString, and the search domain verbatim. */
  lemma SetDnsBodySettings(info: DnsInformation)
    requires |info.dnsAddress| > 0
    ensures Contains(SetDnsBody(info), Element("FromDHCP", BoolToString(info.fromDhcp)))
    ensures Contains(SetDnsBody(info), Element("SearchDomain", info.searchDomain))
  {
    SetDnsPiecesAt(info);
    ConcatOccurs(SetDnsPieces(info), 2);
    ConcatOccurs(SetDnsPieces(info), 4);
  }

  /** The SetDNS body carries the first server's type and IPv4 address verbatim. */
  lemma SetDnsBodyAddress(info: DnsInformation)
    requires |info.dnsAddress| > 0
    ensures var address := info.dnsAddress[0];
      && Contains(SetDnsBody(info), SchemaElement("Type", address.addressType))
      && Contains(SetDnsBody(info), SchemaElement("IPv4Address", address.ipv4Address))
  {
    SetDnsPiecesAt(info);
    ConcatOccurs(SetDnsPieces(info), 8);
    ConcatOccurs(SetDnsPieces(info), 10);
  }

  /** Only the first DNS server is sent: the others do not change the body. */
  lemma SetDnsFirstAddressOnly(info: DnsInformation, others: seq<DnsAddress>)
    requires |info.dnsAddress| > 0
    ensures SetDnsBody(info) == SetDnsBody(info.(dnsAddress := [info.dnsAddress[0]] + others))
  {
  }

  // ---------------------------------------------------------------------------
  // SetScopes, AddScopes, RemoveScopes, DeleteUsers (device.go:794-1006)
  // ---------------------------------------------------------------------------

  /** The items wrapped, each in its own element, in order. */
  function WrapAll(tag: string, items: seq<string>): string {
    if items == [] then "" else Element(tag, items[0]) + WrapAll(tag, items[1..])
  }

  /** Wrapping one more item appends its element. */
  lemma {:induction false} WrapAllSnoc(tag: string, items: seq<string>, x: string)
    ensures WrapAll(tag, items + [x]) == WrapAll(tag, items) + Element(tag, x)
  {
    if items == [] {
      assert items + [x] == [x];
      assert WrapAll(tag, [x]) == Element(tag, x) + WrapAll(tag, []);
    } else {
      assert (items + [x])[1..] == items[1..] + [x];
      WrapAllSnoc(tag, items[1..], x);
    }
  }

  /** The loop the four operations share: `body += <tag>item</tag>` for every item. */
  method WrapEach(tag: string, items: seq<string>) returns (body: string)
    ensures body == WrapAll(tag, items)
  {
    body := "";
    for i := 0 to |items|
      invariant body == WrapAll(tag, items[..i])
    {
      WrapAllSnoc(tag, items[..i], items[i]);
      assert items[..i + 1] == items[..i] + [items[i]];
      body := body + "<" + tag + ">" + items[i] + "</" + tag + ">";
    }
    assert items[..|items|] == items;
  }

  /**
   * Reading a sequence of elements back: each must be the start tag, a text
   * up to the first end tag, and the end tag; None when that fails.
   */
  function Unwrap(tag: string, s: string): Option<seq<string>>
    decreases |s|
  {
    if s == [] then Some([])
    else
      var open := "<" + tag + ">";
      var close := "</" + tag + ">";
      if !HasPrefix(s, open) then None
      else
        var rest := s[|open|..];
        var i := IndexOf(rest, close);
        if i < 0 then None
        else match Unwrap(tag, rest[i + |close|..])
          case None => None
          case Some(items) => Some([rest[..i]] + items)
  }

  /** The first end tag after an item without `<` is the one right after it. */
  lemma FirstClose(item: string, close: string, w: string)
    requires '<' !in item && |close| > 0 && close[0] == '<'
    ensures IndexOf(item + close + w, close) == |item|
  {
    var s := item + close + w;
    assert s[|item|..|item| + |close|] == close;
    assert OccursAt(s, close, |item|);
    var r := IndexOf(s, close);
  }

  /** One element read back from the front of a text. */
  lemma UnwrapElement(tag: string, item: string, w: string)
    requires '<' !in item
    ensures Unwrap(tag, Element(tag, item) + w) ==
      match Unwrap(tag, w)
      case None => None
      case Some(items) => Some([item] + items)
  {
    var open, close := "<" + tag + ">", "</" + tag + ">";
    var rest := item + close + w;
    var s := Element(tag, item) + w;
    assert HasPrefix(s, open) && s[|open|..] == rest by {
      assert s == open + rest;
      Slices(open, rest);
    }
    assert IndexOf(rest, close) == |item| by {
      FirstClose(item, close, w);
    }
    assert rest[..|item|] == item && rest[|item| + |close|..] == w by {
      Slices3(item, close, w);
    }
  }

  /**
   * Every item is wrapped exactly once and in order: when no item holds a
   * `<`, the items are read back from the wrapped text.
   */
  lemma {:induction false} UnwrapWrapAll(tag: string, items: seq<string>)
    requires forall k | 0 <= k < |items| :: '<' !in items[k]
    ensures Unwrap(tag, WrapAll(tag, items)) == Some(items)
  {
    if items != [] {
      UnwrapWrapAll(tag, items[1..]);
      UnwrapElement(tag, items[0], WrapAll(tag, items[1..]));
      assert [items[0]] + items[1..] == items;
    }
  }

  /** SetScopes's body: one Scopes element per scope (device.go:796-806). */
  method SetScopesBody(listScopes: seq<string>) returns (body: string)
    ensures body == OperationOpen("SetScopes") + WrapAll("Scopes", listScopes) + "</SetScopes>"
  {
    var scopesBody := WrapEach("Scopes", listScopes);
    body := OperationOpen("SetScopes") + scopesBody + "</SetScopes>";
  }

  /** AddScopes's body: one ScopeItem element per scope (device.go:825-835). */
  method AddScopesBody(listScopes: seq<string>) returns (body: string)
    ensures body == OperationOpen("AddScopes") + WrapAll("ScopeItem", listScopes) + "</AddScopes>"
  {
    var scopesBody := WrapEach("ScopeItem", listScopes);
    body := OperationOpen("AddScopes") + scopesBody + "</AddScopes>";
  }

  /** RemoveScopes's body: one ScopeItem element per scope (device.go:854-863). */
  method RemoveScopesBody(listScopes: seq<string>) returns (body: string)
    ensures body == OperationOpen("RemoveScopes") + WrapAll("ScopeItem", listScopes) + "</RemoveScopes>"
  {
    var scopesBody := WrapEach("ScopeItem", listScopes);
    body := OperationOpen("RemoveScopes") + scopesBody + "</RemoveScopes>";
  }

  /** DeleteUsers's body: one Username element per name (device.go:997-1006). */
  method DeleteUsersBody(usernames: seq<string>) returns (body: string)
    ensures body == OperationOpen("DeleteUsers") + WrapAll("Username", usernames) + "</DeleteUsers>"
  {
    var usernameBody := WrapEach("Username", usernames);
    body := OperationOpen("DeleteUsers") + usernameBody + "</DeleteUsers>";
  }

  // ---------------------------------------------------------------------------
  // GetCapabilities (device.go:144-238)
  // ---------------------------------------------------------------------------

  /** A key naming the events service address, in any letter case. */
  predicate IsXAddrKey(key: string) {
    Lower(key) == "xaddr"
  }

  /** An event capability's key with its first "WS" removed. */
  function EventKey(key: string): string {
    ReplaceFirst(key, "WS", "")
  }

  /** A streaming capability's key with every `_` turned into a space. */
  function StreamKey(key: string): string {
    ReplaceChar(key, '_', ' ')
  }

  /** The event keys of the children `keys` that are not the service address. */
  function EventKeys(keys: set<string>): set<string> {
    set k | k in keys && !IsXAddrKey(k) :: EventKey(k)
  }

  /** Every stored event has the value of some child with that event key. */
  predicate EventValuesFrom(fields: map<string, Value>, keys: set<string>, events: map<string, bool>)
    requires keys <= fields.Keys
  {
    forall e | e in events :: exists k | k in keys && !IsXAddrKey(k) && EventKey(k) == e ::
      events[e] == InterfaceToBool(fields[k])
  }

  /** No other child that is not the service address has the event key of k. */
  predicate UniqueEventKey(fields: map<string, Value>, k: string) {
    forall k2 | k2 in fields && !IsXAddrKey(k2) && EventKey(k2) == EventKey(k) :: k2 == k
  }

  /** A child whose event key no other child shares has its own value stored. */
  predicate UniqueEventsKept(fields: map<string, Value>, keys: set<string>, events: map<string, bool>)
    requires keys <= fields.Keys
  {
    forall k | k in keys && !IsXAddrKey(k) && UniqueEventKey(fields, k) ::
      EventKey(k) in events && events[EventKey(k)] == InterfaceToBool(fields[k])
  }

  /** The service address is "" without a child named "xaddr" ignoring case, and the value of such a child otherwise. */
  predicate XAddrFrom(fields: map<string, Value>, keys: set<string>, xaddr: string)
    requires keys <= fields.Keys
  {
    && ((forall k | k in keys :: !IsXAddrKey(k)) ==> xaddr == "")
    && ((exists k | k in keys :: IsXAddrKey(k)) ==>
          exists k | k in keys && IsXAddrKey(k) :: xaddr == InterfaceToString(fields[k]))
  }

  /**
   * What the events loop has made of the children `keys` of the Events
   * element: the service address comes from some key equal to "xaddr"
   * ignoring case, every other key is stored under its event key (its first
   * "WS" removed), each stored value is that of some key with that event
   * key, and a key whose event key no other child shares keeps its own value.
   */
  predicate EventsOver(fields: map<string, Value>, keys: set<string>, xaddr: string, events: map<string, bool>)
    requires keys <= fields.Keys
  {
    && events.Keys == EventKeys(keys)
    && EventValuesFrom(fields, keys, events)
    && UniqueEventsKept(fields, keys, events)
    && XAddrFrom(fields, keys, xaddr)
  }

  /** The whole Events element, walked in any order. */
  predicate EventsOf(fields: map<string, Value>, xaddr: string, events: map<string, bool>) {
    EventsOver(fields, fields.Keys, xaddr, events)
  }

  /** Taking one more key, a service address: the address is replaced. */
  lemma XAddrStep(fields: map<string, Value>, keys: set<string>, key: string)
    requires keys <= fields.Keys && key in fields && IsXAddrKey(key)
    ensures XAddrFrom(fields, keys + {key}, InterfaceToString(fields[key]))
  {
    assert key in keys + {key};
  }

  /** Taking one more key that is not a service address keeps the address. */
  lemma XAddrKept(fields: map<string, Value>, keys: set<string>, key: string, xaddr: string)
    requires keys <= fields.Keys && key in fields && !IsXAddrKey(key)
    requires XAddrFrom(fields, keys, xaddr)
    ensures XAddrFrom(fields, keys + {key}, xaddr)
  {
    if exists k | k in keys + {key} :: IsXAddrKey(k) {
      var k :| k in keys + {key} && IsXAddrKey(k);
      assert k in keys;
    }
  }

  /** Taking one more key that is a service address leaves the events as they are. */
  lemma EventsUnderXAddr(fields: map<string, Value>, keys: set<string>, key: string, events: map<string, bool>)
    requires keys <= fields.Keys && key in fields && IsXAddrKey(key)
    requires events.Keys == EventKeys(keys)
    requires EventValuesFrom(fields, keys, events)
    requires UniqueEventsKept(fields, keys, events)
    ensures events.Keys == EventKeys(keys + {key})
    ensures EventValuesFrom(fields, keys + {key}, events)
    ensures UniqueEventsKept(fields, keys + {key}, events)
  {
    assert EventKeys(keys + {key}) == EventKeys(keys);
  }

  /** Storing one more event adds its event key to the stored keys. */
  lemma EventKeysStep(keys: set<string>, key: string, events: map<string, bool>, b: bool)
    requires !IsXAddrKey(key) && events.Keys == EventKeys(keys)
    ensures events[EventKey(key) := b].Keys == EventKeys(keys + {key})
  {
    assert EventKeys(keys + {key}) == EventKeys(keys) + {EventKey(key)};
  }

  /** Storing one more event keeps every stored value that of some child. */
  lemma EventValuesStep(fields: map<string, Value>, keys: set<string>, key: string, events: map<string, bool>)
    requires keys <= fields.Keys && key in fields && !IsXAddrKey(key)
    requires EventValuesFrom(fields, keys, events)
    ensures EventValuesFrom(fields, keys + {key}, events[EventKey(key) := InterfaceToBool(fields[key])])
  {
    var keys' := keys + {key};
    var events' := events[EventKey(key) := InterfaceToBool(fields[key])];
    forall e | e in events'
      ensures exists k | k in keys' && !IsXAddrKey(k) && EventKey(k) == e :: events'[e] == InterfaceToBool(fields[k])
    {
      if e == EventKey(key) {
        assert key in keys';
      } else {
        var k :| k in keys && !IsXAddrKey(k) && EventKey(k) == e && events[e] == InterfaceToBool(fields[k]);
        assert k in keys';
      }
    }
  }

  /** Storing one more event overwrites no child whose event key is its own. */
  lemma UniqueEventsStep(fields: map<string, Value>, keys: set<string>, key: string, events: map<string, bool>)
    requires keys <= fields.Keys && key in fields && !IsXAddrKey(key)
    requires UniqueEventsKept(fields, keys, events)
    ensures UniqueEventsKept(fields, keys + {key}, events[EventKey(key) := InterfaceToBool(fields[key])])
  {
    var events' := events[EventKey(key) := InterfaceToBool(fields[key])];
    forall k | k in keys + {key} && !IsXAddrKey(k) && UniqueEventKey(fields, k)
      ensures EventKey(k) in events' && events'[EventKey(k)] == InterfaceToBool(fields[k])
    {
      if k != key {
        assert EventKey(key) != EventKey(k);
      }
    }
  }

  /** Taking one key out of those a map walk has still to visit. */
  lemma VisitOne<K>(all: set<K>, remaining: set<K>, visited: set<K>, key: K)
    requires remaining == all - visited && visited <= all && key in remaining
    ensures remaining - {key} == all - (visited + {key}) && visited + {key} <= all && key in all
  {
  }

  /** A map walk with nothing left to visit has visited every key. */
  lemma VisitedAll<K>(all: set<K>, remaining: set<K>, visited: set<K>)
    requires remaining == all - visited && visited <= all && remaining == {}
    ensures visited == all
  {
    forall k | k in all
      ensures k in visited
    {
      assert k !in remaining;
    }
  }

  /** Taking one more key that is a service address: the address is replaced and the events stay. */
  lemma EventsStepXAddr(fields: map<string, Value>, keys: set<string>, key: string, xaddr: string, events: map<string, bool>)
    requires keys <= fields.Keys && key in fields && IsXAddrKey(key)
    requires EventsOver(fields, keys, xaddr, events)
    ensures EventsOver(fields, keys + {key}, InterfaceToString(fields[key]), events)
  {
    XAddrStep(fields, keys, key);
    EventsUnderXAddr(fields, keys, key, events);
  }

  /** Taking one more key that is not a service address: the event is stored and the address stays. */
  lemma EventsStepEvent(fields: map<string, Value>, keys: set<string>, key: string, xaddr: string, events: map<string, bool>)
    requires keys <= fields.Keys && key in fields && !IsXAddrKey(key)
    requires EventsOver(fields, keys, xaddr, events)
    ensures EventsOver(fields, keys + {key}, xaddr, events[EventKey(key) := InterfaceToBool(fields[key])])
  {
    XAddrKept(fields, keys, key, xaddr);
    EventKeysStep(keys, key, events, InterfaceToBool(fields[key]));
    EventValuesStep(fields, keys, key, events);
    UniqueEventsStep(fields, keys, key, events);
  }

  /** The events loop (device.go:181-191), taking the keys in an arbitrary order. */
  method EventsFromFields(fields: map<string, Value>) returns (xaddr: string, events: map<string, bool>)
    ensures EventsOf(fields, xaddr, events)
  {
    xaddr := "";
    events := map[];
    var remaining := fields.Keys;
    ghost var visited: set<string> := {};
    while remaining != {}
      invariant remaining == fields.Keys - visited && visited <= fields.Keys
      invariant EventsOver(fields, visited, xaddr, events)
      decreases |remaining|
    {
      var key :| key in remaining;
      VisitOne(fields.Keys, remaining, visited, key);
      remaining := remaining - {key};
      if IsXAddrKey(key) {
        EventsStepXAddr(fields, visited, key, xaddr, events);
        xaddr := InterfaceToString(fields[key]);
      } else {
        EventsStepEvent(fields, visited, key, xaddr, events);
        events := events[EventKey(key) := InterfaceToBool(fields[key])];
      }
      visited := visited + {key};
    }
    VisitedAll(fields.Keys, remaining, visited);
  }

  /** The streaming keys of the children `keys`. */
  function StreamKeys(keys: set<string>): set<string> {
    set k | k in keys :: StreamKey(k)
  }

  /** Every stored capability has the value of some child with that streaming key. */
  predicate StreamValuesFrom(fields: map<string, Value>, keys: set<string>, streaming: map<string, bool>)
    requires keys <= fields.Keys
  {
    forall s | s in streaming :: exists k | k in keys && StreamKey(k) == s ::
      streaming[s] == InterfaceToBool(fields[k])
  }

  /**
   * What the streaming loop makes of the StreamingCapabilities element's
   * children: every key is stored under its streaming key (each `_` turned
   * into a space) with the value of some key that has it, and when no key
   * holds a space, every key keeps its own value.
   */
  predicate StreamingOf(fields: map<string, Value>, streaming: map<string, bool>) {
    && streaming.Keys == StreamKeys(fields.Keys)
    && StreamValuesFrom(fields, fields.Keys, streaming)
    && ((forall k | k in fields :: ' ' !in k) ==>
          forall k | k in fields :: streaming[StreamKey(k)] == InterfaceToBool(fields[k]))
  }

  /** Storing one more capability adds its streaming key to the stored keys. */
  lemma StreamKeysStep(keys: set<string>, key: string, streaming: map<string, bool>, b: bool)
    requires streaming.Keys == StreamKeys(keys)
    ensures streaming[StreamKey(key) := b].Keys == StreamKeys(keys + {key})
  {
    assert StreamKeys(keys + {key}) == StreamKeys(keys) + {StreamKey(key)};
  }

  /** Storing one more capability keeps every stored value that of some child. */
  lemma StreamValuesStep(fields: map<string, Value>, keys: set<string>, key: string, streaming: map<string, bool>)
    requires keys <= fields.Keys && key in fields
    requires StreamValuesFrom(fields, keys, streaming)
    ensures StreamValuesFrom(fields, keys + {key}, streaming[StreamKey(key) := InterfaceToBool(fields[key])])
  {
    var keys' := keys + {key};
    var streaming' := streaming[StreamKey(key) := InterfaceToBool(fields[key])];
    forall s | s in streaming'
      ensures exists k | k in keys' && StreamKey(k) == s :: streaming'[s] == InterfaceToBool(fields[k])
    {
      if s == StreamKey(key) {
        assert key in keys';
      } else {
        var k :| k in keys && StreamKey(k) == s && streaming[s] == InterfaceToBool(fields[k]);
        assert k in keys';
      }
    }
  }

  /** When no key holds a space, no two keys share a streaming key, so every key keeps its own value. */
  lemma StreamingUnique(fields: map<string, Value>, streaming: map<string, bool>)
    requires streaming.Keys == StreamKeys(fields.Keys)
    requires StreamValuesFrom(fields, fields.Keys, streaming)
    requires forall k | k in fields :: ' ' !in k
    ensures forall k | k in fields :: streaming[StreamKey(k)] == InterfaceToBool(fields[k])
  {
    forall k | k in fields
      ensures streaming[StreamKey(k)] == InterfaceToBool(fields[k])
    {
      assert StreamKey(k) in StreamKeys(fields.Keys);
      var k2 :| k2 in fields && StreamKey(k2) == StreamKey(k)
        && streaming[StreamKey(k)] == InterfaceToBool(fields[k2]);
      ReplaceCharInjective(k2, k, '_', ' ');
    }
  }

  /** Storing one more capability keeps the keys and the values as described. */
  lemma StreamStep(fields: map<string, Value>, keys: set<string>, key: string, streaming: map<string, bool>)
    requires keys <= fields.Keys && key in fields
    requires streaming.Keys == StreamKeys(keys) && StreamValuesFrom(fields, keys, streaming)
    ensures var streaming' := streaming[StreamKey(key) := InterfaceToBool(fields[key])];
      streaming'.Keys == StreamKeys(keys + {key}) && StreamValuesFrom(fields, keys + {key}, streaming')
  {
    StreamKeysStep(keys, key, streaming, InterfaceToBool(fields[key]));
    StreamValuesStep(fields, keys, key, streaming);
  }

  /** The streaming loop (device.go:200-206), taking the keys in an arbitrary order. */
  method StreamingFromFields(fields: map<string, Value>) returns (streaming: map<string, bool>)
    ensures StreamingOf(fields, streaming)
  {
    streaming := map[];
    var remaining := fields.Keys;
    ghost var visited: set<string> := {};
    while remaining != {}
      invariant remaining == fields.Keys - visited && visited <= fields.Keys
      invariant streaming.Keys == StreamKeys(visited) && StreamValuesFrom(fields, visited, streaming)
      decreases |remaining|
    {
      var key :| key in remaining;
      VisitOne(fields.Keys, remaining, visited, key);
      remaining := remaining - {key};
      StreamStep(fields, visited, key, streaming);
      visited := visited + {key};
      streaming := streaming[StreamKey(key) := InterfaceToBool(fields[key])];
    }
    VisitedAll(fields.Keys, remaining, visited);
    if forall k | k in fields :: ' ' !in k {
      StreamingUnique(fields, streaming);
    }
  }

  datatype NetworkCapabilities = NetworkCapabilities(dynDns: bool, ipFilter: bool, ipVersion6: bool, zeroConfig: bool)

  /** The events capabilities: the service address, and the events map, nil when there is no Events element. */
  datatype EventsCapabilities = EventsCapabilities(xaddr: string, events: Option<map<string, bool>>)

  datatype MediaCapabilities = MediaCapabilities(xaddr: string)

  datatype PtzCapabilities = PtzCapabilities(xaddr: string)

  datatype DeviceCapabilities = DeviceCapabilities(
    network: NetworkCapabilities,
    media: MediaCapabilities,
    ptz: PtzCapabilities,
    eventsCap: EventsCapabilities,
    streaming: map<string, bool>)

  const CapabilitiesPath: string := "Envelope.Body.GetCapabilitiesResponse.Capabilities"
  const NetworkPath: string := CapabilitiesPath + ".Device.Network"
  const EventsPath: string := CapabilitiesPath + ".Events"
  const StreamingPath: string := CapabilitiesPath + ".Media.StreamingCapabilities"
  const MediaPath: string := CapabilitiesPath + ".Media"
  const PtzPath: string := CapabilitiesPath + ".PTZ"

  /** The network flags: each read from its child when the element has children, all false otherwise. */
  function NetworkOf(v: Value): NetworkCapabilities
  {
    if v.Node? then
      NetworkCapabilities(
        InterfaceToBool(Field(v.fields, "DynDNS")),
        InterfaceToBool(Field(v.fields, "IPFilter")),
        InterfaceToBool(Field(v.fields, "IPVersion6")),
        InterfaceToBool(Field(v.fields, "ZeroConfiguration")))
    else NetworkCapabilities(false, false, false, false)
  }

  /** The service address child of an element, "" when the element has no children. */
  function XAddrOf(v: Value): string {
    if v.Node? then InterfaceToString(Field(v.fields, "XAddr")) else ""
  }

  /**
   * GetCapabilities on the decoded answer: the network, streaming and media
   * capabilities are required and their absence is the error, in that order;
   * the events and PTZ capabilities are optional. The events and streaming
   * keys are normalised as EventsOf and StreamingOf say.
   */
  method GetCapabilities(response: Document) returns (r: Result<DeviceCapabilities, Error>)
    ensures NetworkPath !in response ==> r == Failure(PathNotFound(NetworkPath))
    ensures NetworkPath in response && StreamingPath !in response ==> r == Failure(PathNotFound(StreamingPath))
    ensures NetworkPath in response && StreamingPath in response && MediaPath !in response ==>
      r == Failure(PathNotFound(MediaPath))
    ensures r.Success? <==> NetworkPath in response && StreamingPath in response && MediaPath in response
    ensures r.Success? ==>
      && r.value.network == NetworkOf(response[NetworkPath])
      && r.value.media.xaddr == XAddrOf(response[MediaPath])
      && r.value.ptz.xaddr == (if PtzPath in response then XAddrOf(response[PtzPath]) else "")
      && (r.value.eventsCap.events.None? <==> EventsPath !in response)
      && (EventsPath !in response ==> r.value.eventsCap == EventsCapabilities("", None))
      && (EventsPath in response && !response[EventsPath].Node? ==>
            r.value.eventsCap == EventsCapabilities("", Some(map[])))
      && (EventsPath in response && response[EventsPath].Node? ==>
            EventsOf(response[EventsPath].fields, r.value.eventsCap.xaddr, r.value.eventsCap.events.value))
      && (!response[StreamingPath].Node? ==> r.value.streaming == map[])
      && (response[StreamingPath].Node? ==> StreamingOf(response[StreamingPath].fields, r.value.streaming))
  {
    var ifaceNetCap := ValueForPath(response, NetworkPath);
    if ifaceNetCap.Failure? {
      return Failure(ifaceNetCap.error);
    }
    var netCap := NetworkOf(ifaceNetCap.value);

    var ifaceEventsCap := ValueForPath(response, EventsPath);
    var eventsCap := EventsCapabilities("", None);
    if ifaceEventsCap.Success? {
      var events: map<string, bool> := map[];
      var xaddr := "";
      if ifaceEventsCap.value.Node? {
        xaddr, events := EventsFromFields(ifaceEventsCap.value.fields);
      }
      eventsCap := EventsCapabilities(xaddr, Some(events));
    }

    var ifaceStreamingCap := ValueForPath(response, StreamingPath);
    if ifaceStreamingCap.Failure? {
      return Failure(ifaceStreamingCap.error);
    }
    var streamingCap: map<string, bool> := map[];
    if ifaceStreamingCap.value.Node? {
      streamingCap := StreamingFromFields(ifaceStreamingCap.value.fields);
    }

    var ifaceMediaCap := ValueForPath(response, MediaPath);
    if ifaceMediaCap.Failure? {
      return Failure(ifaceMediaCap.error);
    }
    var mediaCap := MediaCapabilities(XAddrOf(ifaceMediaCap.value));

    var ifacePtzCap := ValueForPath(response, PtzPath);
    var ptzCap := PtzCapabilities("");
    if ifacePtzCap.Success? {
      ptzCap := PtzCapabilities(XAddrOf(ifacePtzCap.value));
    }

    return Success(DeviceCapabilities(netCap, mediaCap, ptzCap, eventsCap, streamingCap));
  }
}
