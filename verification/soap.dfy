/**
 * The SOAP 1.2 client of soap.go: the envelope builder, the WS-Security
 * UsernameToken with its PasswordDigest, and the decisions SendRequest takes
 * around the HTTP exchange.
 *
 * The UUID generator, the clock, SHA-1, base64, URL parsing, the HTTP
 * transport and the XML decoder are inputs: the nonce bytes, the current
 * time, and the functions of `Primitives` and `Transport`.
 */
module Soap {
  import opened Wrappers
  import opened Errors
  import opened Text
  import opened Normalize
  import opened Utf8
  import opened Values

  /** The SOAP record (soap.go:20-27); the token age is a time.Duration in nanoseconds. */
  datatype Soap = Soap(
    body: string,
    xmlns: seq<string>,
    user: string,
    password: string,
    tokenAge: int,
    action: string)

  /** SHA-1, standard base64, and the UTC RFC 3339 rendering of an instant given in nanoseconds. */
  datatype Primitives = Primitives(
    sha1: Bytes -> Bytes,
    base64: Bytes -> string,
    rfc3339: int -> string)

  // ---------------------------------------------------------------------------
  // WS-Security UsernameToken (soap.go:123-143)
  // ---------------------------------------------------------------------------

  /** The fields of the UsernameToken that createUserToken writes. */
  datatype UsernameToken = UsernameToken(
    username: string,
    passwordDigest: string,
    nonce: string,
    created: string)

  /**
   * The bytes hashed for the PasswordDigest: the raw nonce, then the creation
   * time, then the password, with nothing between them (soap.go:128-131).
   */
  function DigestInput(nonce: Bytes, created: string, password: string): Bytes {
    nonce + Encode(created) + Encode(password)
  }

  /** The 16 nonce bytes lead the digest input, and the rest decodes to the creation time followed by the password. */
  lemma DigestInputParts(nonce: Bytes, created: string, password: string)
    requires |nonce| == 16
    ensures DigestInput(nonce, created, password)[..16] == nonce
    ensures Decode(DigestInput(nonce, created, password)[16..]) == Some(created + password)
  {
    var d := DigestInput(nonce, created, password);
    assert d[..16] == nonce && d[16..] == Encode(created) + Encode(password) by {
      assert d == nonce + (Encode(created) + Encode(password));
      Slices(nonce, Encode(created) + Encode(password));
    }
    EncodeConcat(created, password);
    DecodeEncode(created + password);
  }

  /**
   * What a receiver checks of a UsernameToken under the PasswordDigest scheme
   * (section 3.1 of the OASIS WSS UsernameToken Profile 1.0): the digest is
   * Base64(SHA-1(nonce + created + password)) for the token's own creation
   * time, and the nonce is sent as Base64.
   */
  predicate DigestMatches(t: UsernameToken, nonce: Bytes, password: string, prim: Primitives) {
    t.passwordDigest == prim.base64(prim.sha1(DigestInput(nonce, t.created, password)))
    && t.nonce == prim.base64(nonce)
  }

  /** The token createUserToken fills in, for the given nonce and current time. */
  function UserToken(soap: Soap, nonce: Bytes, now: int, prim: Primitives): (t: UsernameToken)
    ensures t.username == soap.user
    ensures t.created == prim.rfc3339(now + soap.tokenAge)
    ensures DigestMatches(t, nonce, soap.password, prim)
  {
    var created := prim.rfc3339(now + soap.tokenAge);
    UsernameToken(
      soap.user,
      prim.base64(prim.sha1(DigestInput(nonce, created, soap.password))),
      prim.base64(nonce),
      created)
  }

  /** The namespaces and the type URIs of the WS-Security elements. */
  const SecextNamespace: string :=
    "http://docs.oasis-open.org/wss/2004/01/oasis-200401-wss-wssecurity-secext-1.0.xsd"
  const PasswordDigestType: string :=
    "http://docs.oasis-open.org/wss/2004/01/oasis-200401-wss-username-token-profile-1.0#PasswordDigest"
  const Base64EncodingType: string :=
    "http://docs.oasis-open.org/wss/2004/01/oasis-200401-wss-soap-message-security-1.0#Base64Binary"
  const UtilityNamespace: string :=
    "http://docs.oasis-open.org/wss/2004/01/oasis-200401-wss-wssecurity-utility-1.0.xsd"

  /** The fixed parts of the Security template, around the four token fields. */
  const SecurityOpen: string :=
    "<Security" + " s:mustUnderstand=\"1\" xmlns=\"" + SecextNamespace + "\">\n"
    + "  \t\t<UsernameToken>\n    \t\t<Username>"
  const PasswordOpen: string :=
    "</Username>\n    \t\t" + "<Password Type=\"" + PasswordDigestType + "\">"
  const NonceOpen: string :=
    "</Password>\n    \t\t" + "<Nonce EncodingType=\"" + Base64EncodingType + "\">"
  const CreatedOpen: string :=
    "</Nonce>\n    \t\t" + "<Created xmlns=\"" + UtilityNamespace + "\">"
  const SecurityClose: string :=
    "</Created>\n\t\t</UsernameToken>\n\t</Security>"

  /** The Security header element that carries a token (soap.go:135-142). */
  function SecurityElement(t: UsernameToken): (r: string)
    ensures |r| > 0 && r[0] == '<' && r[|r| - 1] == '>'
  {
    assert SecurityOpen[0] == '<';
    assert SecurityClose[|SecurityClose| - 1] == '>';
    SecurityOpen + t.username + PasswordOpen + t.passwordDigest + NonceOpen + t.nonce
      + CreatedOpen + t.created + SecurityClose
  }

  /** createUserToken: the Security element for a fresh token. */
  function CreateUserToken(soap: Soap, nonce: Bytes, now: int, prim: Primitives): string {
    SecurityElement(UserToken(soap, nonce, now, prim))
  }

  // ---------------------------------------------------------------------------
  // The envelope (soap.go:83-121)
  // ---------------------------------------------------------------------------

  const XmlDeclaration: string := "<?xml version=\"1.0\" encoding=\"UTF-8\"?>"
  const EnvelopeOpen: string := "<s:Envelope xmlns:s=\"http://www.w3.org/2003/05/soap-envelope\""
  const ActionOpen: string :=
    "<Action" + " mustUnderstand=\"1\"\n\t\t\t\t\t\t\t   xmlns=\"http://www.w3.org/2005/08/addressing\">"
  const BodyOpen: string := "<s:Body>"
  const BodyClose: string := "</s:Body></s:Envelope>"

  /** Each namespace declaration preceded by one space, in the order given. */
  function NamespaceAttributes(xmlns: seq<string>): string {
    if xmlns == [] then "" else NamespaceAttributes(xmlns[..|xmlns| - 1]) + " " + xmlns[|xmlns| - 1]
  }

  /** The namespace attributes are the declarations joined by spaces, after a leading space. */
  lemma {:induction false} NamespaceAttributesJoin(xmlns: seq<string>)
    ensures NamespaceAttributes(xmlns) == Join([""] + xmlns, ' ')
    decreases |xmlns|
  {
    if xmlns != [] {
      var init := xmlns[..|xmlns| - 1];
      var last := xmlns[|xmlns| - 1];
      NamespaceAttributesJoin(init);
      JoinSnoc([""] + init, last, ' ');
      assert [""] + init + [last] == [""] + xmlns;
    }
  }

  /** Joining one more piece adds the separator and the piece at the end. */
  lemma {:induction false} JoinSnoc(parts: seq<string>, last: string, sep: char)
    requires |parts| >= 1
    ensures Join(parts + [last], sep) == Join(parts, sep) + [sep] + last
    decreases |parts|
  {
    if |parts| == 1 {
      assert (parts + [last])[1..] == [last];
    } else {
      assert (parts + [last])[1..] == parts[1..] + [last];
      JoinSnoc(parts[1..], last, sep);
    }
  }

  /**
   * The declarations can be read back from the root tag's attribute text:
   * splitting it at spaces gives an empty piece (before the first space) and
   * then every declaration, in order, when none of them contains a space.
   */
  lemma NamespaceAttributesSplit(xmlns: seq<string>)
    requires forall k | 0 <= k < |xmlns| :: ' ' !in xmlns[k]
    ensures Split(NamespaceAttributes(xmlns), ' ') == [""] + xmlns
  {
    NamespaceAttributesJoin(xmlns);
    var parts := [""] + xmlns;
    forall k | 0 <= k < |parts|
      ensures ' ' !in parts[k]
    {
      if k > 0 {
        assert parts[k] == xmlns[k - 1];
      }
    }
    JoinSplit(parts, ' ');
  }

  /** The XML declaration and the root start tag with its namespace declarations. */
  function Root(xmlns: seq<string>): (r: string)
    ensures |r| > 0 && r[0] == '<' && r[|r| - 1] == '>'
  {
    XmlDeclaration + EnvelopeOpen + NamespaceAttributes(xmlns) + ">"
  }

  /** The Action header element of WS-Addressing 1.0 (soap.go:99-100). */
  function ActionElement(action: string): (r: string)
    ensures |r| > 0 && r[0] == '<' && r[|r| - 1] == '>'
  {
    assert ActionOpen[0] == '<';
    ActionOpen + action + "</Action>"
  }

  /** The header entries in the order they are written: the Action first, then the Security element. */
  function HeaderEntries(soap: Soap, security: string): seq<string> {
    (if soap.action != "" then [ActionElement(soap.action)] else [])
    + (if soap.user != "" then [security] else [])
  }

  /** The Action entry is present exactly when there is an action, the Security entry exactly when there is a user, and the Action comes first. */
  lemma HeaderEntriesMeaning(soap: Soap, security: string)
    ensures var e := HeaderEntries(soap, security);
      |e| == (if soap.action != "" then 1 else 0) + (if soap.user != "" then 1 else 0)
      && (soap.action != "" ==> e[0] == ActionElement(soap.action))
      && (soap.user != "" ==> e[|e| - 1] == security)
  {
  }

  /** The header: absent when it has no entry, otherwise the `s:Header` element around its entries (soap.go:95-108). */
  function Header(soap: Soap, security: string): string {
    var entries := HeaderEntries(soap, security);
    if entries == [] then "" else "<s:Header>" + Concat(entries) + "</s:Header>"
  }

  /** The header is emitted exactly when there is an action or a user. */
  lemma HeaderPresent(soap: Soap, security: string)
    ensures Header(soap, security) != "" <==> soap.action != "" || soap.user != ""
  {
  }

  /** The envelope before cleaning: root, optional header, the body verbatim, closing tag (soap.go:85-114). */
  function RawEnvelope(soap: Soap, security: string): string {
    Root(soap.xmlns) + Header(soap, security) + "<s:Body>" + soap.body + "</s:Body>" + "</s:Envelope>"
  }

  /** Concatenation regrouped. */
  lemma Regroup(a: string, b: string, c: string, d: string, e: string)
    ensures a + b + c + d + e == a + (b + (c + d) + e)
  {
  }

  /** The first part of createRequest: the XML declaration and the root tag, one namespace declaration at a time (soap.go:85-92). */
  method WriteRoot(xmlns: seq<string>) returns (request: string)
    ensures request == Root(xmlns)
  {
    request := XmlDeclaration;
    request := request + EnvelopeOpen;
    for i := 0 to |xmlns|
      invariant request == XmlDeclaration + EnvelopeOpen + NamespaceAttributes(xmlns[..i])
    {
      assert xmlns[..i + 1][..i] == xmlns[..i];
      request := request + " " + xmlns[i];
    }
    assert xmlns[..|xmlns|] == xmlns;
    request := request + ">";
  }

  /**
   * The header part of createRequest (soap.go:95-108): nothing without an
   * action and a user, otherwise `s:Header` around the Action element, if
   * any, and the Security element, if any.
   */
  method WriteHeader(request0: string, soap: Soap, nonce: Bytes, now: int, prim: Primitives) returns (request: string)
    ensures request == request0 + Header(soap, CreateUserToken(soap, nonce, now, prim))
  {
    request := request0;
    ghost var security := CreateUserToken(soap, nonce, now, prim);
    if soap.action != "" || soap.user != "" {
      request := request + "<s:Header>";
      ghost var a := "";
      if soap.action != "" {
        request := request + ActionElement(soap.action);
        a := ActionElement(soap.action);
      } else {
        AppendEmpty(request);
      }
      ghost var s := "";
      if soap.user != "" {
        request := request + CreateUserToken(soap, nonce, now, prim);
        s := security;
      } else {
        AppendEmpty(request);
      }
      request := request + "</s:Header>";
      HeaderShape(soap, security);
      Regroup(request0, "<s:Header>", a, s, "</s:Header>");
    } else {
      HeaderShape(soap, security);
      AppendEmpty(request);
    }
  }

  /** The header written out: nothing, or `s:Header` around the Action element, if any, and the Security element, if any. */
  lemma HeaderShape(soap: Soap, security: string)
    ensures Header(soap, security) ==
      if soap.action != "" || soap.user != "" then
        "<s:Header>"
        + ((if soap.action != "" then ActionElement(soap.action) else "")
           + (if soap.user != "" then security else ""))
        + "</s:Header>"
      else ""
  {
    ConcatOfTwo(soap, security);
  }

  /**
   * createRequest: the envelope grown piece by piece as the Go code does it,
   * then cleaned. The Security element is drawn only when there is a user.
   */
  method CreateRequest(soap: Soap, nonce: Bytes, now: int, prim: Primitives) returns (request: string)
    ensures request == Clean(RawEnvelope(soap, CreateUserToken(soap, nonce, now, prim)))
  {
    request := WriteRoot(soap.xmlns);
    request := WriteHeader(request, soap, nonce, now, prim);
    request := request + "<s:Body>" + soap.body + "</s:Body>";
    request := request + "</s:Envelope>";
    request := CloseTagGaps(request);
    request := CollapseSpaces(request);
  }

  /** The concatenated header entries are the Action element, if any, followed by the Security element, if any. */
  lemma ConcatOfTwo(soap: Soap, security: string)
    ensures Concat(HeaderEntries(soap, security)) ==
      (if soap.action != "" then ActionElement(soap.action) else "")
      + (if soap.user != "" then security else "")
  {
    var e := HeaderEntries(soap, security);
    if |e| == 2 {
      assert Concat(e) == e[0] + Concat(e[1..]);
      assert Concat(e[1..]) == e[1] + Concat([]);
    } else if |e| == 1 {
      assert Concat(e) == e[0] + Concat([]);
    }
  }

  /** The header entries, concatenated and cleaned. */
  function CleanEntries(soap: Soap, security: string): string {
    (if soap.action != "" then Clean(ActionOpen) + Clean(soap.action) + "</Action>" else "")
    + (if soap.user != "" then Clean(security) else "")
  }

  /** The tags written around the header and the body hold no whitespace. */
  lemma TagsHaveNoSpace()
    ensures NoSpace("<s:Header>") && NoSpace("</s:Header>") && NoSpace("</Action>")
    ensures NoSpace(BodyOpen) && NoSpace(BodyClose)
  {
  }

  /** Cleaning a piece between two whitespace-free tags cleans the piece alone. */
  lemma CleanBetween(a: string, s: string, b: string)
    requires |a| > 0 && NoSpace(a) && |b| > 0 && NoSpace(b)
    requires Trimmed(s)
    ensures Clean(a + s + b) == a + Clean(s) + b
  {
    CleanAround(a, s, b);
    CleanKeepsSpaceless(a);
    CleanKeepsSpaceless(b);
  }

  /** Cleaning a piece before a whitespace-free tag cleans the two sides apart. */
  lemma CleanBefore(a: string, s: string, b: string)
    requires |a| > 0 && !IsSpace(a[|a| - 1])
    requires |b| > 0 && NoSpace(b)
    requires Trimmed(s)
    ensures Clean(a + s + b) == Clean(a) + Clean(s) + b
  {
    CleanAround(a, s, b);
    CleanKeepsSpaceless(b);
  }

  /**
   * The Security element cleans field by field: the token's username,
   * password digest, nonce and creation time reach the request as they are
   * cleaned alone, between the cleaned fixed parts of the template.
   */
  lemma CleanSecurityElement(t: UsernameToken)
    requires Trimmed(t.username) && Trimmed(t.passwordDigest) && Trimmed(t.nonce) && Trimmed(t.created)
    ensures Clean(SecurityElement(t))
      == Clean(SecurityOpen) + Clean(t.username) + Clean(PasswordOpen) + Clean(t.passwordDigest)
         + Clean(NonceOpen) + Clean(t.nonce) + Clean(CreatedOpen) + Clean(t.created) + Clean(SecurityClose)
  {
    SecurityPartsEnds();
    var a1 := SecurityOpen + t.username + PasswordOpen;
    var a2 := a1 + t.passwordDigest + NonceOpen;
    var a3 := a2 + t.nonce + CreatedOpen;
    CleanAround(a3, t.created, SecurityClose);
    CleanAround(a2, t.nonce, CreatedOpen);
    CleanAround(a1, t.passwordDigest, NonceOpen);
    CleanAround(SecurityOpen, t.username, PasswordOpen);
  }

  /** Each fixed part of the Security template starts with '<' and ends with '>'. */
  lemma SecurityPartsEnds()
    ensures SecurityOpen[|SecurityOpen| - 1] == '>'
    ensures PasswordOpen[0] == '<' && PasswordOpen[|PasswordOpen| - 1] == '>'
    ensures NonceOpen[0] == '<' && NonceOpen[|NonceOpen| - 1] == '>'
    ensures CreatedOpen[0] == '<' && CreatedOpen[|CreatedOpen| - 1] == '>'
    ensures SecurityClose[0] == '<'
  {
  }

  /** The Action element cleans to its cleaned start tag, the cleaned action and the end tag. */
  lemma CleanActionElement(action: string)
    requires Trimmed(action)
    ensures Clean(ActionElement(action)) == Clean(ActionOpen) + Clean(action) + "</Action>"
  {
    assert ActionOpen[|ActionOpen| - 1] == '>';
    TagsHaveNoSpace();
    CleanBefore(ActionOpen, action, "</Action>");
  }

  /** The header entries start and end with a tag, and clean entry by entry. */
  lemma CleanHeaderEntries(soap: Soap, security: string)
    requires Trimmed(soap.action)
    requires soap.user != "" ==> |security| > 0 && security[0] == '<' && security[|security| - 1] == '>'
    ensures var e := Concat(HeaderEntries(soap, security));
      Trimmed(e) && Clean(e) == CleanEntries(soap, security)
  {
    ConcatOfTwo(soap, security);
    if soap.action != "" {
      CleanActionElement(soap.action);
      if soap.user != "" {
        CleanConcat(ActionElement(soap.action), security);
      } else {
        assert ActionElement(soap.action) + "" == ActionElement(soap.action);
      }
    } else {
      assert "" + (if soap.user != "" then security else "") == (if soap.user != "" then security else "");
    }
  }

  /** The header is empty or the `s:Header` element around the cleaned entries. */
  lemma CleanHeader(soap: Soap, security: string)
    requires Trimmed(soap.action)
    requires soap.user != "" ==> |security| > 0 && security[0] == '<' && security[|security| - 1] == '>'
    ensures var h := Header(soap, security);
      Trimmed(h)
      && Clean(h) ==
         if soap.action == "" && soap.user == "" then ""
         else "<s:Header>" + CleanEntries(soap, security) + "</s:Header>"
  {
    var h := Header(soap, security);
    if h == "" {
      CleanKeepsSpaceless(h);
    } else {
      var e := Concat(HeaderEntries(soap, security));
      CleanHeaderEntries(soap, security);
      TagsHaveNoSpace();
      CleanBetween("<s:Header>", e, "</s:Header>");
    }
  }

  /**
   * The cleaned request in terms of its cleaned parts: the root tag, the
   * header (present exactly when there is an action or a user, Action before
   * Security), and the body between `<s:Body>` and `</s:Body>`. A body that
   * is already clean therefore arrives verbatim.
   */
  lemma CleanRequestLayout(soap: Soap, security: string)
    requires Trimmed(soap.body) && Trimmed(soap.action)
    requires soap.user != "" ==> |security| > 0 && security[0] == '<' && security[|security| - 1] == '>'
    ensures Clean(RawEnvelope(soap, security)) ==
      Clean(Root(soap.xmlns))
      + (if soap.action == "" && soap.user == "" then ""
         else "<s:Header>" + CleanEntries(soap, security) + "</s:Header>")
      + BodyOpen + Clean(soap.body) + BodyClose
  {
    CleanHeader(soap, security);
    CleanEnvelope(Root(soap.xmlns), Header(soap, security), soap.body,
      if soap.action == "" && soap.user == "" then "" else "<s:Header>" + CleanEntries(soap, security) + "</s:Header>");
  }

  /** Cleaning an envelope whose root ends in a tag and whose header and body are trimmed. */
  lemma CleanEnvelope(root: string, header: string, body: string, cleanHeader: string)
    requires |root| > 0 && root[|root| - 1] == '>'
    requires Trimmed(header) && Clean(header) == cleanHeader
    requires Trimmed(body)
    ensures Clean(root + header + "<s:Body>" + body + "</s:Body>" + "</s:Envelope>") ==
      Clean(root) + cleanHeader + BodyOpen + Clean(body) + BodyClose
  {
    var front := root + header + BodyOpen;
    assert root + header + "<s:Body>" + body + "</s:Body>" + "</s:Envelope>" == front + body + BodyClose;
    TagsHaveNoSpace();
    CleanBefore(front, body, BodyClose);
    CleanBefore(root, header, BodyOpen);
  }

  /** A cleaned request needs no further cleaning. */
  lemma CleanRequestIsFixed(soap: Soap, security: string)
    ensures Clean(Clean(RawEnvelope(soap, security))) == Clean(RawEnvelope(soap, security))
  {
    CleanIdempotent(RawEnvelope(soap, security));
  }

  // ---------------------------------------------------------------------------
  // SendRequest (soap.go:30-81)
  // ---------------------------------------------------------------------------

  /** The user-info part of a URL. */
  datatype Userinfo = Userinfo(username: string, password: string)

  /** A parsed URL; `location` stands for every other component, which the client never touches. */
  datatype Url = Url(user: Option<Userinfo>, location: string)

  /** The POST the client sends. */
  datatype HttpRequest = HttpRequest(
    httpMethod: string,
    url: Url,
    headers: seq<(string, string)>,
    body: Bytes,
    timeoutSeconds: nat)

  /** URL parsing, the HTTP exchange with its 3-second client, and the XML decoder with its error message. */
  datatype Transport = Transport(
    parseUrl: string -> Result<Url, Error>,
    post: HttpRequest -> Result<Bytes, Error>,
    parseXml: Bytes -> Result<Document, string>)

  const FaultPath: string := "Envelope.Body.Fault.Reason.Text.#text"

  /** The reason text of a SOAP Fault (section 5.4.2 of SOAP 1.2 Part 1), or "" when there is none. */
  function FaultReason(doc: Document): string {
    ValueForPathString(doc, FaultPath)
  }

  /** The URL with the credentials put in its user-info, when there is a user (soap.go:39-41). */
  function WithCredentials(u: Url, soap: Soap): (r: Url)
    ensures soap.user != "" ==> r.user == Some(Userinfo(soap.user, soap.password))
    ensures soap.user == "" ==> r == u
    ensures r.location == u.location
  {
    if soap.user != "" then u.(user := Some(Userinfo(soap.user, soap.password))) else u
  }

  const SoapHeaders: seq<(string, string)> := [("Content-Type", "application/soap+xml"), ("Charset", "utf-8")]

  /**
   * What sending `request` to `xaddr` yields (soap.go:34-80): `sent` is the
   * POST handed to the transport, None when the address does not parse; `r`
   * is the first error met, a SOAP Fault with a reason text turned into an
   * error carrying exactly that text, or the decoded answer.
   */
  predicate Exchanged(request: string, soap: Soap, xaddr: string, net: Transport,
                      r: Result<Document, Error>, sent: Option<HttpRequest>)
  {
    match net.parseUrl(xaddr)
    case Failure(e) => sent == None && r == Failure(e)
    case Success(u) =>
      var req := HttpRequest("POST", WithCredentials(u, soap), SoapHeaders, Encode(request), 3);
      sent == Some(req) &&
      match net.post(req)
      case Failure(e) => r == Failure(e)
      case Success(bytes) =>
        match net.parseXml(bytes)
        case Failure(e) => r == Failure(XmlError(e))
        case Success(doc) =>
          r == if FaultReason(doc) != "" then Failure(SoapFault(FaultReason(doc))) else Success(doc)
  }

  /** The outcome of an exchange is determined by the request and the transport. */
  lemma ExchangedDeterministic(request: string, soap: Soap, xaddr: string, net: Transport,
                               r1: Result<Document, Error>, s1: Option<HttpRequest>,
                               r2: Result<Document, Error>, s2: Option<HttpRequest>)
    requires Exchanged(request, soap, xaddr, net, r1, s1)
    requires Exchanged(request, soap, xaddr, net, r2, s2)
    ensures r1 == r2 && s1 == s2
  {
  }

  /**
   * A successful exchange never returns a document holding a fault reason,
   * and a fault reason in the answer is exactly the error text returned.
   */
  lemma ExchangedFaults(request: string, soap: Soap, xaddr: string, net: Transport,
                        r: Result<Document, Error>, sent: Option<HttpRequest>)
    requires Exchanged(request, soap, xaddr, net, r, sent)
    ensures r.Success? ==> FaultReason(r.value) == ""
    ensures r.Success? ==>
              sent.Some? && net.post(sent.value).Success?
              && net.parseXml(net.post(sent.value).value) == Success(r.value)
    ensures sent.Some? ==>
              sent.value.url.user ==
                if soap.user != "" then Some(Userinfo(soap.user, soap.password))
                else net.parseUrl(xaddr).value.user
    ensures sent.Some? ==> Decode(sent.value.body) == Some(request)
    ensures sent.Some? && net.post(sent.value).Success?
            && net.parseXml(net.post(sent.value).value).Success?
            && FaultReason(net.parseXml(net.post(sent.value).value).value) != "" ==>
              r == Failure(SoapFault(FaultReason(net.parseXml(net.post(sent.value).value).value)))
  {
    if sent.Some? {
      DecodeEncode(request);
    }
  }

  /** soap.go:34-80: everything SendRequest does once the request is built. */
  method Exchange(request: string, soap: Soap, xaddr: string, net: Transport)
    returns (r: Result<Document, Error>, sent: Option<HttpRequest>)
    ensures Exchanged(request, soap, xaddr, net, r, sent)
  {
    var parsed := net.parseUrl(xaddr);
    if parsed.Failure? {
      return Failure(parsed.error), None;
    }
    var url := parsed.value;
    if soap.user != "" {
      url := url.(user := Some(Userinfo(soap.user, soap.password)));
    }
    var req := HttpRequest("POST", url, SoapHeaders, Encode(request), 3);
    sent := Some(req);
    var response := net.post(req);
    if response.Failure? {
      return Failure(response.error), sent;
    }
    var answer := net.parseXml(response.value);
    if answer.Failure? {
      return Failure(XmlError(answer.error)), sent;
    }
    var fault := FaultReason(answer.value);
    if fault != "" {
      return Failure(SoapFault(fault)), sent;
    }
    return Success(answer.value), sent;
  }

  /**
   * SendRequest: builds the request with a fresh token, then sends it and
   * interprets the answer.
   */
  method SendRequest(soap: Soap, xaddr: string, nonce: Bytes, now: int, prim: Primitives, net: Transport)
    returns (r: Result<Document, Error>, sent: Option<HttpRequest>)
    ensures Exchanged(Clean(RawEnvelope(soap, CreateUserToken(soap, nonce, now, prim))), soap, xaddr, net, r, sent)
  {
    var request := CreateRequest(soap, nonce, now, prim);
    r, sent := Exchange(request, soap, xaddr, net);
  }
}
