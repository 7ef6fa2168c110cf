# go-onvif core, modelled in Dafny

This project models the protocol core of the go-onvif ONVIF client and proves properties of it. It covers four parts.

- **SOAP** (`soap.dfy`):
  - `createRequest` builds the SOAP 1.2 envelope: the root tag with the caller's namespaces, an optional header, the body verbatim, then the two whitespace rewrites `>\s+<` → `><` and `\s+` → space.
  - `createUserToken` writes the WS-Security UsernameToken with a PasswordDigest, as in section 3.1 of the OASIS WSS UsernameToken Profile 1.0.
  - `SendRequest` decides the outcome: credentials go in the URL's user-info, and a SOAP Fault reason text becomes the error, as in section 5.4.2 of SOAP 1.2 Part 1.
- **WS-Discovery** (`discovery.dfy`):
  - building the probe and its message ID;
  - `readDiscoveryResponse`: correlation through `RelatesTo`, the device ID, name and first XAddr;
  - the `discoverDevices` set-up and its read loop over a sequence of read results;
  - the address selection of `StartDiscovery`.
- **Converters** (`utils.dfy`, backed by `strconv.dfy`, `text.dfy` and `utf8.dfy`):
  - `interfaceToString`, `interfaceToBool`, `interfaceToInt`, `intToString` and `boolToString`;
  - `CheckAuthorizedError`.
  - The Go library functions they rest on are modelled in the supporting files: `strconv.Atoi`, `strconv.Itoa`, `strings.ToLower`, `Index`, `Replace`, `Split` and `[]byte(string)`.
- **Device service** (`device.dfy`):
  - the bodies of `SetSystemDateAndTime`, `SetNTP` and `SetDNS`;
  - the per-item loops of `SetScopes`, `AddScopes`, `RemoveScopes` and `DeleteUsers`;
  - `GetCapabilities` on a decoded answer, including its Events and StreamingCapabilities key rewriting.

The whitespace rewrites are modelled in `normalize.dfy`. `values.dfy` stands for the decoded XML document: a map from dot path to value. `model.dfy` holds the `Device` record.

Things the code gets from outside are parameters:
- the UUID, the clock, SHA-1, base64 and the RFC 3339 formatter (`Soap.Primitives`);
- URL parsing, the HTTP exchange and the XML decoder (`Soap.Transport`);
- the UDP socket calls and the successive reads (`Discovery.Udp`);
- the interface's address list (`Discovery.StartDiscovery`'s `lookup`).

Go's map iteration order is unspecified. The two map loops of `GetCapabilities` therefore pick their next key arbitrarily (`:|`), and their contracts hold for every order.

## Model

| member | source | states |
|---|---|---|
| Soap.UserToken | soap.go:123-143 | The token's Username is the user verbatim. Created is the RFC 3339 rendering of now plus the token age. Password is Base64(SHA-1(nonce + created + password)) for that same Created. Nonce is Base64 of the raw nonce. |
| Soap.DigestInputParts | soap.go:124-131 | The hashed bytes are the 16 raw nonce bytes, followed by bytes that decode to exactly the timestamp then the password, with nothing between them. |
| Soap.SecurityElement | soap.go:135-142 | The Security element is a tag: it starts with `<` and ends with `>`, so it can sit in the header next to the Action element. |
| Soap.CleanSecurityElement | soap.go:135-142 | With trimmed fields, the cleaned Security element is the cleaned fixed template with the token's Username, Password digest, Nonce and Created each cleaned alone in its own slot, in that order. So the digest that Soap.UserToken ties to the nonce, the creation time and the password is what the request carries. |
| Soap.NamespaceAttributesJoin | soap.go:89-91 | The namespace text is the declarations in input order, each preceded by one space. |
| Soap.NamespaceAttributesSplit | soap.go:89-91 | When no declaration holds a space, splitting the namespace text at spaces gives back "" followed by every declaration, in order. |
| Soap.Root | soap.go:85-92 | The XML declaration and root tag start with `<` and end with `>`. |
| Soap.WriteRoot | soap.go:85-92 | The loop that appends one space and one declaration per namespace yields exactly the root tag. |
| Soap.ActionElement | soap.go:98-101 | The Action element starts with `<` and ends with `>`. |
| Soap.HeaderEntriesMeaning | soap.go:95-108 | The Action entry is present iff the action is non-empty. The Security entry is present iff the user is non-empty. The Action comes first. |
| Soap.HeaderPresent | soap.go:95-108 | The header is emitted iff the action or the user is non-empty. |
| Soap.HeaderShape | soap.go:95-108 | The header is "" or `<s:Header>` around the Action element, if any, followed by the Security element, if any. |
| Soap.WriteHeader | soap.go:95-108 | The header-writing code appends exactly the header to the request. |
| Soap.CreateRequest | soap.go:83-121 | createRequest returns the cleaned form of root + optional header + `<s:Body>` + body + `</s:Body>` + `</s:Envelope>`. |
| Soap.CleanRequestLayout | soap.go:110-118 | When the body and action are trimmed, the cleaned request is the cleaned root, the cleaned header (present iff action or user), `<s:Body>`, the cleaned body, and the closing tags. An already-clean body therefore arrives verbatim. |
| Soap.CleanEnvelope | soap.go:111-118 | Cleaning an envelope cleans its root, header and body separately around the fixed tags. |
| Soap.CleanHeader | soap.go:95-118 | The header is trimmed, and cleans to "" or to `<s:Header>` around the cleaned entries. |
| Soap.CleanRequestIsFixed | soap.go:116-118 | Cleaning the finished request again changes nothing. |
| Soap.WithCredentials | soap.go:39-41 | With a user, the URL's user-info is that user and password. Without a user, the URL is unchanged. Other components are never touched. |
| Soap.ExchangedFaults | soap.go:39-80 | A successful result is the decoded answer and holds no fault reason. The POST's user-info is the user and password when there is a user, and the parsed URL's own otherwise. The POST's body decodes back to the request. When the answer decodes to a document with a non-empty fault reason, the result is a SoapFault error with exactly that reason. |
| Soap.ExchangedDeterministic | soap.go:34-80 | The outcome and the POST sent depend only on the request, the address and the transport. |
| Soap.Exchange | soap.go:34-80 | The sending steps meet Exchanged: an unparsable address or a failed POST or decode is the error, and a non-empty fault reason becomes an error carrying exactly that text. Otherwise the result is the decoded answer. |
| Soap.SendRequest | soap.go:30-81 | SendRequest sends the createRequest result for the given nonce and time, with Exchanged's outcome. |
| Normalize.CloseTagGapsGapFree | soap.go:117 | After the first rewrite, no `>` is followed by whitespace and then `<`. |
| Normalize.CloseTagGapsEnds | soap.go:117 | The first rewrite keeps the first and the last character. |
| Normalize.CollapseSpacesShape | soap.go:118 | After the second rewrite, every whitespace character is a space and no two spaces are adjacent. |
| Normalize.CollapseSpacesEnds | soap.go:118 | The second rewrite never lengthens its input, and empties only "". It keeps the ends, except that whitespace becomes a space. |
| Normalize.CleanIsClean | soap.go:117-118 | A cleaned string has only single spaces and no space between `>` and `<`. |
| Normalize.CleanFixesClean | soap.go:117-118 | Cleaning leaves a clean string unchanged. |
| Normalize.CleanIdempotent | soap.go:117-118 | Cleaning twice is cleaning once. |
| Normalize.CleanKeepsSpaceless | soap.go:117-118 | A string without whitespace is unchanged by cleaning. |
| Normalize.CleanConcat | soap.go:117-118 | Cleaning works separately on the two sides of a boundary between two non-space characters. |
| Normalize.CleanAround | soap.go:117-118 | A trimmed piece between two non-space characters cleans separately from them. |
| Normalize.CleanKeepsEnds | soap.go:117-118 | Cleaning keeps a first and last character that are not whitespace. |
| Discovery.RequestIdNoSpace | discovery.go:50-51 | A message ID built from a UUID without whitespace is non-empty and has no whitespace. |
| Discovery.ProbeCarriesRequestId | discovery.go:51-74 | The probe is the cleaned template head, the message ID verbatim, then the cleaned template tail. The ID compared with RelatesTo is therefore the one sent. |
| Discovery.ProbeStartsWithSpace | discovery.go:52-74 | The probe begins with a space, not with the XML declaration. |
| Discovery.ScopesNameFirst | discovery.go:160-168 | The name comes from the first scope with the name prefix: the prefix is cut off and every `_` becomes a space. With no such scope the name is "". The name never holds `_`. |
| Discovery.FindDeviceName | discovery.go:160-168 | The find-first loop with `break` yields ScopesName. |
| Discovery.ReadDiscoveryResponse | discovery.go:139-183 | readDiscoveryResponse returns DiscoveryReply's device and error. |
| Discovery.DiscoveryReplyErrors | discovery.go:143-175 | A decoding error is passed on. A reply is rejected as unrelated iff RelatesTo differs from the message ID. Every error comes with the empty device. The "no xAddr" error never occurs. |
| Discovery.DiscoveryReplyDevice | discovery.go:155-182 | For a related reply: the ID is the address with its first "urn:uuid:" removed wherever it occurs (Text.ReplaceFirst, with n = 1). An address starting with it loses exactly that prefix, and one without it is kept. The name is the first name scope's. The XAddr is XAddrs up to its first space, "" for an empty XAddrs. The credentials are empty. |
| Discovery.Buffer | discovery.go:112-113 | The decoded buffer is 10 KiB: the datagram, truncated if longer, then zero bytes. |
| Discovery.ListenOrder | discovery.go:106-135 | There is one device per accepted read, in arrival order, each the reply to that read (an unrelated reply gives the empty device). Devices for all reads means no error. Otherwise the read after the devices is the one that stopped the loop. |
| Discovery.ListenAccepted | discovery.go:126-132 | An accepted read puts its reply's device ahead of the rest, and the error is the rest's. |
| Discovery.ListenError | discovery.go:110-135 | The loop ends without error iff it ran out of reads or stopped at a timeout. A non-timeout read error is returned as is. A decoding failure of the stopping datagram is returned as its error. |
| Discovery.ListenStopsAtUndecodable | discovery.go:124-128 | A datagram that does not decode ends the loop there, with the devices of the reads before it and the decoder's error. The decoder's error is never errWrongDiscoveryResponse, so it is never skipped. |
| Discovery.ReadLoop | discovery.go:106-135 | The read loop's devices and error are Listen's. |
| Discovery.SendProbe | discovery.go:75-135 | The first failing resolve, listen, deadline or write call is the error, with no devices. Otherwise the outcome is the read loop's. |
| Discovery.DiscoverDevices | discovery.go:48-136 | discoverDevices sends the probe built from the UUID and correlates replies with its message ID, as Discover specifies. |
| Discovery.To4 | discovery.go:31 | An IPv4 address has four bytes. |
| Discovery.LastIPv4 | discovery.go:25-36 | The chosen address is IPv4 and not loopback. |
| Discovery.LastIPv4Meaning | discovery.go:25-36 | An address is chosen iff some address is usable, and then it is the last usable one. |
| Discovery.PickIPv4 | discovery.go:26-36 | The loop that overwrites the choice at every usable address yields LastIPv4. |
| Discovery.IPv4StringReadsBack | discovery.go:43 | Splitting the dotted form at the dots gives four decimal pieces that read back to the four bytes. |
| Discovery.StartDiscovery | discovery.go:18-46 | A lookup failure is returned with no devices. Otherwise the error is always nil. With no usable address there are no devices. Otherwise the devices are those discovered from the last usable address's dotted form. |
| Utils.InterfaceToStringCases | utils.go:16-19 | A string value gives its text, and any other value gives "". |
| Utils.InterfaceToBoolAccepts | utils.go:21-24 | True iff the value is a string spelling "true" in any mix of cases. Non-strings give false. |
| Utils.LowerCharToAscii | utils.go:23 | A character lowers to an ASCII letter other than i and k iff it is that letter or its capital. |
| Utils.BoolRoundTrip | utils.go:21-59 | boolToString then interfaceToBool gives back the boolean: interfaceToBool(boolToString(b)) == b. |
| Utils.IntRoundTrip | utils.go:26-46 | intToString then interfaceToInt gives back the number: interfaceToInt(intToString(n)) == n for every 64-bit n. |
| Utils.InterfaceToIntWellFormed | utils.go:26-30 | A well-formed decimal (optional sign, digits) reads as its value, clamped to 64 bits. |
| Utils.InterfaceToIntMalformed | utils.go:26-30 | A malformed string reads as 0, unless its leading digits overflow first. A non-string also reads as 0. |
| Utils.CheckAuthorizedErrorMeaning | utils.go:62-65 | True iff "authorized" occurs somewhere in the lower-cased message. |
| Utils.CheckAuthorizedErrorIgnoresCase | utils.go:62-65 | A message and its lower-case form are classified alike. |
| Utils.CheckAuthorizedErrorAt | utils.go:62-65 | Any message containing "authorized" in any mix of cases is an authorization error, so "Unauthorized" and "Not Authorized" both match. |
| Strconv.Itoa | utils.go:43-46 | strconv.Itoa writes a minus sign iff the number is negative, and otherwise the decimal digits without leading zeros. |
| Strconv.AtoiItoa | utils.go:26-46 | Atoi reads back every 64-bit int that Itoa writes, without error. |
| Strconv.AtoiWellFormed | utils.go:26-30 | A well-formed number parses to its value clamped to 64 bits. There is an error exactly when it was clamped, and that error is a range error. |
| Strconv.AtoiMalformed | utils.go:26-30 | A string Atoi does not accept parses to 0 with a syntax error, unless its leading digits overflow first. |
| Strconv.ScanUintOutcome | utils.go:26-30 | ParseUint's digit loop is decided by the leading digits alone. A value past 2^64-1 is a range error. Otherwise any character after the digits is a syntax error, and otherwise the result is their value. |
| Strconv.DigitsValueOfDigits | utils.go:43-46 | Reading back the digits Itoa writes gives the number. |
| Text.IndexOf | utils.go:64 | strings.Index gives the first occurrence, or -1 exactly when there is none. |
| Text.Lower | utils.go:63 | strings.ToLower keeps the length and lowers each character. |
| Text.LowerIdempotent | utils.go:63 | Lowering twice is lowering once. |
| Text.LowerConcat | utils.go:63 | Lowering distributes over concatenation. |
| Text.ReplaceFirst | discovery.go:157 | strings.Replace with n = 1 leaves a string without the pattern unchanged, and otherwise replaces exactly the first occurrence. |
| Text.ReplaceFirstAtStart | discovery.go:164 | Removing a pattern the string starts with takes it off the front. |
| Text.ReplaceChar | discovery.go:165 | Every occurrence of the character is replaced, the rest are kept, and the length is kept. |
| Text.ReplaceCharInjective | device.go:203 | Replacing `_` with a space loses nothing when no input holds a space. |
| Text.Split | discovery.go:162 | strings.Split returns at least one piece, and no piece holds the separator. |
| Text.SplitJoin | discovery.go:172 | Joining the pieces with the separator gives back the string. |
| Text.JoinSplit | discovery.go:172 | Splitting joined pieces without the separator gives back the pieces. |
| Text.SplitFirst | discovery.go:171-180 | The first piece is the prefix up to the first separator, or the whole string. |
| Utf8.EncodeChar | soap.go:44 | A character is one to four bytes. |
| Utf8.DecodeEncode | soap.go:44 | `[]byte(s)` decodes back to s. |
| Utf8.EncodeInjective | soap.go:44 | Different strings have different bytes. |
| Utf8.EncodeConcat | soap.go:128-131 | The bytes of a concatenation are the concatenation of the bytes. |
| DeviceService.SetSystemDateAndTimeBody | device.go:378-411 | The manual template is used iff DateTimeType is exactly "Manual". Otherwise the body is the NTP head, then the TimeZone element if any, then the closing tag. |
| DeviceService.DateTimeHeadShared | device.go:382-404 | Both branches start with the same head. |
| DeviceService.DateTimeHeadFields | device.go:382-404 | The head carries DateTimeType verbatim, and the DaylightSavings flag in a form interfaceToBool reads back. |
| DeviceService.ManualBodyFields | device.go:385-397 | The manual body carries the TZ verbatim, and the hour, minute, second, year, month and day written by intToString. |
| DeviceService.UtcOnlyWhenManual | device.go:381-411 | The manual body text contains `<UTCDateTime>`. The NTP body text does not, as long as the DateTimeType and the time zone, which are copied in verbatim, hold no `<`. |
| DeviceService.NtpTimeZone | device.go:401-411 | In the NTP branch, the TimeZone element is written iff TZ is non-empty. Otherwise the body is just the head and the closing tag. |
| DeviceService.SetNtpBodyDhcp | device.go:523-524 | The SetNTP body carries the DHCP flag as boolToString writes it. |
| DeviceService.SetNtpBodyHost | device.go:526-528 | The SetNTP body carries the first host's type, IPv4 address and DNS name verbatim. |
| DeviceService.SetNtpFirstHostOnly | device.go:526-528 | Hosts after the first do not change the body. |
| DeviceService.SetDnsBodySettings | device.go:642-643 | The SetDNS body carries the DHCP flag as boolToString writes it, and the search domain verbatim. |
| DeviceService.SetDnsBodyAddress | device.go:645-646 | The SetDNS body carries the first server's type and IPv4 address verbatim. |
| DeviceService.SetDnsFirstAddressOnly | device.go:645-646 | Servers after the first do not change the body. |
| DeviceService.WrapAllSnoc | device.go:797-799 | Wrapping one more item appends its element. |
| DeviceService.WrapEach | device.go:797-799 | The `+=` loop yields every item wrapped in its own element, in order. |
| DeviceService.UnwrapElement | device.go:798 | One element whose item has no `<` reads back from the front of a text. |
| DeviceService.UnwrapWrapAll | device.go:796-799 | When no item holds `<`, the wrapped text reads back to exactly the items: each was wrapped once and in order. |
| DeviceService.SetScopesBody | device.go:796-806 | The SetScopes body is one Scopes element per scope, in order, inside SetScopes. An empty list gives an empty SetScopes. |
| DeviceService.AddScopesBody | device.go:825-835 | The AddScopes body is one ScopeItem element per scope, in order. |
| DeviceService.RemoveScopesBody | device.go:854-863 | The RemoveScopes body is one ScopeItem element per scope, in order. |
| DeviceService.DeleteUsersBody | device.go:997-1006 | The DeleteUsers body is one Username element per name, in order. |
| DeviceService.EventsStepXAddr | device.go:183-186 | An "xaddr" key in any case replaces the address and leaves the events as they are. |
| DeviceService.EventsStepEvent | device.go:188-189 | Any other key is stored under its event key with its value, and the address stays. |
| DeviceService.EventsFromFields | device.go:181-191 | In any key order: the address comes from an "xaddr" key in any case, or is "" without one. Every other key, with its first "WS" removed, is an event key, and there are no others. Each value is that of a key with that event key. A key that shares its event key with no other keeps its own value. |
| DeviceService.StreamStep | device.go:202-204 | Storing one key keeps the stored keys equal to the visited keys with `_` turned into spaces, each value that of such a key. |
| DeviceService.StreamingUnique | device.go:202-204 | When no key holds a space, every key keeps its own value. |
| DeviceService.StreamingFromFields | device.go:200-206 | In any key order: the keys are the children's keys with every `_` turned into a space, each holding the value of a key that has it. When no key holds a space, each key keeps its own value. |
| DeviceService.GetCapabilities | device.go:162-237 | A missing Device.Network, Media.StreamingCapabilities or Media is the error, checked in that order, and success holds iff all three are present. The network flags come from their children. Events and PTZ are optional: no Events element gives an empty events address and a nil events map. Events and streaming keys are rewritten as EventsFromFields and StreamingFromFields state. |

## Left out

- The HTTP client (soap.go:44-64), the UDP socket (discovery.go:77-113) and the interface lookup (discovery.go:19-25) are parameters. Their timeouts, the 3-second client and the discovery duration appear only as the results those calls return.
- SHA-1, base64, UUID generation, `time.Now` and the RFC 3339 formatter are uninterpreted parameters. The model states what is hashed and encoded, not the algorithms.
- The mxj XML decoder and its path lookup are not part of this model. A decoded document is a map from dot path to value, and list values at a path are not modelled. The decoder is a parameter that returns a document or its error message. The model wraps that message as `XmlError`, a value distinct from every error the package itself defines, as Go's identity comparison with errWrongDiscoveryResponse sees it.
- `glog` logging, `prettyJSON`, `interfaceToFloat64` and `float64ToString` (utils.go:32-41, 48-51) are not modelled: they are logging, JSON and floating point.
- The device operations' `SendRequest` call and the response check after each body is built are not repeated. They are Soap.SendRequest followed by a path lookup. The same holds for RemoveScopes's reading of the answer.
- `SetNTP` and `SetDNS` index the first entry of their list. The model requires a non-empty list (SetNtpBody, SetDnsBody) instead of modelling Go's index panic.
- DeviceService.SetNtpBodyDhcp and DeviceService.SetDnsBodySettings state that the flag is written by boolToString. They do not repeat the read-back, which Utils.BoolRoundTrip proves for every flag.
- DeviceService.EventsFromFields: when two keys share an event key (for example "WSFoo" and "Foo"), the stored value depends on Go's map order. The contract therefore says only that the value is one of theirs.
- DeviceService.StreamingFromFields: two keys that collide after `_` becomes a space are covered the same way.
- The types `SystemDateAndTime`, `NTPInformation`, `DNSInformation`, `EventsCapabilities`, `MediaCapabilities` and `PTZCapabilities` are not part of the source files modelled here. Their fields follow their use in device.go, and `DeviceCapabilities` follows device.go:229-235 rather than model.go:30-34.
- Text.Lower follows Go's `unicode.ToLower` only for the characters whose lower case is ASCII (A-Z, U+0130, U+212A) and leaves every other character unchanged. Every comparison in the core is against an ASCII word, so those other characters never matter there.
- Go's `int` is taken to be 64 bits (Strconv.Int64).
- Go strings are byte strings. The model's strings are sequences of Unicode scalar values, so a user name, password, body or scope is taken to be valid UTF-8, and invalid byte sequences in them are not modelled.
- media.go, ptz.go, search.go, events.go, recording.go and lib_onvif.go are not part of this model.

## Behaviour worth knowing

The model follows the code in each of these cases. Each line says what a reader might expect instead and where that expectation comes from.

- The probe sent starts with a space. The template at discovery.go:52-74 begins with two tabs, a newline and two more tabs before the XML declaration, and cleaning turns that run into one space. An XML declaration is normally the first thing in a document (Discovery.ProbeStartsWithSpace).
- The code has an error for a reply without service addresses, "Device does not have any xAddr" (discovery.go:173-175), but it can never be returned. `strings.Split` never returns an empty list, so an empty XAddrs gives the XAddr "" instead (Discovery.DiscoveryReplyErrors, Discovery.DiscoveryReplyDevice).
- A reply to another probe is not dropped. `readDiscoveryResponse` rejects it with errWrongDiscoveryResponse, which suggests that it should be skipped, as WS-Discovery clients do with uncorrelated ProbeMatches. The loop at discovery.go:116-132 nevertheless appends the empty `Device{}` and goes on (Discovery.ListenOrder).
- A datagram that does not decode as XML aborts the whole discovery with that error, while an unrelated reply does not (Discovery.ListenError, Discovery.ListenStopsAtUndecodable).
- `StartDiscovery` returns a nil error when no usable interface address exists, so a caller cannot tell this case from a search that found nothing. It also drops the error of `discoverDevices` (Discovery.StartDiscovery).
