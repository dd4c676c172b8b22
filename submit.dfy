/**
 * `handleSubmit` (lines 269-317): picks the settings, the display name and
 * the protocol for the chosen resolver, turns down a custom list without
 * both address families, generates the profile and hands it to the
 * browser under a file name derived from the display name.
 */
module Submit {
  import opened Wrappers
  import opened Text
  import Uuid
  import opened Addresses
  import opened DnsDict
  import opened Profile

  datatype Provider = Quad9 | Cloudflare | Custom

  /** The custom form (lines 8-16); the field order is the order in which
      the spread at line 309 lists them. */
  datatype CustomDnsConfig = CustomDnsConfig(
    name: string,
    prohibitDisablement: bool,
    allowFailover: bool,
    dnsProtocol: Protocol,
    serverAddresses: seq<string>,
    serverName: string,
    serverURL: string)

  /** The state the form starts in (lines 20-28). */
  const InitialCustomConfig := CustomDnsConfig("", false, false, HTTPS, [""], "", "")

  const Quad9Url := "https://dns11.quad9.net/dns-query"
  const Quad9Addresses := ["9.9.9.9", "149.112.112.112", "2620:fe::fe", "2620:fe::9"]
  const CloudflareUrl := "https://security.cloudflare-dns.com/dns-query"
  const CloudflareAddresses := ["1.1.1.2", "1.0.0.2", "2606:4700:4700::1112", "2606:4700:4700::1002"]

  /** The MIME type the download is offered under. */
  const MimeType := "application/x-apple-aspen-config"

  /** What is handed to the browser: the document, the file name and the
      MIME type of the blob. */
  datatype Download = Download(content: string, fileName: string, mimeType: string)

  /** The protocol as the string the form stores. */
  function ProtocolText(protocol: Protocol): string {
    if protocol == HTTPS then "HTTPS" else "TLS"
  }

  /** The object literal of a preset: `DNSProtocol`, `ServerURL`,
      `ServerAddresses`, in that order. */
  function PresetSettings(url: string, addresses: seq<string>): seq<Entry> {
    [ Entry("DNSProtocol", Str(ProtocolText(HTTPS))),
      Entry("ServerURL", Str(url)),
      Entry("ServerAddresses", Arr(addresses)) ]
  }

  /** `{...customConfig, ServerAddresses: addresses}`: every form field
      under its own lower-case key, then the cleaned list. */
  function CustomSettings(c: CustomDnsConfig, addresses: seq<string>): seq<Entry> {
    [ Entry("name", Str(c.name)),
      Entry("prohibitDisablement", Bool(c.prohibitDisablement)),
      Entry("allowFailover", Bool(c.allowFailover)),
      Entry("dnsProtocol", Str(ProtocolText(c.dnsProtocol))),
      Entry("serverAddresses", Arr(c.serverAddresses)),
      Entry("serverName", Str(c.serverName)),
      Entry("serverURL", Str(c.serverURL)),
      Entry("ServerAddresses", Arr(addresses)) ]
  }

  /** `customConfig.name || "Custom"`. */
  function CustomName(name: string): (r: string)
    ensures r != []
    ensures r == "Custom" <==> name == [] || name == "Custom"
    ensures name != [] ==> r == name
  {
    if name == [] then "Custom" else name
  }

  /** `.replace(/\s/g, '-')`: every whitespace character, one by one. */
  function DashWhitespace(s: string): (r: string)
    ensures |r| == |s|
  {
    if s == [] then []
    else [if IsWhitespace(s[0]) then '-' else s[0]] + DashWhitespace(s[1..])
  }

  lemma {:induction false} DashWhitespaceAt(s: string)
    ensures forall i | 0 <= i < |s| :: DashWhitespace(s)[i] == if IsWhitespace(s[i]) then '-' else s[i]
  {
    if s != [] {
      DashWhitespaceAt(s[1..]);
      assert forall i | 1 <= i < |s| :: DashWhitespace(s)[i] == DashWhitespace(s[1..])[i - 1];
    }
  }

  /** The download name of line 316. */
  function FileName(name: string): string {
    DashWhitespace(ToLower(name)) + ".mobileconfig"
  }

  /** The file name keeps one character per character of the name: a dash
      for each whitespace character (runs are not collapsed), the
      lower-case letter otherwise; then the extension. */
  lemma FileNameLayout(name: string)
    ensures var f := FileName(name);
      |f| == |name| + 13 && f[|name|..] == ".mobileconfig" &&
      forall i | 0 <= i < |name| :: f[i] == if IsWhitespace(name[i]) then '-' else LowerChar(name[i])
  {
    ToLowerAt(name);
    DashWhitespaceAt(ToLower(name));
    var f := FileName(name);
    forall i | 0 <= i < |name|
      ensures f[i] == if IsWhitespace(name[i]) then '-' else LowerChar(name[i])
    {
      assert f[i] == DashWhitespace(ToLower(name))[i];
    }
  }

  /** What the switch of lines 274-313 settles on: the settings object,
      the display name and the protocol. */
  datatype Selection = Selection(settings: seq<Entry>, name: string, protocol: Protocol)

  /** The switch, with the early return of line 305 as `None`. */
  function Select(provider: Provider, custom: CustomDnsConfig): Option<Selection> {
    match provider
    case Quad9 => Some(Selection(PresetSettings(Quad9Url, Quad9Addresses), "Quad9", HTTPS))
    case Cloudflare => Some(Selection(PresetSettings(CloudflareUrl, CloudflareAddresses), "Cloudflare", HTTPS))
    case Custom =>
      var addresses := Clean(custom.serverAddresses);
      if Accepted(addresses) then
        Some(Selection(CustomSettings(custom, addresses), CustomName(custom.name), custom.dnsProtocol))
      else None
  }

  /** The document and download for a selection (lines 315-316). */
  function Produce(sha1: string -> Uuid.Digest, sel: Selection): Download {
    Download(MobileConfig(sha1, sel.settings, sel.name, sel.protocol), FileName(sel.name), MimeType)
  }

  /** What one press of the button hands to the browser. */
  function Submitted(sha1: string -> Uuid.Digest, provider: Provider, custom: CustomDnsConfig): Option<Download> {
    match Select(provider, custom)
    case None => None
    case Some(sel) => Some(Produce(sha1, sel))
  }

  /** The switch of `handleSubmit` (lines 274-313): assigns the settings,
      the name and the protocol, or gives up when a custom list lacks an
      address family. */
  method ChooseSettings(provider: Provider, custom: CustomDnsConfig) returns (sel: Option<Selection>)
    ensures sel == Select(provider, custom)
    ensures sel.None? <==> provider == Custom && !Accepted(Clean(custom.serverAddresses))
  {
    var config: seq<Entry>;
    var name: string;
    var protocol: Protocol;
    match provider {
      case Quad9 =>
        name := "Quad9";
        protocol := HTTPS;
        config := PresetSettings(Quad9Url, Quad9Addresses);
      case Cloudflare =>
        name := "Cloudflare";
        protocol := HTTPS;
        config := PresetSettings(CloudflareUrl, CloudflareAddresses);
      case Custom =>
        name := CustomName(custom.name);
        protocol := custom.dnsProtocol;
        var addresses := Clean(custom.serverAddresses);
        var hasIPv4 := HasIPv4(addresses);
        var hasIPv6 := HasIPv6(addresses);
        if !hasIPv4 || !hasIPv6 {
          return None;
        }
        config := CustomSettings(custom, addresses);
    }
    sel := Some(Selection(config, name, protocol));
  }

  /** `handleSubmit`: runs the switch, returns early when it gives up, and
      otherwise generates the profile and offers it under the derived file
      name. */
  method HandleSubmit(sha1: string -> Uuid.Digest, provider: Provider, custom: CustomDnsConfig)
    returns (download: Option<Download>)
    ensures download == Submitted(sha1, provider, custom)
  {
    var sel := ChooseSettings(provider, custom);
    if sel.None? {
      return None;
    }
    var d := Deliver(sha1, sel.value);
    download := Some(d);
  }

  /** Lines 315-316: generate the document for the selection and offer it
      under the derived file name. */
  method Deliver(sha1: string -> Uuid.Digest, sel: Selection) returns (d: Download)
    ensures d == Produce(sha1, sel)
  {
    var Selection(config, name, protocol) := sel;
    var mobileConfig := GenerateMobileConfig(sha1, config, name, protocol);
    d := Download(mobileConfig, FileName(name), MimeType);
  }

  /** Nothing is offered exactly when a custom list lacks an address
      family; the presets always produce a download. */
  lemma SubmittedNone(sha1: string -> Uuid.Digest, provider: Provider, custom: CustomDnsConfig)
    ensures Submitted(sha1, provider, custom).None? <==> provider == Custom && !Accepted(Clean(custom.serverAddresses))
  {
  }

  /** A download always carries the printed profile of its selection, under
      a file name as long as the display name plus the extension. */
  lemma SubmittedDownload(sha1: string -> Uuid.Digest, provider: Provider, custom: CustomDnsConfig)
    requires Select(provider, custom).Some?
    ensures var sel := Select(provider, custom).value;
      var d := Submitted(sha1, provider, custom);
      d.Some? &&
      d.value.content == Join(DocumentLines(Document(sha1, sel.settings, sel.name, sel.protocol)), '\n') &&
      d.value.fileName == FileName(sel.name) && |d.value.fileName| == |sel.name| + 13 &&
      d.value.mimeType == MimeType
  {
    var sel := Select(provider, custom).value;
    assert Submitted(sha1, provider, custom) == Some(Produce(sha1, sel));
    ProducedParts(sha1, sel);
  }

  /** What `Deliver` offers: the printed document, the file name and the
      profile MIME type. */
  lemma ProducedParts(sha1: string -> Uuid.Digest, sel: Selection)
    ensures var d := Produce(sha1, sel);
      d.content == Join(DocumentLines(Document(sha1, sel.settings, sel.name, sel.protocol)), '\n') &&
      d.fileName == FileName(sel.name) && |d.fileName| == |sel.name| + 13 &&
      d.mimeType == MimeType
  {
    MobileConfigPrintsDocument(sha1, sel.settings, sel.name, sel.protocol);
    FileNameLayout(sel.name);
  }

  /** A custom list that cleans down to fewer than two entries never
      produces a profile. */
  lemma ShortListRejected(sha1: string -> Uuid.Digest, custom: CustomDnsConfig)
    requires |Clean(custom.serverAddresses)| < 2
    ensures Select(Custom, custom) == None && Submitted(sha1, Custom, custom) == None
  {
    if Accepted(Clean(custom.serverAddresses)) {
      AcceptedNeedsTwoEntries(Clean(custom.serverAddresses));
    }
  }

  /** Which fields of the custom settings the serializer keeps. */
  lemma CustomSettingsFlags(c: CustomDnsConfig, addresses: seq<string>)
    ensures var s := CustomSettings(c, addresses);
      !Kept(s[0]) && Kept(s[1]) && Kept(s[2]) && Kept(s[3]) && !Kept(s[4]) &&
      (Kept(s[5]) <==> c.serverName != []) && (Kept(s[6]) <==> c.serverURL != []) && Kept(s[7])
  {
    assert "serverAddresses"[0] != "ServerAddresses"[0];
  }

  /** Filtering a list that starts with `e`. */
  lemma KeptCons(e: Entry, rest: seq<Entry>)
    ensures KeptEntries([e] + rest) == (if Kept(e) then [e] else []) + KeptEntries(rest)
  {
    assert ([e] + rest)[1..] == rest;
  }

  /** The first five fields of the custom object: the name and the raw
      address list are dropped, the switches and the protocol kept. */
  lemma KeptCustomHead(e0: Entry, e1: Entry, e2: Entry, e3: Entry, e4: Entry)
    requires !Kept(e0) && Kept(e1) && Kept(e2) && Kept(e3) && !Kept(e4)
    ensures KeptEntries([e0, e1, e2, e3, e4]) == [e1, e2, e3]
  {
    assert KeptEntries([e4]) == [] by {
      KeptCons(e4, []);
      assert [e4] == [e4] + [];
    }
    assert KeptEntries([e3, e4]) == [e3] by { KeptCons(e3, [e4]); }
    assert KeptEntries([e2, e3, e4]) == [e2, e3] by { KeptCons(e2, [e3, e4]); }
    assert KeptEntries([e1, e2, e3, e4]) == [e1, e2, e3] by { KeptCons(e1, [e2, e3, e4]); }
    KeptCons(e0, [e1, e2, e3, e4]);
    assert [e0, e1, e2, e3, e4] == [e0] + [e1, e2, e3, e4];
  }

  /** The last three fields: server name and URL when kept, then the
      cleaned list. */
  lemma KeptCustomTail(e5: Entry, e6: Entry, e7: Entry)
    requires Kept(e7)
    ensures KeptEntries([e5, e6, e7]) ==
      (if Kept(e5) then [e5] else []) + (if Kept(e6) then [e6] else []) + [e7]
  {
    assert KeptEntries([e7]) == [e7] by {
      KeptCons(e7, []);
      assert [e7] == [e7] + [];
    }
    assert KeptEntries([e6, e7]) == (if Kept(e6) then [e6] else []) + [e7] by { KeptCons(e6, [e7]); }
    KeptCons(e5, [e6, e7]);
    assert [e5, e6, e7] == [e5] + [e6, e7];
  }

  /** The filtering of an eight-entry list shaped like the custom object:
      entries 0 and 4 are dropped, 1-3 and 7 kept, 5 and 6 as they come. */
  lemma KeptOfCustomShape(e0: Entry, e1: Entry, e2: Entry, e3: Entry,
                          e4: Entry, e5: Entry, e6: Entry, e7: Entry)
    requires !Kept(e0) && Kept(e1) && Kept(e2) && Kept(e3) && !Kept(e4) && Kept(e7)
    ensures KeptEntries([e0, e1, e2, e3, e4, e5, e6, e7]) ==
      [e1, e2, e3] + (if Kept(e5) then [e5] else []) + (if Kept(e6) then [e6] else []) + [e7]
  {
    assert [e0, e1, e2, e3, e4, e5, e6, e7] == [e0, e1, e2, e3, e4] + [e5, e6, e7];
    KeptEntriesAppend([e0, e1, e2, e3, e4], [e5, e6, e7]);
    KeptCustomHead(e0, e1, e2, e3, e4);
    KeptCustomTail(e5, e6, e7);
  }

  /** The entries the custom dictionary emits, in order: both switches as
      booleans, the protocol, the server name and URL when they are
      non-empty (whichever protocol is chosen), and the cleaned list as
      the one `ServerAddresses` array. The name and the raw lower-case
      `serverAddresses` field are never emitted. */
  lemma CustomSettingsKept(c: CustomDnsConfig, addresses: seq<string>)
    ensures KeptEntries(CustomSettings(c, addresses)) ==
      [ Entry("prohibitDisablement", Bool(c.prohibitDisablement)),
        Entry("allowFailover", Bool(c.allowFailover)),
        Entry("dnsProtocol", Str(ProtocolText(c.dnsProtocol))) ] +
      (if c.serverName != [] then [Entry("serverName", Str(c.serverName))] else []) +
      (if c.serverURL != [] then [Entry("serverURL", Str(c.serverURL))] else []) +
      [ Entry("ServerAddresses", Arr(addresses)) ]
  {
    var s := CustomSettings(c, addresses);
    CustomSettingsFlags(c, addresses);
    KeptOfCustomShape(s[0], s[1], s[2], s[3], s[4], s[5], s[6], s[7]);
    assert s == [s[0], s[1], s[2], s[3], s[4], s[5], s[6], s[7]];
  }

  predicate AllPlain(entries: seq<Entry>) {
    forall i | 0 <= i < |entries| :: PlainEntry(entries[i])
  }

  lemma AllPlainAppend(a: seq<Entry>, b: seq<Entry>)
    requires AllPlain(a) && AllPlain(b)
    ensures AllPlain(a + b)
  {
    assert forall i | |a| <= i < |a + b| :: (a + b)[i] == b[i - |a|];
  }

  lemma CustomHeadPlain(c: CustomDnsConfig)
    ensures AllPlain([ Entry("prohibitDisablement", Bool(c.prohibitDisablement)),
                       Entry("allowFailover", Bool(c.allowFailover)),
                       Entry("dnsProtocol", Str(ProtocolText(c.dnsProtocol))) ])
  {
    assert '<' !in "prohibitDisablement";
    assert '<' !in "allowFailover";
    assert '<' !in "dnsProtocol";
    assert '<' !in "HTTPS" && '<' !in "TLS";
  }

  lemma CustomServerPlain(c: CustomDnsConfig)
    requires PlainText(c.serverName) && PlainText(c.serverURL)
    ensures AllPlain(if c.serverName != [] then [Entry("serverName", Str(c.serverName))] else [])
    ensures AllPlain(if c.serverURL != [] then [Entry("serverURL", Str(c.serverURL))] else [])
  {
    assert '<' !in "serverName";
    assert '<' !in "serverURL";
  }

  lemma AddressesPlain(addresses: seq<string>)
    requires forall i | 0 <= i < |addresses| :: PlainText(addresses[i])
    ensures AllPlain([Entry("ServerAddresses", Arr(addresses))])
  {
    assert '<' !in "ServerAddresses";
  }

  /** Reading the custom dictionary back gives the emitted entries, as long
      as the free-text fields contain no `<`. */
  lemma CustomDictionaryReadsBack(c: CustomDnsConfig, addresses: seq<string>)
    requires PlainText(c.serverName) && PlainText(c.serverURL)
    requires forall i | 0 <= i < |addresses| :: PlainText(addresses[i])
    ensures DecodeDict(RenderDict(CustomSettings(c, addresses))) == Some(KeptEntries(CustomSettings(c, addresses)))
  {
    var s := CustomSettings(c, addresses);
    var head := [ Entry("prohibitDisablement", Bool(c.prohibitDisablement)),
                  Entry("allowFailover", Bool(c.allowFailover)),
                  Entry("dnsProtocol", Str(ProtocolText(c.dnsProtocol))) ];
    var name := if c.serverName != [] then [Entry("serverName", Str(c.serverName))] else [];
    var url := if c.serverURL != [] then [Entry("serverURL", Str(c.serverURL))] else [];
    var tail := [Entry("ServerAddresses", Arr(addresses))];
    CustomSettingsKept(c, addresses);
    var k := KeptEntries(s);
    assert k == head + name + url + tail;
    CustomHeadPlain(c);
    CustomServerPlain(c);
    AddressesPlain(addresses);
    AllPlainAppend(head, name);
    AllPlainAppend(head + name, url);
    AllPlainAppend(head + name + url, tail);
    DecodeRenderDict(k);
    RenderDictKept(s);
    KeptEntriesIdempotent(s);
  }

  /** A preset's dictionary emits all three entries in order and reads back
      as them. */
  lemma PresetDictionaryReadsBack(url: string, addresses: seq<string>)
    requires url != [] && PlainText(url)
    requires forall i | 0 <= i < |addresses| :: PlainText(addresses[i])
    ensures KeptEntries(PresetSettings(url, addresses)) == PresetSettings(url, addresses)
    ensures DecodeDict(RenderDict(PresetSettings(url, addresses))) == Some(PresetSettings(url, addresses))
  {
    var a := Entry("DNSProtocol", Str(ProtocolText(HTTPS)));
    var b := Entry("ServerURL", Str(url));
    var c := Entry("ServerAddresses", Arr(addresses));
    assert PresetSettings(url, addresses) == [a, b, c];
    assert KeptEntries([a, b, c]) == [a, b, c] by {
      assert Kept(a) && Kept(b) && Kept(c);
      KeptThree(a, b, c);
    }
    assert DecodeDict(RenderDict([a, b, c])) == Some(KeptEntries([a, b, c])) by {
      assert '<' !in "DNSProtocol" && '<' !in "ServerURL" && '<' !in "ServerAddresses" && '<' !in "HTTPS";
      assert AllPlain([a, b, c]);
      DecodeRenderDict([a, b, c]);
    }
  }

  lemma KeptThree(a: Entry, b: Entry, c: Entry)
    requires Kept(a) && Kept(b) && Kept(c)
    ensures KeptEntries([a, b, c]) == [a, b, c]
  {
    assert KeptEntries([c]) == [c] by {
      KeptCons(c, []);
      assert [c] == [c] + [];
    }
    assert KeptEntries([b, c]) == [b, c] by { KeptCons(b, [c]); }
    KeptCons(a, [b, c]);
    assert [a, b, c] == [a] + [b, c];
  }

  lemma PresetsClean()
    ensures Clean(Quad9Addresses) == Quad9Addresses && Clean(CloudflareAddresses) == CloudflareAddresses
  {
    assert forall i | 0 <= i < 4 :: Quad9Addresses[i] != [] && Trimmed(Quad9Addresses[i]);
    assert forall i | 0 <= i < 4 :: CloudflareAddresses[i] != [] && Trimmed(CloudflareAddresses[i]);
    CleanUnchanged(Quad9Addresses);
    CleanUnchanged(CloudflareAddresses);
  }

  lemma Quad9IPv4()
    ensures IsIPv4("9.9.9.9")
  {
    IPv4Sound("9", "9", "9", "9");
    assert Dotted("9", "9", "9", "9") == "9.9.9.9";
  }

  lemma CloudflareIPv4()
    ensures IsIPv4("1.1.1.2")
  {
    IPv4Sound("1", "1", "1", "2");
    assert Dotted("1", "1", "1", "2") == "1.1.1.2";
  }

  lemma PresetIPv6()
    ensures IPv6Test(Quad9Addresses[2]) && IPv6Test(CloudflareAddresses[2])
  {
    DoubleColonPasses(Quad9Addresses[2], 7);
    DoubleColonPasses(CloudflareAddresses[2], 14);
  }

  /** Both presets would themselves pass the custom check. */
  lemma PresetsAccepted()
    ensures Accepted(Clean(Quad9Addresses)) && Accepted(Clean(CloudflareAddresses))
  {
    PresetsClean();
    Quad9IPv4();
    CloudflareIPv4();
    PresetIPv6();
    assert IsIPv4(Quad9Addresses[0]) && IsIPv4(CloudflareAddresses[0]);
  }
}
