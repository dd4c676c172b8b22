/**
 * `generateMobileConfig` (lines 341-405): the configuration-profile document
 * around the serialized DNS settings. The template is given line by line
 * as it appears in the source; a small property-list printer (a tree of
 * plist nodes, four spaces of indentation per level) serves as the
 * independent reference the template is proved against.
 */
module Profile {
  import opened Wrappers
  import opened Text
  import Uuid
  import DnsDict

  /** The encrypted-DNS transport the profile asks for. */
  datatype Protocol = HTTPS | TLS

  const PayloadPrefix := "com.apple.dnsSettings.managed."
  const ProfilePrefix := "com.example.mobileconfig."
  const XmlDeclaration := "<?xml version=\"1.0\" encoding=\"UTF-8\"?>"
  const DocType := "<!DOCTYPE plist PUBLIC \"-//Apple//DTD PLIST 1.0//EN\" \"http://www.apple.com/DTDs/PropertyList-1.0.dtd\">"
  const PlistOpen := "<plist version=\"1.0\">"
  const PlistClose := "</plist>"

  /** `DoH` for HTTPS, `DoT` otherwise. */
  function Transport(protocol: Protocol): string {
    if protocol == HTTPS then "DoH" else "DoT"
  }

  function DisplayName(protocol: Protocol, name: string): string {
    Transport(protocol) + " via " + name
  }

  function Description(protocol: Protocol, name: string): string {
    "Configures your device to use " + name + " via " + Transport(protocol) + "."
  }

  /** The display name says DoH exactly for HTTPS and DoT exactly for TLS,
      whatever the name. */
  lemma DisplayNameNamesTransport(protocol: Protocol, name: string)
    ensures DisplayName(protocol, name) == "DoH via " + name <==> protocol == HTTPS
    ensures DisplayName(protocol, name) == "DoT via " + name <==> protocol == TLS
  {
    var d := DisplayName(protocol, name);
    if protocol == HTTPS {
      assert d == "DoH via " + name;
      assert d[2] != ("DoT via " + name)[2];
    } else {
      assert d == "DoT via " + name;
      assert d[2] != ("DoH via " + name)[2];
    }
  }

  /** The description ends in the transport and a full stop, and names the
      resolver after the fixed opening words. */
  lemma DescriptionLayout(protocol: Protocol, name: string)
    ensures var d := Description(protocol, name);
      var n := |"Configures your device to use "|;
      |d| == n + |name| + 9 && d[..n] == "Configures your device to use " &&
      d[n..n + |name|] == name && d[n + |name|..|d| - 4] == " via " &&
      d[|d| - 4..] == Transport(protocol) + "." &&
      (d[|d| - 2] == 'H' <==> protocol == HTTPS)
  {
    var d := Description(protocol, name);
    var n := |"Configures your device to use "|;
    assert d == "Configures your device to use " + name + (" via " + Transport(protocol) + ".");
    assert d[..n] == "Configures your device to use ";
    assert d[n..n + |name|] == name;
    assert d[n + |name|..|d| - 4] == " via ";
    assert d[|d| - 4..] == Transport(protocol) + ".";
  }

  /** The document text exactly as the template literal builds it, one
      element per line of the template. */
  function TemplateLines(dict: string, displayName: string, description: string,
                         payloadIdentifier: string, payloadUuid: string,
                         profileIdentifier: string, profileUuid: string): seq<string>
  {
    [ XmlDeclaration,
      DocType,
      PlistOpen,
      "<dict>",
      "    <key>PayloadContent</key>",
      "    <array>" ] +
    // the one payload dictionary
    [ "        <dict>",
      "            <key>DNSSettings</key>",
      "            <dict>",
      "                " + dict,
      "            </dict>",
      "            <key>PayloadDisplayName</key>",
      "            <string>" + displayName + "</string>",
      "            <key>PayloadIdentifier</key>",
      "            <string>" + payloadIdentifier + "</string>",
      "            <key>PayloadType</key>",
      "            <string>com.apple.dnsSettings.managed</string>",
      "            <key>PayloadUUID</key>",
      "            <string>" + payloadUuid + "</string>",
      "            <key>PayloadVersion</key>",
      "            <integer>1</integer>",
      "        </dict>" ] +
    [ "    </array>",
      "    <key>PayloadDisplayName</key>",
      "    <string>" + displayName + "</string>",
      "    <key>PayloadDescription</key>",
      "    <string>" + description + "</string>",
      "    <key>PayloadIdentifier</key>",
      "    <string>" + profileIdentifier + "</string>",
      "    <key>PayloadType</key>",
      "    <string>Configuration</string>",
      "    <key>PayloadUUID</key>",
      "    <string>" + profileUuid + "</string>",
      "    <key>PayloadVersion</key>",
      "    <integer>1</integer>",
      "</dict>",
      PlistClose ]
  }

  /** `generateMobileConfig(dnsSettings, name, protocol)`: the profile UUID
      is derived from the name, the payload UUID from the name followed by
      `-payload`. */
  function MobileConfig(sha1: string -> Uuid.Digest, settings: seq<DnsDict.Entry>,
                        name: string, protocol: Protocol): string
  {
    var profileUuid := Uuid.NameUuid(sha1, name);
    var payloadUuid := Uuid.NameUuid(sha1, name + "-payload");
    Join(TemplateLines(DnsDict.RenderDict(settings), DisplayName(protocol, name),
                       Description(protocol, name), PayloadPrefix + payloadUuid, payloadUuid,
                       ProfilePrefix + profileUuid, profileUuid), '\n')
  }

  /** The steps of `generateMobileConfig`: both UUIDs, then the template. */
  method GenerateMobileConfig(sha1: string -> Uuid.Digest, settings: seq<DnsDict.Entry>,
                              name: string, protocol: Protocol) returns (text: string)
    ensures text == MobileConfig(sha1, settings, name, protocol)
  {
    var profileUuid := Uuid.GenerateUuid(sha1, name);
    var payloadUuid := Uuid.GenerateUuid(sha1, name + "-payload");
    var payloadIdentifier := PayloadPrefix + payloadUuid;
    var profileIdentifier := ProfilePrefix + profileUuid;
    var displayName := DisplayName(protocol, name);
    var description := Description(protocol, name);
    var dict := DnsDict.RenderDict(settings);
    text := Join(TemplateLines(dict, displayName, description, payloadIdentifier, payloadUuid,
                               profileIdentifier, profileUuid), '\n');
  }

  // ----- A reference property-list printer -----

  /** Property-list values. `InlineDict` is a dictionary whose body is
      already serialized text, printed on a line of its own. */
  datatype Plist =
    | PString(s: string)
    | PInteger(n: nat)
    | PArray(items: seq<Plist>)
    | PDict(entries: seq<(string, Plist)>)
    | InlineDict(body: string)

  function Indent(depth: nat): (r: string)
    ensures |r| == 4 * depth
  {
    if depth == 0 then "" else "    " + Indent(depth - 1)
  }

  /** Decimal digits of a natural number. */
  function NatText(n: nat): (r: string)
    ensures r != []
    decreases n
  {
    var digit := ['0' + (n % 10) as char];
    if n < 10 then digit else NatText(n / 10) + digit
  }

  /** The lines of a value whose opening tag sits at `depth`. */
  function ValueLines(v: Plist, depth: nat): seq<string>
    decreases v
  {
    match v
    case PString(s) => [Indent(depth) + "<string>" + s + "</string>"]
    case PInteger(n) => [Indent(depth) + "<integer>" + NatText(n) + "</integer>"]
    case PArray(items) => [Indent(depth) + "<array>"] + ItemLines(items, depth + 1) + [Indent(depth) + "</array>"]
    case PDict(entries) => [Indent(depth) + "<dict>"] + EntryLines(entries, depth + 1) + [Indent(depth) + "</dict>"]
    case InlineDict(body) => [Indent(depth) + "<dict>", Indent(depth + 1) + body, Indent(depth) + "</dict>"]
  }

  function ItemLines(items: seq<Plist>, depth: nat): seq<string>
    decreases items
  {
    if items == [] then []
    else ValueLines(items[0], depth) + ItemLines(items[1..], depth)
  }

  function EntryLines(entries: seq<(string, Plist)>, depth: nat): seq<string>
    decreases entries
  {
    if entries == [] then []
    else
      var (key, value) := entries[0];
      assert entries[0] in entries;
      assert value < entries[0];
      [Indent(depth) + "<key>" + key + "</key>"] + ValueLines(value, depth) + EntryLines(entries[1..], depth)
  }

  /** A whole document: prolog, the root value at depth 0, closing tag. */
  function DocumentLines(root: Plist): seq<string> {
    [XmlDeclaration, DocType, PlistOpen] + ValueLines(root, 0) + [PlistClose]
  }

  /** The value stored under `key`, the first one when there are several. */
  function Lookup(entries: seq<(string, Plist)>, key: string): (r: Option<Plist>)
    ensures r.Some? ==> exists i | 0 <= i < |entries| :: entries[i] == (key, r.value)
    ensures r.None? ==> forall i | 0 <= i < |entries| :: entries[i].0 != key
  {
    if entries == [] then None
    else if entries[0].0 == key then Some(entries[0].1)
    else
      var r := Lookup(entries[1..], key);
      assert forall i | 1 <= i < |entries| :: entries[i] == entries[1..][i - 1];
      r
  }

  /** The single payload: the `com.apple.dnsSettings.managed` dictionary. */
  function PayloadTree(dict: string, displayName: string, payloadIdentifier: string,
                       payloadUuid: string): Plist
  {
    PDict([ ("DNSSettings", InlineDict(dict)),
            ("PayloadDisplayName", PString(displayName)),
            ("PayloadIdentifier", PString(payloadIdentifier)),
            ("PayloadType", PString("com.apple.dnsSettings.managed")),
            ("PayloadUUID", PString(payloadUuid)),
            ("PayloadVersion", PInteger(1)) ])
  }

  /** The top-level `Configuration` dictionary around the payload. */
  function ProfileTree(dict: string, displayName: string, description: string,
                       payloadIdentifier: string, payloadUuid: string,
                       profileIdentifier: string, profileUuid: string): Plist
  {
    PDict([ ("PayloadContent", PArray([PayloadTree(dict, displayName, payloadIdentifier, payloadUuid)])),
            ("PayloadDisplayName", PString(displayName)),
            ("PayloadDescription", PString(description)),
            ("PayloadIdentifier", PString(profileIdentifier)),
            ("PayloadType", PString("Configuration")),
            ("PayloadUUID", PString(profileUuid)),
            ("PayloadVersion", PInteger(1)) ])
  }

  // ----- The template is the printed tree -----

  /** One dictionary entry as printed: its key line, then its value. */
  function EntryOf(entry: (string, Plist), depth: nat): seq<string> {
    [Indent(depth) + "<key>" + entry.0 + "</key>"] + ValueLines(entry.1, depth)
  }

  lemma EntryLinesCons(entries: seq<(string, Plist)>, depth: nat)
    requires entries != []
    ensures EntryLines(entries, depth) == EntryOf(entries[0], depth) + EntryLines(entries[1..], depth)
  {
  }

  lemma EntryLines3(a: (string, Plist), b: (string, Plist), c: (string, Plist), depth: nat)
    ensures EntryLines([a, b, c], depth) == EntryOf(a, depth) + EntryOf(b, depth) + EntryOf(c, depth)
  {
    EntryLinesCons([a, b, c], depth);
    assert [a, b, c][1..] == [b, c];
    EntryLinesCons([b, c], depth);
    assert [b, c][1..] == [c];
    EntryLinesCons([c], depth);
    assert [c][1..] == [];
  }

  lemma EntryLines4(a: (string, Plist), b: (string, Plist), c: (string, Plist), d: (string, Plist), depth: nat)
    ensures EntryLines([a, b, c, d], depth) == EntryOf(a, depth) + EntryOf(b, depth) + EntryOf(c, depth) + EntryOf(d, depth)
  {
    EntryLinesCons([a, b, c, d], depth);
    assert [a, b, c, d][1..] == [b, c, d];
    EntryLines3(b, c, d, depth);
  }

  lemma {:induction false} EntryLinesAppend(a: seq<(string, Plist)>, b: seq<(string, Plist)>, depth: nat)
    ensures EntryLines(a + b, depth) == EntryLines(a, depth) + EntryLines(b, depth)
  {
    if a == [] {
      assert a + b == b;
    } else {
      assert (a + b)[1..] == a[1..] + b;
      EntryLinesAppend(a[1..], b, depth);
    }
  }

  /** A string entry prints as its key line and one value line. */
  lemma StringEntry(key: string, s: string, depth: nat, keyLine: string, open: string)
    requires Indent(depth) + "<key>" + key + "</key>" == keyLine
    requires Indent(depth) + "<string>" == open
    ensures EntryOf((key, PString(s)), depth) == [keyLine, open + s + "</string>"]
  {
  }

  /** An entry whose value prints as one fixed line. */
  lemma FixedEntry(key: string, v: Plist, depth: nat, keyLine: string, valueLine: string)
    requires Indent(depth) + "<key>" + key + "</key>" == keyLine
    requires ValueLines(v, depth) == [valueLine]
    ensures EntryOf((key, v), depth) == [keyLine, valueLine]
  {
  }

  /** An inline dictionary prints as its key line, the opening tag, the body
      one level deeper, and the closing tag. */
  lemma InlineEntry(key: string, body: string, depth: nat, keyLine: string, open: string, inner: string, close: string)
    requires Indent(depth) + "<key>" + key + "</key>" == keyLine
    requires Indent(depth) + "<dict>" == open && Indent(depth + 1) == inner && Indent(depth) + "</dict>" == close
    ensures EntryOf((key, InlineDict(body)), depth) == [keyLine, open, inner + body, close]
  {
  }

  /** A one-element array prints its element one level deeper between the
      array tags. */
  lemma ArrayEntry(key: string, v: Plist, depth: nat, keyLine: string, open: string, close: string)
    requires Indent(depth) + "<key>" + key + "</key>" == keyLine
    requires Indent(depth) + "<array>" == open && Indent(depth) + "</array>" == close
    ensures EntryOf((key, PArray([v])), depth) == [keyLine, open] + ValueLines(v, depth + 1) + [close]
  {
    assert ItemLines([v], depth + 1) == ValueLines(v, depth + 1) + ItemLines([v][1..], depth + 1);
    assert [v][1..] == [];
  }

  // Regrouping lines; stated over any element type.

  lemma Flat422<T>(a: T, b: T, c: T, d: T, e: T, f: T, g: T, h: T)
    ensures [a, b, c, d] + [e, f] + [g, h] == [a, b, c, d, e, f, g, h]
  {
  }

  lemma Flat222<T>(a: T, b: T, c: T, d: T, e: T, f: T)
    ensures [a, b] + [c, d] + [e, f] == [a, b, c, d, e, f]
  {
  }

  lemma Flat2222<T>(a: T, b: T, c: T, d: T, e: T, f: T, g: T, h: T)
    ensures [a, b] + [c, d] + [e, f] + [g, h] == [a, b, c, d, e, f, g, h]
  {
  }

  lemma FlatArray<T>(k: T, a: T, items: seq<T>, c: T, k2: T, s2: T, k3: T, s3: T)
    ensures [k, a] + items + [c] + [k2, s2] + [k3, s3] == [k, a] + items + [c, k2, s2, k3, s3]
  {
  }

  lemma Split33<T>(a: T, b: T, c: T, d: T, e: T, f: T)
    ensures [a, b, c, d, e, f] == [a, b, c] + [d, e, f]
  {
  }

  lemma Split34<T>(a: T, b: T, c: T, d: T, e: T, f: T, g: T)
    ensures [a, b, c, d, e, f, g] == [a, b, c] + [d, e, f, g]
  {
  }

  lemma Payload16<T>(o: T, h1: T, h2: T, h3: T, h4: T, h5: T, h6: T, h7: T, h8: T,
                     t1: T, t2: T, t3: T, t4: T, t5: T, t6: T, c: T)
    ensures [o] + ([h1, h2, h3, h4, h5, h6, h7, h8] + [t1, t2, t3, t4, t5, t6]) + [c] ==
      [o, h1, h2, h3, h4, h5, h6, h7, h8, t1, t2, t3, t4, t5, t6, c]
  {
  }

  lemma Assemble<T>(x: T, d: T, p: T, o: T, k: T, a: T, payload: seq<T>, fields: seq<T>, tail: seq<T>, c: T, e: T)
    ensures [x, d, p] + ([o] + (([k, a] + payload + fields) + tail) + [c]) + [e] ==
      [x, d, p, o, k, a] + payload + (fields + tail + [c, e])
  {
  }

  lemma Closing15<T>(c: T, k2: T, s2: T, k3: T, s3: T, t1: T, t2: T, t3: T, t4: T, t5: T, t6: T, t7: T, t8: T, cl: T, pc: T)
    ensures [c, k2, s2, k3, s3] + [t1, t2, t3, t4, t5, t6, t7, t8] + [cl, pc] ==
      [c, k2, s2, k3, s3, t1, t2, t3, t4, t5, t6, t7, t8, cl, pc]
  {
  }

  // The indentation and tags at the depths the profile uses.

  lemma Indent1()
    ensures Indent(1) == "    "
  {
    assert Indent(1) == "    " + Indent(0);
  }

  lemma Indent3()
    ensures Indent(2) == "        " && Indent(3) == "            "
  {
    Indent1();
    assert Indent(2) == "    " + Indent(1);
    assert Indent(3) == "    " + Indent(2);
  }

  lemma Tags0()
    ensures Indent(0) + "<dict>" == "<dict>" && Indent(0) + "</dict>" == "</dict>"
  {
    assert Indent(0) == "";
  }

  lemma Tags1()
    ensures Indent(1) + "<key>" == "    <key>" && Indent(1) + "<string>" == "    <string>"
    ensures Indent(1) + "<integer>" == "    <integer>"
    ensures Indent(1) + "<array>" == "    <array>" && Indent(1) + "</array>" == "    </array>"
  {
    Indent1();
  }

  lemma Tags2()
    ensures Indent(2) + "<dict>" == "        <dict>" && Indent(2) + "</dict>" == "        </dict>"
  {
    Indent3();
  }

  lemma Tags3()
    ensures Indent(3) + "<key>" == "            <key>" && Indent(3) + "<string>" == "            <string>"
    ensures Indent(3) + "<integer>" == "            <integer>"
    ensures Indent(3) + "<dict>" == "            <dict>" && Indent(3) + "</dict>" == "            </dict>"
    ensures Indent(4) == "                "
  {
    Indent3();
    assert Indent(4) == "    " + Indent(3);
  }

  lemma KeyTag1()
    ensures Indent(1) + "<key>" == "    <key>"
  {
    Indent1();
  }

  lemma KeyTag3()
    ensures Indent(3) + "<key>" == "            <key>"
  {
    Indent3();
  }

  lemma StringTag1()
    ensures Indent(1) + "<string>" == "    <string>" && Indent(1) + "<integer>" == "    <integer>"
  {
    Indent1();
  }

  lemma StringTag3()
    ensures Indent(3) + "<string>" == "            <string>" && Indent(3) + "<integer>" == "            <integer>"
  {
    Indent3();
  }

  // Each fixed line of the template that the printer produces.

  lemma PayloadDNSSettingsKey()
    ensures Indent(3) + "<key>" + "DNSSettings" + "</key>" == "            <key>DNSSettings</key>"
  {
    KeyTag3();
    assert "            <key>" + "DNSSettings" == "            <key>DNSSettings";
    assert "            <key>DNSSettings" + "</key>" == "            <key>DNSSettings</key>";
  }

  lemma PayloadPayloadDisplayNameKey()
    ensures Indent(3) + "<key>" + "PayloadDisplayName" + "</key>" == "            <key>PayloadDisplayName</key>"
  {
    KeyTag3();
    assert "            <key>" + "PayloadDisplayName" == "            <key>PayloadDisplayName";
    assert "            <key>PayloadDisplayName" + "</key>" == "            <key>PayloadDisplayName</key>";
  }

  lemma PayloadPayloadIdentifierKey()
    ensures Indent(3) + "<key>" + "PayloadIdentifier" + "</key>" == "            <key>PayloadIdentifier</key>"
  {
    KeyTag3();
    assert "            <key>" + "PayloadIdentifier" == "            <key>PayloadIdentifier";
    assert "            <key>PayloadIdentifier" + "</key>" == "            <key>PayloadIdentifier</key>";
  }

  lemma PayloadPayloadTypeKey()
    ensures Indent(3) + "<key>" + "PayloadType" + "</key>" == "            <key>PayloadType</key>"
  {
    KeyTag3();
    assert "            <key>" + "PayloadType" == "            <key>PayloadType";
    assert "            <key>PayloadType" + "</key>" == "            <key>PayloadType</key>";
  }

  lemma PayloadPayloadUUIDKey()
    ensures Indent(3) + "<key>" + "PayloadUUID" + "</key>" == "            <key>PayloadUUID</key>"
  {
    KeyTag3();
    assert "            <key>" + "PayloadUUID" == "            <key>PayloadUUID";
    assert "            <key>PayloadUUID" + "</key>" == "            <key>PayloadUUID</key>";
  }

  lemma PayloadPayloadVersionKey()
    ensures Indent(3) + "<key>" + "PayloadVersion" + "</key>" == "            <key>PayloadVersion</key>"
  {
    KeyTag3();
    assert "            <key>" + "PayloadVersion" == "            <key>PayloadVersion";
    assert "            <key>PayloadVersion" + "</key>" == "            <key>PayloadVersion</key>";
  }

  lemma ProfilePayloadContentKey()
    ensures Indent(1) + "<key>" + "PayloadContent" + "</key>" == "    <key>PayloadContent</key>"
  {
    KeyTag1();
    assert "    <key>" + "PayloadContent" == "    <key>PayloadContent";
    assert "    <key>PayloadContent" + "</key>" == "    <key>PayloadContent</key>";
  }

  lemma ProfilePayloadDisplayNameKey()
    ensures Indent(1) + "<key>" + "PayloadDisplayName" + "</key>" == "    <key>PayloadDisplayName</key>"
  {
    KeyTag1();
    assert "    <key>" + "PayloadDisplayName" == "    <key>PayloadDisplayName";
    assert "    <key>PayloadDisplayName" + "</key>" == "    <key>PayloadDisplayName</key>";
  }

  lemma ProfilePayloadDescriptionKey()
    ensures Indent(1) + "<key>" + "PayloadDescription" + "</key>" == "    <key>PayloadDescription</key>"
  {
    KeyTag1();
    assert "    <key>" + "PayloadDescription" == "    <key>PayloadDescription";
    assert "    <key>PayloadDescription" + "</key>" == "    <key>PayloadDescription</key>";
  }

  lemma ProfilePayloadIdentifierKey()
    ensures Indent(1) + "<key>" + "PayloadIdentifier" + "</key>" == "    <key>PayloadIdentifier</key>"
  {
    KeyTag1();
    assert "    <key>" + "PayloadIdentifier" == "    <key>PayloadIdentifier";
    assert "    <key>PayloadIdentifier" + "</key>" == "    <key>PayloadIdentifier</key>";
  }

  lemma ProfilePayloadTypeKey()
    ensures Indent(1) + "<key>" + "PayloadType" + "</key>" == "    <key>PayloadType</key>"
  {
    KeyTag1();
    assert "    <key>" + "PayloadType" == "    <key>PayloadType";
    assert "    <key>PayloadType" + "</key>" == "    <key>PayloadType</key>";
  }

  lemma ProfilePayloadUUIDKey()
    ensures Indent(1) + "<key>" + "PayloadUUID" + "</key>" == "    <key>PayloadUUID</key>"
  {
    KeyTag1();
    assert "    <key>" + "PayloadUUID" == "    <key>PayloadUUID";
    assert "    <key>PayloadUUID" + "</key>" == "    <key>PayloadUUID</key>";
  }

  lemma ProfilePayloadVersionKey()
    ensures Indent(1) + "<key>" + "PayloadVersion" + "</key>" == "    <key>PayloadVersion</key>"
  {
    KeyTag1();
    assert "    <key>" + "PayloadVersion" == "    <key>PayloadVersion";
    assert "    <key>PayloadVersion" + "</key>" == "    <key>PayloadVersion</key>";
  }

  lemma PayloadTypeText()
    ensures "            <string>" + "com.apple.dnsSettings.managed" == "            <string>com.apple.dnsSettings.managed"
  {
  }

  lemma PayloadTypeValue()
    ensures ValueLines(PString("com.apple.dnsSettings.managed"), 3) == ["            <string>com.apple.dnsSettings.managed</string>"]
  {
    StringTag3();
    PayloadTypeText();
    assert "            <string>com.apple.dnsSettings.managed" + "</string>" == "            <string>com.apple.dnsSettings.managed</string>";
  }

  lemma PayloadVersionValue()
    ensures ValueLines(PInteger(1), 3) == ["            <integer>1</integer>"]
  {
    StringTag3();
    assert NatText(1) == "1";
    assert "            <integer>" + "1" == "            <integer>1";
    assert "            <integer>1" + "</integer>" == "            <integer>1</integer>";
  }

  lemma ProfileTypeValue()
    ensures ValueLines(PString("Configuration"), 1) == ["    <string>Configuration</string>"]
  {
    StringTag1();
    assert "    <string>" + "Configuration" == "    <string>Configuration";
    assert "    <string>Configuration" + "</string>" == "    <string>Configuration</string>";
  }

  lemma ProfileVersionValue()
    ensures ValueLines(PInteger(1), 1) == ["    <integer>1</integer>"]
  {
    StringTag1();
    assert NatText(1) == "1";
    assert "    <integer>" + "1" == "    <integer>1";
    assert "    <integer>1" + "</integer>" == "    <integer>1</integer>";
  }

  // The two dictionaries, a few entries at a time.

  lemma PayloadHeadLines(dict: string, displayName: string, payloadIdentifier: string)
    ensures EntryLines([("DNSSettings", InlineDict(dict)),
                        ("PayloadDisplayName", PString(displayName)),
                        ("PayloadIdentifier", PString(payloadIdentifier))], 3) ==
      [ "            <key>DNSSettings</key>",
        "            <dict>",
        "                " + dict,
        "            </dict>",
        "            <key>PayloadDisplayName</key>",
        "            <string>" + displayName + "</string>",
        "            <key>PayloadIdentifier</key>",
        "            <string>" + payloadIdentifier + "</string>" ]
  {
    EntryLines3(("DNSSettings", InlineDict(dict)), ("PayloadDisplayName", PString(displayName)),
                ("PayloadIdentifier", PString(payloadIdentifier)), 3);
    Tags3();
    PayloadDNSSettingsKey();
    PayloadPayloadDisplayNameKey();
    PayloadPayloadIdentifierKey();
    InlineEntry("DNSSettings", dict, 3, "            <key>DNSSettings</key>",
                "            <dict>", "                ", "            </dict>");
    StringEntry("PayloadDisplayName", displayName, 3, "            <key>PayloadDisplayName</key>", "            <string>");
    StringEntry("PayloadIdentifier", payloadIdentifier, 3, "            <key>PayloadIdentifier</key>", "            <string>");
    Flat422("            <key>DNSSettings</key>", "            <dict>", "                " + dict, "            </dict>",
            "            <key>PayloadDisplayName</key>", "            <string>" + displayName + "</string>",
            "            <key>PayloadIdentifier</key>", "            <string>" + payloadIdentifier + "</string>");
  }

  lemma PayloadTailLines(payloadUuid: string)
    ensures EntryLines([("PayloadType", PString("com.apple.dnsSettings.managed")),
                        ("PayloadUUID", PString(payloadUuid)),
                        ("PayloadVersion", PInteger(1))], 3) ==
      [ "            <key>PayloadType</key>",
        "            <string>com.apple.dnsSettings.managed</string>",
        "            <key>PayloadUUID</key>",
        "            <string>" + payloadUuid + "</string>",
        "            <key>PayloadVersion</key>",
        "            <integer>1</integer>" ]
  {
    EntryLines3(("PayloadType", PString("com.apple.dnsSettings.managed")), ("PayloadUUID", PString(payloadUuid)),
                ("PayloadVersion", PInteger(1)), 3);
    Tags3();
    PayloadPayloadTypeKey();
    PayloadPayloadUUIDKey();
    PayloadPayloadVersionKey();
    PayloadTypeValue();
    PayloadVersionValue();
    FixedEntry("PayloadType", PString("com.apple.dnsSettings.managed"), 3, "            <key>PayloadType</key>",
               "            <string>com.apple.dnsSettings.managed</string>");
    StringEntry("PayloadUUID", payloadUuid, 3, "            <key>PayloadUUID</key>", "            <string>");
    FixedEntry("PayloadVersion", PInteger(1), 3, "            <key>PayloadVersion</key>", "            <integer>1</integer>");
    Flat222("            <key>PayloadType</key>", "            <string>com.apple.dnsSettings.managed</string>",
            "            <key>PayloadUUID</key>", "            <string>" + payloadUuid + "</string>",
            "            <key>PayloadVersion</key>", "            <integer>1</integer>");
  }

  /** The payload dictionary prints as lines 7-22 of the template. */
  lemma PayloadLines(dict: string, displayName: string, payloadIdentifier: string, payloadUuid: string)
    ensures ValueLines(PayloadTree(dict, displayName, payloadIdentifier, payloadUuid), 2) ==
      [ "        <dict>",
        "            <key>DNSSettings</key>",
        "            <dict>",
        "                " + dict,
        "            </dict>",
        "            <key>PayloadDisplayName</key>",
        "            <string>" + displayName + "</string>",
        "            <key>PayloadIdentifier</key>",
        "            <string>" + payloadIdentifier + "</string>",
        "            <key>PayloadType</key>",
        "            <string>com.apple.dnsSettings.managed</string>",
        "            <key>PayloadUUID</key>",
        "            <string>" + payloadUuid + "</string>",
        "            <key>PayloadVersion</key>",
        "            <integer>1</integer>",
        "        </dict>" ]
  {
    var a := ("DNSSettings", InlineDict(dict));
    var b := ("PayloadDisplayName", PString(displayName));
    var c := ("PayloadIdentifier", PString(payloadIdentifier));
    var d := ("PayloadType", PString("com.apple.dnsSettings.managed"));
    var e := ("PayloadUUID", PString(payloadUuid));
    var f := ("PayloadVersion", PInteger(1));
    Split33(a, b, c, d, e, f);
    EntryLinesAppend([a, b, c], [d, e, f], 3);
    PayloadHeadLines(dict, displayName, payloadIdentifier);
    PayloadTailLines(payloadUuid);
    Tags2();
    Payload16("        <dict>",
              "            <key>DNSSettings</key>",
              "            <dict>",
              "                " + dict,
              "            </dict>",
              "            <key>PayloadDisplayName</key>",
              "            <string>" + displayName + "</string>",
              "            <key>PayloadIdentifier</key>",
              "            <string>" + payloadIdentifier + "</string>",
              "            <key>PayloadType</key>",
              "            <string>com.apple.dnsSettings.managed</string>",
              "            <key>PayloadUUID</key>",
              "            <string>" + payloadUuid + "</string>",
              "            <key>PayloadVersion</key>",
              "            <integer>1</integer>",
              "        </dict>");
  }

  lemma ProfileHeadLines(payload: Plist, displayName: string, description: string)
    ensures EntryLines([("PayloadContent", PArray([payload])),
                        ("PayloadDisplayName", PString(displayName)),
                        ("PayloadDescription", PString(description))], 1) ==
      [ "    <key>PayloadContent</key>",
        "    <array>" ] +
      ValueLines(payload, 2) +
      [ "    </array>",
        "    <key>PayloadDisplayName</key>",
        "    <string>" + displayName + "</string>",
        "    <key>PayloadDescription</key>",
        "    <string>" + description + "</string>" ]
  {
    EntryLines3(("PayloadContent", PArray([payload])), ("PayloadDisplayName", PString(displayName)),
                ("PayloadDescription", PString(description)), 1);
    Tags1();
    ProfilePayloadContentKey();
    ProfilePayloadDisplayNameKey();
    ProfilePayloadDescriptionKey();
    ArrayEntry("PayloadContent", payload, 1, "    <key>PayloadContent</key>", "    <array>", "    </array>");
    StringEntry("PayloadDisplayName", displayName, 1, "    <key>PayloadDisplayName</key>", "    <string>");
    StringEntry("PayloadDescription", description, 1, "    <key>PayloadDescription</key>", "    <string>");
    FlatArray("    <key>PayloadContent</key>", "    <array>", ValueLines(payload, 2), "    </array>",
              "    <key>PayloadDisplayName</key>", "    <string>" + displayName + "</string>",
              "    <key>PayloadDescription</key>", "    <string>" + description + "</string>");
  }

  lemma ProfileTailLines(profileIdentifier: string, profileUuid: string)
    ensures EntryLines([("PayloadIdentifier", PString(profileIdentifier)),
                        ("PayloadType", PString("Configuration")),
                        ("PayloadUUID", PString(profileUuid)),
                        ("PayloadVersion", PInteger(1))], 1) ==
      [ "    <key>PayloadIdentifier</key>",
        "    <string>" + profileIdentifier + "</string>",
        "    <key>PayloadType</key>",
        "    <string>Configuration</string>",
        "    <key>PayloadUUID</key>",
        "    <string>" + profileUuid + "</string>",
        "    <key>PayloadVersion</key>",
        "    <integer>1</integer>" ]
  {
    EntryLines4(("PayloadIdentifier", PString(profileIdentifier)), ("PayloadType", PString("Configuration")),
                ("PayloadUUID", PString(profileUuid)), ("PayloadVersion", PInteger(1)), 1);
    Tags1();
    ProfilePayloadIdentifierKey();
    ProfilePayloadTypeKey();
    ProfilePayloadUUIDKey();
    ProfilePayloadVersionKey();
    ProfileTypeValue();
    ProfileVersionValue();
    StringEntry("PayloadIdentifier", profileIdentifier, 1, "    <key>PayloadIdentifier</key>", "    <string>");
    FixedEntry("PayloadType", PString("Configuration"), 1, "    <key>PayloadType</key>", "    <string>Configuration</string>");
    StringEntry("PayloadUUID", profileUuid, 1, "    <key>PayloadUUID</key>", "    <string>");
    FixedEntry("PayloadVersion", PInteger(1), 1, "    <key>PayloadVersion</key>", "    <integer>1</integer>");
    Flat2222("    <key>PayloadIdentifier</key>", "    <string>" + profileIdentifier + "</string>",
             "    <key>PayloadType</key>", "    <string>Configuration</string>",
             "    <key>PayloadUUID</key>", "    <string>" + profileUuid + "</string>",
             "    <key>PayloadVersion</key>", "    <integer>1</integer>");
  }

  /** The template literal is exactly the property list printed from the
      profile tree: a document whose root dictionary holds one payload. */
  lemma TemplateIsPrintedTree(dict: string, displayName: string, description: string,
                              payloadIdentifier: string, payloadUuid: string,
                              profileIdentifier: string, profileUuid: string)
    ensures TemplateLines(dict, displayName, description, payloadIdentifier, payloadUuid, profileIdentifier, profileUuid) ==
      DocumentLines(ProfileTree(dict, displayName, description, payloadIdentifier, payloadUuid, profileIdentifier, profileUuid))
  {
    var payload := PayloadTree(dict, displayName, payloadIdentifier, payloadUuid);
    var a := ("PayloadContent", PArray([payload]));
    var b := ("PayloadDisplayName", PString(displayName));
    var c := ("PayloadDescription", PString(description));
    var d := ("PayloadIdentifier", PString(profileIdentifier));
    var e := ("PayloadType", PString("Configuration"));
    var f := ("PayloadUUID", PString(profileUuid));
    var g := ("PayloadVersion", PInteger(1));
    var payloadLines := ValueLines(payload, 2);
    var fields := [ "    </array>",
                    "    <key>PayloadDisplayName</key>",
                    "    <string>" + displayName + "</string>",
                    "    <key>PayloadDescription</key>",
                    "    <string>" + description + "</string>" ];
    var tail := [ "    <key>PayloadIdentifier</key>",
                  "    <string>" + profileIdentifier + "</string>",
                  "    <key>PayloadType</key>",
                  "    <string>Configuration</string>",
                  "    <key>PayloadUUID</key>",
                  "    <string>" + profileUuid + "</string>",
                  "    <key>PayloadVersion</key>",
                  "    <integer>1</integer>" ];
    assert DocumentLines(ProfileTree(dict, displayName, description, payloadIdentifier, payloadUuid, profileIdentifier, profileUuid)) ==
      [XmlDeclaration, DocType, PlistOpen] +
      (["<dict>"] + ((["    <key>PayloadContent</key>", "    <array>"] + payloadLines + fields) + tail) + ["</dict>"]) +
      [PlistClose]
    by {
      Split34(a, b, c, d, e, f, g);
      EntryLinesAppend([a, b, c], [d, e, f, g], 1);
      ProfileHeadLines(payload, displayName, description);
      ProfileTailLines(profileIdentifier, profileUuid);
      Tags0();
    }
    Assemble(XmlDeclaration, DocType, PlistOpen, "<dict>", "    <key>PayloadContent</key>", "    <array>",
             payloadLines, fields, tail, "</dict>", PlistClose);
    Closing15("    </array>",
              "    <key>PayloadDisplayName</key>",
              "    <string>" + displayName + "</string>",
              "    <key>PayloadDescription</key>",
              "    <string>" + description + "</string>",
              "    <key>PayloadIdentifier</key>",
              "    <string>" + profileIdentifier + "</string>",
              "    <key>PayloadType</key>",
              "    <string>Configuration</string>",
              "    <key>PayloadUUID</key>",
              "    <string>" + profileUuid + "</string>",
              "    <key>PayloadVersion</key>",
              "    <integer>1</integer>",
              "</dict>", PlistClose);
    PayloadLines(dict, displayName, payloadIdentifier, payloadUuid);
  }

  /** No key appears twice in a dictionary. */
  predicate DistinctKeys(entries: seq<(string, Plist)>) {
    forall i, j | 0 <= i < j < |entries| :: entries[i].0 != entries[j].0
  }

  /** The profile `generateMobileConfig` describes, as a property-list tree. */
  function Document(sha1: string -> Uuid.Digest, settings: seq<DnsDict.Entry>,
                    name: string, protocol: Protocol): Plist
  {
    var profileUuid := Uuid.NameUuid(sha1, name);
    var payloadUuid := Uuid.NameUuid(sha1, name + "-payload");
    ProfileTree(DnsDict.RenderDict(settings), DisplayName(protocol, name), Description(protocol, name),
                PayloadPrefix + payloadUuid, payloadUuid, ProfilePrefix + profileUuid, profileUuid)
  }

  /** The generated text is the printed profile tree. */
  lemma MobileConfigPrintsDocument(sha1: string -> Uuid.Digest, settings: seq<DnsDict.Entry>,
                                   name: string, protocol: Protocol)
    ensures MobileConfig(sha1, settings, name, protocol) == Join(DocumentLines(Document(sha1, settings, name, protocol)), '\n')
  {
    var profileUuid := Uuid.NameUuid(sha1, name);
    var payloadUuid := Uuid.NameUuid(sha1, name + "-payload");
    TemplateIsPrintedTree(DnsDict.RenderDict(settings), DisplayName(protocol, name), Description(protocol, name),
                          PayloadPrefix + payloadUuid, payloadUuid, ProfilePrefix + profileUuid, profileUuid);
  }

  /** The keys the two dictionaries use, in template order. */
  lemma KeysDistinct(dict: string, displayName: string, description: string,
                     payloadIdentifier: string, payloadUuid: string,
                     profileIdentifier: string, profileUuid: string)
    ensures DistinctKeys(PayloadTree(dict, displayName, payloadIdentifier, payloadUuid).entries)
    ensures DistinctKeys(ProfileTree(dict, displayName, description, payloadIdentifier, payloadUuid,
                                     profileIdentifier, profileUuid).entries)
  {
    assert "PayloadType"[7] != "PayloadUUID"[7];
    assert "PayloadContent"[7] != "PayloadVersion"[7];
    assert "PayloadDisplayName"[8] != "PayloadDescription"[8];
  }

  lemma PayloadLookups(dict: string, displayName: string, payloadIdentifier: string, payloadUuid: string)
    ensures var entries := PayloadTree(dict, displayName, payloadIdentifier, payloadUuid).entries;
      Lookup(entries, "DNSSettings") == Some(InlineDict(dict)) &&
      Lookup(entries, "PayloadDisplayName") == Some(PString(displayName)) &&
      Lookup(entries, "PayloadIdentifier") == Some(PString(payloadIdentifier)) &&
      Lookup(entries, "PayloadType") == Some(PString("com.apple.dnsSettings.managed")) &&
      Lookup(entries, "PayloadUUID") == Some(PString(payloadUuid)) &&
      Lookup(entries, "PayloadVersion") == Some(PInteger(1))
  {
    KeysDistinct(dict, displayName, [], payloadIdentifier, payloadUuid, [], []);
    var entries := PayloadTree(dict, displayName, payloadIdentifier, payloadUuid).entries;
    LookupDistinct(entries, 0);
    LookupDistinct(entries, 1);
    LookupDistinct(entries, 2);
    LookupDistinct(entries, 3);
    LookupDistinct(entries, 4);
    LookupDistinct(entries, 5);
  }

  lemma ProfileLookups(dict: string, displayName: string, description: string,
                       payloadIdentifier: string, payloadUuid: string,
                       profileIdentifier: string, profileUuid: string)
    ensures var entries := ProfileTree(dict, displayName, description, payloadIdentifier, payloadUuid,
                                       profileIdentifier, profileUuid).entries;
      Lookup(entries, "PayloadContent") == Some(PArray([PayloadTree(dict, displayName, payloadIdentifier, payloadUuid)])) &&
      Lookup(entries, "PayloadDisplayName") == Some(PString(displayName)) &&
      Lookup(entries, "PayloadDescription") == Some(PString(description)) &&
      Lookup(entries, "PayloadIdentifier") == Some(PString(profileIdentifier)) &&
      Lookup(entries, "PayloadType") == Some(PString("Configuration")) &&
      Lookup(entries, "PayloadUUID") == Some(PString(profileUuid)) &&
      Lookup(entries, "PayloadVersion") == Some(PInteger(1))
  {
    KeysDistinct(dict, displayName, description, payloadIdentifier, payloadUuid, profileIdentifier, profileUuid);
    var entries := ProfileTree(dict, displayName, description, payloadIdentifier, payloadUuid,
                               profileIdentifier, profileUuid).entries;
    LookupDistinct(entries, 0);
    LookupDistinct(entries, 1);
    LookupDistinct(entries, 2);
    LookupDistinct(entries, 3);
    LookupDistinct(entries, 4);
    LookupDistinct(entries, 5);
    LookupDistinct(entries, 6);
  }

  /** In a dictionary with distinct keys, looking up a key finds its entry. */
  lemma {:induction false} LookupDistinct(entries: seq<(string, Plist)>, i: nat)
    requires DistinctKeys(entries) && i < |entries|
    ensures Lookup(entries, entries[i].0) == Some(entries[i].1)
  {
    if i > 0 {
      assert entries[0].0 != entries[i].0;
      assert DistinctKeys(entries[1..]) by {
        forall a, b | 0 <= a < b < |entries[1..]| ensures entries[1..][a].0 != entries[1..][b].0 {
          assert entries[1..][a] == entries[a + 1] && entries[1..][b] == entries[b + 1];
        }
      }
      LookupDistinct(entries[1..], i - 1);
    }
  }

  /** What the profile holds: a `Configuration` dictionary with distinct
      keys whose `PayloadContent` is an array of exactly one
      `com.apple.dnsSettings.managed` payload; the identifiers are the two
      prefixes followed by the UUIDs of the name and of the name with
      `-payload`; both versions are 1; the payload's `DNSSettings` is the
      serialized settings dictionary. */
  lemma DocumentContents(sha1: string -> Uuid.Digest, settings: seq<DnsDict.Entry>,
                         name: string, protocol: Protocol)
    ensures var root := Document(sha1, settings, name, protocol);
      var profileUuid := Uuid.NameUuid(sha1, name);
      var payloadUuid := Uuid.NameUuid(sha1, name + "-payload");
      root.PDict? && DistinctKeys(root.entries) &&
      Lookup(root.entries, "PayloadType") == Some(PString("Configuration")) &&
      Lookup(root.entries, "PayloadVersion") == Some(PInteger(1)) &&
      Lookup(root.entries, "PayloadIdentifier") == Some(PString(ProfilePrefix + profileUuid)) &&
      Lookup(root.entries, "PayloadUUID") == Some(PString(profileUuid)) &&
      Lookup(root.entries, "PayloadDisplayName") == Some(PString(DisplayName(protocol, name))) &&
      Lookup(root.entries, "PayloadDescription") == Some(PString(Description(protocol, name))) &&
      Lookup(root.entries, "PayloadContent").Some? &&
      var content := Lookup(root.entries, "PayloadContent").value;
      content.PArray? && |content.items| == 1 &&
      var payload := content.items[0];
      payload.PDict? && DistinctKeys(payload.entries) &&
      Lookup(payload.entries, "PayloadType") == Some(PString("com.apple.dnsSettings.managed")) &&
      Lookup(payload.entries, "PayloadVersion") == Some(PInteger(1)) &&
      Lookup(payload.entries, "PayloadIdentifier") == Some(PString(PayloadPrefix + payloadUuid)) &&
      Lookup(payload.entries, "PayloadUUID") == Some(PString(payloadUuid)) &&
      Lookup(payload.entries, "PayloadDisplayName") == Some(PString(DisplayName(protocol, name))) &&
      Lookup(payload.entries, "DNSSettings") == Some(InlineDict(DnsDict.RenderDict(settings)))
  {
    var profileUuid := Uuid.NameUuid(sha1, name);
    var payloadUuid := Uuid.NameUuid(sha1, name + "-payload");
    var dict := DnsDict.RenderDict(settings);
    var displayName := DisplayName(protocol, name);
    var description := Description(protocol, name);
    KeysDistinct(dict, displayName, description, PayloadPrefix + payloadUuid, payloadUuid, ProfilePrefix + profileUuid, profileUuid);
    PayloadLookups(dict, displayName, PayloadPrefix + payloadUuid, payloadUuid);
    ProfileLookups(dict, displayName, description, PayloadPrefix + payloadUuid, payloadUuid, ProfilePrefix + profileUuid, profileUuid);
  }
}
