# mobileconfig generator, modelled in Dafny

The page `src/app/page.tsx` builds an Apple configuration profile (a
`.mobileconfig` property list) that makes a device use DNS over HTTPS or
DNS over TLS. It offers three resolvers: Quad9, Cloudflare, or a custom
server described by the user. Pressing the button produces the profile
text and offers it for download. This project models the following steps.

- **Name-based identifiers** (`generateUUID`, module `Uuid`, file
  `uuid.dfy`). The page stamps the version-5 and variant bits of RFC 4122
  (sections 4.1.1 and 4.1.3) into a SHA-1 digest. It does this in place,
  on a byte array. The first sixteen bytes are then printed as an
  upper-case 8-4-4-4-12 identifier. The digest itself is a parameter.
- **Address cleaning and the family check** (module `Addresses`, file
  `addresses.dfy`).
  - Each entry is trimmed and blank entries are dropped.
  - The anchored dotted-quad pattern must accept one entry.
  - The unanchored IPv6 pattern must find a match in one entry. This
    pattern is modelled alternative by alternative, from the colon-separated
    fields of the text it matches.
- **The settings dictionary** (module `DnsDict`, file `dns_dict.dfy`). Each
  entry is rendered by the run-time type of its value, and the results are
  joined. The module also has a decoder. On text without `<` the decoder
  reads the dictionary back as exactly the emitted entries.
- **The profile document** (module `Profile`, file `profile.dfy`).
  - The literal template, line for line.
  - A property-list tree with a printer. The proof shows that the template
    is the printed tree, so facts about the profile can be stated as
    lookups in that tree.
- **`handleSubmit`** (module `Submit`, file `submit.dfy`).
  - The preset settings.
  - The custom settings object, whose keys follow the form's field order.
  - Defaulting of the display name.
  - The early return when an address family is missing.
  - The file name.
- **The page state and the address-list editors** (module `Form`, file
  `form.dfy`).
  - A class `Page` holds the chosen resolver and the custom form.
  - Its methods replace, append and delete entries of the address list, as
    the page's handlers do.
  - The delete button is disabled on a one-entry list. Because of that, the
    list never becomes empty.

String helpers in the style of JavaScript (trim, case mapping, split, join)
live in module `Text` (`text.dfy`). They are restricted to ASCII.

Notes on the code's behaviour:

- Quad9's endpoint is `https://dns11.quad9.net/dns-query`.
- The profile dictionary holds exactly the keys of the template at
  lines 368-404: no certificate identifier and no organisation key.
- The file name replaces every whitespace character with `-`. Runs of
  whitespace are not collapsed.
- The custom dictionary emits the form's lower-case keys (`dnsProtocol`,
  `serverName`, `serverURL`) verbatim. It emits `serverName` and `serverURL`
  whatever protocol is chosen.
- Values are embedded without escaping. `DnsDict.UnescapedValueInjects`
  exhibits two different settings lists that print the same dictionary.

## Model

| member | source | states |
|---|---|---|
| Uuid.NameUuid | src/app/page.tsx:320-339 | `generateUUID` as a value: the formatted first sixteen bytes of the stamped digest of the namespace followed by the name (no contract of its own; its shape is `Uuid.NameUuidShape`, its content `Uuid.NameUuidCarriesDigest`) |
| Uuid.ToHex | src/app/page.tsx:330 | `toString(16)` of a byte: one lower-case digit below 16, two otherwise (no contract of its own; padded to two digits in `Uuid.HexByte`) |
| Uuid.PadStart | src/app/page.tsx:330 | `padStart(width, fill)`: fill characters in front up to the width, a longer text unchanged (no contract of its own; used through `Uuid.HexByte`) |
| Uuid.HexBytes | src/app/page.tsx:330 | `bytes.map(...)` keeps one hex pair per byte, so the length is the byte count; `Uuid.HexBytesAt` gives each pair |
| Uuid.FormatUuid | src/app/page.tsx:330-338 | hex pairs, grouped, joined by `-` and upper-cased (no contract of its own; layout in `Uuid.FormatLayout`, inverse in `Uuid.ParseFormat`) |
| Uuid.Grouped | src/app/page.tsx:332-338 | the first sixteen pairs in groups of 4, 2, 2, 2 and 6 joined by `-` (no contract of its own; positions in `Uuid.FormatLayout`) |
| Uuid.Stamp | src/app/page.tsx:327-328 | byte 6 keeps its low nibble under high nibble 5, byte 8 keeps its low six bits under `10`, every other byte and the length are unchanged |
| Uuid.GenerateUuid | src/app/page.tsx:320-339 | the in-place stamping of a copy of the digest yields the name-based identifier; it is a well-formed 36-character identifier with `5` at index 14 and one of `8`,`9`,`A`,`B` at index 19 |
| Uuid.HexByte | src/app/page.tsx:330 | a byte prints as exactly two lower-case hex digits, high nibble first (the zero padding of `padStart`) |
| Uuid.ParseUuid | src/app/page.tsx:332-338 | reading an identifier back gives sixteen bytes |
| Uuid.FormatLayout | src/app/page.tsx:330-338 | the identifier has 36 characters, `-` at 8, 13, 18 and 23, and byte k's two upper-case hex digits at its offset |
| Uuid.FormatIsUuid | src/app/page.tsx:330-338 | every formatted byte string is a well-formed upper-case identifier |
| Uuid.ParseFormat | src/app/page.tsx:330-338 | parsing the formatted identifier gives back the first sixteen bytes (round trip) |
| Uuid.FormatIgnoresTail | src/app/page.tsx:333-337 | bytes past the sixteenth never affect the identifier |
| Uuid.FormatDependsOnPrefix | src/app/page.tsx:330-338 | two byte strings format alike exactly when their first sixteen bytes agree |
| Uuid.NameUuidShape | src/app/page.tsx:320-339 | the identifier of any name is well-formed, with version digit `5` and variant digit in `89AB` |
| Uuid.NameUuidCarriesDigest | src/app/page.tsx:325-338 | digest bytes 0-15 other than 6 and 8 appear verbatim; the low bits of bytes 6 and 8 survive under version 5 and variant `10` |
| Uuid.NameUuidIgnoresDigestTail | src/app/page.tsx:325-338 | digest bytes 16-19 play no part in the identifier |
| Text.TrimStart | src/app/page.tsx:296 | the result is a suffix of the input, the dropped prefix is all whitespace, and the result does not start with whitespace |
| Text.TrimEnd | src/app/page.tsx:296 | the result is a prefix of the input, the dropped suffix is all whitespace, and the result does not end with whitespace |
| Text.ToLower | src/app/page.tsx:316 | `toLowerCase` keeps the length; `Text.ToLowerAt` gives each character |
| Text.ToUpper | src/app/page.tsx:338 | `toUpperCase` keeps the length; `Text.ToUpperAt` gives each character |
| Text.Concat | src/app/page.tsx:366 | `join('')` (no contract of its own; `Text.ConcatDropEmpty` and `DnsDict.RenderDictAppend` state what is used) |
| Text.Join | src/app/page.tsx:338 | `join(sep)` (no contract of its own; its inverse is `Text.Split`, by `Text.JoinSplit` and `Text.SplitJoin`) |
| Text.Trim | src/app/page.tsx:296 | `trim` gives a text with no whitespace at either end, no longer than its input |
| Text.TrimOfPadded | src/app/page.tsx:296 | trimming removes exactly the whitespace padding around trimmed text |
| Text.TrimIdempotent | src/app/page.tsx:296 | trimming twice is trimming once |
| Text.TrimEmptyIff | src/app/page.tsx:296 | an entry trims to the empty string exactly when it is all whitespace |
| Text.ToLowerAt | src/app/page.tsx:316 | `toLowerCase` maps each character by itself and keeps the length |
| Text.ToUpperAt | src/app/page.tsx:338 | `toUpperCase` maps each character by itself and keeps the length |
| Text.DropEmpty | src/app/page.tsx:296 | `filter(Boolean)` keeps only non-empty members of the input and never lengthens it |
| Text.DropEmptyMembers | src/app/page.tsx:296 | a text survives the filter exactly when it was in the input and is non-empty |
| Text.Split | src/app/page.tsx:297 | splitting gives at least one field, no field holds the separator, and one field exactly when the separator is absent |
| Text.JoinSplit | src/app/page.tsx:297 | joining the fields of a split gives the text back |
| Text.SplitJoin | src/app/page.tsx:297 | splitting a join of separator-free fields gives the fields back |
| Addresses.Clean | src/app/page.tsx:296 | trim every entry, then drop the empty ones (no contract of its own; `Addresses.CleanMembers`, `Addresses.CleanAppend` and `Addresses.CleanIdempotent` characterise it) |
| Addresses.IsIPv4 | src/app/page.tsx:297 | the anchored dotted-quad pattern as a predicate on the dot-separated fields (no contract of its own; exactness in `Addresses.IPv4Sound` and `Addresses.IPv4Complete`) |
| Addresses.IPv6Test | src/app/page.tsx:298 | the unanchored pattern: some substring matches one alternative (no contract of its own; `Addresses.DoubleColonPasses` and `Addresses.IPv6HasColon` bound it) |
| Addresses.HasIPv4 | src/app/page.tsx:300 | `some` entry passes the IPv4 pattern (no contract of its own) |
| Addresses.HasIPv6 | src/app/page.tsx:301 | `some` entry passes the IPv6 test (no contract of its own) |
| Addresses.Accepted | src/app/page.tsx:300-306 | the list goes ahead only with both families (no contract of its own; `Addresses.AcceptedNeedsTwoEntries` states what it requires) |
| Addresses.TrimAll | src/app/page.tsx:296 | every entry is trimmed, position by position, and the length is kept |
| Addresses.CleanAppend | src/app/page.tsx:296 | cleaning works entry by entry and keeps the order: cleaning a concatenation concatenates the cleaned parts |
| Addresses.CleanSingle | src/app/page.tsx:296 | one entry is kept, trimmed, unless it is blank |
| Addresses.CleanMembers | src/app/page.tsx:296 | every cleaned entry is non-empty, trimmed and the trim of some input entry; every non-blank input entry appears trimmed |
| Addresses.CleanIdempotent | src/app/page.tsx:296 | cleaning a cleaned list changes nothing |
| Addresses.CleanUnchanged | src/app/page.tsx:296 | a list of non-empty trimmed entries is already clean, so nothing is deduplicated or altered |
| Addresses.IPv4Sound | src/app/page.tsx:297 | four groups of one to three digits joined by dots are accepted |
| Addresses.IPv4Complete | src/app/page.tsx:297 | every accepted text is four digit groups of one to three digits joined by dots |
| Addresses.PermissiveIPv4 | src/app/page.tsx:297 | the pattern has no range check: `999.999.999.999` is accepted |
| Addresses.IPv4HasNoColon | src/app/page.tsx:297 | an accepted IPv4 text has no colon |
| Addresses.DoubleColonPasses | src/app/page.tsx:298 | since the pattern is unanchored and `::` is an alternative, any text containing `::` passes |
| Addresses.AlternativeHasColon | src/app/page.tsx:298 | every text an alternative of the IPv6 pattern matches contains a colon |
| Addresses.IPv6HasColon | src/app/page.tsx:298 | every text passing the IPv6 test contains a colon |
| Addresses.FamiliesDisjoint | src/app/page.tsx:297-298 | no text passes both the IPv4 pattern and the IPv6 test |
| Addresses.AcceptedNeedsTwoEntries | src/app/page.tsx:300-306 | an accepted list holds two different entries, one per family, so it has at least two entries |
| DnsDict.RenderEntry | src/app/page.tsx:352-364 | the callback's branches in order: `name` dropped, an array only under `ServerAddresses`, any boolean, a non-empty string, otherwise nothing (no contract of its own; `DnsDict.RenderEntryEmpty` and `DnsDict.RenderEntryParts` state it) |
| DnsDict.RenderDict | src/app/page.tsx:351-366 | render each entry, drop empty texts, concatenate (no contract of its own; read back by `DnsDict.DecodeRenderDict`) |
| DnsDict.Kept | src/app/page.tsx:353-363 | the entries the callback renders to non-empty text (no contract of its own; `DnsDict.RenderEntryEmpty` proves the equivalence) |
| DnsDict.KeptEntries | src/app/page.tsx:351-366 | the kept entries in input order, never more than the input; membership in `DnsDict.KeptEntriesMembers` |
| DnsDict.StringElements | src/app/page.tsx:355 | one element per array item, in order: element i is `<string>`, item i, `</string>` |
| DnsDict.KeptEntriesMembers | src/app/page.tsx:351-366 | an entry is emitted exactly when it is in the input and the rules keep it (not `name`; an array only under `ServerAddresses`; any boolean; a non-empty string) |
| DnsDict.RenderEntryEmpty | src/app/page.tsx:352-364 | an entry renders to the empty string exactly when the rules drop it |
| DnsDict.RenderEntryParts | src/app/page.tsx:354-362 | a kept entry renders as `<key>`, its key, `</key>` and its value's element |
| DnsDict.RenderDictCons | src/app/page.tsx:351-366 | the dictionary is the first entry's text followed by the rest's, in input order |
| DnsDict.RenderDictAppend | src/app/page.tsx:351-366 | rendering a concatenation concatenates the renderings |
| DnsDict.RenderDictKept | src/app/page.tsx:365-366 | dropped entries contribute nothing: rendering only the kept entries gives the same text |
| DnsDict.KeptEntriesAppend | src/app/page.tsx:351-366 | selection is entry by entry and keeps input order |
| DnsDict.KeptEntriesIdempotent | src/app/page.tsx:351-366 | selecting the kept entries twice is selecting once |
| DnsDict.DecodeEntryText | src/app/page.tsx:354-362 | a `<key>` element followed by a value element reads back as that entry, leaving the rest of the text untouched |
| DnsDict.DecodeRenderDict | src/app/page.tsx:351-366 | when no key or value contains `<`, the dictionary reads back as exactly the kept entries in input order |
| DnsDict.UnescapedValueInjects | src/app/page.tsx:361 | values are not escaped: one string value can forge a second entry, and two different lists print the same dictionary |
| Profile.DisplayName | src/app/page.tsx:348 | `DoH via <name>` or `DoT via <name>` (no contract of its own; `Profile.DisplayNameNamesTransport` states it) |
| Profile.Description | src/app/page.tsx:349 | the description sentence (no contract of its own; `Profile.DescriptionLayout` states its parts) |
| Profile.TemplateLines | src/app/page.tsx:368-404 | the template literal, line by line (no contract of its own; `Profile.TemplateIsPrintedTree` ties it to the tree printer) |
| Profile.MobileConfig | src/app/page.tsx:341-405 | `generateMobileConfig` as a value (no contract of its own; `Profile.MobileConfigPrintsDocument` and `Profile.DocumentContents` state what it contains) |
| Profile.DisplayNameNamesTransport | src/app/page.tsx:348 | the display name is `DoH via <name>` exactly for HTTPS and `DoT via <name>` exactly for TLS |
| Profile.DescriptionLayout | src/app/page.tsx:349 | the description is the fixed opening, the name, ` via `, then `DoH.` or `DoT.` by protocol |
| Profile.GenerateMobileConfig | src/app/page.tsx:341-405 | the steps yield the template filled with the identifiers derived from the name and from the name plus `-payload`, the display name, the description and the rendered dictionary (that this text prints the document tree is `Profile.MobileConfigPrintsDocument`) |
| Profile.Lookup | src/app/page.tsx:368-404 | a found key is present with that value; a missing key is absent from every entry |
| Profile.TemplateIsPrintedTree | src/app/page.tsx:368-404 | the literal template, line by line, is the printing of the profile's property-list tree |
| Profile.MobileConfigPrintsDocument | src/app/page.tsx:341-405 | the generated text is the printed document tree |
| Profile.KeysDistinct | src/app/page.tsx:371-403 | no key repeats within the payload dictionary or within the profile dictionary |
| Profile.DocumentContents | src/app/page.tsx:342-404 | root type `Configuration`, both versions `1`, profile identifier `com.example.mobileconfig.` + UUID(name), exactly one payload of type `com.apple.dnsSettings.managed` with identifier `com.apple.dnsSettings.managed.` + UUID(name + `-payload`), display names and description as above, and the serialized settings inside `DNSSettings` |
| Submit.PresetSettings | src/app/page.tsx:278-291 | a preset object: `DNSProtocol`, `ServerURL`, `ServerAddresses` in that order (no contract of its own; `Submit.PresetDictionaryReadsBack`) |
| Submit.CustomSettings | src/app/page.tsx:308-311 | the spread of the form with `ServerAddresses` added last (no contract of its own; `Submit.CustomSettingsFlags` and `Submit.CustomSettingsKept`) |
| Submit.DashWhitespace | src/app/page.tsx:316 | `replace(/\s/g, '-')` keeps the length; `Submit.DashWhitespaceAt` gives each character |
| Submit.FileName | src/app/page.tsx:316 | the template string of the file name (no contract of its own; `Submit.FileNameLayout` states it) |
| Submit.Select | src/app/page.tsx:274-313 | the switch as a value (no contract of its own; `Submit.ChooseSettings` is proved equal to it, `Submit.SubmittedNone` says when it gives up) |
| Submit.Produce | src/app/page.tsx:315-316 | the generated profile under the derived file name (no contract of its own; `Submit.ProducedParts`) |
| Submit.Submitted | src/app/page.tsx:269-317 | `handleSubmit` as a value (no contract of its own; `Submit.SubmittedNone` and `Submit.SubmittedDownload`) |
| Submit.CustomName | src/app/page.tsx:294 | the display name is never empty, and it is `Custom` exactly when the form's name is empty or is `Custom` itself; any non-empty name, a whitespace-only one included, is used unchanged |
| Submit.DashWhitespaceAt | src/app/page.tsx:316 | each whitespace character becomes `-`, one for one; other characters are kept |
| Submit.FileNameLayout | src/app/page.tsx:316 | the file name is the lower-cased name with each whitespace character replaced by `-`, followed by `.mobileconfig`; its length is the name's plus 13 |
| Submit.ChooseSettings | src/app/page.tsx:274-313 | the switch yields the settings, name and protocol the selection prescribes, and gives up exactly when the custom list lacks an IPv4 or an IPv6 entry |
| Submit.HandleSubmit | src/app/page.tsx:269-317 | the early return and the generation together yield the download the selection prescribes (its properties are `Submit.SubmittedNone` and `Submit.SubmittedDownload`) |
| Submit.Deliver | src/app/page.tsx:315-316 | the selected settings, name and protocol become the generated profile, the derived file name and the MIME type `application/x-apple-aspen-config` |
| Submit.SubmittedNone | src/app/page.tsx:300-306 | nothing is produced exactly when the custom resolver is chosen and its cleaned list lacks an IPv4 or an IPv6 entry; the presets always produce a download |
| Submit.SubmittedDownload | src/app/page.tsx:315-316 | a download carries the printed document of the selected settings, name and protocol, and the file name derived from the selected name (13 characters longer than it) |
| Submit.ProducedParts | src/app/page.tsx:315-316 | whatever the selection, the offered content is its printed document, the file name is the one derived from the name (13 characters longer than it) and the MIME type is `application/x-apple-aspen-config` |
| Submit.ShortListRejected | src/app/page.tsx:296-306 | a custom list that cleans down to fewer than two entries never produces a profile |
| Submit.CustomSettingsFlags | src/app/page.tsx:308-311 | of the custom object, `name` and the raw `serverAddresses` are never emitted; both switches, the protocol and `ServerAddresses` always are; `serverName` and `serverURL` exactly when non-empty |
| Submit.CustomSettingsKept | src/app/page.tsx:308-311 | the custom dictionary's entries, in order: both switches as booleans, `dnsProtocol`, `serverName` and `serverURL` when non-empty whatever the protocol, and the cleaned list as the one `ServerAddresses` array |
| Submit.CustomDictionaryReadsBack | src/app/page.tsx:308-311 | with no `<` in the free-text fields, the custom dictionary reads back as exactly its emitted entries |
| Submit.PresetDictionaryReadsBack | src/app/page.tsx:278-291 | a preset emits all three entries, `DNSProtocol`, `ServerURL`, `ServerAddresses`, in that order, and reads back as them |
| Submit.PresetsClean | src/app/page.tsx:281 | the preset address lists are already clean |
| Submit.Quad9IPv4 | src/app/page.tsx:281 | Quad9's first address passes the IPv4 pattern |
| Submit.CloudflareIPv4 | src/app/page.tsx:290 | Cloudflare's first address passes the IPv4 pattern |
| Submit.PresetIPv6 | src/app/page.tsx:281 | Quad9's and Cloudflare's third addresses pass the IPv6 test |
| Submit.PresetsAccepted | src/app/page.tsx:278-291 | both preset lists would pass the custom path's family check |
| Form.ReplaceAt | src/app/page.tsx:43-44 | replacing index i keeps the length, puts the value at i and leaves every other entry alone |
| Form.RemoveAt | src/app/page.tsx:59-60 | deleting index i shortens the list by one, keeps the entries before i and shifts those after it down by one |
| Form.RemoveAtMultiset | src/app/page.tsx:59-60 | deletion loses exactly the deleted entry |
| Form.ReplaceAtSame | src/app/page.tsx:43-44 | writing back the value already there changes nothing |
| Form.RemoveAfterReplace | src/app/page.tsx:42-65 | deleting an entry forgets any earlier change to it |
| Form.RemoveAppended | src/app/page.tsx:51-65 | deleting the blank entry just appended gives the list back |
| Form.AppendBlankClean | src/app/page.tsx:51-56 | an appended blank entry never reaches the profile: the cleaned list is unchanged |
| Form.BlankingIsRemoving | src/app/page.tsx:42-65 | overwriting an entry with whitespace has the same effect on the cleaned list as deleting it |
| Form.Page.constructor | src/app/page.tsx:19-28 | Quad9 selected; empty name, both switches off, HTTPS, one blank address, empty server name and URL |
| Form.Page.ChangeAddress | src/app/page.tsx:42-49 | the list gets entry i replaced; the resolver and every other form field are unchanged; the list stays non-empty |
| Form.Page.AddAddress | src/app/page.tsx:51-56 | the list gets a blank entry at its end; nothing else changes |
| Form.Page.RemoveAddress | src/app/page.tsx:58-65 | the list loses entry i, only while the delete button (line 207) is enabled, so it stays non-empty; nothing else changes |
| Form.Page.Generate | src/app/page.tsx:269-317 | pressing the button submits exactly the current resolver and form |
| Form.InitialCustomRejected | src/app/page.tsx:296-306 | choosing Custom on the untouched form (lines 20-28) produces nothing, since its only entry is blank |

## Left out

- SHA-1 (`crypto.subtle.digest`) and the UTF-8 encoding by `TextEncoder`
  (lines 322-324) are one parameter, a function from text to 20 bytes.
  Collision-freedom is not claimed.
- `async`/`await`: every step is sequential.
- The JSX markup (lines 67-266) and the `alert` of line 304 are not
  modelled. The rejected path returns `None` instead of alerting.
- `downloadMobileConfig` (lines 407-417) uses Blob, URL and DOM
  operations. The model returns the content, the file name and the MIME
  type instead.
- `handleCustomConfigChange` (lines 30-40) is not modelled. It updates a
  form field by the name of a DOM event's target. The model's form is an
  ordinary record whose fields can be replaced directly.
- Selecting a resolver (`setProvider`) is not modelled as a method. It is
  a plain assignment of the `provider` field.
- Form.Page.ChangeAddress and Form.Page.RemoveAddress require an index
  inside the list. The page only calls them with indices of rendered
  entries. Outside that range, JavaScript would grow a sparse array
  (assignment) or do nothing (`splice`).
- The handlers read `customConfig` from the rendering closure but write
  through `prev`. The model runs each handler on the current state, so a
  stale closure between two quick edits is not captured.
- Trimming, case mapping and `\s` cover ASCII only. Unicode whitespace
  and non-ASCII case mapping are not modelled.
- The regular expressions are not run by a regex engine. Each is stated
  as a predicate on the text's fields.
- Values other than strings, booleans and string arrays never occur in
  the page's settings objects, so the serializer's fall-through for
  them is not modelled.
- `src/app/layout.tsx` (page metadata) and `eslint.config.mjs` (lint
  settings) are not part of this model.
