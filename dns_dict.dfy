/**
 * The body of the `DNSSettings` dictionary (lines 351-366): every entry of
 * the configuration object, in insertion order, is turned into a plist
 * key/value pair by the type of its value, and the pieces are joined
 * without separators. Values are embedded as they are, without escaping.
 */
module DnsDict {
  import opened Wrappers
  import opened Text

  /** The run-time types the serializer distinguishes. */
  datatype Value = Str(s: string) | Bool(b: bool) | Arr(items: seq<string>)

  /** One `[key, value]` pair of `Object.entries`. */
  datatype Entry = Entry(key: string, value: Value)

  /** `` `<string>${v}</string>` `` for every array element, in order. */
  function StringElements(items: seq<string>): (r: seq<string>)
    ensures |r| == |items|
    ensures forall i | 0 <= i < |items| :: r[i] == "<string>" + items[i] + "</string>"
  {
    if items == [] then []
    else
      var rest := StringElements(items[1..]);
      assert forall i | 1 <= i < |items| :: items[1..][i - 1] == items[i];
      ["<string>" + items[0] + "</string>"] + rest
  }

  /** The callback of line 352: one entry's text, or `''` when it is left out. */
  function RenderEntry(e: Entry): string {
    if e.key == "name" then ""
    else if e.key == "ServerAddresses" && e.value.Arr? then
      "<key>" + e.key + "</key><array>" + Concat(StringElements(e.value.items)) + "</array>"
    else if e.value.Bool? then
      "<key>" + e.key + "</key><" + (if e.value.b then "true" else "false") + "/>"
    else if e.value.Str? && e.value.s != "" then
      "<key>" + e.key + "</key><string>" + e.value.s + "</string>"
    else ""
  }

  /** `.map(RenderEntry)` over the entries. */
  function RenderEntries(entries: seq<Entry>): (r: seq<string>)
    ensures |r| == |entries|
  {
    if entries == [] then [] else [RenderEntry(entries[0])] + RenderEntries(entries[1..])
  }

  /** `dnsSettingsDict`: map, `.filter(Boolean)`, `.join('')`. */
  function RenderDict(entries: seq<Entry>): string {
    Concat(DropEmpty(RenderEntries(entries)))
  }

  /** Which entries the serializer emits: not `name`; an array only under
      the key `ServerAddresses`; every boolean; a string when non-empty. */
  predicate Kept(e: Entry) {
    e.key != "name" &&
    ((e.key == "ServerAddresses" && e.value.Arr?) || e.value.Bool? || (e.value.Str? && e.value.s != ""))
  }

  /** The entries the serializer emits, in input order. */
  function KeptEntries(entries: seq<Entry>): (r: seq<Entry>)
    ensures |r| <= |entries|
  {
    if entries == [] then []
    else if Kept(entries[0]) then [entries[0]] + KeptEntries(entries[1..])
    else KeptEntries(entries[1..])
  }

  /** The kept entries are exactly the input entries the serializer
      emits. */
  lemma {:induction false} KeptEntriesMembers(entries: seq<Entry>)
    ensures forall e :: e in KeptEntries(entries) <==> e in entries && Kept(e)
  {
    if entries != [] {
      KeptEntriesMembers(entries[1..]);
      assert entries == [entries[0]] + entries[1..];
    }
  }

  /** A left-out entry contributes nothing; a kept one something. */
  lemma RenderEntryEmpty(e: Entry)
    ensures RenderEntry(e) == [] <==> !Kept(e)
  {
    if Kept(e) {
      assert RenderEntry(e)[0] == '<';
    }
  }

  /** The dictionary text is built entry by entry, in input order. */
  lemma {:induction false} RenderDictCons(entries: seq<Entry>)
    requires entries != []
    ensures RenderDict(entries) == RenderEntry(entries[0]) + RenderDict(entries[1..])
  {
    var parts := RenderEntries(entries);
    ConcatDropEmpty(parts);
    ConcatDropEmpty(parts[1..]);
    assert parts[1..] == RenderEntries(entries[1..]);
  }

  lemma {:induction false} RenderEntriesAppend(a: seq<Entry>, b: seq<Entry>)
    ensures RenderEntries(a + b) == RenderEntries(a) + RenderEntries(b)
  {
    if a == [] {
      assert a + b == b;
    } else {
      assert (a + b)[1..] == a[1..] + b;
      RenderEntriesAppend(a[1..], b);
    }
  }

  /** Rendering a concatenation of entry lists concatenates their texts. */
  lemma RenderDictAppend(a: seq<Entry>, b: seq<Entry>)
    ensures RenderDict(a + b) == RenderDict(a) + RenderDict(b)
  {
    RenderEntriesAppend(a, b);
    ConcatDropEmpty(RenderEntries(a + b));
    ConcatDropEmpty(RenderEntries(a));
    ConcatDropEmpty(RenderEntries(b));
    ConcatAppend(RenderEntries(a), RenderEntries(b));
  }

  /** The text depends only on the entries that are kept. */
  lemma {:induction false} RenderDictKept(entries: seq<Entry>)
    ensures RenderDict(KeptEntries(entries)) == RenderDict(entries)
  {
    if entries != [] {
      RenderDictKept(entries[1..]);
      RenderDictCons(entries);
      RenderEntryEmpty(entries[0]);
      if Kept(entries[0]) {
        var k := KeptEntries(entries);
        RenderDictCons(k);
        assert k[1..] == KeptEntries(entries[1..]);
      }
    }
  }

  lemma {:induction false} KeptEntriesAppend(a: seq<Entry>, b: seq<Entry>)
    ensures KeptEntries(a + b) == KeptEntries(a) + KeptEntries(b)
  {
    if a == [] {
      assert a + b == b;
    } else {
      assert (a + b)[1..] == a[1..] + b;
      KeptEntriesAppend(a[1..], b);
    }
  }

  /** Keeping the kept entries again changes nothing. */
  lemma {:induction false} KeptEntriesIdempotent(entries: seq<Entry>)
    ensures KeptEntries(KeptEntries(entries)) == KeptEntries(entries)
  {
    if entries != [] {
      KeptEntriesIdempotent(entries[1..]);
      if Kept(entries[0]) {
        assert KeptEntries(entries)[1..] == KeptEntries(entries[1..]);
      }
    }
  }

  // ----- Reading the text back -----

  /** No `<` in the text, so it cannot be mistaken for markup. */
  predicate PlainText(t: string) {
    '<' !in t
  }

  predicate PlainEntry(e: Entry) {
    PlainText(e.key) &&
    match e.value
    case Str(s) => PlainText(s)
    case Bool(_) => true
    case Arr(items) => forall i | 0 <= i < |items| :: PlainText(items[i])
  }

  /** `s` without the prefix `p`, when `s` starts with it. */
  function DropPrefix(p: string, s: string): (r: Option<string>)
    ensures r.Some? ==> |r.value| == |s| - |p|
  {
    if |p| <= |s| && s[..|p|] == p then Some(s[|p|..]) else None
  }

  /** The text before the first `<`, and the rest. */
  function TakeText(s: string): (r: (string, string))
    ensures |r.0| + |r.1| == |s|
    ensures s == r.0 + r.1
  {
    if s == [] || s[0] == '<' then ([], s)
    else var (t, rest) := TakeText(s[1..]); ([s[0]] + t, rest)
  }

  /** Text followed by the closing tag `close`. */
  function DecodeText(s: string, close: string): (r: Option<(string, string)>)
    ensures r.Some? ==> |r.value.1| < |s| || close == []
  {
    var (t, rest) := TakeText(s);
    match DropPrefix(close, rest)
    case None => None
    case Some(after) => Some((t, after))
  }

  /** `<string>` elements up to and including `</array>`. */
  function DecodeElements(s: string): (r: Option<(seq<string>, string)>)
    ensures r.Some? ==> |r.value.1| < |s|
    decreases |s|
  {
    match DropPrefix("</array>", s)
    case Some(after) => Some(([], after))
    case None =>
      match DropPrefix("<string>", s)
      case None => None
      case Some(r1) =>
        match DecodeText(r1, "</string>")
        case None => None
        case Some((x, r2)) =>
          match DecodeElements(r2)
          case None => None
          case Some((xs, r3)) => Some(([x] + xs, r3))
  }

  function DecodeValue(s: string): (r: Option<(Value, string)>)
    ensures r.Some? ==> |r.value.1| < |s|
  {
    if DropPrefix("<true/>", s).Some? then Some((Bool(true), DropPrefix("<true/>", s).value))
    else if DropPrefix("<false/>", s).Some? then Some((Bool(false), DropPrefix("<false/>", s).value))
    else if DropPrefix("<string>", s).Some? then
      match DecodeText(DropPrefix("<string>", s).value, "</string>")
      case None => None
      case Some((t, rest)) => Some((Str(t), rest))
    else if DropPrefix("<array>", s).Some? then
      match DecodeElements(DropPrefix("<array>", s).value)
      case None => None
      case Some((xs, rest)) => Some((Arr(xs), rest))
    else None
  }

  function DecodeEntry(s: string): (r: Option<(Entry, string)>)
    ensures r.Some? ==> |r.value.1| < |s|
  {
    match DropPrefix("<key>", s)
    case None => None
    case Some(r1) =>
      match DecodeText(r1, "</key>")
      case None => None
      case Some((k, r2)) =>
        match DecodeValue(r2)
        case None => None
        case Some((v, r3)) => Some((Entry(k, v), r3))
  }

  /** Reads a dictionary body back into its entries. */
  function DecodeDict(s: string): Option<seq<Entry>>
    decreases |s|
  {
    if s == [] then Some([])
    else
      match DecodeEntry(s)
      case None => None
      case Some((e, rest)) =>
        match DecodeDict(rest)
        case None => None
        case Some(es) => Some([e] + es)
  }

  lemma DropPrefixOf(p: string, t: string)
    ensures DropPrefix(p, p + t) == Some(t)
  {
    assert (p + t)[..|p|] == p;
    assert (p + t)[|p|..] == t;
  }

  lemma {:induction false} TakeTextOf(t: string, rest: string)
    requires PlainText(t)
    requires rest == [] || rest[0] == '<'
    ensures TakeText(t + rest) == (t, rest)
  {
    if t == [] {
      assert t + rest == rest;
    } else {
      assert (t + rest)[0] == t[0] && t[0] != '<';
      assert (t + rest)[1..] == t[1..] + rest;
      assert PlainText(t[1..]) by {
        forall i | 0 <= i < |t[1..]| ensures t[1..][i] != '<' { assert t[1..][i] == t[i + 1]; }
      }
      TakeTextOf(t[1..], rest);
      assert [t[0]] + t[1..] == t;
    }
  }

  lemma DecodeTextOf(t: string, close: string, rest: string)
    requires PlainText(t)
    requires close != [] && close[0] == '<'
    ensures DecodeText(t + close + rest, close) == Some((t, rest))
  {
    assert t + close + rest == t + (close + rest);
    TakeTextOf(t, close + rest);
    DropPrefixOf(close, rest);
  }

  lemma Reassociate(a: string, b: string, c: string, d: string, e: string, f: string)
    ensures a + b + c + d + e + f == a + (b + c + (d + e + f))
  {
  }

  lemma StringElementsCons(items: seq<string>)
    requires items != []
    ensures Concat(StringElements(items)) == "<string>" + items[0] + "</string>" + Concat(StringElements(items[1..]))
  {
    assert StringElements(items)[1..] == StringElements(items[1..]);
  }

  /** One `<string>` element in front of elements that read back. */
  lemma DecodeElementsCons(x: string, tail: string, xs: seq<string>, rest: string)
    requires PlainText(x)
    requires DecodeElements(tail) == Some((xs, rest))
    ensures DecodeElements("<string>" + (x + "</string>" + tail)) == Some(([x] + xs, rest))
  {
    var s := "<string>" + (x + "</string>" + tail);
    assert DropPrefix("</array>", s).None? by {
      assert s[1] == 's';
    }
    assert DropPrefix("<string>", s) == Some(x + "</string>" + tail) by {
      DropPrefixOf("<string>", x + "</string>" + tail);
    }
    assert DecodeText(x + "</string>" + tail, "</string>") == Some((x, tail)) by {
      DecodeTextOf(x, "</string>", tail);
    }
  }

  lemma {:induction false} DecodeElementsOf(items: seq<string>, rest: string)
    requires forall i | 0 <= i < |items| :: PlainText(items[i])
    ensures DecodeElements(Concat(StringElements(items)) + "</array>" + rest) == Some((items, rest))
  {
    var s := Concat(StringElements(items)) + "</array>" + rest;
    if items == [] {
      assert s == "</array>" + rest;
      DropPrefixOf("</array>", rest);
    } else {
      var x := items[0];
      var tail := Concat(StringElements(items[1..])) + "</array>" + rest;
      assert s == "<string>" + (x + "</string>" + tail) by {
        StringElementsCons(items);
        Reassociate("<string>", x, "</string>", Concat(StringElements(items[1..])), "</array>", rest);
      }
      DecodeElementsOf(items[1..], rest);
      DecodeElementsCons(x, tail, items[1..], rest);
      assert [x] + items[1..] == items;
    }
  }

  /** The markup after `</key>`: the value part of an emitted entry. */
  function ValueText(v: Value): string {
    match v
    case Arr(items) => "<array>" + Concat(StringElements(items)) + "</array>"
    case Bool(b) => "<" + (if b then "true" else "false") + "/>"
    case Str(s) => "<string>" + s + "</string>"
  }

  lemma RenderEntryParts(e: Entry)
    requires Kept(e)
    ensures RenderEntry(e) == "<key>" + e.key + "</key>" + ValueText(e.value)
  {
  }

  lemma DecodeArrayOf(items: seq<string>, rest: string)
    requires forall i | 0 <= i < |items| :: PlainText(items[i])
    ensures DecodeValue(ValueText(Arr(items)) + rest) == Some((Arr(items), rest))
  {
    var inner := Concat(StringElements(items)) + "</array>" + rest;
    var s := ValueText(Arr(items)) + rest;
    assert s == "<array>" + inner;
    assert s[1] == 'a';
    assert DropPrefix("<true/>", s).None? && DropPrefix("<false/>", s).None? && DropPrefix("<string>", s).None?;
    DropPrefixOf("<array>", inner);
    DecodeElementsOf(items, rest);
    assert DecodeElements(inner) == Some((items, rest));
  }

  lemma DecodeBoolOf(b: bool, rest: string)
    ensures DecodeValue(ValueText(Bool(b)) + rest) == Some((Bool(b), rest))
  {
    if b {
      assert ValueText(Bool(b)) == "<true/>";
      DropPrefixOf("<true/>", rest);
    } else {
      assert ValueText(Bool(b)) == "<false/>";
      assert (ValueText(Bool(b)) + rest)[1] == 'f';
      DropPrefixOf("<false/>", rest);
    }
  }

  lemma DecodeStringOf(x: string, rest: string)
    requires PlainText(x)
    ensures DecodeValue(ValueText(Str(x)) + rest) == Some((Str(x), rest))
  {
    var s := ValueText(Str(x)) + rest;
    assert s == "<string>" + (x + "</string>" + rest);
    assert s[1] == 's';
    DropPrefixOf("<string>", x + "</string>" + rest);
    DecodeTextOf(x, "</string>", rest);
  }

  lemma DecodeValueOf(v: Value, rest: string)
    requires PlainEntry(Entry([], v))
    ensures DecodeValue(ValueText(v) + rest) == Some((v, rest))
  {
    match v
    case Arr(items) => DecodeArrayOf(items, rest);
    case Bool(b) => DecodeBoolOf(b, rest);
    case Str(x) => DecodeStringOf(x, rest);
  }

  /** An entry's markup reads back as that entry. */
  lemma DecodeEntryText(k: string, v: Value, rest: string)
    requires PlainText(k) && PlainEntry(Entry([], v))
    ensures DecodeEntry("<key>" + k + "</key>" + ValueText(v) + rest) == Some((Entry(k, v), rest))
  {
    var body := ValueText(v) + rest;
    var s := "<key>" + k + "</key>" + ValueText(v) + rest;
    assert s == "<key>" + (k + "</key>" + body);
    assert DropPrefix("<key>", s) == Some(k + "</key>" + body) by {
      DropPrefixOf("<key>", k + "</key>" + body);
    }
    assert DecodeText(k + "</key>" + body, "</key>") == Some((k, body)) by {
      DecodeTextOf(k, "</key>", body);
    }
    assert DecodeValue(body) == Some((v, rest)) by {
      DecodeValueOf(v, rest);
    }
  }

  /** Every emitted entry is read back as itself. */
  lemma DecodeEntryOf(e: Entry, rest: string)
    requires Kept(e) && PlainEntry(e)
    ensures DecodeEntry(RenderEntry(e) + rest) == Some((e, rest))
  {
    RenderEntryParts(e);
    assert PlainEntry(Entry([], e.value));
    DecodeEntryText(e.key, e.value, rest);
  }

  /** Round trip: when no key or value contains `<`, the dictionary text
      reads back as exactly the emitted entries, in input order. */
  lemma {:induction false} DecodeRenderDict(entries: seq<Entry>)
    requires forall i | 0 <= i < |entries| :: PlainEntry(entries[i])
    ensures DecodeDict(RenderDict(entries)) == Some(KeptEntries(entries))
  {
    if entries != [] {
      var e := entries[0];
      RenderDictCons(entries);
      DecodeRenderDict(entries[1..]);
      var rest := RenderDict(entries[1..]);
      if Kept(e) {
        DecodeEntryOf(e, rest);
        RenderEntryEmpty(e);
      } else {
        RenderEntryEmpty(e);
        assert RenderEntry(e) + rest == rest;
      }
    }
  }

  /** A non-empty string under any key but `name` renders as a `<string>`
      element. */
  lemma RenderString(k: string, v: string)
    requires k != "name" && v != []
    ensures RenderEntry(Entry(k, Str(v))) == "<key>" + k + "</key><string>" + v + "</string>"
  {
  }

  lemma RenderDictPair(e1: Entry, e2: Entry)
    ensures RenderDict([e1, e2]) == RenderEntry(e1) + RenderEntry(e2)
  {
    RenderDictCons([e1, e2]);
    RenderDictCons([e2]);
    assert [e1, e2][1..] == [e2] && [e2][1..] == [];
  }

  lemma RenderDictSingle(e: Entry)
    ensures RenderDict([e]) == RenderEntry(e)
  {
    RenderDictCons([e]);
    assert [e][1..] == [];
  }

  /** Without escaping, a value can smuggle in markup: one string entry
      whose value closes its own element renders exactly like two separate
      string entries. */
  lemma UnescapedValueInjects(k1: string, a: string, k2: string, b: string)
    requires k1 != "name" && k2 != "name" && a != [] && b != []
    ensures var forged := [Entry(k1, Str(a + "</string><key>" + k2 + "</key><string>" + b))];
      var honest := [Entry(k1, Str(a)), Entry(k2, Str(b))];
      forged != honest && RenderDict(forged) == RenderDict(honest)
  {
    var x := a + "</string><key>" + k2 + "</key><string>" + b;
    var forged := [Entry(k1, Str(x))];
    var honest := [Entry(k1, Str(a)), Entry(k2, Str(b))];
    var open1 := "<key>" + k1 + "</key><string>";
    var second := "<key>" + k2 + "</key><string>" + b + "</string>";
    assert forged != honest by {
      assert |forged| != |honest|;
    }
    assert RenderDict(forged) == open1 + x + "</string>" by {
      RenderString(k1, x);
      RenderDictSingle(Entry(k1, Str(x)));
    }
    assert RenderDict(honest) == open1 + a + "</string>" + second by {
      RenderString(k1, a);
      RenderString(k2, b);
      RenderDictPair(Entry(k1, Str(a)), Entry(k2, Str(b)));
    }
    assert open1 + x + "</string>" == open1 + a + "</string>" + second by {
      assert "</string><key>" == "</string>" + "<key>";
      Splice(open1, a, "</string><key>", "</string>", "<key>", k2 + "</key><string>" + b);
      assert x == a + "</string><key>" + (k2 + "</key><string>" + b);
      assert second == "<key>" + (k2 + "</key><string>" + b) + "</string>";
    }
  }

  /** Text arithmetic behind the injection: a closing tag `c == p + q` inside
      a value splits the value's element in two. */
  lemma Splice(o: string, a: string, c: string, p: string, q: string, r: string)
    requires c == p + q
    ensures o + (a + c + r) + p == o + a + p + (q + r + p)
  {
  }
}
