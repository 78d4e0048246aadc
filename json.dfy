/**
 * The JSON text of a stream event, as `JSON.stringify` writes it and
 * `JSON.parse` reads it back. Values are generic JSON values restricted to
 * the kinds the protocol uses (strings, non-negative integers, arrays,
 * objects); an event is read from an object value afterwards.
 *
 * Writers are in continuation style: `XOnto(x, k)` is the text of `x`
 * followed by `k`. This lets the round-trip proofs walk the text left to
 * right without re-associating concatenations.
 *
 * The two facts the framing depends on are proved here:
 *   `Decode(Encode(p)) == Some(p)` and `'\n' !in Encode(p)`.
 */
module Json {
  import opened Wrappers
  import opened Strings
  import opened Types

  // ---------------------------------------------------------------------
  // Literals

  /** Consume the literal `lit` at the head of `s`. */
  function Expect(s: string, lit: string): (r: Option<string>)
    requires lit != ""
    ensures r.Some? ==> |r.value| < |s|
  {
    if StartsWith(s, lit) then Some(s[|lit|..]) else None
  }

  lemma ExpectLit(lit: string, x: string)
    requires lit != ""
    ensures Expect(lit + x, lit) == Some(x)
  {
    assert (lit + x)[..|lit|] == lit;
    assert (lit + x)[|lit|..] == x;
  }

  // ---------------------------------------------------------------------
  // Strings

  function HexDigit(d: nat): (c: char)
    requires d < 16
  {
    if d < 10 then ('0' as int + d) as char else ('a' as int + d - 10) as char
  }

  function HexValue(c: char): (r: Option<nat>)
    ensures r.Some? ==> r.value < 16
  {
    if '0' <= c <= '9' then Some(c as int - '0' as int)
    else if 'a' <= c <= 'f' then Some(c as int - 'a' as int + 10)
    else if 'A' <= c <= 'F' then Some(c as int - 'A' as int + 10)
    else None
  }

  /** The four hex digits of a `\uXXXX` escape. */
  function Hex4(s: string): (r: Option<nat>)
    requires |s| == 4
    ensures r.Some? ==> r.value < 0x1_0000
  {
    var a :- HexValue(s[0]);
    var b :- HexValue(s[1]);
    var c :- HexValue(s[2]);
    var d :- HexValue(s[3]);
    Some(((a * 16 + b) * 16 + c) * 16 + d)
  }

  /**
   * How `JSON.stringify` writes one character inside a string literal: the
   * quote, the backslash and every control character are escaped, the latter
   * with a short form where JSON has one and as `\u00XX` otherwise.
   */
  function EscapeChar(c: char): string {
    if c == '"' then ['\\', '"']
    else if c == '\\' then ['\\', '\\']
    else if c == '\n' then ['\\', 'n']
    else if c == '\r' then ['\\', 'r']
    else if c == '\t' then ['\\', 't']
    else if c as int == 0x08 then ['\\', 'b']
    else if c as int == 0x0C then ['\\', 'f']
    else if (c as int) < 0x20 then ['\\', 'u', '0', '0', HexDigit(c as int / 16), HexDigit(c as int % 16)]
    else [c]
  }

  function EscapeOnto(s: string, k: string): string {
    if s == "" then k else EscapeChar(s[0]) + EscapeOnto(s[1..], k)
  }

  function EncodeStringOnto(s: string, k: string): string {
    "\"" + EscapeOnto(s, "\"" + k)
  }

  /** Read one escape sequence; `s` starts just after the backslash. */
  function Unescape(s: string): (r: Option<(char, string)>)
    ensures r.Some? ==> |r.value.1| < |s|
  {
    if s == "" then None
    else if s[0] == '"' then Some(('"', s[1..]))
    else if s[0] == '\\' then Some(('\\', s[1..]))
    else if s[0] == '/' then Some(('/', s[1..]))
    else if s[0] == 'b' then Some((0x08 as char, s[1..]))
    else if s[0] == 'f' then Some((0x0C as char, s[1..]))
    else if s[0] == 'n' then Some(('\n', s[1..]))
    else if s[0] == 'r' then Some(('\r', s[1..]))
    else if s[0] == 't' then Some(('\t', s[1..]))
    else if s[0] == 'u' && |s| >= 5 then
      match Hex4(s[1..5])
      case Some(v) =>
        if v < 0xD800 || 0xE000 <= v then Some((v as char, s[5..])) else None
      case None => None
    else None
  }

  /** Read the rest of a string literal; `s` starts just after the opening quote. */
  function ParseStringBody(s: string): (r: Option<(string, string)>)
    ensures r.Some? ==> |r.value.1| < |s|
    decreases |s|
  {
    if s == "" then None
    else if s[0] == '"' then Some(("", s[1..]))
    else if s[0] == '\\' then
      match Unescape(s[1..])
      case None => None
      case Some((c, rest)) =>
        match ParseStringBody(rest)
        case None => None
        case Some((t, after)) => Some(([c] + t, after))
    else if (s[0] as int) < 0x20 then None
    else
      match ParseStringBody(s[1..])
      case None => None
      case Some((t, after)) => Some(([s[0]] + t, after))
  }

  function ParseString(s: string): (r: Option<(string, string)>)
    ensures r.Some? ==> |r.value.1| < |s|
  {
    var body :- Expect(s, "\"");
    ParseStringBody(body)
  }

  lemma HexRoundTrip(d: nat)
    requires d < 16
    ensures HexValue(HexDigit(d)) == Some(d)
  {
  }

  /** One escaped character is read back as itself, and reading goes on after it. */
  lemma EscapeCharParse(c: char, more: string)
    ensures ParseStringBody(EscapeChar(c) + more) ==
      match ParseStringBody(more)
      case None => None
      case Some((t, after)) => Some(([c] + t, after))
  {
    var e := EscapeChar(c);
    var s := e + more;
    if |e| == 2 {
      assert s[0] == '\\';
      assert s[1..] == [e[1]] + more;
      assert s[1..][1..] == more;
    } else if |e| == 6 {
      var n := c as int;
      HexRoundTrip(n / 16);
      HexRoundTrip(n % 16);
      assert s[0] == '\\';
      assert s[1..][1..5] == e[2..6];
      assert e[2..6] == ['0', '0', HexDigit(n / 16), HexDigit(n % 16)];
      assert Hex4(s[1..][1..5]) == Some(n);
      assert s[1..][5..] == more;
    } else {
      assert s[1..] == more;
    }
  }

  lemma {:induction false} EscapeParse(s: string, k: string)
    ensures ParseStringBody(EscapeOnto(s, "\"" + k)) == Some((s, k))
    decreases |s|
  {
    if s == "" {
      assert ("\"" + k)[1..] == k;
    } else {
      EscapeParse(s[1..], k);
      EscapeCharParse(s[0], EscapeOnto(s[1..], "\"" + k));
      assert [s[0]] + s[1..] == s;
    }
  }

  lemma StringRoundTrip(s: string, k: string)
    ensures ParseString(EncodeStringOnto(s, k)) == Some((s, k))
  {
    ExpectLit("\"", EscapeOnto(s, "\"" + k));
    EscapeParse(s, k);
  }

  lemma {:induction false} EscapeNoNewline(s: string, k: string)
    requires '\n' !in k
    ensures '\n' !in EscapeOnto(s, k)
    decreases |s|
  {
    if s != "" {
      EscapeNoNewline(s[1..], k);
    }
  }

  // ---------------------------------------------------------------------
  // Numbers (citation offsets are non-negative integers)

  /** Length of the longest prefix of `s` made of decimal digits. */
  function DigitRun(s: string): (n: nat)
    ensures n <= |s| && AllDigits(s[..n]) && (n == |s| || !IsDigit(s[n]))
    decreases |s|
  {
    if s != "" && IsDigit(s[0]) then
      var m := DigitRun(s[1..]);
      assert s[..m + 1] == [s[0]] + s[1..][..m];
      m + 1
    else 0
  }

  /** A JSON number restricted to non-negative integers: no leading zero, no sign. */
  function ParseNat(s: string): (r: Option<(nat, string)>)
    ensures r.Some? ==> |r.value.1| < |s|
  {
    var n := DigitRun(s);
    if n == 0 || (n > 1 && s[0] == '0') then None
    else Some((DigitsValue(s[..n]), s[n..]))
  }

  lemma {:induction false} DigitRunStops(d: string, k: string)
    requires AllDigits(d) && (k == "" || !IsDigit(k[0]))
    ensures DigitRun(d + k) == |d|
    decreases |d|
  {
    if d != "" {
      assert (d + k)[1..] == d[1..] + k;
      DigitRunStops(d[1..], k);
    }
  }

  lemma NatRoundTrip(n: nat, k: string)
    requires k == "" || !IsDigit(k[0])
    ensures ParseNat(NatToString(n) + k) == Some((n, k))
  {
    var d := NatToString(n);
    var s := d + k;
    DigitRunStops(d, k);
    var m := DigitRun(s);
    assert s[..m] == d && s[m..] == k;
    NatToStringValue(n);
  }

  lemma DigitsNoNewline(n: nat)
    ensures '\n' !in NatToString(n)
  {
  }

  lemma NoNewlineJoin(a: string, b: string)
    requires '\n' !in a && '\n' !in b
    ensures '\n' !in a + b
  {
  }

  // ---------------------------------------------------------------------
  // Values

  datatype Value = Str(s: string) | Num(n: nat) | Arr(items: seq<Value>) | Obj(fields: seq<Field>)
  datatype Field = Field(key: string, value: Value)

  /** `JSON.stringify(v)` followed by `k`: no whitespace, fields in their order. */
  function SerializeOnto(v: Value, k: string): string {
    match v
    case Str(s) => EncodeStringOnto(s, k)
    case Num(n) => NatToString(n) + k
    case Arr(items) => "[" + (if items == [] then "]" + k else ItemsOnto(items, "]" + k))
    case Obj(fields) => "{" + (if fields == [] then "}" + k else FieldsOnto(fields, "}" + k))
  }

  /** The items of a non-empty array, comma-separated, followed by `k`. */
  function ItemsOnto(items: seq<Value>, k: string): string
    requires items != []
  {
    SerializeOnto(items[0], if |items| == 1 then k else "," + ItemsOnto(items[1..], k))
  }

  /** The `"key":value` pairs of a non-empty object, comma-separated, followed by `k`. */
  function FieldsOnto(fields: seq<Field>, k: string): string
    requires fields != []
  {
    EncodeStringOnto(fields[0].key, ":" +
      SerializeOnto(fields[0].value, if |fields| == 1 then k else "," + FieldsOnto(fields[1..], k)))
  }

  /** Read one value at the head of `s`: the first character decides its kind. */
  function ParseValue(s: string): (r: Option<(Value, string)>)
    ensures r.Some? ==> |r.value.1| < |s|
    decreases |s|, 0
  {
    if StartsWith(s, "\"") then
      var t :- ParseString(s);
      Some((Str(t.0), t.1))
    else if StartsWith(s, "[") then
      if StartsWith(s[1..], "]") then Some((Arr([]), s[2..]))
      else
        var r :- ParseItems(s[1..]);
        Some((Arr(r.0), r.1))
    else if StartsWith(s, "{") then
      if StartsWith(s[1..], "}") then Some((Obj([]), s[2..]))
      else
        var r :- ParseFields(s[1..]);
        Some((Obj(r.0), r.1))
    else
      var n :- ParseNat(s);
      Some((Num(n.0), n.1))
  }

  /** The items of a non-empty array and its closing bracket; `s` starts at the first item. */
  function ParseItems(s: string): (r: Option<(seq<Value>, string)>)
    ensures r.Some? ==> |r.value.1| < |s|
    decreases |s|, 1
  {
    var v :- ParseValue(s);
    if StartsWith(v.1, ",") then
      var more :- ParseItems(v.1[1..]);
      Some(([v.0] + more.0, more.1))
    else if StartsWith(v.1, "]") then Some(([v.0], v.1[1..]))
    else None
  }

  /** The fields of a non-empty object and its closing brace; `s` starts at the first key. */
  function ParseFields(s: string): (r: Option<(seq<Field>, string)>)
    ensures r.Some? ==> |r.value.1| < |s|
    decreases |s|, 1
  {
    var key :- ParseString(s);
    var s1 :- Expect(key.1, ":");
    var v :- ParseValue(s1);
    if StartsWith(v.1, ",") then
      var more :- ParseFields(v.1[1..]);
      Some(([Field(key.0, v.0)] + more.0, more.1))
    else if StartsWith(v.1, "}") then Some(([Field(key.0, v.0)], v.1[1..]))
    else None
  }

  /** What may follow a value inside the texts written here: the end, a comma or a closing bracket or brace. */
  predicate Delimited(k: string) {
    k == "" || k[0] == ',' || k[0] == ']' || k[0] == '}'
  }

  /** A written value starts with a quote, a digit, a bracket or a brace, never with a closer. */
  lemma SerializeStart(v: Value, k: string)
    ensures SerializeOnto(v, k) != ""
    ensures SerializeOnto(v, k)[0] == '"' || IsDigit(SerializeOnto(v, k)[0]) ||
            SerializeOnto(v, k)[0] == '[' || SerializeOnto(v, k)[0] == '{'
  {
  }

  lemma ValueRoundTrip(v: Value, k: string)
    requires Delimited(k)
    ensures ParseValue(SerializeOnto(v, k)) == Some((v, k))
    decreases v
  {
    match v
    case Str(t) =>
      StringRoundTrip(t, k);
    case Num(n) =>
      NumRoundTrip(n, k);
    case Arr(items) =>
      if items != [] {
        ItemsRoundTrip(items, k);
      }
      ArrRoundTrip(items, k);
    case Obj(fields) =>
      if fields != [] {
        FieldsRoundTrip(fields, k);
      }
      ObjRoundTrip(fields, k);
  }

  lemma NumRoundTrip(n: nat, k: string)
    requires Delimited(k)
    ensures ParseValue(SerializeOnto(Num(n), k)) == Some((Num(n), k))
  {
    var s := SerializeOnto(Num(n), k);
    assert IsDigit(s[0]);
    NatRoundTrip(n, k);
  }

  lemma ArrRoundTrip(items: seq<Value>, k: string)
    requires items != [] ==> ParseItems(ItemsOnto(items, "]" + k)) == Some((items, k))
    ensures ParseValue(SerializeOnto(Arr(items), k)) == Some((Arr(items), k))
  {
    var s := SerializeOnto(Arr(items), k);
    if items == [] {
      assert s[1..][1..] == k;
    } else {
      assert s[1..] == ItemsOnto(items, "]" + k);
      SerializeStart(items[0], if |items| == 1 then "]" + k else "," + ItemsOnto(items[1..], "]" + k));
    }
  }

  lemma ObjRoundTrip(fields: seq<Field>, k: string)
    requires fields != [] ==> ParseFields(FieldsOnto(fields, "}" + k)) == Some((fields, k))
    ensures ParseValue(SerializeOnto(Obj(fields), k)) == Some((Obj(fields), k))
  {
    var s := SerializeOnto(Obj(fields), k);
    assert s[0] == '{';
    if fields == [] {
      assert s[1..][1..] == k;
    } else {
      var body := FieldsOnto(fields, "}" + k);
      assert s == "{" + body;
      assert body[0] == '"';
      ExpectLit("{", body);
    }
  }

  lemma ItemsRoundTrip(items: seq<Value>, k: string)
    requires items != []
    ensures ParseItems(ItemsOnto(items, "]" + k)) == Some((items, k))
    decreases items
  {
    if |items| == 1 {
      ValueRoundTrip(items[0], "]" + k);
      assert ("]" + k)[1..] == k;
      assert items == [items[0]];
    } else {
      var tail := ItemsOnto(items[1..], "]" + k);
      ValueRoundTrip(items[0], "," + tail);
      assert ("," + tail)[1..] == tail;
      ItemsRoundTrip(items[1..], k);
      assert [items[0]] + items[1..] == items;
    }
  }

  lemma FieldsRoundTrip(fields: seq<Field>, k: string)
    requires fields != []
    ensures ParseFields(FieldsOnto(fields, "}" + k)) == Some((fields, k))
    decreases fields
  {
    var f := fields[0];
    var next := if |fields| == 1 then "}" + k else "," + FieldsOnto(fields[1..], "}" + k);
    ValueRoundTrip(f.value, next);
    FieldStep(f, next);
    if |fields| == 1 {
      assert next[1..] == k;
      assert fields == [f];
    } else {
      assert next[1..] == FieldsOnto(fields[1..], "}" + k);
      FieldsRoundTrip(fields[1..], k);
      assert [f] + fields[1..] == fields;
    }
  }

  /** Reading one written field: its key and value come back, then the comma or the closing brace decides. */
  lemma FieldStep(f: Field, next: string)
    requires ParseValue(SerializeOnto(f.value, next)) == Some((f.value, next))
    ensures StartsWith(next, ",") ==>
      ParseFields(EncodeStringOnto(f.key, ":" + SerializeOnto(f.value, next))) ==
        (match ParseFields(next[1..])
         case None => None
         case Some((more, rest)) => Some(([f] + more, rest)))
    ensures StartsWith(next, "}") ==>
      ParseFields(EncodeStringOnto(f.key, ":" + SerializeOnto(f.value, next))) == Some(([f], next[1..]))
  {
    var rest := SerializeOnto(f.value, next);
    StringRoundTrip(f.key, ":" + rest);
    ExpectLit(":", rest);
  }

  lemma ValueNoNewline(v: Value, k: string)
    requires '\n' !in k
    ensures '\n' !in SerializeOnto(v, k)
    decreases v
  {
    match v
    case Str(t) =>
      EscapeNoNewline(t, "\"" + k);
      NoNewlineJoin("\"", EscapeOnto(t, "\"" + k));
    case Num(n) =>
      DigitsNoNewline(n);
      NoNewlineJoin(NatToString(n), k);
    case Arr(items) =>
      if items == [] {
        NoNewlineJoin("]", k);
        NoNewlineJoin("[", "]" + k);
      } else {
        NoNewlineJoin("]", k);
        ItemsNoNewline(items, "]" + k);
        NoNewlineJoin("[", ItemsOnto(items, "]" + k));
      }
    case Obj(fields) =>
      if fields == [] {
        NoNewlineJoin("}", k);
        NoNewlineJoin("{", "}" + k);
      } else {
        NoNewlineJoin("}", k);
        FieldsNoNewline(fields, "}" + k);
        NoNewlineJoin("{", FieldsOnto(fields, "}" + k));
      }
  }

  lemma ItemsNoNewline(items: seq<Value>, k: string)
    requires items != [] && '\n' !in k
    ensures '\n' !in ItemsOnto(items, k)
    decreases items
  {
    if |items| == 1 {
      ValueNoNewline(items[0], k);
    } else {
      ItemsNoNewline(items[1..], k);
      NoNewlineJoin(",", ItemsOnto(items[1..], k));
      ValueNoNewline(items[0], "," + ItemsOnto(items[1..], k));
    }
  }

  lemma FieldsNoNewline(fields: seq<Field>, k: string)
    requires fields != [] && '\n' !in k
    ensures '\n' !in FieldsOnto(fields, k)
    decreases fields
  {
    var next := if |fields| == 1 then k else "," + FieldsOnto(fields[1..], k);
    if |fields| > 1 {
      FieldsNoNewline(fields[1..], k);
      NoNewlineJoin(",", FieldsOnto(fields[1..], k));
    }
    ValueNoNewline(fields[0].value, next);
    NoNewlineJoin(":", SerializeOnto(fields[0].value, next));
    EscapeNoNewline(fields[0].key, "\"" + (":" + SerializeOnto(fields[0].value, next)));
    NoNewlineJoin("\"", EscapeOnto(fields[0].key, "\"" + (":" + SerializeOnto(fields[0].value, next))));
  }

  // ---------------------------------------------------------------------
  // Stream events as values

  /** The object `JSON.stringify` writes for a citation. */
  function CitationValue(c: Citation): Value {
    Obj([Field("startIndex", Num(c.startIndex)), Field("endIndex", Num(c.endIndex)),
         Field("uri", Str(c.uri)), Field("title", Str(c.title)), Field("license", Str(c.license))])
  }

  function CitationValues(cs: seq<Citation>): (vs: seq<Value>)
    ensures |vs| == |cs|
  {
    if cs == [] then [] else [CitationValue(cs[0])] + CitationValues(cs[1..])
  }

  /** The fields `JSON.stringify` writes for an event: the present ones, in declaration order. */
  function EventFields(p: StreamPart): seq<Field> {
    (if p.text.Some? then [Field("text", Str(p.text.value))] else []) +
    (if p.citations.Some? then [Field("citations", Arr(CitationValues(p.citations.value)))] else []) +
    (if p.error.Some? then [Field("error", Str(p.error.value))] else [])
  }

  /** A citation read back from its object, fields in the order they are written. */
  function AsCitation(v: Value): Option<Citation> {
    if v.Obj? && |v.fields| == 5
       && v.fields[0].key == "startIndex" && v.fields[0].value.Num?
       && v.fields[1].key == "endIndex" && v.fields[1].value.Num?
       && v.fields[2].key == "uri" && v.fields[2].value.Str?
       && v.fields[3].key == "title" && v.fields[3].value.Str?
       && v.fields[4].key == "license" && v.fields[4].value.Str?
    then Some(Citation(v.fields[0].value.n, v.fields[1].value.n,
                       v.fields[2].value.s, v.fields[3].value.s, v.fields[4].value.s))
    else None
  }

  function AsCitations(vs: seq<Value>): Option<seq<Citation>> {
    if vs == [] then Some([])
    else
      var c :- AsCitation(vs[0]);
      var more :- AsCitations(vs[1..]);
      Some([c] + more)
  }

  /** Store one field; as with `JSON.parse`, a repeated key keeps its last value. */
  function WithField(p: StreamPart, f: Field): Option<StreamPart> {
    if f.key == "text" && f.value.Str? then Some(p.(text := Some(f.value.s)))
    else if f.key == "citations" && f.value.Arr? then
      var cs :- AsCitations(f.value.items);
      Some(p.(citations := Some(cs)))
    else if f.key == "error" && f.value.Str? then Some(p.(error := Some(f.value.s)))
    else None
  }

  function WithFields(p: StreamPart, fs: seq<Field>): Option<StreamPart>
    decreases |fs|
  {
    if fs == [] then Some(p)
    else
      var q :- WithField(p, fs[0]);
      WithFields(q, fs[1..])
  }

  /** An event read from a parsed value: an object whose every field is one the event has. */
  function AsEvent(v: Value): Option<StreamPart> {
    if v.Obj? then WithFields(NoFields, v.fields) else None
  }

  /** `JSON.stringify(p)`. */
  function Encode(p: StreamPart): string {
    SerializeOnto(Obj(EventFields(p)), "")
  }

  /** `JSON.parse(s)` read as a stream event; `None` where `JSON.parse` would throw. */
  function Decode(s: string): Option<StreamPart> {
    var r :- ParseValue(s);
    if r.1 == "" then AsEvent(r.0) else None
  }

  lemma {:induction false} CitationsBack(cs: seq<Citation>)
    ensures AsCitations(CitationValues(cs)) == Some(cs)
    decreases |cs|
  {
    if cs != [] {
      CitationsBack(cs[1..]);
      assert [cs[0]] + cs[1..] == cs;
    }
  }

  lemma {:induction false} WithFieldsAppend(p: StreamPart, a: seq<Field>, b: seq<Field>)
    ensures WithFields(p, a + b) == (match WithFields(p, a) case None => None case Some(q) => WithFields(q, b))
    decreases |a|
  {
    if a == [] {
      assert a + b == b;
    } else {
      assert (a + b)[1..] == a[1..] + b;
      assert (a + b)[0] == a[0];
      if WithField(p, a[0]).Some? {
        WithFieldsAppend(WithField(p, a[0]).value, a[1..], b);
      }
    }
  }

  /** Reading back the fields written for an event gives the event. */
  lemma EventFieldsBack(p: StreamPart)
    ensures WithFields(NoFields, EventFields(p)) == Some(p)
  {
    var a := if p.text.Some? then [Field("text", Str(p.text.value))] else [];
    var b := if p.citations.Some? then [Field("citations", Arr(CitationValues(p.citations.value)))] else [];
    var c := if p.error.Some? then [Field("error", Str(p.error.value))] else [];
    if p.citations.Some? {
      CitationsBack(p.citations.value);
    }
    WithFieldsAppend(NoFields, a + b, c);
    WithFieldsAppend(NoFields, a, b);
    var p1 := NoFields.(text := p.text);
    assert WithFields(NoFields, a) == Some(p1);
    var p2 := p1.(citations := p.citations);
    assert WithFields(p1, b) == Some(p2);
    assert WithFields(p2, c) == Some(p);
  }

  /** Parsing what `Encode` wrote gives the same event back. */
  lemma DecodeEncode(p: StreamPart)
    ensures Decode(Encode(p)) == Some(p)
  {
    ValueRoundTrip(Obj(EventFields(p)), "");
    EventFieldsBack(p);
  }

  /** `JSON.stringify` escapes every line break inside strings and adds no whitespace of its own. */
  lemma EncodeNoNewline(p: StreamPart)
    ensures '\n' !in Encode(p)
  {
    ValueNoNewline(Obj(EventFields(p)), "");
  }

  /** An encoded event is an object: an opening brace, then a key or the closing brace. */
  lemma EncodeShape(p: StreamPart)
    ensures |Encode(p)| >= 2 && Encode(p)[0] == '{'
    ensures Encode(p)[1] == '}' || Encode(p)[1] == '"'
  {
  }

  /** An opening brace alone is not JSON. */
  lemma OpenBraceFails()
    ensures Decode("{") == None
  {
  }
}
