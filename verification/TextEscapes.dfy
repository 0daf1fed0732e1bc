/** The two printers of the admin pages, HTML escaping and percent-encoding,
    and the readers that undo them. */
module TextEscapes {
  import opened Wrappers

  // ----- HTML -----

  function Swap(x: char, c: char, entity: string): string {
    if x == c then entity else [x]
  }

  /** `value.replace(c, entity)` */
  function Replace(value: string, c: char, entity: string): string {
    if value == "" then "" else Swap(value[0], c, entity) + Replace(value[1..], c, entity)
  }

  /** Five replacements, one after the other; the ampersand goes first. */
  function Escape(value: string): string {
    var tags := Replace(Replace(Replace(value, '&', "&amp;"), '<', "&lt;"), '>', "&gt;");
    Replace(Replace(tags, '"', "&quot;"), '\'', "&#39;")
  }

  predicate Special(c: char) {
    c == '&' || c == '<' || c == '>' || c == '"' || c == '\''
  }

  /** How one character is written. */
  function Entity(c: char): (e: string)
    ensures e != ""
  {
    match c
    case '&' => "&amp;"
    case '<' => "&lt;"
    case '>' => "&gt;"
    case '"' => "&quot;"
    case '\'' => "&#39;"
    case _ => [c]
  }

  /** The reference: every character written once, in a single pass. */
  function EscapeOnce(value: string): string {
    if value == "" then "" else Entity(value[0]) + EscapeOnce(value[1..])
  }

  lemma {:induction false} ReplaceConcat(a: string, b: string, c: char, entity: string)
    ensures Replace(a + b, c, entity) == Replace(a, c, entity) + Replace(b, c, entity)
  {
    hide Swap;
    if a == "" {
      assert a + b == b;
    } else {
      ReplaceConcat(a[1..], b, c, entity);
      assert (a + b)[1..] == a[1..] + b && (a + b)[0] == a[0];
    }
  }

  lemma {:induction false} ReplaceNothing(value: string, c: char, entity: string)
    requires c !in value
    ensures Replace(value, c, entity) == value
  {
    if value != "" {
      ReplaceNothing(value[1..], c, entity);
    }
  }

  lemma ReplaceChar(x: char, c: char, entity: string)
    ensures Replace([x], c, entity) == if x == c then entity else [x]
  {
    assert [x][1..] == "";
  }

  /** A text is escaped part by part. */
  lemma EscapeConcat(a: string, b: string)
    ensures Escape(a + b) == Escape(a) + Escape(b)
  {
    hide Replace;
    ReplaceConcat(a, b, '&', "&amp;");
    var a1, b1 := Replace(a, '&', "&amp;"), Replace(b, '&', "&amp;");
    ReplaceConcat(a1, b1, '<', "&lt;");
    var a2, b2 := Replace(a1, '<', "&lt;"), Replace(b1, '<', "&lt;");
    ReplaceConcat(a2, b2, '>', "&gt;");
    var a3, b3 := Replace(a2, '>', "&gt;"), Replace(b2, '>', "&gt;");
    ReplaceConcat(a3, b3, '"', "&quot;");
    var a4, b4 := Replace(a3, '"', "&quot;"), Replace(b3, '"', "&quot;");
    ReplaceConcat(a4, b4, '\'', "&#39;");
  }

  /** The five special characters are written as their entities, any other as
      itself: no later replacement touches what an earlier one wrote. */
  lemma EscapeChar(c: char)
    ensures Escape("&") == "&amp;" && Escape("<") == "&lt;" && Escape(">") == "&gt;"
    ensures Escape("\"") == "&quot;" && Escape("'") == "&#39;"
    ensures !(c in "&<>\"'") ==> Escape([c]) == [c]
    ensures Escape([c]) == Entity(c)
  {
    EscapeCharIsEntity('&');
    EscapeCharIsEntity('<');
    EscapeCharIsEntity('>');
    EscapeCharIsEntity('"');
    EscapeCharIsEntity('\'');
    EscapeCharIsEntity(c);
    hide Escape;
  }

  lemma EscapeCharIsEntity(c: char)
    ensures Escape([c]) == Entity(c)
  {
    hide Replace;
    ReplaceChar(c, '&', "&amp;");
    ReplaceChar(c, '<', "&lt;");
    ReplaceChar(c, '>', "&gt;");
    ReplaceChar(c, '"', "&quot;");
    ReplaceChar(c, '\'', "&#39;");
    var e := Entity(c);
    if c == '&' {
      ReplaceNothing(e, '<', "&lt;");
    }
    if c == '&' || c == '<' {
      ReplaceNothing(e, '>', "&gt;");
    }
    if c == '&' || c == '<' || c == '>' {
      ReplaceNothing(e, '"', "&quot;");
    }
    if c == '&' || c == '<' || c == '>' || c == '"' {
      ReplaceNothing(e, '\'', "&#39;");
    }
  }

  lemma EscapeNothing()
    ensures Escape("") == ""
  {
  }

  /** The five passes write what the single pass writes. */
  lemma {:induction false} EscapeIsOnePass(value: string)
    ensures Escape(value) == EscapeOnce(value)
  {
    hide Escape, Entity;
    if value == "" {
      EscapeNothing();
    } else {
      EscapeConcat([value[0]], value[1..]);
      EscapeChar(value[0]);
      EscapeIsOnePass(value[1..]);
      assert value == [value[0]] + value[1..];
    }
  }

  lemma {:induction false} EscapedOnceIsInert(value: string, c: char)
    requires c == '<' || c == '>' || c == '"' || c == '\''
    ensures c !in EscapeOnce(value)
  {
    hide Entity;
    if value != "" {
      EscapedOnceIsInert(value[1..], c);
      EntityIsInert(value[0], c);
    }
  }

  lemma EntityIsInert(x: char, c: char)
    requires c == '<' || c == '>' || c == '"' || c == '\''
    ensures c !in Entity(x)
  {
  }

  /** Nothing in the output can open a tag or close an attribute. */
  lemma EscapedIsInert(value: string, c: char)
    requires c == '<' || c == '>' || c == '"' || c == '\''
    ensures c !in Escape(value)
  {
    EscapeIsOnePass(value);
    EscapedOnceIsInert(value, c);
  }

  /** The character an escaped text starts with, and how much of it that takes. */
  function Next(text: string): Option<(char, nat)>
    requires text != ""
  {
    if "&amp;" <= text then Some(('&', 5))
    else if "&lt;" <= text then Some(('<', 4))
    else if "&gt;" <= text then Some(('>', 4))
    else if "&quot;" <= text then Some(('"', 6))
    else if "&#39;" <= text then Some(('\'', 5))
    else if Special(text[0]) then None
    else Some((text[0], 1))
  }

  lemma PrefixAgrees(p: string, text: string, i: nat)
    requires i < |p| && i < |text| && p[i] != text[i]
    ensures !(p <= text)
  {
  }

  lemma NextReadsEntity(c: char, rest: string)
    ensures Next(Entity(c) + rest) == Some((c, |Entity(c)|))
  {
    var e := Entity(c);
    var text := e + rest;
    assert e <= text;
    assert text[0] == e[0];
    if Special(c) {
      assert text[1] == e[1];
      if c != '&' { PrefixAgrees("&amp;", text, 1); }
      if c != '<' { PrefixAgrees("&lt;", text, 1); }
      if c != '>' { PrefixAgrees("&gt;", text, 1); }
      if c != '"' { PrefixAgrees("&quot;", text, 1); }
    } else {
      PrefixAgrees("&amp;", text, 0);
      PrefixAgrees("&lt;", text, 0);
      PrefixAgrees("&gt;", text, 0);
      PrefixAgrees("&quot;", text, 0);
      PrefixAgrees("&#39;", text, 0);
    }
  }

  lemma NextIsEntity(text: string)
    requires text != "" && Next(text).Some?
    ensures var (c, n) := Next(text).value;
            0 < n <= |text| && text[..n] == Entity(c)
  {
  }

  function Unescape(text: string): Option<string>
    decreases |text|
  {
    if text == "" then Some("")
    else if Next(text).None? then None
    else
      NextIsEntity(text);
      var (c, n) := Next(text).value;
      var rest := Unescape(text[n..]);
      if rest.None? then None else Some([c] + rest.value)
  }

  lemma {:induction false} UnescapeReadsEscaped(value: string)
    ensures Unescape(EscapeOnce(value)) == Some(value)
  {
    hide Next, Entity;
    if value != "" {
      var rest := EscapeOnce(value[1..]);
      NextReadsEntity(value[0], rest);
      UnescapeReadsEscaped(value[1..]);
      assert (Entity(value[0]) + rest)[|Entity(value[0])|..] == rest;
      assert value == [value[0]] + value[1..];
    }
  }

  lemma {:induction false} UnescapedWasEscaped(text: string)
    ensures Unescape(text).Some? ==> EscapeOnce(Unescape(text).value) == text
    decreases |text|
  {
    hide Next, Entity;
    if text != "" && Unescape(text).Some? {
      NextIsEntity(text);
      var (c, n) := Next(text).value;
      UnescapedWasEscaped(text[n..]);
      var value := Unescape(text).value;
      assert value[0] == c && value[1..] == Unescape(text[n..]).value;
      assert text == text[..n] + text[n..];
    }
  }

  /** Escaping loses nothing, and the texts that read back are exactly the
      escaped ones. */
  lemma EscapeRoundTrip(value: string, text: string)
    ensures text == Escape(value) <==> Unescape(text) == Some(value)
  {
    hide Escape, Unescape;
    EscapeIsOnePass(value);
    UnescapeReadsEscaped(value);
    UnescapedWasEscaped(text);
  }

  // ----- percent-encoding -----

  newtype byte = b: int | 0 <= b < 256

  /** The unreserved characters of section 2.3 of RFC 3986. */
  predicate Unreserved(b: byte) {
    0x41 <= b <= 0x5A || 0x61 <= b <= 0x7A || 0x30 <= b <= 0x39 || b == 0x2D || b == 0x5F || b == 0x2E || b == 0x7E
  }

  predicate UnreservedChar(c: char) {
    'A' <= c <= 'Z' || 'a' <= c <= 'z' || '0' <= c <= '9' || c == '-' || c == '_' || c == '.' || c == '~'
  }

  predicate UpperHex(c: char) {
    '0' <= c <= '9' || 'A' <= c <= 'F'
  }

  function HexDigit(n: nat): (c: char)
    requires n < 16
    ensures UpperHex(c)
  {
    if n < 10 then '0' + n as char else 'A' + (n - 10) as char
  }

  /** Either case reads as the same digit (section 2.1). */
  function HexValue(c: char): Option<nat> {
    if '0' <= c <= '9' then Some((c - '0') as nat)
    else if 'A' <= c <= 'F' then Some((c - 'A') as nat + 10)
    else if 'a' <= c <= 'f' then Some((c - 'a') as nat + 10)
    else None
  }

  function EncodeByte(b: byte): (e: string)
    ensures e != ""
  {
    if Unreserved(b) then [b as char] else ['%', HexDigit(b as nat / 16), HexDigit(b as nat % 16)]
  }

  function Encode(value: seq<byte>): string {
    if value == [] then "" else EncodeByte(value[0]) + Encode(value[1..])
  }

  /** A value is encoded part by part. */
  lemma {:induction false} EncodeConcat(a: seq<byte>, b: seq<byte>)
    ensures Encode(a + b) == Encode(a) + Encode(b)
  {
    hide EncodeByte;
    if a == [] {
      assert a + b == b;
    } else {
      EncodeConcat(a[1..], b);
      assert (a + b)[1..] == a[1..] + b && (a + b)[0] == a[0];
    }
  }

  /** A byte that is an unreserved character is written as itself, any other as
      its two hexadecimal digits, the high one first. */
  lemma EncodeWrites(b: byte)
    ensures var c := b as char;
            Encode([b]) == if 'A' <= c <= 'Z' || 'a' <= c <= 'z' || '0' <= c <= '9' || c in "-_.~" then [c]
                           else ['%', "0123456789ABCDEF"[b / 16], "0123456789ABCDEF"[b % 16]]
  {
    assert [b][1..] == [];
    UpperDigit(b as nat / 16);
    UpperDigit(b as nat % 16);
    hide HexDigit;
  }

  lemma UpperDigit(n: nat)
    requires n < 16
    ensures HexDigit(n) == "0123456789ABCDEF"[n]
  {
  }

  lemma EncodeStep(sofar: string, value: seq<byte>, i: nat)
    requires i < |value|
    ensures sofar + EncodeByte(value[i]) + Encode(value[i + 1..]) == sofar + Encode(value[i..])
  {
    hide EncodeByte;
    assert value[i..][1..] == value[i + 1..];
  }

  /** The byte loop, appending to one buffer. */
  method EscapeUrlComponent(value: seq<byte>) returns (encoded: string)
    ensures encoded == Encode(value)
  {
    encoded := "";
    assert encoded + Encode(value[0..]) == Encode(value);
    for i := 0 to |value|
      invariant encoded + Encode(value[i..]) == Encode(value)
    {
      hide Encode;
      var b := value[i];
      EncodeStep(encoded, value, i);
      if Unreserved(b) {
        encoded := encoded + [b as char];
      } else {
        encoded := encoded + ['%', HexDigit(b as nat / 16), HexDigit(b as nat % 16)];
      }
    }
    assert Encode(value[|value|..]) == "";
  }

  /** At every position stands an unreserved character or the start of a
      `%HH` triplet with upper-case digits. */
  predicate Triplet(text: string, i: nat)
    requires i < |text|
  {
    UnreservedChar(text[i]) || (text[i] == '%' && i + 2 < |text| && UpperHex(text[i + 1]) && UpperHex(text[i + 2]))
  }

  lemma {:induction false} EncodedShape(value: seq<byte>, i: nat)
    requires i < |Encode(value)|
    ensures Triplet(Encode(value), i)
  {
    hide HexDigit;
    var e, rest := EncodeByte(value[0]), Encode(value[1..]);
    if i < |e| {
      assert Encode(value)[i] == e[i];
    } else {
      EncodedShape(value[1..], i - |e|);
      assert Triplet(rest, i - |e|);
    }
  }

  function Decode(text: string): Option<seq<byte>>
    decreases |text|
  {
    if text == "" then Some([])
    else if text[0] == '%' then
      if |text| < 3 || HexValue(text[1]).None? || HexValue(text[2]).None? then None
      else
        var rest := Decode(text[3..]);
        var b := HexValue(text[1]).value * 16 + HexValue(text[2]).value;
        if rest.None? then None else Some([b as byte] + rest.value)
    else if !UnreservedChar(text[0]) then None
    else
      var rest := Decode(text[1..]);
      if rest.None? then None else Some([text[0] as byte] + rest.value)
  }

  lemma HexRoundTrip(n: nat)
    requires n < 16
    ensures HexValue(HexDigit(n)) == Some(n)
  {
  }

  lemma DecodeStep(b: byte, rest: string)
    requires Decode(rest).Some?
    ensures Decode(EncodeByte(b) + rest) == Some([b] + Decode(rest).value)
  {
    var text := EncodeByte(b) + rest;
    assert text[|EncodeByte(b)|..] == rest;
    if Unreserved(b) {
      hide HexDigit, HexValue;
      assert text[0] == b as char && UnreservedChar(text[0]);
    } else {
      TripletReads(b as nat / 16, b as nat % 16);
      hide Unreserved, UnreservedChar, HexDigit, HexValue;
      assert text[0] == '%' && |text| >= 3 && text[3..] == rest;
    }
  }

  lemma TripletReads(high: nat, low: nat)
    requires high < 16 && low < 16
    ensures HexValue(HexDigit(high)) == Some(high) && HexValue(HexDigit(low)) == Some(low)
    ensures 0 <= high * 16 + low < 256 && (high * 16 + low) / 16 == high && (high * 16 + low) % 16 == low
  {
    HexRoundTrip(high);
    HexRoundTrip(low);
  }

  /** Every byte string reads back. */
  lemma {:induction false} PercentRoundTrip(value: seq<byte>)
    ensures Decode(Encode(value)) == Some(value)
    decreases |value|
  {
    hide Decode, EncodeByte;
    if value == [] {
      DecodeNothing();
    } else {
      assert value == [value[0]] + value[1..];
      PercentRoundTrip(value[1..]);
      DecodeStep(value[0], Encode(value[1..]));
    }
  }

  lemma DecodeNothing()
    ensures Encode([]) == "" && Decode("") == Some([])
  {
  }

  // ----- the redirect -----

  datatype Field = Field(name: string, value: seq<byte>)

  /** `name=value&name=value…` */
  function QueryText(fields: seq<Field>): string {
    if fields == [] then ""
    else
      var first := fields[0].name + "=" + Encode(fields[0].value);
      if |fields| == 1 then first else first + "&" + QueryText(fields[1..])
  }

  /** Everything before the first `c`, and what follows it if there is one. */
  function CutAt(text: string, c: char): (string, Option<string>) {
    if text == "" then ("", None)
    else if text[0] == c then ("", Some(text[1..]))
    else
      var (head, tail) := CutAt(text[1..], c);
      ([text[0]] + head, tail)
  }

  lemma CutAtShrinks(text: string, c: char)
    ensures CutAt(text, c).1.Some? ==> |CutAt(text, c).1.value| < |text|
  {
  }

  function ReadField(text: string): Option<Field> {
    var (name, value) := CutAt(text, '=');
    if value.None? || Decode(value.value).None? then None else Some(Field(name, Decode(value.value).value))
  }

  function ReadQuery(text: string): Option<seq<Field>>
    decreases |text|
  {
    var (first, rest) := CutAt(text, '&');
    CutAtShrinks(text, '&');
    var head := ReadField(first);
    if head.None? then None
    else if rest.None? then Some([head.value])
    else
      var tail := ReadQuery(rest.value);
      if tail.None? then None else Some([head.value] + tail.value)
  }

  lemma {:induction false} CutAtFirst(head: string, tail: string, c: char)
    requires c !in head
    ensures CutAt(head + [c] + tail, c) == (head, Some(tail)) && CutAt(head, c) == (head, None)
  {
    if head == "" {
      assert (head + [c] + tail)[1..] == tail;
    } else {
      CutAtFirst(head[1..], tail, c);
      assert (head + [c] + tail)[1..] == head[1..] + [c] + tail;
      assert head == [head[0]] + head[1..];
    }
  }

  lemma EncodedHasNoSeparator(value: seq<byte>, c: char)
    requires c == '&' || c == '='
    ensures c !in Encode(value)
  {
    hide Encode;
    forall i | 0 <= i < |Encode(value)| ensures Encode(value)[i] != c {
      EncodedShape(value, i);
    }
  }

  lemma FieldRoundTrip(field: Field)
    requires '=' !in field.name
    ensures ReadField(field.name + "=" + Encode(field.value)) == Some(field)
  {
    hide Encode, Decode, CutAt;
    CutAtFirst(field.name, Encode(field.value), '=');
    PercentRoundTrip(field.value);
  }

  /** The redirect URL carries every field through, whatever bytes it holds. */
  lemma {:induction false} QueryRoundTrip(fields: seq<Field>)
    requires fields != [] && forall f :: f in fields ==> '=' !in f.name && '&' !in f.name
    ensures ReadQuery(QueryText(fields)) == Some(fields)
    decreases |fields|
  {
    hide Encode, CutAt, ReadField;
    var field := fields[0];
    assert field in fields;
    var first := field.name + "=" + Encode(field.value);
    FieldRoundTrip(field);
    EncodedHasNoSeparator(field.value, '&');
    assert '&' !in first;
    if |fields| == 1 {
      CutAtFirst(first, "", '&');
      assert fields == [field];
    } else {
      CutAtFirst(first, QueryText(fields[1..]), '&');
      assert forall f :: f in fields[1..] ==> f in fields;
      QueryRoundTrip(fields[1..]);
      assert fields == [field] + fields[1..];
    }
  }
}
