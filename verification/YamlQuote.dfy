/** The scalars and lists of the feature manifest: how text is quoted, and the
    YAML 1.2 reader (sections 5.7 and 7.3.1) that gets it back. */
module YamlQuote {
  import opened Wrappers
  import TextEscapes

  /** The control characters, Unicode category Cc. */
  predicate IsControl(c: char) {
    c < ' ' || '\U{7F}' <= c <= '\U{9F}'
  }

  // ----- hexadecimal -----

  function LowerHex(n: nat): (c: char)
    requires n < 16
    ensures c == 'a' || c == 'b' || c == 'c' || c == 'd' || c == 'e' || c == 'f' || '0' <= c <= '9'
  {
    if n < 10 then '0' + n as char else 'a' + (n - 10) as char
  }

  function Power16(width: nat): (p: nat)
    ensures p > 0
  {
    if width == 0 then 1 else 16 * Power16(width - 1)
  }

  /** `width` digits, padded with zeros. */
  function Hex(n: nat, width: nat): (digits: string)
    ensures |digits| == width
  {
    if width == 0 then "" else Hex(n / 16, width - 1) + [LowerHex(n % 16)]
  }

  function ReadHex(digits: string): Option<nat> {
    if digits == "" then Some(0)
    else
      var high := ReadHex(digits[..|digits| - 1]);
      var low := TextEscapes.HexValue(digits[|digits| - 1]);
      if high.None? || low.None? then None else Some(high.value * 16 + low.value)
  }

  lemma {:induction false} HexRoundTrip(n: nat, width: nat)
    requires n < Power16(width)
    ensures ReadHex(Hex(n, width)) == Some(n)
  {
    if width > 0 {
      HexRoundTrip(n / 16, width - 1);
      assert Hex(n, width)[..width - 1] == Hex(n / 16, width - 1);
    }
  }

  // ----- quoting -----

  /** How one character is written. */
  function QuoteChar(c: char): (q: string)
    ensures q != ""
  {
    if c == '\\' then "\\\\"
    else if c == '"' then "\\\""
    else if c == '\n' then "\\n"
    else if c == '\r' then "\\r"
    else if c == '\t' then "\\t"
    else if IsControl(c) then "\\u" + Hex(c as int, 4)
    else [c]
  }

  function Body(value: string): string {
    if value == "" then "" else QuoteChar(value[0]) + Body(value[1..])
  }

  function Quoted(value: string): string {
    "\"" + Body(value) + "\""
  }

  lemma {:induction false} BodyConcat(a: string, b: string)
    ensures Body(a + b) == Body(a) + Body(b)
  {
    hide QuoteChar;
    if a == "" {
      assert a + b == b;
    } else {
      BodyConcat(a[1..], b);
      assert (a + b)[1..] == a[1..] + b && (a + b)[0] == a[0];
    }
  }

  /** A text is quoted part by part. */
  lemma QuotedConcat(a: string, b: string)
    ensures Quoted("") == "\"\""
    ensures Quoted(a + b) == Quoted(a)[..|Quoted(a)| - 1] + Quoted(b)[1..]
  {
    BodyConcat(a, b);
    hide Body;
    BodyNothing();
  }

  lemma BodyNothing()
    ensures Body("") == ""
  {
  }

  /** One character between its quotes: a short escape where there is one, four
      hexadecimal digits for any other control character, else itself. */
  lemma QuotedChar(c: char)
    ensures Quoted("\\") == "\"\\\\\"" && Quoted("\"") == "\"\\\"\""
    ensures Quoted("\n") == "\"\\n\"" && Quoted("\r") == "\"\\r\"" && Quoted("\t") == "\"\\t\""
    ensures !(c in "\\\"\n\r\t") ==>
              if c < '\U{20}' || '\U{7F}' <= c < '\U{A0}' then
                Quoted([c]) == "\"\\u00" + ["0123456789abcdef"[c as int / 16], "0123456789abcdef"[c as int % 16]] + "\""
              else
                Quoted([c]) == "\"" + [c] + "\""
  {
    BodyOne('\\');
    BodyOne('"');
    BodyOne('\n');
    BodyOne('\r');
    BodyOne('\t');
    BodyOne(c);
    hide Body, Hex;
    if IsControl(c) {
      ControlDigits(c as int);
    }
  }

  lemma BodyOne(c: char)
    ensures Body([c]) == QuoteChar(c)
  {
    assert [c][1..] == "";
  }

  lemma ControlDigits(n: nat)
    requires n < 256
    ensures "\\u" + Hex(n, 4) == "\\u00" + ["0123456789abcdef"[n / 16], "0123456789abcdef"[n % 16]]
  {
    assert LowerHex(n / 16) == "0123456789abcdef"[n / 16] && LowerHex(n % 16) == "0123456789abcdef"[n % 16];
    hide LowerHex;
    assert n / 16 / 16 == 0 && LowerHex(0) == '0' by {
      ZeroDigit();
    }
    assert Hex(n, 4) == Hex(n / 16, 3) + [LowerHex(n % 16)];
    assert Hex(n / 16, 3) == Hex(0, 2) + [LowerHex(n / 16)];
    assert Hex(0, 2) == "00";
  }

  lemma ZeroDigit()
    ensures LowerHex(0) == '0'
  {
  }

  lemma BodyStep(sofar: string, value: string, i: nat)
    requires i < |value|
    ensures sofar + QuoteChar(value[i]) + Body(value[i + 1..]) == sofar + Body(value[i..])
  {
    hide QuoteChar;
    assert value[i..][1..] == value[i + 1..];
  }

  /** The character loop, pushing onto one string. */
  method Quote(value: string) returns (quoted: string)
    ensures quoted == Quoted(value)
  {
    quoted := "\"";
    assert value[0..] == value;
    for i := 0 to |value|
      invariant quoted + Body(value[i..]) == "\"" + Body(value)
    {
      hide Body;
      BodyStep(quoted, value, i);
      var c := value[i];
      if c == '\\' {
        quoted := quoted + "\\\\";
      } else if c == '"' {
        quoted := quoted + "\\\"";
      } else if c == '\n' {
        quoted := quoted + "\\n";
      } else if c == '\r' {
        quoted := quoted + "\\r";
      } else if c == '\t' {
        quoted := quoted + "\\t";
      } else if IsControl(c) {
        quoted := quoted + ("\\u" + Hex(c as int, 4));
      } else {
        quoted := quoted + [c];
      }
    }
    assert value[|value|..] == "";
    quoted := quoted + "\"";
  }

  // ----- reading -----

  function Scalar(n: nat): Option<char> {
    if n < 0xD800 || 0xE000 <= n < 0x11_0000 then Some(n as char) else None
  }

  /** The `width` hexadecimal digits after an escape's letter. */
  function NumericEscape(text: string, width: nat): Option<(char, nat)> {
    if |text| <= width then None
    else
      var n := ReadHex(text[1..width + 1]);
      if n.None? || Scalar(n.value).None? then None else Some((Scalar(n.value).value, width + 1))
  }

  /** What follows a backslash: the character it stands for, and its length. */
  function ReadEscape(text: string): Option<(char, nat)> {
    if text == "" then None
    else match text[0]
      case '0' => Some(('\0', 1))
      case 'a' => Some(('\U{07}', 1))
      case 'b' => Some(('\U{08}', 1))
      case 't' => Some(('\t', 1))
      case '\t' => Some(('\t', 1))
      case 'n' => Some(('\n', 1))
      case 'v' => Some(('\U{0B}', 1))
      case 'f' => Some(('\U{0C}', 1))
      case 'r' => Some(('\r', 1))
      case 'e' => Some(('\U{1B}', 1))
      case ' ' => Some((' ', 1))
      case '"' => Some(('"', 1))
      case '/' => Some(('/', 1))
      case '\\' => Some(('\\', 1))
      case 'N' => Some(('\U{85}', 1))
      case '_' => Some(('\U{A0}', 1))
      case 'L' => Some(('\U{2028}', 1))
      case 'P' => Some(('\U{2029}', 1))
      case 'x' => NumericEscape(text, 2)
      case 'u' => NumericEscape(text, 4)
      case 'U' => NumericEscape(text, 8)
      case _ => None
  }

  lemma ReadEscapeShrinks(text: string)
    ensures ReadEscape(text).Some? ==> 0 < ReadEscape(text).value.1 <= |text|
  {
  }

  function Prepend(c: char, scanned: Option<(string, string)>): Option<(string, string)> {
    match scanned
    case None => None
    case Some((value, rest)) => Some(([c] + value, rest))
  }

  /** A double-quoted scalar from behind its opening quote: the value, and the
      text behind the closing quote. A raw line break or other control
      character, a tab apart, is refused. */
  function Scan(text: string): Option<(string, string)>
    decreases |text|
  {
    if text == "" then None
    else if text[0] == '"' then Some(("", text[1..]))
    else if text[0] == '\\' then
      var escape := ReadEscape(text[1..]);
      ReadEscapeShrinks(text[1..]);
      if escape.None? then None else Prepend(escape.value.0, Scan(text[1 + escape.value.1..]))
    else if text[0] < ' ' && text[0] != '\t' then None
    else Prepend(text[0], Scan(text[1..]))
  }

  function ReadScalar(text: string): Option<(string, string)> {
    if text == "" || text[0] != '"' then None else Scan(text[1..])
  }

  lemma EscapedChar(c: char, rest: string)
    requires |QuoteChar(c)| > 1
    ensures QuoteChar(c)[0] == '\\'
    ensures ReadEscape(QuoteChar(c)[1..] + rest) == Some((c, |QuoteChar(c)| - 1))
  {
    var tail := QuoteChar(c)[1..];
    var text := tail + rest;
    assert text[0] == tail[0];
    if c != '\\' && c != '"' && c != '\n' && c != '\r' && c != '\t' {
      var digits := Hex(c as int, 4);
      assert tail == "u" + digits && text[1..5] == digits;
      assert Power16(4) == 65536;
      hide ReadHex, Hex;
      HexRoundTrip(c as int, 4);
    }
  }

  lemma ScanStep(c: char, rest: string)
    ensures Scan(QuoteChar(c) + rest) == Prepend(c, Scan(rest))
  {
    var q := QuoteChar(c);
    var text := q + rest;
    assert text[|q|..] == rest && text[0] == q[0];
    if |q| > 1 {
      EscapedChar(c, rest);
      hide QuoteChar, ReadEscape;
      assert text[1..] == q[1..] + rest;
    } else {
      assert q == [c] && c != '"' && c != '\\' && !(c < ' ');
    }
  }

  lemma {:induction false} BodyRoundTrip(value: string, rest: string)
    ensures Scan(Body(value) + "\"" + rest) == Some((value, rest))
    decreases |value|
  {
    hide QuoteChar;
    if value == "" {
      assert (Body("") + "\"" + rest)[1..] == rest;
    } else {
      hide Scan;
      var q, more := QuoteChar(value[0]), Body(value[1..]);
      BodyRoundTrip(value[1..], rest);
      ScanStep(value[0], more + "\"" + rest);
      assert Body(value) + "\"" + rest == q + (more + "\"" + rest);
      assert value == [value[0]] + value[1..];
    }
  }

  /** Every text reads back, control characters included, and reading stops at
      the closing quote whatever follows it: no character of the text ends the
      scalar early. */
  lemma QuoteRoundTrip(value: string, rest: string)
    ensures ReadScalar(Quoted(value) + rest) == Some((value, rest))
  {
    hide Scan, Body;
    BodyRoundTrip(value, rest);
    assert (Quoted(value) + rest)[1..] == Body(value) + "\"" + rest;
  }

  lemma QuoteCharIsPrintable(c: char, x: char)
    requires x in QuoteChar(c)
    ensures !IsControl(x)
  {
    if IsControl(c) && c != '\n' && c != '\r' && c != '\t' {
      HexIsPrintable(c as int, 4, x);
    }
  }

  lemma {:induction false} HexIsPrintable(n: nat, width: nat, x: char)
    ensures x in Hex(n, width) ==> !IsControl(x)
  {
    if width > 0 {
      HexIsPrintable(n / 16, width - 1, x);
    }
  }

  lemma {:induction false} BodyIsPrintable(value: string, x: char)
    requires x in Body(value)
    ensures !IsControl(x)
  {
    hide QuoteChar, IsControl;
    if x in QuoteChar(value[0]) {
      QuoteCharIsPrintable(value[0], x);
    } else {
      BodyIsPrintable(value[1..], x);
    }
  }

  /** The scalar stays on its line. */
  lemma QuotedIsPrintable(value: string, x: char)
    requires x in Quoted(value)
    ensures !IsControl(x)
  {
    hide Body;
    if x in Body(value) {
      BodyIsPrintable(value, x);
    }
  }

  // ----- lists -----

  function Spaces(n: nat): string {
    seq(n, _ => ' ')
  }

  function ItemLine(indent: nat, item: string): string {
    Spaces(indent) + "- " + Quoted(item) + "\n"
  }

  function ItemLines(indent: nat, items: seq<string>): string {
    if items == [] then "" else ItemLine(indent, items[0]) + ItemLines(indent, items[1..])
  }

  function Header(indent: nat, name: string): string {
    Spaces(indent) + name + ":\n"
  }

  function ListBlock(indent: nat, name: string, items: seq<string>): string {
    if items == [] then "" else Header(indent, name) + ItemLines(indent, items)
  }

  /** An empty list is omitted. */
  method List(before: string, indent: nat, name: string, items: seq<string>) returns (out: string)
    ensures out == before + ListBlock(indent, name, items)
  {
    out := before;
    if |items| == 0 {
      return;
    }
    out := out + Header(indent, name);
    ghost var start := out;
    assert items[0..] == items;
    for i := 0 to |items|
      invariant out + ItemLines(indent, items[i..]) == start + ItemLines(indent, items)
    {
      var quoted := Quote(items[i]);
      hide Quoted, Spaces;
      assert items[i..][1..] == items[i + 1..];
      ghost var sofar := out;
      out := out + (Spaces(indent) + "- " + quoted + "\n");
      Regroup(sofar, ItemLine(indent, items[i]), ItemLines(indent, items[i + 1..]));
    }
    assert items[|items|..] == [];
    Regroup(before, Header(indent, name), ItemLines(indent, items));
  }

  lemma Regroup(a: string, b: string, c: string)
    ensures a + b + c == a + (b + c)
  {
  }

  /** One item line, read back with what follows it. */
  function ReadItem(indent: nat, text: string): Option<(string, string)> {
    var lead := Spaces(indent) + "- ";
    if !(lead <= text) then None
    else match ReadScalar(text[|lead|..])
      case None => None
      case Some((item, rest)) => if rest == "" || rest[0] != '\n' then None else Some((item, rest[1..]))
  }

  lemma ScanShrinks(text: string)
    ensures Scan(text).Some? ==> |Scan(text).value.1| < |text|
    decreases |text|
  {
  }

  lemma ReadItemShrinks(indent: nat, text: string)
    ensures ReadItem(indent, text).Some? ==> |ReadItem(indent, text).value.1| < |text|
  {
    var lead := Spaces(indent) + "- ";
    if lead <= text && text[|lead|..] != "" {
      ScanShrinks(text[|lead|..][1..]);
    }
  }

  /** As many item lines as there are. */
  function ReadItems(indent: nat, text: string): (seq<string>, string)
    decreases |text|
  {
    ReadItemShrinks(indent, text);
    match ReadItem(indent, text)
    case None => ([], text)
    case Some((item, rest)) =>
      var (items, end) := ReadItems(indent, rest);
      ([item] + items, end)
  }

  lemma ItemRoundTrip(indent: nat, item: string, rest: string)
    ensures ReadItem(indent, ItemLine(indent, item) + rest) == Some((item, rest))
  {
    hide Quoted, ReadScalar, Spaces;
    var lead := Spaces(indent) + "- ";
    var text := ItemLine(indent, item) + rest;
    assert text == lead + (Quoted(item) + ("\n" + rest));
    assert lead <= text && text[|lead|..] == Quoted(item) + ("\n" + rest);
    QuoteRoundTrip(item, "\n" + rest);
    assert ("\n" + rest)[1..] == rest;
  }

  /** The whole list reads back, in front of any text that does not itself
      continue the list. */
  lemma {:induction false} ItemsRoundTrip(indent: nat, items: seq<string>, rest: string)
    requires ReadItem(indent, rest).None?
    ensures ReadItems(indent, ItemLines(indent, items) + rest) == (items, rest)
    decreases |items|
  {
    hide ReadItem, ItemLine;
    if items == [] {
      assert ItemLines(indent, items) + rest == rest;
    } else {
      var line, more := ItemLine(indent, items[0]), ItemLines(indent, items[1..]);
      Regroup(line, more, rest);
      ItemRoundTrip(indent, items[0], more + rest);
      ItemsRoundTrip(indent, items[1..], rest);
      assert items == [items[0]] + items[1..];
    }
  }

  // ----- annotations -----

  type Note = (string, string)

  const NOTE_INDENT := "      "
  const NOTES_HEADER := "    annotations:\n"

  function NoteLine(note: Note): string {
    NOTE_INDENT + Quoted(note.0) + ": " + Quoted(note.1) + "\n"
  }

  function NoteLines(notes: seq<Note>): string {
    if notes == [] then "" else NoteLine(notes[0]) + NoteLines(notes[1..])
  }

  function NotesBlock(notes: seq<Note>): string {
    if notes == [] then "" else NOTES_HEADER + NoteLines(notes)
  }

  /** The annotations map, in declaration order; omitted when empty. */
  method Annotations(before: string, notes: seq<Note>) returns (out: string)
    ensures out == before + NotesBlock(notes)
  {
    out := before;
    if |notes| == 0 {
      return;
    }
    out := out + "    annotations:\n";
    ghost var start := out;
    assert notes[0..] == notes;
    for i := 0 to |notes|
      invariant out + NoteLines(notes[i..]) == start + NoteLines(notes)
    {
      var key := Quote(notes[i].0);
      var value := Quote(notes[i].1);
      hide Quoted;
      assert notes[i..][1..] == notes[i + 1..];
      ghost var sofar := out;
      out := out + ("      " + key + ": " + value + "\n");
      Regroup(sofar, NoteLine(notes[i]), NoteLines(notes[i + 1..]));
    }
    assert notes[|notes|..] == [];
    Regroup(before, NOTES_HEADER, NoteLines(notes));
  }

  function ReadNote(text: string): Option<(Note, string)> {
    if !(NOTE_INDENT <= text) then None
    else match ReadScalar(text[|NOTE_INDENT|..])
      case None => None
      case Some((key, rest)) =>
        if !(": " <= rest) then None
        else match ReadScalar(rest[2..])
          case None => None
          case Some((value, end)) => if end == "" || end[0] != '\n' then None else Some(((key, value), end[1..]))
  }

  lemma ReadScalarShrinks(text: string)
    ensures ReadScalar(text).Some? ==> |ReadScalar(text).value.1| < |text|
  {
    if text != "" {
      ScanShrinks(text[1..]);
    }
  }

  lemma ReadNoteShrinks(text: string)
    ensures ReadNote(text).Some? ==> |ReadNote(text).value.1| < |text|
  {
    hide ReadScalar;
    if NOTE_INDENT <= text {
      ReadScalarShrinks(text[|NOTE_INDENT|..]);
      match ReadScalar(text[|NOTE_INDENT|..])
      case None =>
      case Some((key, rest)) =>
        if ": " <= rest {
          ReadScalarShrinks(rest[2..]);
        }
    }
  }

  function ReadNotes(text: string): (seq<Note>, string)
    decreases |text|
  {
    ReadNoteShrinks(text);
    match ReadNote(text)
    case None => ([], text)
    case Some((note, rest)) =>
      var (notes, end) := ReadNotes(rest);
      ([note] + notes, end)
  }

  lemma NoteRoundTrip(note: Note, rest: string)
    ensures ReadNote(NoteLine(note) + rest) == Some((note, rest))
  {
    hide Quoted, ReadScalar;
    var text := NoteLine(note) + rest;
    var after := "\n" + rest;
    var middle := ": " + (Quoted(note.1) + after);
    assert text == NOTE_INDENT + (Quoted(note.0) + middle);
    assert NOTE_INDENT <= text && text[|NOTE_INDENT|..] == Quoted(note.0) + middle;
    QuoteRoundTrip(note.0, middle);
    assert ": " <= middle && middle[2..] == Quoted(note.1) + after;
    QuoteRoundTrip(note.1, after);
    assert after[1..] == rest;
  }

  /** Whatever the keys and values hold, the map reads back entry by entry:
      none of them can break out of its line or add one. */
  lemma {:induction false} NotesRoundTrip(notes: seq<Note>, rest: string)
    requires ReadNote(rest).None?
    ensures ReadNotes(NoteLines(notes) + rest) == (notes, rest)
    decreases |notes|
  {
    hide ReadNote, NoteLine;
    if notes == [] {
      assert NoteLines(notes) + rest == rest;
    } else {
      var line, more := NoteLine(notes[0]), NoteLines(notes[1..]);
      Regroup(line, more, rest);
      NoteRoundTrip(notes[0], more + rest);
      NotesRoundTrip(notes[1..], rest);
      assert notes == [notes[0]] + notes[1..];
    }
  }
}
