/** The facility key of a reservation report and the identity of one of its rows. */
module SourceIdentity {

  /** Unicode White_Space, as `char::is_whitespace` decides it. */
  predicate IsWhitespace(c: char) {
    || c == ' ' || '\t' <= c <= '\r' || c == '\U{85}' || c == '\U{A0}' || c == '\U{1680}'
    || '\U{2000}' <= c <= '\U{200A}' || c == '\U{2028}' || c == '\U{2029}'
    || c == '\U{202F}' || c == '\U{205F}' || c == '\U{3000}'
  }

  function TrimStart(s: string): string {
    if s != [] && IsWhitespace(s[0]) then TrimStart(s[1..]) else s
  }

  function TrimEnd(s: string): string {
    if s != [] && IsWhitespace(s[|s| - 1]) then TrimEnd(s[..|s| - 1]) else s
  }

  function Trim(s: string): string {
    TrimEnd(TrimStart(s))
  }

  function Compact(s: string): string {
    if s == [] then []
    else (if IsWhitespace(s[0]) then [] else [s[0]]) + Compact(s[1..])
  }

  function LowerChar(c: char): char {
    if 'A' <= c <= 'Z' then c - 'A' + 'a' else c
  }

  function Lower(s: string): (r: string)
    ensures |r| == |s|
  {
    seq(|s|, i requires 0 <= i < |s| => LowerChar(s[i]))
  }

  predicate EndsWith(s: string, suffix: string) {
    |suffix| <= |s| && s[|s| - |suffix|..] == suffix
  }

  function DropDigits(s: string): (r: string)
    ensures |r| <= |s|
  {
    if s != [] && '0' <= s[|s| - 1] <= '9' then DropDigits(s[..|s| - 1]) else s
  }

  /** The length of the text in front of the hole-count word, if there is one. */
  function HolePrefix(lower: string): (n: nat)
    ensures n <= |lower|
  {
    if EndsWith(lower, "h") then |lower| - 1
    else if EndsWith(lower, "ホール") then |lower| - 3
    else if EndsWith(lower, "holes") then |lower| - 5
    else if EndsWith(lower, "hole") then |lower| - 4
    else |lower|
  }

  /** Drop whitespace and a trailing hole-count notation (`36H`); a hole word
      without digits in front of it stays. */
  function NormalizeCourseKey(raw: string): string {
    var compact := Compact(raw);
    var prefix := compact[..HolePrefix(Lower(compact))];
    var name := DropDigits(prefix);
    if |prefix| < |compact| && |name| < |prefix| then name else compact
  }

  // ----- which texts are facility keys -----

  predicate Spaceless(s: string) {
    forall c :: c in s ==> !IsWhitespace(c)
  }

  lemma {:induction false} CompactIsSpaceless(s: string)
    ensures Spaceless(Compact(s)) && (Spaceless(s) ==> Compact(s) == s)
  {
    hide IsWhitespace;
    if s != [] {
      CompactIsSpaceless(s[1..]);
      assert s == [s[0]] + s[1..];
    }
  }

  lemma {:induction false} DropDigitsIsPrefix(s: string)
    ensures DropDigits(s) <= s
  {
    if s != [] && '0' <= s[|s| - 1] <= '9' {
      DropDigitsIsPrefix(s[..|s| - 1]);
    }
  }

  lemma NormalizedIsSpaceless(raw: string)
    ensures Spaceless(NormalizeCourseKey(raw))
  {
    hide IsWhitespace, HolePrefix, DropDigits;
    var compact := Compact(raw);
    CompactIsSpaceless(raw);
    var prefix := compact[..HolePrefix(Lower(compact))];
    DropDigitsIsPrefix(prefix);
    assert NormalizeCourseKey(raw) <= compact;
    forall c | c in NormalizeCourseKey(raw) ensures c in compact {
      var i :| 0 <= i < |NormalizeCourseKey(raw)| && NormalizeCourseKey(raw)[i] == c;
      assert compact[i] == c;
    }
  }

  lemma SpacelessIsTrimmed(s: string)
    requires Spaceless(s)
    ensures Trim(s) == s
  {
  }

  predicate IsDigit(c: char) {
    '0' <= c <= '9'
  }

  lemma DigitEndIsKept(key: string)
    requires key != "" && Spaceless(key) && IsDigit(key[|key| - 1])
    ensures NormalizeCourseKey(key) == key
  {
    hide IsWhitespace;
    CompactIsSpaceless(key);
    var lower := Lower(key);
    assert lower[|lower| - 1] == key[|key| - 1];
    assert "ホール"[2] == 'ル';
    assert !EndsWith(lower, "h") && !EndsWith(lower, "holes") && !EndsWith(lower, "hole");
    assert !EndsWith(lower, "ホール");
    assert key[..|key|] == key;
  }

  lemma HoleCountIsDropped(key: string)
    requires key != "" && Spaceless(key) && !IsDigit(key[|key| - 1])
    ensures NormalizeCourseKey(key + "1h") == key
  {
    hide IsWhitespace;
    var raw := key + "1h";
    assert Spaceless(raw) by {
      assert !IsWhitespace('1') && !IsWhitespace('h') by { PlainLetters(); }
    }
    CompactIsSpaceless(raw);
    var lower := Lower(raw);
    assert lower[|lower| - 1] == 'h';
    assert EndsWith(lower, "h");
    assert raw[..|raw| - 1] == key + "1";
    assert (key + "1")[..|key|] == key;
    assert DropDigits(key + "1") == DropDigits(key) == key;
  }

  lemma PlainLetters()
    ensures !IsWhitespace('1') && !IsWhitespace('h')
  {
  }

  /** The keys that names normalize to are the texts without whitespace. */
  lemma KeysAreSpaceless(key: string)
    ensures key != "" ==> (Spaceless(key) <==> exists name :: NormalizeCourseKey(name) == key)
  {
    hide Spaceless, NormalizeCourseKey;
    if name :| NormalizeCourseKey(name) == key {
      NormalizedIsSpaceless(name);
    }
    if key != "" && Spaceless(key) {
      if IsDigit(key[|key| - 1]) {
        DigitEndIsKept(key);
      } else {
        HoleCountIsDropped(key);
      }
    }
  }

  /** The text is a name, a count of holes and a hole word in any case, and the
      name has no digit left at its end. */
  predicate CountsHoles(text: string, name: string, count: string, word: string) {
    && text == name + count + word
    && (name != "" ==> !('0' <= name[|name| - 1] <= '9'))
    && count != "" && (forall c :: c in count ==> '0' <= c <= '9')
    && (Lower(word) == "h" || Lower(word) == "ホール" || Lower(word) == "hole" || Lower(word) == "holes")
  }

  lemma {:induction false} DigitsAreDropped(name: string, count: string)
    requires name != "" ==> !IsDigit(name[|name| - 1])
    requires forall c :: c in count ==> IsDigit(c)
    ensures DropDigits(name + count) == name
  {
    if count == "" {
      assert name + count == name;
    } else {
      var n := |count| - 1;
      assert count[n] in count;
      assert (name + count)[..|name + count| - 1] == name + count[..n];
      DigitsAreDropped(name, count[..n]);
    }
  }

  lemma {:induction false} DroppedAreDigits(s: string)
    ensures DropDigits(s) <= s
    ensures forall i :: |DropDigits(s)| <= i < |s| ==> IsDigit(s[i])
    ensures DropDigits(s) != "" ==> !IsDigit(DropDigits(s)[|DropDigits(s)| - 1])
  {
    if s != [] && IsDigit(s[|s| - 1]) {
      DroppedAreDigits(s[..|s| - 1]);
    }
  }

  lemma LowerEnds(text: string, n: nat)
    requires n <= |text|
    ensures Lower(text)[n..] == Lower(text[n..])
  {
  }

  lemma HoleWordIsFound(text: string, n: nat)
    requires n <= |text|
    requires Lower(text[n..]) == "h" || Lower(text[n..]) == "ホール" || Lower(text[n..]) == "hole"
             || Lower(text[n..]) == "holes"
    ensures HolePrefix(Lower(text)) == n
  {
    LowerEnds(text, n);
    var lower, word := Lower(text), Lower(text[n..]);
    assert lower[|lower| - 1] == word[|word| - 1];
    assert "ホール"[2] == 'ル' && "h"[0] == 'h' && "hole"[3] == 'e' && "holes"[4] == 's';
    hide Lower;
    if word != "h" {
      assert !EndsWith(lower, "h");
    }
    if word != "ホール" {
      assert !EndsWith(lower, "ホール");
    }
    if word != "holes" {
      assert !EndsWith(lower, "holes");
    }
    if word != "hole" {
      assert !EndsWith(lower, "hole");
    }
  }

  lemma FoundIsHoleWord(text: string)
    requires HolePrefix(Lower(text)) < |text|
    ensures var word := Lower(text[HolePrefix(Lower(text))..]);
            word == "h" || word == "ホール" || word == "hole" || word == "holes"
  {
    LowerEnds(text, HolePrefix(Lower(text)));
  }

  /** A hole count behind the name is dropped, word and digits, however it is
      spelled; any other name keeps everything but its whitespace. */
  lemma NormalizedExactlyWhen(raw: string, key: string)
    ensures NormalizeCourseKey(raw) == key <==>
              || (exists count, word :: CountsHoles(Compact(raw), key, count, word))
              || (key == Compact(raw) && !exists name, count, word :: CountsHoles(Compact(raw), name, count, word))
  {
    hide Compact, Lower, DropDigits, HolePrefix;
    var text := Compact(raw);
    var n := HolePrefix(Lower(text));
    DroppedAreDigits(text[..n]);
    forall name, count, word | CountsHoles(text, name, count, word) ensures NormalizeCourseKey(raw) == name {
      assert text[|name + count|..] == word && text[..|name + count|] == name + count;
      HoleWordIsFound(text, |name + count|);
      DigitsAreDropped(name, count);
      LowerKeepsLength(word);
    }
    var dropped := DropDigits(text[..n]);
    if n < |text| && |dropped| < n {
      FoundIsHoleWord(text);
      assert text == dropped + text[|dropped|..n] + text[n..];
      assert CountsHoles(text, dropped, text[|dropped|..n], text[n..]);
    }
  }

  lemma LowerKeepsLength(s: string)
    ensures |Lower(s)| == |s|
  {
  }

  // ----- trimming -----

  lemma {:induction false} TrimStartIs(s: string) returns (front: string)
    ensures s == front + TrimStart(s) && Spaces(front)
    ensures TrimStart(s) != "" ==> !IsWhitespace(TrimStart(s)[0])
  {
    hide IsWhitespace;
    front := "";
    if s != [] && IsWhitespace(s[0]) {
      var more := TrimStartIs(s[1..]);
      front := [s[0]] + more;
    }
  }

  lemma {:induction false} TrimEndIs(s: string) returns (back: string)
    ensures s == TrimEnd(s) + back && Spaces(back)
    ensures TrimEnd(s) != "" ==> TrimEnd(s)[0] == s[0] && !IsWhitespace(TrimEnd(s)[|TrimEnd(s)| - 1])
  {
    hide IsWhitespace;
    back := "";
    if s != [] && IsWhitespace(s[|s| - 1]) {
      var more := TrimEndIs(s[..|s| - 1]);
      back := more + [s[|s| - 1]];
    }
  }

  predicate Spaces(s: string) {
    forall c :: c in s ==> IsWhitespace(c)
  }

  /** Trimming takes whitespace off both ends, all of it and nothing else. */
  lemma TrimIs(s: string) returns (front: string, back: string)
    ensures s == front + Trim(s) + back && Spaces(front) && Spaces(back)
    ensures Trim(s) != "" ==> !IsWhitespace(Trim(s)[0]) && !IsWhitespace(Trim(s)[|Trim(s)| - 1])
  {
    front := TrimStartIs(s);
    back := TrimEndIs(TrimStart(s));
    hide IsWhitespace, Spaces, TrimStart, TrimEnd;
  }

  /** What is blank trims to nothing, and only that. */
  lemma BlankExactlyWhen(s: string)
    ensures Trim(s) == "" <==> forall i :: 0 <= i < |s| ==> IsWhitespace(s[i])
  {
    hide IsWhitespace, Trim;
    var front, back := TrimIs(s);
    if Trim(s) == "" {
      assert s == front + back;
    } else {
      assert s[|front|] == Trim(s)[0];
    }
  }

  // ----- identities -----

  predicate ColonFree(s: string) {
    ':' !in s
  }

  /** The text whose hash identifies an import row. */
  function Identity(key: string, date: string, dayPart: string): string {
    key + ":" + date + ":" + dayPart
  }

  /** The text before and after the last colon. */
  function CutAtLastColon(s: string): (string, string) {
    if s == [] || s[|s| - 1] == ':' then (s[..if s == [] then 0 else |s| - 1], [])
    else
      var (front, back) := CutAtLastColon(s[..|s| - 1]);
      (front, back + [s[|s| - 1]])
  }

  lemma {:induction false} CutFindsTheJoin(front: string, back: string)
    requires ColonFree(back)
    ensures CutAtLastColon(front + ":" + back) == (front, back)
    decreases |back|
  {
    var s := front + ":" + back;
    if back == [] {
      assert s[..|s| - 1] == front;
    } else {
      var shorter := back[..|back| - 1];
      assert s[..|s| - 1] == front + ":" + shorter;
      assert s[|s| - 1] == back[|back| - 1] && back == shorter + [s[|s| - 1]];
      assert s[|s| - 1] in back;
      CutFindsTheJoin(front, shorter);
    }
  }

  /** The joined text is injective although a facility key may itself contain
      colons: the date and the day part do not. */
  lemma IdentityInjective(k1: string, d1: string, p1: string, k2: string, d2: string, p2: string)
    requires ColonFree(d1) && ColonFree(p1) && ColonFree(d2) && ColonFree(p2)
    ensures Identity(k1, d1, p1) == Identity(k2, d2, p2) <==> k1 == k2 && d1 == d2 && p1 == p2
  {
    CutFindsTheJoin(k1 + ":" + d1, p1);
    CutFindsTheJoin(k2 + ":" + d2, p2);
    CutFindsTheJoin(k1, d1);
    CutFindsTheJoin(k2, d2);
  }
}
