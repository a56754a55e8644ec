/**
 * The flat JSON text that the writer produces and the search that the scanner performs, as
 * functions on character sequences (octets are modelled as characters).  The scanner does not
 * tokenise, so that it inverts the writer is a property of the escaping, proved here.
 */
module JsonText {
  import opened Sequences
  import opened Status

  /** The characters of a C string before its terminator. */
  type Text = s: string | '\0' !in s

  datatype Value = Str(text: Text) | Num(n: nat) | Bool(b: bool)

  datatype Field = Field(key: Text, value: Value)

  // ---------------------------------------------------------------- printing

  predicate Special(c: char) {
    c == '"' || c == '\\'
  }

  function Escape(v: string): string {
    if v == [] then [] else (if Special(v[0]) then ['\\', v[0]] else [v[0]]) + Escape(v[1..])
  }

  predicate IsDigit(c: char) {
    '0' <= c <= '9'
  }

  function Digit(d: nat): (c: char)
    requires d < 10
    ensures IsDigit(c)
  {
    '0' + d as char
  }

  function Decimal(n: nat): (s: string)
    ensures s != [] && forall i :: 0 <= i < |s| ==> IsDigit(s[i])
  {
    if n < 10 then [Digit(n)] else Decimal(n / 10) + [Digit(n % 10)]
  }

  function Render(v: Value): (s: string)
    ensures s != []
  {
    match v
    case Str(t) => "\"" + Escape(t) + "\""
    case Num(n) => Decimal(n)
    case Bool(b) => if b then "true" else "false"
  }

  function Prefix(key: Text): string {
    "\"" + key + "\":"
  }

  function FieldText(f: Field): string {
    Prefix(f.key) + Render(f.value)
  }

  /** The fields of an object and its closing brace. */
  function Body(fs: seq<Field>): string
    decreases |fs|, 0
  {
    if fs == [] then "}" else FieldText(fs[0]) + Tail(fs[1..])
  }

  /** What follows a field. */
  function Tail(rest: seq<Field>): (s: string)
    ensures s != [] && (s[0] == ',' || s[0] == '}')
    decreases |rest|, 1
  {
    if rest == [] then "}" else "," + Body(rest)
  }

  function Document(fs: seq<Field>): string {
    "{" + Body(fs)
  }

  lemma ThreeFields(a: Field, b: Field, c: Field)
    ensures Document([a, b, c]) == "{" + (FieldText(a) + ("," + (FieldText(b) + ("," + (FieldText(c) + "}")))))
  {
    assert [a, b, c][1..] == [b, c] && [b, c][1..] == [c] && [c][1..] == [];
    assert Tail([]) == "}";
    assert Tail([c]) == "," + (FieldText(c) + "}");
    assert Tail([b, c]) == "," + (FieldText(b) + Tail([c]));
  }

  /** The text itself, field by field, as in the document of the repository's own test. */
  lemma PrintedBool()
    ensures FieldText(Field("on", Bool(true))) == "\"on\":true" && Render(Bool(false)) == "false"
  {
  }

  lemma PrintedNumber()
    ensures FieldText(Field("seq", Num(42))) == "\"seq\":42"
  {
    assert Decimal(42) == Decimal(4) + [Digit(2)] == "42";
  }

  lemma PrintedString()
    ensures FieldText(Field("id", Str("n-1"))) == "\"id\":\"n-1\""
  {
    EscapePlain("n-1");
  }

  /** Quotes and backslashes in a string are escaped by a backslash. */
  lemma PrintedEscape(rest: string)
    ensures Escape("\"" + rest) == "\\\"" + Escape(rest) && Escape("\\" + rest) == "\\\\" + Escape(rest)
  {
    assert ("\"" + rest)[1..] == rest && ("\\" + rest)[1..] == rest;
  }

  predicate IsBlank(c: char) {
    c == ' ' || c == '\t'
  }

  type Blanks = s: string | forall i :: 0 <= i < |s| ==> IsBlank(s[i])

  /** A field with blanks before its key, around its colon, and after its value. */
  datatype Spaced = Spaced(lead: Blanks, before: Blanks, after: Blanks, trail: Blanks, field: Field)

  /** The same object as others may print it: the writer here uses no blanks. */
  function SpacedBody(ss: seq<Spaced>): string
    decreases |ss|, 0
  {
    if ss == [] then "}" else ss[0].lead + SpacedField(ss[0], ss[1..])
  }

  function SpacedField(f: Spaced, rest: seq<Spaced>): string
    decreases |rest|, 2
  {
    Quoted(f.field.key, f.before + ":" + f.after + (Render(f.field.value) + (f.trail + SpacedTail(rest))))
  }

  function SpacedTail(rest: seq<Spaced>): (s: string)
    ensures s != [] && (s[0] == ',' || s[0] == '}')
    decreases |rest|, 1
  {
    if rest == [] then "}" else "," + SpacedBody(rest)
  }

  function SpacedDocument(ss: seq<Spaced>): string {
    "{" + SpacedBody(ss)
  }

  function Fields(ss: seq<Spaced>): (fs: seq<Field>)
    ensures |fs| == |ss| && forall i :: 0 <= i < |fs| ==> fs[i] == ss[i].field
  {
    seq(|ss|, i requires 0 <= i < |ss| => ss[i].field)
  }

  /** A string in quotes, followed by `tail`. */
  function Quoted(v: string, tail: string): string {
    "\"" + Rest(v, tail)
  }

  /** The same without the opening quote. */
  function Rest(v: string, tail: string): string {
    Escape(v) + "\"" + tail
  }

  // ---------------------------------------------------------------- searching

  function SkipBlanks(t: string): string {
    if t != [] && IsBlank(t[0]) then SkipBlanks(t[1..]) else t
  }

  /** The text of a value after blanks, a colon and blanks. */
  function AfterColon(t: string): Option<string> {
    var u := SkipBlanks(t);
    if u == [] || u[0] != ':' then None else Some(SkipBlanks(u[1..]))
  }

  /** If `t` starts with the quoted key and a colon, the text of the value. */
  function ValueAfterKey(t: string, key: Text): Option<string> {
    if "\"" + key + "\"" <= t then AfterColon(t[|key| + 2..]) else None
  }

  /** The text from the first value of `key` on, as `find_value` locates it. */
  function Find(t: string, key: Text): Option<string> {
    if t == [] then None
    else if ValueAfterKey(t, key).Some? then ValueAfterKey(t, key)
    else Find(t[1..], key)
  }

  // ---------------------------------------------------------------- the search inverts printing

  /** Keys for which the search is exact. */
  predicate Plain(key: Text) {
    key != [] && forall i :: 0 <= i < |key| ==> key[i] !in {'"', '\\', ',', ':', '}'}
  }

  lemma NoQuoteNoMatch(t: string, key: Text)
    requires t != [] && t[0] != '"'
    ensures Find(t, key) == Find(t[1..], key)
  {
    assert ("\"" + key + "\"")[0] == '"';
  }

  lemma {:induction false} SkipUnquoted(s: string, t: string, key: Text)
    requires '"' !in s
    ensures Find(s + t, key) == Find(t, key)
  {
    if s == [] {
      assert s + t == t;
    } else {
      assert (s + t)[1..] == s[1..] + t;
      NoQuoteNoMatch(s + t, key);
      SkipUnquoted(s[1..], t, key);
    }
  }

  /** A key and its closing quote do not fit into blanks and a character that is in no key. */
  lemma KeyEndsBefore(gap: Blanks, rest: string, key: Text)
    requires Plain(key) && rest != [] && rest[0] in {',', ':', '}'}
    ensures !("\"" + key + "\"" <= "\"" + (gap + rest))
  {
    var t, quoted := "\"" + (gap + rest), "\"" + key + "\"";
    assert quoted[|key| + 1] == '"' && forall i :: 0 <= i < |key| ==> quoted[i + 1] == key[i];
    assert t[|gap| + 1] == rest[0] && forall i :: 0 <= i < |gap| ==> t[i + 1] == gap[i];
  }

  /** A quote before blanks and then a character that is in no key does not match. */
  lemma QuoteBefore(gap: Blanks, rest: string, key: Text)
    requires Plain(key) && rest != [] && rest[0] in {',', ':', '}'}
    ensures Find("\"" + (gap + rest), key) == Find(gap + rest, key)
  {
    var t := "\"" + (gap + rest);
    KeyEndsBefore(gap, rest, key);
    assert t[1..] == gap + rest;
  }

  lemma {:induction false} SplitBlanks(t: string) returns (gap: Blanks)
    ensures t == gap + SkipBlanks(t)
  {
    gap := [];
    if t != [] && IsBlank(t[0]) {
      gap := SplitBlanks(t[1..]);
      gap := [t[0]] + gap;
    }
  }

  lemma {:induction false} BlanksSkipped(gap: Blanks, t: string)
    requires t != [] && !IsBlank(t[0])
    ensures SkipBlanks(gap + t) == t
  {
    if gap == [] {
      assert gap + t == t;
    } else {
      assert (gap + t)[1..] == gap[1..] + t;
      BlanksSkipped(gap[1..], t);
    }
  }

  /** A plain key closed by a quote is found within an escaped string only as the whole of it. */
  lemma {:induction false} KeyFillsString(key: string, v: string, tail: string)
    requires '"' !in key && '\\' !in key
    requires key + "\"" <= Escape(v) + "\"" + tail
    ensures v == key
    decreases |v|
  {
    var e := Escape(v) + "\"" + tail;
    assert (key + "\"")[0] == e[0];
    if v != [] && key != [] {
      assert !Special(v[0]) && key[0] == v[0];
      assert Escape(v)[1..] == Escape(v[1..]);
      assert e[1..] == Escape(v[1..]) + "\"" + tail;
      assert (key + "\"")[1..] == key[1..] + "\"";
      KeyFillsString(key[1..], v[1..], tail);
    }
  }

  lemma NoValueNoMatch(t: string, key: Text)
    requires t != [] && ValueAfterKey(t, key).None?
    ensures Find(t, key) == Find(t[1..], key)
  {
  }

  lemma QuotedRest(v: string, tail: string)
    ensures Quoted(v, tail)[0] == '"' && Quoted(v, tail)[1..] == Rest(v, tail)
  {
  }

  lemma QuotedText(v: string, tail: string)
    ensures "\"" + Escape(v) + "\"" + tail == Quoted(v, tail)
  {
    Associate("\"", Escape(v), "\"");
    Associate("\"", Escape(v) + "\"", tail);
  }

  /** After blanks, a comma or the closing brace. */
  predicate EndsField(tail: string) {
    var t := SkipBlanks(tail);
    t != [] && (t[0] == ',' || t[0] == '}')
  }

  lemma NoColonNoValue(key: Text, tail: string)
    requires EndsField(tail)
    ensures ValueAfterKey("\"" + key + "\"" + tail, key) == None
  {
    var t := "\"" + key + "\"" + tail;
    assert t[|key| + 2..] == tail;
  }

  lemma StartsWithKey(v: string, tail: string, key: Text)
    requires Plain(key) && "\"" + key + "\"" <= Quoted(v, tail)
    ensures v == key
  {
    var quoted := "\"" + key + "\"";
    QuotedRest(v, tail);
    assert quoted[1..] == key + "\"" && quoted[1..] <= Quoted(v, tail)[1..];
    KeyFillsString(key, v, tail);
  }

  lemma QuotedIsNoKey(v: string, tail: string, key: Text)
    requires Plain(key) && EndsField(tail)
    ensures ValueAfterKey(Quoted(v, tail), key) == None
  {
    if "\"" + key + "\"" <= Quoted(v, tail) {
      StartsWithKey(v, tail, key);
      EscapePlain(key);
      assert Quoted(v, tail) == "\"" + key + "\"" + tail;
      NoColonNoValue(key, tail);
    }
  }

  /** The quote that opens a string value, or that is escaped in one, never matches. */
  lemma QuoteInString(v: string, tail: string, key: Text)
    requires Plain(key) && EndsField(tail)
    ensures Find(Quoted(v, tail), key) == Find(Rest(v, tail), key)
  {
    QuotedIsNoKey(v, tail, key);
    QuotedRest(v, tail);
    NoValueNoMatch(Quoted(v, tail), key);
  }

  lemma {:induction false} EscapePlain(s: string)
    requires '"' !in s && '\\' !in s
    ensures Escape(s) == s
  {
    if s != [] {
      EscapePlain(s[1..]);
      assert s == [s[0]] + s[1..];
    }
  }

  lemma RestStep(v: string, tail: string)
    requires v != []
    ensures v[0] == '"' ==> Rest(v, tail) == "\\" + Quoted(v[1..], tail)
    ensures v[0] == '\\' ==> Rest(v, tail) == "\\\\" + Rest(v[1..], tail)
    ensures !Special(v[0]) ==> Rest(v, tail) == [v[0]] + Rest(v[1..], tail)
  {
  }

  /** Nothing within a string value matches, up to and including its closing quote. */
  lemma {:induction false} SkipStringRest(v: string, tail: string, key: Text)
    requires Plain(key) && EndsField(tail)
    ensures Find(Rest(v, tail), key) == Find(tail, key)
    decreases |v|
  {
    if v == [] {
      var gap := SplitBlanks(tail);
      assert Rest(v, tail) == "\"" + tail;
      QuoteBefore(gap, SkipBlanks(tail), key);
    } else {
      RestStep(v, tail);
      SkipStringRest(v[1..], tail, key);
      if v[0] == '"' {
        SkipUnquoted("\\", Quoted(v[1..], tail), key);
        QuoteInString(v[1..], tail, key);
      } else if v[0] == '\\' {
        SkipUnquoted("\\\\", Rest(v[1..], tail), key);
      } else {
        SkipUnquoted([v[0]], Rest(v[1..], tail), key);
      }
    }
  }

  lemma SkipValue(v: Value, tail: string, key: Text)
    requires Plain(key) && EndsField(tail)
    ensures Find(Render(v) + tail, key) == Find(tail, key)
  {
    match v
    case Str(s) =>
      assert Render(v) + tail == Quoted(s, tail);
      QuoteInString(s, tail, key);
      SkipStringRest(s, tail, key);
    case Num(n) => SkipUnquoted(Decimal(n), tail, key);
    case Bool(b) => SkipUnquoted(if b then "true" else "false", tail, key);
  }

  lemma OtherKeyNoMatch(other: Text, tail: string, key: Text)
    requires Plain(key) && other != key
    ensures ValueAfterKey(Quoted(other, tail), key) == None
  {
    if "\"" + key + "\"" <= Quoted(other, tail) {
      StartsWithKey(other, tail, key);
    }
  }

  lemma QuotedKey(other: Text, tail: string)
    requires Plain(other)
    ensures Quoted(other, tail)[0] == '"' && Quoted(other, tail)[1..] == other + ("\"" + tail)
  {
    QuotedRest(other, tail);
    EscapePlain(other);
    Associate(other, "\"", tail);
  }

  /** Another key and its colon do not match: neither the opening nor the closing quote. */
  lemma SkipKey(other: Text, before: Blanks, rest: string, key: Text)
    requires Plain(key) && Plain(other) && other != key
    ensures Find(Quoted(other, before + ":" + rest), key) == Find(rest, key)
  {
    var tail := before + (":" + rest);
    assert before + ":" + rest == tail;
    QuotedKey(other, tail);
    OtherKeyNoMatch(other, tail, key);
    NoValueNoMatch(Quoted(other, tail), key);
    SkipUnquoted(other, "\"" + tail, key);
    QuoteBefore(before, ":" + rest, key);
    SkipUnquoted(before, ":" + rest, key);
    SkipUnquoted(":", rest, key);
  }

  /** The key itself does match, whatever blanks surround the colon, and leads to its value. */
  lemma MatchKey(key: Text, before: Blanks, after: Blanks, rest: string)
    requires Plain(key) && rest != [] && !IsBlank(rest[0])
    ensures Find(Quoted(key, before + ":" + after + rest), key) == Some(rest)
  {
    var tail := before + (":" + (after + rest));
    assert before + ":" + after + rest == tail;
    var t, quoted := Quoted(key, tail), "\"" + key + "\"";
    QuotedKey(key, tail);
    assert t == quoted + tail;
    assert quoted <= t && t[|key| + 2..] == tail;
    BlanksSkipped(before, ":" + (after + rest));
    assert (":" + (after + rest))[1..] == after + rest;
    BlanksSkipped(after, rest);
  }

  lemma RenderStart(v: Value)
    ensures !IsBlank(Render(v)[0])
  {
  }

  ghost predicate PlainKeys(fs: seq<Field>) {
    forall i :: 0 <= i < |fs| ==> Plain(fs[i].key)
  }

  /** The value of the first field with a key. */
  function Lookup(fs: seq<Field>, key: Text): Option<Value> {
    if fs == [] then None
    else if fs[0].key == key then Some(fs[0].value)
    else Lookup(fs[1..], key)
  }

  /** `t` is `v` as printed, up to the end of its field. */
  ghost predicate Heads(v: Value, t: string) {
    exists tail :: EndsField(tail) && t == Render(v) + tail
  }

  /** A search has found the text of a value, or nothing. */
  ghost predicate Located(found: Option<string>, v: Option<Value>) {
    if v.None? then found == None else found.Some? && Heads(v.value, found.value)
  }

  lemma TrailEndsField(trail: Blanks, rest: seq<Spaced>)
    ensures EndsField(trail + SpacedTail(rest))
  {
    BlanksSkipped(trail, SpacedTail(rest));
  }

  lemma SkipSpacedTail(trail: Blanks, rest: seq<Spaced>, key: Text)
    ensures Find(trail + SpacedTail(rest), key) == Find(SpacedBody(rest), key)
  {
    SkipUnquoted(trail, SpacedTail(rest), key);
    if rest != [] {
      SkipUnquoted(",", SpacedBody(rest), key);
    }
  }

  /** The search over one field: it is found by its own key, and passed over for any other. */
  lemma FindInField(f: Spaced, rest: seq<Spaced>, key: Text)
    requires Plain(key) && Plain(f.field.key)
    ensures var tail := f.trail + SpacedTail(rest);
            Find(SpacedField(f, rest), key) ==
            if f.field.key == key then Some(Render(f.field.value) + tail) else Find(SpacedBody(rest), key)
  {
    var tail := f.trail + SpacedTail(rest);
    var text := Render(f.field.value) + tail;
    RenderStart(f.field.value);
    if f.field.key == key {
      MatchKey(key, f.before, f.after, text);
    } else {
      assert f.before + ":" + f.after + text == f.before + ":" + (f.after + text);
      SkipKey(f.field.key, f.before, f.after + text, key);
      SkipUnquoted(f.after, text, key);
      TrailEndsField(f.trail, rest);
      SkipValue(f.field.value, tail, key);
      SkipSpacedTail(f.trail, rest, key);
    }
  }

  lemma {:induction false} FindInBody(ss: seq<Spaced>, key: Text)
    requires Plain(key) && PlainKeys(Fields(ss))
    ensures Located(Find(SpacedBody(ss), key), Lookup(Fields(ss), key))
  {
    if ss == [] {
      SkipUnquoted("}", [], key);
      assert "}" + [] == "}";
    } else {
      var f, rest := ss[0], ss[1..];
      assert Fields(ss)[1..] == Fields(rest) && Fields(ss)[0] == f.field;
      SkipUnquoted(f.lead, SpacedField(f, rest), key);
      FindInField(f, rest, key);
      TrailEndsField(f.trail, rest);
      FindInBody(rest, key);
    }
  }

  /** In any flat object, however spaced, a plain key is found exactly at the value of its first field. */
  lemma FindInSpaced(ss: seq<Spaced>, key: Text)
    requires Plain(key) && PlainKeys(Fields(ss))
    ensures Located(Find(SpacedDocument(ss), key), Lookup(Fields(ss), key))
  {
    SkipUnquoted("{", SpacedBody(ss), key);
    FindInBody(ss, key);
  }

  /** The fields without any blanks. */
  function Tight(fs: seq<Field>): (ss: seq<Spaced>)
    ensures |ss| == |fs| && Fields(ss) == fs
  {
    seq(|fs|, i requires 0 <= i < |fs| => Spaced("", "", "", "", fs[i]))
  }

  lemma Regrouped(key: string, value: string, tail: string)
    ensures "\"" + (key + "\"" + (":" + (value + tail))) == "\"" + key + "\":" + value + tail
  {
    Associate(key, "\"", ":" + (value + tail));
    Associate("\"", ":", value + tail);
    assert "\"" + ":" == "\":";
    Associate("\"", key, "\":" + (value + tail));
    Associate("\"" + key, "\":", value + tail);
    Associate("\"" + key + "\":", value, tail);
  }

  lemma TightField(f: Field, rest: seq<Spaced>, tail: string)
    requires Plain(f.key) && tail == SpacedTail(rest)
    ensures SpacedField(Spaced("", "", "", "", f), rest) == FieldText(f) + tail
  {
    EscapePlain(f.key);
    var value := Render(f.value);
    assert "" + tail == tail && "" + ":" + "" == ":";
    Regrouped(f.key, value, tail);
  }

  lemma {:induction false} TightBody(fs: seq<Field>)
    requires PlainKeys(fs)
    ensures SpacedBody(Tight(fs)) == Body(fs)
  {
    if fs != [] {
      assert Tight(fs)[1..] == Tight(fs[1..]);
      TightBody(fs[1..]);
      assert SpacedTail(Tight(fs[1..])) == Tail(fs[1..]);
      TightField(fs[0], Tight(fs[1..]), Tail(fs[1..]));
      assert "" + SpacedField(Tight(fs)[0], Tight(fs[1..])) == SpacedField(Tight(fs)[0], Tight(fs[1..]));
    }
  }

  /** In a document as the writer prints it, in particular. */
  lemma FindInDocument(fs: seq<Field>, key: Text)
    requires Plain(key) && PlainKeys(fs)
    ensures Located(Find(Document(fs), key), Lookup(fs, key))
  {
    TightBody(fs);
    FindInSpaced(Tight(fs), key);
  }
}
