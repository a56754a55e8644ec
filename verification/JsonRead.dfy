/** What the scanner reads at a value, and that it reads back whatever the writer printed. */
module JsonRead {
  import opened Sequences
  import opened Status
  import opened JsonText

  function Prepend(s: string, r: Option<string>): Option<string> {
    if r.None? then None else Some(s + r.value)
  }

  /** The characters up to the closing quote with escapes removed, if they fit in `room`. */
  function ScanString(t: string, room: nat): Option<string> {
    if t == [] then None
    else if t[0] == '"' then Some([])
    else if room == 0 then None
    else
      var skip := if t[0] == '\\' && |t| > 1 then 1 else 0;
      Prepend([t[skip]], ScanString(t[skip + 1..], room - 1))
  }

  function StringAt(t: string, capacity: nat): Option<string> {
    if t == [] || t[0] != '"' || capacity == 0 then None else ScanString(t[1..], capacity - 1)
  }

  function DigitsOf(t: string): (r: string)
    ensures r <= t && forall i :: 0 <= i < |r| ==> IsDigit(r[i])
    ensures |r| < |t| ==> !IsDigit(t[|r|])
  {
    if t == [] || !IsDigit(t[0]) then [] else [t[0]] + DigitsOf(t[1..])
  }

  function DigitValue(c: char): (d: nat)
    requires IsDigit(c)
    ensures d < 10
  {
    (c - '0') as nat
  }

  /** The number a run of digits denotes. */
  function NumberOf(s: string): nat
    requires forall i :: 0 <= i < |s| ==> IsDigit(s[i])
  {
    if s == [] then 0 else 10 * NumberOf(s[..|s| - 1]) + DigitValue(s[|s| - 1])
  }

  /** A run of digits is accepted exactly when it denotes a 32-bit number. */
  function NumberAt(t: string): Option<nat> {
    var s := DigitsOf(t);
    if s == [] || NumberOf(s) > 0xFFFF_FFFF then None else Some(NumberOf(s))
  }

  function BoolAt(t: string): Option<bool> {
    if "true" <= t then Some(true) else if "false" <= t then Some(false) else None
  }

  function GetString(document: string, key: Text, capacity: nat): Option<string> {
    var f := Find(document, key);
    if f.None? then None else StringAt(f.value, capacity)
  }

  function GetNumber(document: string, key: Text): Option<nat> {
    var f := Find(document, key);
    if f.None? then None else NumberAt(f.value)
  }

  function GetBool(document: string, key: Text): Option<bool> {
    var f := Find(document, key);
    if f.None? then None else BoolAt(f.value)
  }

  // ---------------------------------------------------------------- strings

  lemma ScanPlain(c: char, rest: string, room: nat)
    requires !Special(c)
    ensures ScanString([c] + rest, room) == if room == 0 then None else Prepend([c], ScanString(rest, room - 1))
  {
    assert ([c] + rest)[1..] == rest;
  }

  lemma ScanSpecial(c: char, rest: string, room: nat)
    requires Special(c)
    ensures ScanString(['\\', c] + rest, room) == if room == 0 then None else Prepend([c], ScanString(rest, room - 1))
  {
    assert (['\\', c] + rest)[2..] == rest;
  }

  /** One character of an escaped string. */
  lemma ScanOne(v: string, tail: string, room: nat)
    requires v != []
    ensures ScanString(Rest(v, tail), room) ==
            if room == 0 then None else Prepend([v[0]], ScanString(Rest(v[1..], tail), room - 1))
  {
    RestStep(v, tail);
    if Special(v[0]) {
      assert Rest(v, tail) == ['\\', v[0]] + Rest(v[1..], tail);
      ScanSpecial(v[0], Rest(v[1..], tail), room);
    } else {
      ScanPlain(v[0], Rest(v[1..], tail), room);
    }
  }

  /** Unescaping what was escaped gives the string back when it fits, and only then. */
  lemma {:induction false} ScanEscaped(v: string, tail: string, room: nat)
    ensures ScanString(Rest(v, tail), room) == if |v| <= room then Some(v) else None
    decreases |v|
  {
    if v == [] {
      assert Rest(v, tail)[0] == '"';
    } else {
      ScanOne(v, tail, room);
      if room > 0 {
        ScanEscaped(v[1..], tail, room - 1);
        assert [v[0]] + v[1..] == v;
      }
    }
  }

  /** `v` with a backslash before every special character, and before any others that `marks` picks. */
  function EscapeAt(v: string, marks: seq<bool>): string
    requires |marks| == |v|
  {
    if v == [] then []
    else (if Special(v[0]) || marks[0] then ['\\', v[0]] else [v[0]]) + EscapeAt(v[1..], marks[1..])
  }

  /** One character, and what follows it. */
  lemma ScanHead(c: char, marked: bool, rest: string, room: nat)
    requires Special(c) ==> marked
    ensures ScanString((if marked then ['\\', c] else [c]) + rest, room) ==
            if room == 0 then None else Prepend([c], ScanString(rest, room - 1))
  {
    if marked {
      assert (['\\', c] + rest)[2..] == rest;
    } else {
      ScanPlain(c, rest, room);
    }
  }

  /** Whatever is escaped reads as itself, so that even `\n` is the letter. */
  lemma {:induction false} ScanAnyEscape(v: string, marks: seq<bool>, tail: string, room: nat)
    requires |marks| == |v|
    ensures ScanString(EscapeAt(v, marks) + ("\"" + tail), room) == if |v| <= room then Some(v) else None
    decreases |v|
  {
    var close := "\"" + tail;
    if v == [] {
      assert EscapeAt(v, marks) + close == close;
    } else {
      var head := if Special(v[0]) || marks[0] then ['\\', v[0]] else [v[0]];
      Associate(head, EscapeAt(v[1..], marks[1..]), close);
      ScanHead(v[0], Special(v[0]) || marks[0], EscapeAt(v[1..], marks[1..]) + close, room);
      if room > 0 {
        ScanAnyEscape(v[1..], marks[1..], tail, room - 1);
        assert [v[0]] + v[1..] == v;
      }
    }
  }

  // ---------------------------------------------------------------- numbers

  lemma {:induction false} NumberOfDecimal(n: nat)
    ensures NumberOf(Decimal(n)) == n
  {
    var s := Decimal(n);
    if n < 10 {
      assert s[..0] == [];
      assert NumberOf(s) == DigitValue(Digit(n)) == n;
    } else {
      NumberOfDecimal(n / 10);
      assert s[..|s| - 1] == Decimal(n / 10) && s[|s| - 1] == Digit(n % 10);
    }
  }

  lemma TailIsNoDigit(tail: string)
    requires EndsField(tail)
    ensures tail != [] && !IsDigit(tail[0])
  {
  }

  lemma {:induction false} DigitsBeforeTail(s: string, tail: string)
    requires (forall i :: 0 <= i < |s| ==> IsDigit(s[i])) && tail != [] && !IsDigit(tail[0])
    ensures DigitsOf(s + tail) == s
  {
    if s == [] {
      assert s + tail == tail;
    } else {
      assert (s + tail)[1..] == s[1..] + tail;
      DigitsBeforeTail(s[1..], tail);
    }
  }

  // ---------------------------------------------------------------- the round trip

  lemma QuoteIsNothingElse(t: string)
    requires t != [] && t[0] == '"'
    ensures NumberAt(t) == None && BoolAt(t) == None
  {
    assert "true"[0] != t[0] && "false"[0] != t[0];
  }

  lemma ReadString(s: string, tail: string, capacity: nat)
    requires EndsField(tail)
    ensures StringAt(Quoted(s, tail), capacity) == if |s| < capacity then Some(s) else None
  {
    QuotedRest(s, tail);
    if capacity > 0 {
      ScanEscaped(s, tail, capacity - 1);
    }
  }

  lemma ReadNumber(n: nat, tail: string, capacity: nat)
    requires EndsField(tail)
    ensures var t := Decimal(n) + tail;
            && StringAt(t, capacity) == None
            && NumberAt(t) == (if n <= 0xFFFF_FFFF then Some(n) else None) && BoolAt(t) == None
  {
    var t := Decimal(n) + tail;
    TailIsNoDigit(tail);
    DigitsBeforeTail(Decimal(n), tail);
    NumberOfDecimal(n);
    assert IsDigit(t[0]);
    assert "true"[0] != t[0] && "false"[0] != t[0];
  }

  lemma ReadBool(b: bool, tail: string, capacity: nat)
    ensures var t := (if b then "true" else "false") + tail;
            && StringAt(t, capacity) == None && NumberAt(t) == None && BoolAt(t) == Some(b)
  {
    var word := if b then "true" else "false";
    var t := word + tail;
    assert t[0] == word[0] && !IsDigit(t[0]);
    assert DigitsOf(t) == [];
    assert "true"[0] != "false"[0];
    assert word <= t;
  }

  lemma ReadQuoted(s: string, tail: string, capacity: nat)
    requires EndsField(tail)
    ensures var t := "\"" + Escape(s) + "\"" + tail;
            && StringAt(t, capacity) == (if |s| < capacity then Some(s) else None)
            && NumberAt(t) == None && BoolAt(t) == None
  {
    QuotedText(s, tail);
    QuotedRest(s, tail);
    ReadString(s, tail, capacity);
    QuoteIsNothingElse(Quoted(s, tail));
  }

  /** A rendered value reads back in its own type and in no other. */
  lemma ReadValue(v: Value, tail: string, capacity: nat)
    requires EndsField(tail)
    ensures var t := Render(v) + tail;
            && StringAt(t, capacity) == (if v.Str? && |v.text| < capacity then Some(v.text) else None)
            && NumberAt(t) == (if v.Num? && v.n <= 0xFFFF_FFFF then Some(v.n) else None)
            && BoolAt(t) == (if v.Bool? then Some(v.b) else None)
  {
    match v
    case Str(s) => ReadQuoted(s, tail, capacity);
    case Num(n) => ReadNumber(n, tail, capacity);
    case Bool(b) => ReadBool(b, tail, capacity);
  }

  /** What the three readers make of a value, in terms of the value itself. */
  ghost predicate ReadAs(d: string, key: Text, capacity: nat, v: Option<Value>) {
    && GetString(d, key, capacity) ==
       (if v.Some? && v.value.Str? && |v.value.text| < capacity then Some(v.value.text) else None)
    && GetNumber(d, key) ==
       (if v.Some? && v.value.Num? && v.value.n <= 0xFFFF_FFFF then Some(v.value.n) else None)
    && GetBool(d, key) == (if v.Some? && v.value.Bool? then Some(v.value.b) else None)
  }

  lemma LocatedIsRead(d: string, key: Text, capacity: nat, v: Option<Value>)
    requires Located(Find(d, key), v)
    ensures ReadAs(d, key, capacity, v)
  {
    if v.Some? {
      var tail :| EndsField(tail) && Find(d, key).value == Render(v.value) + tail;
      ReadValue(v.value, tail, capacity);
    }
  }

  /**
   * A flat object with plain keys and blanks anywhere between its tokens: every plain key reads
   * as the value of its first field, in its own type and no other, and other keys not at all.
   */
  lemma ReadsSpaced(ss: seq<Spaced>, key: Text, capacity: nat)
    requires PlainKeys(Fields(ss)) && Plain(key)
    ensures ReadAs(SpacedDocument(ss), key, capacity, Lookup(Fields(ss), key))
  {
    FindInSpaced(ss, key);
    LocatedIsRead(SpacedDocument(ss), key, capacity, Lookup(Fields(ss), key));
  }

  lemma ReadsDocument(fs: seq<Field>, key: Text, capacity: nat)
    requires PlainKeys(fs) && Plain(key)
    ensures ReadAs(Document(fs), key, capacity, Lookup(fs, key))
  {
    FindInDocument(fs, key);
    LocatedIsRead(Document(fs), key, capacity, Lookup(fs, key));
  }

  lemma {:induction false} LookupFinds(fs: seq<Field>, i: nat)
    requires i < |fs| && forall j :: 0 <= j < i ==> fs[j].key != fs[i].key
    ensures Lookup(fs, fs[i].key) == Some(fs[i].value)
  {
    if i > 0 {
      LookupFinds(fs[1..], i - 1);
    }
  }

  /**
   * The scanner inverts the writer: in a document with plain keys, every key of which `i` is
   * the first occurrence reads as exactly the value written, in its own type and no other.
   */
  lemma ReadsWhatWasWritten(fs: seq<Field>, i: nat, capacity: nat)
    requires PlainKeys(fs) && i < |fs| && forall j :: 0 <= j < i ==> fs[j].key != fs[i].key
    ensures ReadAs(Document(fs), fs[i].key, capacity, Some(fs[i].value))
  {
    LookupFinds(fs, i);
    ReadsDocument(fs, fs[i].key, capacity);
  }

  lemma {:induction false} LookupFails(fs: seq<Field>, key: Text)
    requires forall i :: 0 <= i < |fs| ==> fs[i].key != key
    ensures Lookup(fs, key) == None
  {
    if fs != [] {
      LookupFails(fs[1..], key);
    }
  }

  /** A key that was not written is not found, whatever the string values contain. */
  lemma AbsentKeyNotRead(fs: seq<Field>, key: Text, capacity: nat)
    requires PlainKeys(fs) && Plain(key) && forall i :: 0 <= i < |fs| ==> fs[i].key != key
    ensures ReadAs(Document(fs), key, capacity, None)
  {
    LookupFails(fs, key);
    ReadsDocument(fs, key, capacity);
  }
}
