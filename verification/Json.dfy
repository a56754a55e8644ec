/** The JSON writer and scanner as the firmware has them: loops over a caller's buffer. */
module Json {
  import opened Sequences
  import opened Status
  import opened JsonText
  import opened JsonRead

  function CharAt(text: string, i: nat): char {
    if i < |text| then text[i] else '\0'
  }

  // ---------------------------------------------------------------- scanner

  lemma NumberOfGrows(s: string, c: char)
    requires (forall i :: 0 <= i < |s| ==> IsDigit(s[i])) && IsDigit(c)
    ensures NumberOf(s + [c]) == 10 * NumberOf(s) + DigitValue(c)
  {
    assert (s + [c])[..|s|] == s;
  }

  lemma {:induction false} NumberOfPrefix(s: string, n: nat)
    requires (forall i :: 0 <= i < |s| ==> IsDigit(s[i])) && n <= |s|
    ensures NumberOf(s[..n]) <= NumberOf(s)
    decreases |s|
  {
    if n < |s| {
      NumberOfPrefix(s[..|s| - 1], n);
      assert s[..|s| - 1][..n] == s[..n];
    } else {
      assert s[..n] == s;
    }
  }

  lemma {:induction false} DigitsSplit(t: string, n: nat)
    requires n <= |t| && forall i :: 0 <= i < n ==> IsDigit(t[i])
    ensures DigitsOf(t) == t[..n] + DigitsOf(t[n..])
    decreases n
  {
    if n > 0 {
      var rest := t[1..];
      DigitsSplit(rest, n - 1);
      assert rest[n - 1..] == t[n..] && t[..n] == [t[0]] + rest[..n - 1];
      Associate([t[0]], rest[..n - 1], DigitsOf(t[n..]));
    } else {
      assert t[0..] == t && t[..0] + DigitsOf(t) == DigitsOf(t);
    }
  }

  lemma NotPrefixAt(s: string, t: string, i: nat)
    requires i < |s| && (i >= |t| || t[i] != s[i])
    ensures !(s <= t)
  {
  }

  lemma SliceGrows(s: string, i: nat, j: nat)
    requires i <= j < |s|
    ensures s[i..j + 1] == s[i..j] + [s[j]]
  {
  }

  /** The quoted key heads `t` when its characters and its closing quote do. */
  lemma QuotedHeads(t: string, key: Text, n: nat)
    requires n <= |key| && n + 1 <= |t| && t[0] == '"' && t[1..n + 1] == key[..n]
    ensures "\"" + key + "\"" <= t <==> n + 1 < |t| && (if n < |key| then "\"" + key + "\"" <= t else t[n + 1] == '"')
    ensures n < |key| && (n + 1 >= |t| || t[n + 1] != key[n]) ==> !("\"" + key + "\"" <= t)
  {
    var quoted := "\"" + key + "\"";
    assert quoted[0] == '"' && forall i :: 0 <= i < |key| ==> quoted[i + 1] == key[i];
    if n < |key| {
      if n + 1 >= |t| || t[n + 1] != key[n] {
        NotPrefixAt(quoted, t, n + 1);
      }
    } else if n + 1 < |t| && t[n + 1] == '"' {
      assert t[..n + 2] == [t[0]] + t[1..n + 1] + [t[n + 1]];
      assert t[..n + 2] == quoted;
    } else {
      NotPrefixAt(quoted, t, n + 1);
    }
  }

  lemma DropDrop(d: string, i: nat, j: nat)
    requires i + j <= |d|
    ensures d[i..][j..] == d[i + j..]
  {
  }

  lemma PrependNothing(r: Option<string>)
    ensures Prepend([], r) == r
  {
    if r.Some? {
      assert [] + r.value == r.value;
    }
  }

  /** One turn of the copying loop, at `at` in `d`, with `written` already copied. */
  lemma ScanStep(d: string, at: nat, room: nat, written: string)
    requires at < |d| && d[at] != '"' && room > 0
    ensures var p := if d[at] == '\\' && at + 1 < |d| then at + 1 else at;
            Prepend(written, ScanString(d[at..], room)) == Prepend(written + [d[p]], ScanString(d[p + 1..], room - 1))
  {
    var p := if d[at] == '\\' && at + 1 < |d| then at + 1 else at;
    assert d[at..][p - at + 1..] == d[p + 1..] && d[at..][p - at] == d[p];
    var rest := ScanString(d[p + 1..], room - 1);
    if rest.Some? {
      assert written + ([d[p]] + rest.value) == written + [d[p]] + rest.value;
    }
  }

  /** The copying loop at `position` of `d`, with `written` copied and room for `room` more. */
  predicate Copying(d: string, r: Option<string>, written: string, position: nat, room: nat) {
    position <= |d| && r == Prepend(written, ScanString(d[position..], room))
  }

  lemma CopyTurn(d: string, r: Option<string>, written: string, at: nat, room: nat)
    requires Copying(d, r, written, at, room) && at < |d| && d[at] != '"' && room > 0
    ensures var p := if d[at] == '\\' && at + 1 < |d| then at + 1 else at;
            Copying(d, r, written + [d[p]], p + 1, room - 1)
  {
    ScanStep(d, at, room, written);
  }

  lemma CopyEnds(d: string, r: Option<string>, written: string, at: nat, room: nat)
    requires Copying(d, r, written, at, room) && (at == |d| || d[at] == '"' || room == 0)
    ensures r == if at < |d| && d[at] == '"' then Some(written) else None
  {
    assert written + [] == written;
  }

  /** A digit run whose prefix exceeds 32 bits exceeds them as a whole. */
  lemma TooLarge(t: string, n: nat)
    requires n <= |t| && (forall i :: 0 <= i < n ==> IsDigit(t[i])) && NumberOf(t[..n]) > 0xFFFF_FFFF
    ensures NumberAt(t) == None
  {
    DigitsSplit(t, n);
    NumberOfPrefix(DigitsOf(t), n);
    assert DigitsOf(t)[..n] == t[..n];
  }

  lemma DigitsEnd(t: string, n: nat)
    requires n <= |t| && (forall i :: 0 <= i < n ==> IsDigit(t[i])) && (n < |t| ==> !IsDigit(t[n]))
    ensures DigitsOf(t) == t[..n]
  {
    DigitsSplit(t, n);
    assert DigitsOf(t[n..]) == [];
  }

  /** `n` digits of `t` have been read and denote `parsed`. */
  predicate ParsedSoFar(t: string, n: nat, parsed: nat) {
    n <= |t| && (forall i :: 0 <= i < n ==> IsDigit(t[i])) && parsed == NumberOf(t[..n]) <= 0xFFFF_FFFF
  }

  /** The overflow test before one more digit is exact. */
  lemma ParseStep(t: string, n: nat, parsed: nat)
    requires ParsedSoFar(t, n, parsed) && n < |t| && IsDigit(t[n])
    ensures var digit := DigitValue(t[n]);
            if parsed > (0xFFFF_FFFF - digit) / 10 then NumberAt(t) == None
            else ParsedSoFar(t, n + 1, parsed * 10 + digit)
  {
    assert t[..n + 1] == t[..n] + [t[n]];
    NumberOfGrows(t[..n], t[n]);
    if NumberOf(t[..n + 1]) > 0xFFFF_FFFF {
      TooLarge(t, n + 1);
    }
  }

  class JsonScanner {
    const data: array<char>
    const size: nat

    ghost predicate Valid() {
      size <= data.Length
    }

    ghost function Contents(): (s: string)
      requires Valid()
      reads data
      ensures |s| == size
    {
      data[..size]
    }

    constructor (data: array<char>, size: nat)
      requires size <= data.Length
      ensures Valid() && this.data == data && this.size == size
    {
      this.data, this.size := data, size;
    }

    method SkipBlanksFrom(start: nat) returns (input: nat)
      requires Valid() && start <= size
      ensures start <= input <= size && Contents()[input..] == SkipBlanks(Contents()[start..])
    {
      input := start;
      while input < size && (data[input] == ' ' || data[input] == '\t')
        invariant start <= input <= size
        invariant SkipBlanks(Contents()[start..]) == SkipBlanks(Contents()[input..])
      {
        ghost var t := Contents()[input..];
        assert t[1..] == Contents()[input + 1..];
        input := input + 1;
      }
    }

    /** Tries to match the quoted key at the quote at `start`; yields the value's position. */
    method MatchKey(start: nat, key: Text) returns (found: bool, position: nat)
      requires Valid() && start < size && data[start] == '"'
      ensures var r := ValueAfterKey(Contents()[start..], key);
              && found == r.Some?
              && (found ==> position <= size && Contents()[position..] == r.value)
    {
      var matched, input := MatchText(start, key);
      if !matched {
        return false, size;
      }
      DropDrop(Contents(), start, |key| + 2);
      found, position := ValueFrom(input);
    }

    method ValueFrom(start: nat) returns (found: bool, position: nat)
      requires Valid() && start <= size
      ensures var r := AfterColon(Contents()[start..]);
              && found == r.Some?
              && (found ==> position <= size && Contents()[position..] == r.value)
    {
      var input := SkipBlanksFrom(start);
      if input >= size || data[input] != ':' {
        return false, size;
      }
      DropDrop(Contents(), input, 1);
      position := SkipBlanksFrom(input + 1);
      found := true;
    }

    /** The comparison loop: the key's characters, then its closing quote. */
    method MatchText(start: nat, key: Text) returns (matched: bool, input: nat)
      requires Valid() && start < size && data[start] == '"'
      ensures matched <==> "\"" + key + "\"" <= Contents()[start..]
      ensures matched ==> input == start + |key| + 2 <= size
    {
      ghost var d := Contents();
      ghost var t := d[start..];
      input := start + 1;
      var keyIndex := 0;
      while input < size && CharAt(key, keyIndex) != '\0' && data[input] == CharAt(key, keyIndex)
        invariant input == start + 1 + keyIndex <= size && keyIndex <= |key|
        invariant t[1..keyIndex + 1] == key[..keyIndex]
      {
        SliceGrows(t, 1, keyIndex + 1);
        SliceGrows(key, 0, keyIndex);
        input, keyIndex := input + 1, keyIndex + 1;
      }
      QuotedHeads(t, key, keyIndex);
      if CharAt(key, keyIndex) != '\0' || input >= size || data[input] != '"' {
        return false, input;
      }
      input := input + 1;
      matched := true;
    }

    /** `find_value`: the position of the first value of `key`, or `size`. */
    method FindValue(key: Option<Text>) returns (position: nat)
      requires Valid()
      ensures position <= size
      ensures key.None? ==> position == size
      ensures key.Some? ==>
              var f := Find(Contents(), key.value);
              if f.None? then position == size else Contents()[position..] == f.value
    {
      if key.None? {
        return size;
      }
      ghost var d := Contents();
      var start := 0;
      assert d[0..] == d;
      while start < size
        invariant 0 <= start <= size && Find(d, key.value) == Find(d[start..], key.value)
      {
        assert d[start..][1..] == d[start + 1..];
        if data[start] == '"' {
          var found;
          found, position := MatchKey(start, key.value);
          if found {
            return;
          }
        } else {
          NoQuoteNoMatch(d[start..], key.value);
        }
        start := start + 1;
      }
      position := size;
    }

    method GetBool(key: Option<Text>, before: bool) returns (ok: bool, value: bool)
      requires Valid()
      ensures key.None? ==> !ok
      ensures key.Some? ==> ok == JsonRead.GetBool(Contents(), key.value).Some?
      ensures value == if ok then JsonRead.GetBool(Contents(), key.value).value else before
    {
      var position := FindValue(key);
      ok, value := BoolFrom(position, before);
    }

    method BoolFrom(position: nat, before: bool) returns (ok: bool, value: bool)
      requires Valid() && position <= size
      ensures var r := BoolAt(Contents()[position..]);
              ok == r.Some? && value == if ok then r.value else before
    {
      if position >= size {
        return false, before;
      }
      var isTrue := Matches(position, "true");
      if isTrue {
        return true, true;
      }
      var isFalse := Matches(position, "false");
      if isFalse {
        return true, false;
      }
      ok, value := false, before;
    }

    method Matches(position: nat, text: Text) returns (equal: bool)
      requires Valid() && position <= size
      ensures equal <==> text <= Contents()[position..]
    {
      ghost var t := Contents()[position..];
      var index := 0;
      while CharAt(text, index) != '\0'
        invariant 0 <= index <= |text| && index <= |t| && text[..index] == t[..index]
        decreases |text| - index
      {
        if position + index >= size || data[position + index] != text[index] {
          NotPrefixAt(text, t, index);
          return false;
        }
        SliceGrows(text, 0, index);
        SliceGrows(t, 0, index);
        index := index + 1;
      }
      assert text[..index] == text;
      equal := true;
    }

    method GetU32(key: Option<Text>, before: nat) returns (ok: bool, value: nat)
      requires Valid()
      ensures key.None? ==> !ok
      ensures key.Some? ==> ok == GetNumber(Contents(), key.value).Some?
      ensures value == if ok then GetNumber(Contents(), key.value).value else before
    {
      var position := FindValue(key);
      ok, value := NumberFrom(position, before);
    }

    method NumberFrom(start: nat, before: nat) returns (ok: bool, value: nat)
      requires Valid() && start <= size
      ensures var r := NumberAt(Contents()[start..]);
              ok == r.Some? && value == if ok then r.value else before
    {
      var position := start;
      ghost var t := Contents()[start..];
      if position >= size || data[position] < '0' || data[position] > '9' {
        return false, before;
      }
      assert t[0] == data[position];
      ok, value := DigitsFrom(start, before);
    }

    /** The digits from `start` on, of which there is at least one. */
    method DigitsFrom(start: nat, before: nat) returns (ok: bool, value: nat)
      requires Valid() && start < size && IsDigit(data[start])
      ensures var r := NumberAt(Contents()[start..]);
              ok == r.Some? && value == if ok then r.value else before
    {
      var position, parsed: nat := start, 0;
      ghost var t := Contents()[start..];
      while position < size && '0' <= data[position] <= '9'
        invariant start <= position <= size && ParsedSoFar(t, position - start, parsed)
      {
        assert data[position] == t[position - start];
        var digit := (data[position] - '0') as nat;
        ParseStep(t, position - start, parsed);
        position := position + 1;
        if parsed > (0xFFFF_FFFF - digit) / 10 {
          return false, before;
        }
        parsed := parsed * 10 + digit;
      }
      assert position < size ==> data[position] == t[position - start];
      DigitsEnd(t, position - start);
      ok, value := true, parsed;
    }

    /** Copies the unescaped string, terminated, into the caller's buffer. */
    method GetString(key: Option<Text>, value: array?<char>, capacity: nat) returns (ok: bool)
      requires Valid() && (value != null ==> capacity <= value.Length && value != data)
      modifies if value == null then {} else {value}
      ensures Contents() == old(Contents())
      ensures key.None? || value == null ==> !ok
      ensures key.Some? && value != null ==>
              var r := JsonRead.GetString(Contents(), key.value, capacity);
              && ok == r.Some?
              && (ok ==> |r.value| < capacity && value[..|r.value|] == r.value && value[|r.value|] == '\0')
    {
      var position := FindValue(key);
      if position >= size || data[position] != '"' || value == null || capacity == 0 {
        return false;
      }
      ok := StringFrom(position + 1, value, capacity);
    }

    method StringFrom(start: nat, value: array<char>, capacity: nat) returns (ok: bool)
      requires Valid() && start <= size && 0 < capacity <= value.Length && value != data
      modifies value
      ensures Contents() == old(Contents())
      ensures var r := ScanString(Contents()[start..], capacity - 1);
              && ok == r.Some?
              && (ok ==> |r.value| < capacity && value[..|r.value|] == r.value && value[|r.value|] == '\0')
    {
      ghost var d := Contents();
      ghost var r := ScanString(d[start..], capacity - 1);
      var position, output := start, 0;
      PrependNothing(r);
      while position < size && data[position] != '"'
        invariant 0 <= output < capacity && position <= size && Contents() == d
        invariant Copying(d, r, value[..output], position, capacity - 1 - output)
      {
        ghost var at, written := position, value[..output];
        if output + 1 >= capacity {
          CopyEnds(d, r, written, at, 0);
          return false;
        }
        CopyTurn(d, r, written, at, capacity - 1 - output);
        if data[position] == '\\' && position + 1 < size {
          position := position + 1;
        }
        value[output] := data[position];
        assert value[..output + 1] == written + [d[position]];
        output, position := output + 1, position + 1;
      }
      CopyEnds(d, r, value[..output], position, capacity - 1 - output);
      if position >= size || data[position] != '"' {
        return false;
      }
      value[output] := '\0';
      ok := true;
    }
  }

  // ---------------------------------------------------------------- writer

  /** `t` cut to `room` characters. */
  function Cut(t: string, room: nat): (r: string)
    ensures r <= t && |r| <= room
  {
    if |t| <= room then t else t[..room]
  }

  lemma CutConcat(s: string, t: string, room: nat)
    requires |s| <= room
    ensures Cut(s + t, room) == s + Cut(t, room - |s|)
  {
  }

  /** Fields separated by commas. */
  function Joined(fs: seq<Field>): string {
    if fs == [] then ""
    else if |fs| == 1 then FieldText(fs[0])
    else FieldText(fs[0]) + ("," + Joined(fs[1..]))
  }

  /** What the writer adds for one more field. */
  lemma {:induction false} JoinedGrows(fs: seq<Field>, f: Field)
    ensures Joined(fs + [f]) == Joined(fs) + ((if fs == [] then "" else ",") + FieldText(f))
    decreases |fs|
  {
    if fs == [] {
      assert fs + [f] == [f];
      assert Joined(fs) + ("" + FieldText(f)) == FieldText(f);
    } else {
      var first, rest, added := FieldText(fs[0]), fs[1..], "," + FieldText(f);
      assert (fs + [f])[0] == fs[0] && (fs + [f])[1..] == rest + [f];
      JoinedGrows(rest, f);
      if rest == [] {
        assert Joined(rest + [f]) == FieldText(f) by {
          assert rest + [f] == [f];
        }
      } else {
        Associate(",", Joined(rest), added);
        Associate(first, "," + Joined(rest), added);
      }
    }
  }

  lemma {:induction false} BodyIsJoined(fs: seq<Field>)
    ensures Body(fs) == Joined(fs) + "}"
    decreases |fs|
  {
    if fs == [] {
      assert "" + "}" == "}";
    } else if |fs| > 1 {
      BodyIsJoined(fs[1..]);
      Associate(",", Joined(fs[1..]), "}");
      Associate(FieldText(fs[0]), "," + Joined(fs[1..]), "}");
    }
  }

  /** The text of a document under construction, before its closing brace. */
  function Opened(fs: seq<Field>): string {
    "{" + Joined(fs)
  }

  /** Closing what the writer built field by field gives the document. */
  lemma ClosedIsDocument(fs: seq<Field>)
    ensures Opened(fs) + "}" == Document(fs)
  {
    BodyIsJoined(fs);
    Associate("{", Joined(fs), "}");
  }

  /** One more field: exactly what `Lead` and `Render` add. */
  lemma OpenedGrows(fs: seq<Field>, f: Field)
    ensures Opened(fs + [f]) == Opened(fs) + ((if fs == [] then "" else ",") + Prefix(f.key) + Render(f.value))
  {
    var comma := if fs == [] then "" else ",";
    JoinedGrows(fs, f);
    Associate("{", Joined(fs), comma + FieldText(f));
    Associate(comma, Prefix(f.key), Render(f.value));
  }

  /** The stages of writing a three-field document. */
  lemma Stages(a: Field, b: Field, c: Field)
    ensures Opened([]) == "{"
    ensures Opened([a]) == Opened([]) + ("" + Prefix(a.key) + Render(a.value))
    ensures Opened([a, b]) == Opened([a]) + ("," + Prefix(b.key) + Render(b.value))
    ensures Opened([a, b, c]) == Opened([a, b]) + ("," + Prefix(c.key) + Render(c.value))
    ensures Opened([a, b, c]) + "}" == Document([a, b, c])
  {
    OpenedGrows([], a);
    OpenedGrows([a], b);
    OpenedGrows([a, b], c);
    assert [] + [a] == [a] && [a] + [b] == [a, b] && [a, b] + [c] == [a, b, c];
    ClosedIsDocument([a, b, c]);
  }

  lemma {:induction false} DecimalLength(n: nat, k: nat)
    requires k > 0 && n < Pow10(k)
    ensures |Decimal(n)| <= k
    decreases k
  {
    if n >= 10 {
      DecimalLength(n / 10, k - 1);
    }
  }

  lemma {:induction false} EscapeLength(s: string)
    ensures |Escape(s)| <= 2 * |s|
  {
    if s != [] {
      EscapeLength(s[1..]);
    }
  }

  /** Writing `t` after `before`: as much as fits, and overflow if something did not. */
  predicate Emitted(capacity: nat, before: string, overBefore: bool, t: string, ok: bool, after: string, over: bool) {
    && |before| <= capacity && after == before + Cut(t, capacity - |before|)
    && ok == (|before| + |t| <= capacity) && over == (overBefore || !ok)
  }

  lemma EmittedThen(capacity: nat, before: string, o0: bool, s: string, mid: string, o1: bool,
                    t: string, ok: bool, after: string, o2: bool)
    requires Emitted(capacity, before, o0, s, true, mid, o1) && Emitted(capacity, mid, o1, t, ok, after, o2)
    ensures Emitted(capacity, before, o0, s + t, ok, after, o2)
  {
    CutConcat(s, t, capacity - |before|);
    assert Cut(s, capacity - |before|) == s;
  }

  lemma EmittedStops(capacity: nat, before: string, o0: bool, s: string, t: string, after: string, o1: bool)
    requires Emitted(capacity, before, o0, s, false, after, o1)
    ensures Emitted(capacity, before, o0, s + t, false, after, o1)
  {
    var room := capacity - |before|;
    assert (s + t)[..room] == s[..room];
  }

  /** One more character of `text`, or the end of writing it. */
  lemma EmittedChar(capacity: nat, before: string, o0: bool, text: string, n: nat, mid: string, o1: bool,
                    ok: bool, after: string, o2: bool)
    requires n < |text|
    requires Emitted(capacity, before, o0, text[..n], true, mid, o1) && Emitted(capacity, mid, o1, [text[n]], ok, after, o2)
    ensures if ok then Emitted(capacity, before, o0, text[..n + 1], true, after, o2)
            else Emitted(capacity, before, o0, text, false, after, o2)
  {
    EmittedThen(capacity, before, o0, text[..n], mid, o1, [text[n]], ok, after, o2);
    assert text[..n] + [text[n]] == text[..n + 1];
    if !ok {
      EmittedStops(capacity, before, o0, text[..n + 1], text[n + 1..], after, o2);
      assert text[..n + 1] + text[n + 1..] == text;
    }
  }

  function Pow10(n: nat): nat {
    if n == 0 then 1 else 10 * Pow10(n - 1)
  }

  function Reversed(s: string): (r: string)
    ensures |r| == |s|
  {
    if s == [] then [] else Reversed(s[1..]) + [s[0]]
  }

  lemma {:induction false} ReversedSnoc(s: string, c: char)
    ensures Reversed(s + [c]) == [c] + Reversed(s)
  {
    if s == [] {
      assert s + [c] == [c] && [c][1..] == [];
    } else {
      assert (s + [c])[1..] == s[1..] + [c] && (s + [c])[0] == s[0];
      ReversedSnoc(s[1..], c);
    }
  }

  /** The digits of a number that remain to be produced, most significant first. */
  function Leading(n: nat): string {
    if n == 0 then [] else Decimal(n)
  }

  lemma LeadingStep(n: nat)
    requires n > 0
    ensures Leading(n) == Leading(n / 10) + [Digit(n % 10)]
  {
  }

  lemma TenDigits()
    ensures Pow10(10) > 0xFFFF_FFFF
  {
    assert Pow10(5) == 100000;
  }

  lemma DivMul(value: nat, p: nat)
    ensures (value / 10) * (10 * p) <= value * p
  {
    var q := value / 10;
    assert value == 10 * q + value % 10;
    assert value * p == (10 * q) * p + (value % 10) * p;
    assert (10 * q) * p == q * (10 * p);
    assert (value % 10) * p >= 0;
  }

  lemma NothingLeft(value: nat, count: nat, number: nat)
    requires value == 0 || count == 10
    requires value * Pow10(count) <= number <= 0xFFFF_FFFF
    ensures value == 0
  {
    TenDigits();
    TimesAtLeast(value, Pow10(count));
  }

  lemma TimesAtLeast(value: nat, p: nat)
    ensures value > 0 ==> value * p >= p
  {
  }

  lemma {:induction false} ReversedAt(s: string, i: nat)
    requires i < |s|
    ensures Reversed(s)[|s| - 1 - i] == s[i]
    decreases |s|
  {
    if i > 0 {
      ReversedAt(s[1..], i - 1);
    }
  }

  lemma EscapeOne(c: char)
    ensures Escape([c]) == if Special(c) then "\\" + [c] else [c]
  {
    assert [c][1..] == [];
  }

  lemma {:induction false} EscapeSplit(s: string, n: nat)
    requires n <= |s|
    ensures Escape(s) == Escape(s[..n]) + Escape(s[n..])
    decreases n
  {
    if n == 0 {
      assert s[..0] == [] && s[0..] == s;
    } else {
      var head := if Special(s[0]) then ['\\', s[0]] else [s[0]];
      assert s[..n][1..] == s[1..][..n - 1] && s[1..][n - 1..] == s[n..];
      EscapeSplit(s[1..], n - 1);
      Associate(head, Escape(s[1..][..n - 1]), Escape(s[n..]));
    }
  }

  lemma EscapeGrows(s: string, i: nat)
    requires i < |s|
    ensures Escape(s[..i + 1]) == Escape(s[..i]) + Escape([s[i]])
  {
    EscapeSplit(s[..i + 1], i);
    assert s[..i + 1][..i] == s[..i] && s[..i + 1][i..] == [s[i]];
  }

  class JsonWriter {
    const data: array<char>
    const capacity: nat
    var position: nat
    var first: bool
    var overflow: bool

    ghost predicate Valid()
      reads this
    {
      position <= capacity <= data.Length
    }

    ghost function Written(): (s: string)
      requires Valid()
      reads this, data
      ensures |s| == position
    {
      data[..position]
    }

    constructor (data: array<char>, capacity: nat)
      requires capacity <= data.Length
      ensures Valid() && this.data == data && this.capacity == capacity
      ensures position == 0 && first && !overflow
    {
      this.data, this.capacity := data, capacity;
      position, first, overflow := 0, true, false;
    }

    method Put(c: char) returns (ok: bool)
      requires Valid()
      modifies this`position, this`overflow, data
      ensures Valid() && Emitted(capacity, old(Written()), old(overflow), [c], ok, Written(), overflow)
    {
      if position >= capacity {
        overflow := true;
        return false;
      }
      data[position] := c;
      position := position + 1;
      ok := true;
    }

    method Emit(text: string) returns (ok: bool)
      requires Valid()
      modifies this`position, this`overflow, data
      ensures Valid() && Emitted(capacity, old(Written()), old(overflow), text, ok, Written(), overflow)
    {
      ghost var before, o := Written(), overflow;
      var index := 0;
      while index < |text|
        invariant 0 <= index <= |text| && Valid()
        invariant Emitted(capacity, before, o, text[..index], true, Written(), overflow)
      {
        ghost var mid, o1 := Written(), overflow;
        ok := Put(text[index]);
        EmittedChar(capacity, before, o, text, index, mid, o1, ok, Written(), overflow);
        if !ok {
          return;
        }
        index := index + 1;
      }
      assert text[..index] == text;
      ok := true;
    }

    /** A null text fails without overflow. */
    method Append(text: Option<Text>) returns (ok: bool)
      requires Valid()
      modifies this`position, this`overflow, data
      ensures Valid()
      ensures text.None? ==> !ok && Written() == old(Written()) && overflow == old(overflow)
      ensures text.Some? ==>
              Emitted(capacity, old(Written()), old(overflow), text.value, ok, Written(), overflow)
    {
      if text.None? {
        return false;
      }
      ok := Emit(text.value);
    }

    method BeginObject() returns (ok: bool)
      requires Valid()
      modifies this`position, this`overflow, this`first, data
      ensures Valid() && first && Emitted(capacity, old(Written()), old(overflow), "{", ok, Written(), overflow)
    {
      first := true;
      ok := Put('{');
    }

    /** Closes the object and adds a terminator, for which there must be room as well. */
    method EndObject() returns (ok: bool)
      requires Valid()
      modifies this`position, this`overflow, data
      ensures Valid() && Written() == old(Written()) + Cut("}", capacity - old(position))
      ensures ok == (old(position) + 1 < capacity) && overflow == (old(overflow) || !ok)
    {
      ok := Put('}');
      if ok {
        ok := Terminate();
      }
    }

    method Terminate() returns (ok: bool)
      requires Valid()
      modifies this`overflow, data
      ensures Valid() && Written() == old(Written())
      ensures ok == (position < capacity) && overflow == (old(overflow) || !ok)
    {
      if position >= capacity {
        overflow := true;
        return false;
      }
      data[position] := '\0';
      ok := true;
    }

    /** The text a field starts with: a comma unless it is the first, the quoted key, a colon. */
    ghost function Lead(key: Text): string
      reads this
    {
      (if first then "" else ",") + Prefix(key)
    }

    /** What a null key leaves behind: the separator and an opening quote, as far as they fit. */
    ghost predicate Abandoned(wasFirst: bool, before: string, over: bool)
      requires Valid()
      reads this, data
    {
      var text := (if wasFirst then "" else ",") + "\"";
      || Emitted(capacity, before, over, text, true, Written(), overflow)
      || Emitted(capacity, before, over, text, false, Written(), overflow)
    }

    method FieldPrefix(key: Option<Text>) returns (ok: bool)
      requires Valid()
      modifies this`position, this`overflow, this`first, data
      ensures Valid() && !first
      ensures key.Some? ==>
              Emitted(capacity, old(Written()), old(overflow), old(Lead(key.value)), ok, Written(), overflow)
      ensures key.None? ==> !ok && Abandoned(old(first), old(Written()), old(overflow))
    {
      ghost var before, o, comma := Written(), overflow, if first then "" else ",";
      ghost var rest := if key.Some? then Prefix(key.value) else "\"";
      ok := true;
      if !first {
        ok := Put(',');
      }
      if !ok {
        EmittedStops(capacity, before, o, comma, rest, Written(), overflow);
        return;
      }
      first := false;
      ghost var mid, o1 := Written(), overflow;
      if key.None? {
        var quoted := Put('"');
        EmittedThen(capacity, before, o, comma, mid, o1, rest, quoted, Written(), overflow);
        return false;
      }
      ok := PutKey(key.value);
      EmittedThen(capacity, before, o, comma, mid, o1, rest, ok, Written(), overflow);
    }

    method PutKey(key: Text) returns (ok: bool)
      requires Valid()
      modifies this`position, this`overflow, data
      ensures Valid() && Emitted(capacity, old(Written()), old(overflow), Prefix(key), ok, Written(), overflow)
    {
      ghost var before, o := Written(), overflow;
      ok := Put('"');
      if !ok {
        EmittedStops(capacity, before, o, "\"", key + "\":", Written(), overflow);
        assert "\"" + (key + "\":") == Prefix(key);
        return;
      }
      ghost var w1, o1 := Written(), overflow;
      ok := Append(Some(key));
      EmittedThen(capacity, before, o, "\"", w1, o1, key, ok, Written(), overflow);
      if !ok {
        EmittedStops(capacity, before, o, "\"" + key, "\":", Written(), overflow);
        return;
      }
      ghost var w2, o2 := Written(), overflow;
      ok := Emit("\":");
      EmittedThen(capacity, before, o, "\"" + key, w2, o2, "\":", ok, Written(), overflow);
    }

    method FieldBool(key: Option<Text>, value: bool) returns (ok: bool)
      requires Valid()
      modifies this`position, this`overflow, this`first, data
      ensures Valid() && !first
      ensures key.Some? ==>
              Emitted(capacity, old(Written()), old(overflow), old(Lead(key.value)) + Render(Bool(value)),
                      ok, Written(), overflow)
      ensures key.None? ==> !ok && Abandoned(old(first), old(Written()), old(overflow))
    {
      ghost var before, o, lead := Written(), overflow, if key.Some? then Lead(key.value) else "";
      ok := FieldPrefix(key);
      ghost var mid, o1 := Written(), overflow;
      if !ok {
        if key.Some? {
          EmittedStops(capacity, before, o, lead, Render(Bool(value)), mid, o1);
        }
        return;
      }
      ok := Append(Some(if value then "true" else "false"));
      EmittedThen(capacity, before, o, lead, mid, o1, Render(Bool(value)), ok, Written(), overflow);
    }

    method FieldU32(key: Option<Text>, value: nat) returns (ok: bool)
      requires Valid() && value <= 0xFFFF_FFFF
      modifies this`position, this`overflow, this`first, data
      ensures Valid() && !first
      ensures key.Some? ==>
              Emitted(capacity, old(Written()), old(overflow), old(Lead(key.value)) + Render(Num(value)),
                      ok, Written(), overflow)
      ensures key.None? ==> !ok && Abandoned(old(first), old(Written()), old(overflow))
    {
      ghost var before, o, lead := Written(), overflow, if key.Some? then Lead(key.value) else "";
      ok := FieldPrefix(key);
      ghost var mid, o1 := Written(), overflow;
      if !ok {
        if key.Some? {
          EmittedStops(capacity, before, o, lead, Render(Num(value)), mid, o1);
        }
        return;
      }
      var digits := DigitsLowestFirst(value);
      ok := PutReversed(digits);
      EmittedThen(capacity, before, o, lead, mid, o1, Render(Num(value)), ok, Written(), overflow);
    }

    /** At most ten digits, lowest first. */
    static method DigitsLowestFirst(number: nat) returns (digits: string)
      requires number <= 0xFFFF_FFFF
      ensures Reversed(digits) == Decimal(number)
    {
      var value: nat := number;
      digits := [Digit(value % 10)];
      value := value / 10;
      assert [Digit(number % 10)][1..] == [];
      assert Reversed(digits) == [Digit(number % 10)];
      assert Leading(value) + Reversed(digits) == Decimal(number);
      TenDigits();
      while value != 0 && |digits| < 10
        invariant 1 <= |digits| <= 10
        invariant Leading(value) + Reversed(digits) == Decimal(number)
        invariant value * Pow10(|digits|) <= number
        decreases value
      {
        ReversedSnoc(digits, Digit(value % 10));
        LeadingStep(value);
        DivMul(value, Pow10(|digits|));
        Associate(Leading(value / 10), [Digit(value % 10)], Reversed(digits));
        digits := digits + [Digit(value % 10)];
        value := value / 10;
      }
      NothingLeft(value, |digits|, number);
      assert [] + Reversed(digits) == Reversed(digits);
    }

    method PutReversed(digits: string) returns (ok: bool)
      requires Valid()
      modifies this`position, this`overflow, data
      ensures Valid() && Emitted(capacity, old(Written()), old(overflow), Reversed(digits), ok, Written(), overflow)
    {
      ghost var before, o, text := Written(), overflow, Reversed(digits);
      var count := |digits|;
      while count > 0
        invariant 0 <= count <= |digits| == |text| && Valid()
        invariant Emitted(capacity, before, o, text[..|text| - count], true, Written(), overflow)
      {
        ghost var mid, o1, n := Written(), overflow, |text| - count;
        count := count - 1;
        ReversedAt(digits, count);
        ok := Put(digits[count]);
        EmittedChar(capacity, before, o, text, n, mid, o1, ok, Written(), overflow);
        if !ok {
          return;
        }
      }
      assert text[..|text| - 0] == text;
      ok := true;
    }

    /** A null value is written as the empty string. */
    method FieldString(key: Option<Text>, value: Option<Text>) returns (ok: bool)
      requires Valid()
      modifies this`position, this`overflow, this`first, data
      ensures Valid() && !first
      ensures key.Some? ==>
              var text := if value.None? then "" else value.value;
              Emitted(capacity, old(Written()), old(overflow), old(Lead(key.value)) + Render(Str(text)),
                      ok, Written(), overflow)
      ensures key.None? ==> !ok && Abandoned(old(first), old(Written()), old(overflow))
    {
      var text: Text := if value.None? then "" else value.value;
      ghost var before, o, lead := Written(), overflow, if key.Some? then Lead(key.value) else "";
      ok := FieldPrefix(key);
      ghost var mid, o1 := Written(), overflow;
      if !ok {
        if key.Some? {
          EmittedStops(capacity, before, o, lead, Render(Str(text)), mid, o1);
        }
        return;
      }
      ok := PutQuoted(text);
      EmittedThen(capacity, before, o, lead, mid, o1, Render(Str(text)), ok, Written(), overflow);
    }

    method PutQuoted(text: Text) returns (ok: bool)
      requires Valid()
      modifies this`position, this`overflow, data
      ensures Valid()
      ensures Emitted(capacity, old(Written()), old(overflow), "\"" + Escape(text) + "\"", ok, Written(), overflow)
    {
      ghost var before, o := Written(), overflow;
      ok := Put('"');
      if !ok {
        EmittedStops(capacity, before, o, "\"", Escape(text) + "\"", Written(), overflow);
        Associate("\"", Escape(text), "\"");
        return;
      }
      ghost var w1, o1 := Written(), overflow;
      ok := PutEscaped(text);
      EmittedThen(capacity, before, o, "\"", w1, o1, Escape(text), ok, Written(), overflow);
      if !ok {
        EmittedStops(capacity, before, o, "\"" + Escape(text), "\"", Written(), overflow);
        return;
      }
      ghost var w2, o2 := Written(), overflow;
      ok := Put('"');
      EmittedThen(capacity, before, o, "\"" + Escape(text), w2, o2, "\"", ok, Written(), overflow);
    }

    method PutEscaped(text: Text) returns (ok: bool)
      requires Valid()
      modifies this`position, this`overflow, data
      ensures Valid() && Emitted(capacity, old(Written()), old(overflow), Escape(text), ok, Written(), overflow)
    {
      ghost var before, o := Written(), overflow;
      var index := 0;
      while CharAt(text, index) != '\0'
        invariant 0 <= index <= |text| && Valid()
        invariant Emitted(capacity, before, o, Escape(text[..index]), true, Written(), overflow)
        decreases |text| - index
      {
        ghost var mid, o1 := Written(), overflow;
        EscapeGrows(text, index);
        ok := PutOneEscaped(text[index]);
        EmittedThen(capacity, before, o, Escape(text[..index]), mid, o1, Escape([text[index]]), ok, Written(), overflow);
        if !ok {
          EscapeSplit(text, index + 1);
          EmittedStops(capacity, before, o, Escape(text[..index + 1]), Escape(text[index + 1..]), Written(), overflow);
          return;
        }
        index := index + 1;
      }
      assert text[..index] == text;
      ok := true;
    }

    method PutOneEscaped(c: char) returns (ok: bool)
      requires Valid()
      modifies this`position, this`overflow, data
      ensures Valid() && Emitted(capacity, old(Written()), old(overflow), Escape([c]), ok, Written(), overflow)
    {
      EscapeOne(c);
      ghost var before, o := Written(), overflow;
      if c == '"' || c == '\\' {
        ok := Put('\\');
        if !ok {
          EmittedStops(capacity, before, o, "\\", [c], Written(), overflow);
          return;
        }
        ghost var mid, o1 := Written(), overflow;
        ok := Put(c);
        EmittedThen(capacity, before, o, "\\", mid, o1, [c], ok, Written(), overflow);
      } else {
        ok := Put(c);
      }
    }
  }
}
