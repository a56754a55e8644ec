/**
 * The command dispatcher: parsing, idempotency over the last eight commands, routing, and
 * exactly one response per message.
 */
module Dispatcher {
  import opened Sequences
  import opened Status
  import opened JsonText
  import opened JsonRead
  import opened Json
  import opened Messages
  import opened OfflineQueue

  const WINDOW: nat := 8
  const ID_CAPACITY: nat := 16
  const NAME_CAPACITY: nat := 24
  const HANDLER_CAPACITY: nat := 16

  datatype Request = Request(id: Text, name: Text, value: bool, hasValue: bool)

  datatype Response = Response(status: Status, state: bool)

  // ---------------------------------------------------------------- parsing

  /** A message is a command when it has an id and a name that fit their buffers. */
  function ParseRequest(document: string): Option<Request> {
    var id, name := GetString(document, "id", ID_CAPACITY), GetString(document, "name", NAME_CAPACITY);
    if id.None? || name.None? then None
    else
      var value := GetBool(document, "value");
      Some(Request(TextOf(id.value), TextOf(name.value), value == Some(true), value.Some?))
  }

  /**
   * What a flat object asks for: its first field `id` and its first field `name` must be strings
   * that fit, and its first field `value` counts if it is a boolean.
   */
  function Asked(fs: seq<Field>): Option<Request> {
    var id, name, value := Lookup(fs, "id"), Lookup(fs, "name"), Lookup(fs, "value");
    if id.None? || !id.value.Str? || |id.value.text| >= 16 || name.None? || !name.value.Str? || |name.value.text| >= 24
    then None
    else Some(Request(id.value.text, name.value.text, value == Some(Bool(true)), value.Some? && value.value.Bool?))
  }

  lemma PlainNames()
    ensures Plain("id") && Plain("name") && Plain("value")
  {
  }

  /** A message is understood as its fields say, however it is spaced and in whatever order they come. */
  lemma ParsesSpaced(ss: seq<Spaced>)
    requires PlainKeys(Fields(ss))
    ensures ParseRequest(SpacedDocument(ss)) == Asked(Fields(ss))
  {
    PlainNames();
    ReadsSpaced(ss, "id", ID_CAPACITY);
    ReadsSpaced(ss, "name", NAME_CAPACITY);
    ReadsSpaced(ss, "value", 0);
    ReadIsAsked(SpacedDocument(ss), Fields(ss));
  }

  /** And so is a message that the writer printed. */
  lemma ParsesDocument(fs: seq<Field>)
    requires PlainKeys(fs)
    ensures ParseRequest(Document(fs)) == Asked(fs)
  {
    PlainNames();
    ReadsDocument(fs, "id", ID_CAPACITY);
    ReadsDocument(fs, "name", NAME_CAPACITY);
    ReadsDocument(fs, "value", 0);
    ReadIsAsked(Document(fs), fs);
  }

  lemma ReadIsAsked(d: string, fs: seq<Field>)
    requires ReadAs(d, "id", ID_CAPACITY, Lookup(fs, "id")) && ReadAs(d, "name", NAME_CAPACITY, Lookup(fs, "name"))
    requires ReadAs(d, "value", 0, Lookup(fs, "value"))
    ensures ParseRequest(d) == Asked(fs)
  {
    if Asked(fs).Some? {
      TextOfText(Asked(fs).value.id);
      TextOfText(Asked(fs).value.name);
    }
  }

  lemma TextOfText(t: Text)
    ensures TextOf(t) == t
  {
    TextOfPadded(t, 0);
    assert t + Nuls(0) == t;
  }

  /** The three fields of a command. */
  function CommandFields(id: Text, name: Text, value: Option<bool>): (fs: seq<Field>) {
    [Field("id", Str(id)), Field("name", Str(name))] + if value.None? then [] else [Field("value", Bool(value.value))]
  }

  lemma AskedCommand(id: Text, name: Text, value: Option<bool>)
    ensures PlainKeys(CommandFields(id, name, value))
    ensures Asked(CommandFields(id, name, value)) ==
            if |id| < 16 && |name| < 24 then Some(Request(id, name, value == Some(true), value.Some?)) else None
  {
    var fs := CommandFields(id, name, value);
    assert fs[0].key[0] == 'i' && fs[1].key[0] == 'n' && "value"[0] == 'v';
    assert fs[1..][0] == fs[1] && fs[1..][1..] == fs[2..];
    assert Lookup(fs, "id") == Some(Str(id)) && Lookup(fs, "name") == Lookup(fs[1..], "name") == Some(Str(name));
    assert Lookup(fs, "value") == Lookup(fs[1..], "value") == Lookup(fs[2..], "value");
    if value.Some? {
      assert fs[2..] == [Field("value", Bool(value.value))];
    }
  }

  /** A command is understood exactly as it was meant, unless its id or its name is too long. */
  lemma ParsesCommand(id: Text, name: Text, value: Option<bool>)
    ensures ParseRequest(Document(CommandFields(id, name, value))) ==
            if |id| < 16 && |name| < 24 then Some(Request(id, name, value == Some(true), value.Some?)) else None
  {
    AskedCommand(id, name, value);
    ParsesDocument(CommandFields(id, name, value));
  }

  lemma {:induction false} ScanBounded(t: string, room: nat)
    ensures ScanString(t, room).Some? ==> |ScanString(t, room).value| <= room
    decreases |t|
  {
    if t != [] && t[0] != '"' && room > 0 {
      var skip := if t[0] == '\\' && |t| > 1 then 1 else 0;
      ScanBounded(t[skip + 1..], room - 1);
    }
  }

  lemma IdIsShort(document: string)
    ensures var r := ParseRequest(document); r.Some? ==> |r.value.id| < ID_CAPACITY && |r.value.name| < NAME_CAPACITY
  {
    var i, n := Find(document, "id"), Find(document, "name");
    if i.Some? && n.Some? && i.value != [] && n.value != [] {
      ScanBounded(i.value[1..], ID_CAPACITY - 1);
      ScanBounded(n.value[1..], NAME_CAPACITY - 1);
    }
  }

  // ---------------------------------------------------------------- idempotency

  /** A command that was authorised, and executed if it was allowed and known. */
  datatype Processed = Processed(id: Text, response: Response)

  /** The cached response: that of the latest of the last eight processed commands with the id. */
  function Recall(log: seq<Processed>, id: Text, depth: nat): Option<Response>
    decreases depth
  {
    if depth == 0 || log == [] then None
    else if log[|log| - 1].id == id then Some(log[|log| - 1].response)
    else Recall(log[..|log| - 1], id, depth - 1)
  }

  /** A command, with the response that processing it would give. */
  datatype Command = Command(id: Text, outcome: Response)

  function Answer(log: seq<Processed>, c: Command): Response {
    var r := Recall(log, c.id, WINDOW);
    if r.Some? then r.value else c.outcome
  }

  function Process(log: seq<Processed>, c: Command): seq<Processed> {
    if Recall(log, c.id, WINDOW).Some? then log else log + [Processed(c.id, c.outcome)]
  }

  /** The commands processed in a run, in order. */
  function ProcessAll(run: seq<Command>): seq<Processed> {
    if run == [] then [] else Process(ProcessAll(run[..|run| - 1]), run[|run| - 1])
  }

  /** Any nine consecutive processed commands have different ids. */
  ghost predicate Spaced(log: seq<Processed>) {
    forall i, j :: 0 <= i < j < |log| && j - i <= WINDOW ==> log[i].id != log[j].id
  }

  lemma {:induction false} RecallFinds(log: seq<Processed>, id: Text, depth: nat) returns (i: nat)
    requires Recall(log, id, depth).Some?
    ensures i < |log| && |log| - i <= depth && log[i].id == id && Recall(log, id, depth).value == log[i].response
    ensures forall j :: i < j < |log| ==> log[j].id != id
    decreases depth
  {
    if log[|log| - 1].id == id {
      i := |log| - 1;
    } else {
      i := RecallFinds(log[..|log| - 1], id, depth - 1);
    }
  }

  lemma {:induction false} RecallMisses(log: seq<Processed>, id: Text, depth: nat, i: nat)
    requires Recall(log, id, depth).None? && i < |log| && |log| - i <= depth
    ensures log[i].id != id
    decreases depth
  {
    if i < |log| - 1 {
      RecallMisses(log[..|log| - 1], id, depth - 1, i);
    }
  }

  lemma {:induction false} RunIsSpaced(run: seq<Command>)
    ensures Spaced(ProcessAll(run))
    decreases |run|
  {
    if run != [] {
      var log, c := ProcessAll(run[..|run| - 1]), run[|run| - 1];
      RunIsSpaced(run[..|run| - 1]);
      ProcessKeepsSpaced(log, c);
    }
  }

  lemma ProcessKeepsSpaced(log: seq<Processed>, c: Command)
    requires Spaced(log)
    ensures Spaced(Process(log, c))
  {
    if Recall(log, c.id, WINDOW).None? {
      forall i | 0 <= i < |log| && |log| - i <= WINDOW
        ensures log[i].id != c.id
      {
        RecallMisses(log, c.id, WINDOW, i);
      }
    }
  }

  /**
   * Two executions of the same id in any run have at least eight processed commands in
   * between, and the eight before the second are of mutually different other ids.
   */
  lemma ExecutionsSeparated(run: seq<Command>, i: nat, j: nat)
    requires i < j < |ProcessAll(run)| && ProcessAll(run)[i].id == ProcessAll(run)[j].id
    ensures var log := ProcessAll(run);
            && j - i > 8
            && (forall a :: j - 8 <= a < j ==> log[a].id != log[j].id)
            && (forall a, b :: j - 8 <= a < b < j ==> log[a].id != log[b].id)
  {
    RunIsSpaced(run);
  }

  /** Position `i` is one of the last eight of the log and holds a command with this id. */
  ghost predicate RecentAt(log: seq<Processed>, id: Text, i: nat) {
    i < |log| && |log| - i <= 8 && log[i].id == id
  }

  /** A command is answered from the cache exactly when its id is among the last eight processed. */
  lemma CachedIffRecent(run: seq<Command>, c: Command)
    ensures var log := ProcessAll(run); Process(log, c) == log <==> exists i :: RecentAt(log, c.id, i)
  {
    var log := ProcessAll(run);
    if Recall(log, c.id, WINDOW).Some? {
      var k := RecallFinds(log, c.id, WINDOW);
      assert RecentAt(log, c.id, k);
    } else {
      forall i | 0 <= i < |log| && |log| - i <= WINDOW
        ensures !RecentAt(log, c.id, i)
      {
        RecallMisses(log, c.id, WINDOW, i);
      }
      assert |Process(log, c)| == |log| + 1;
    }
  }

  /** And a repeat within the window gets the response given the first time. */
  lemma RepeatGetsSameAnswer(run: seq<Command>, c: Command, i: nat)
    requires RecentAt(ProcessAll(run), c.id, i)
    ensures Answer(ProcessAll(run), c) == ProcessAll(run)[i].response
  {
    var log := ProcessAll(run);
    RunIsSpaced(run);
    if Recall(log, c.id, WINDOW).None? {
      RecallMisses(log, c.id, WINDOW, i);
    } else {
      var k := RecallFinds(log, c.id, WINDOW);
    }
  }

  // ---------------------------------------------------------------- responses

  function ResponseFields(id: Text, r: Response): seq<Field> {
    [Field("id", Str(id)), Field("status", Num(r.status.Code())), Field("state", Bool(r.state))]
  }

  /** A response never exceeds 66 characters. */
  lemma ResponseFits(id: Text, r: Response)
    requires |id| < ID_CAPACITY
    ensures |Document(ResponseFields(id, r))| <= 66
  {
    var a, b, c := Field("id", Str(id)), Field("status", Num(r.status.Code())), Field("state", Bool(r.state));
    EscapeLength(id);
    assert Pow10(2) == 100;
    DecimalLength(r.status.Code(), 2);
    Stages(a, b, c);
    assert |Prefix(a.key)| == 5 && |Prefix(b.key)| == 9 && |Prefix(c.key)| == 8;
  }

  /** Scanning a response gives back the id, the state, and by its code the one status it was built from. */
  lemma ResponseScansBack(id: Text, r: Response, status: Status)
    requires |id| < ID_CAPACITY
    ensures var d := Document(ResponseFields(id, r));
            && GetString(d, "id", ID_CAPACITY) == Some(id)
            && GetNumber(d, "status") == Some(r.status.Code())
            && (GetNumber(d, "status") == Some(status.Code()) <==> status == r.status)
            && GetBool(d, "state") == Some(r.state)
  {
    var fs := ResponseFields(id, r);
    assert fs[0].key != fs[1].key && fs[0].key[0] == 'i' && fs[1].key[0] == 's';
    assert fs[1].key[4] == 'u' && fs[2].key[4] == 'e' && fs[2].key[0] == 's';
    ReadsWhatWasWritten(fs, 0, ID_CAPACITY);
    ReadsWhatWasWritten(fs, 1, 0);
    ReadsWhatWasWritten(fs, 2, 0);
    CodeTellsStatus(status, r.status.Code());
    CodeTellsStatus(r.status, r.status.Code());
  }

  /** The message is the response to a request: where it goes, how, and what it says. */
  ghost predicate Answers(topics: Topics, m: Envelope, id: Text, r: Response, correlation: nat) {
    && |m.topic| == TOPIC_CAPACITY && TextOf(m.topic) == "asd/v1/" + topics.site + "/" + topics.device + "/" + "cmd/res"
    && m.qos == AtLeastOnce && !m.retain && m.correlation == correlation
    && GetString(m.payload, "id", 16) == Some(id) && GetBool(m.payload, "state") == Some(r.state)
    && forall status: Status :: GetNumber(m.payload, "status") == Some(status.Code()) <==> status == r.status
  }

  lemma ResponseTells(id: Text, r: Response, d: string)
    requires |id| < ID_CAPACITY && d == Document(ResponseFields(id, r))
    ensures GetString(d, "id", 16) == Some(id) && GetBool(d, "state") == Some(r.state)
    ensures forall status: Status :: GetNumber(d, "status") == Some(status.Code()) <==> status == r.status
  {
    forall status: Status
      ensures GetNumber(d, "status") == Some(status.Code()) <==> status == r.status
    {
      ResponseScansBack(id, r, status);
    }
    ResponseScansBack(id, r, r.status);
  }

  lemma ResponseTopic(topics: Topics, topic: string)
    requires topics.Build(CommandResponse, None) == Some(topic)
    ensures CleanTopic(topic) && TextOf(topic) == "asd/v1/" + topics.site + "/" + topics.device + "/" + "cmd/res"
  {
    var name := "asd/v1/" + topics.site + "/" + topics.device + "/" + "cmd/res";
    assert topics.Name(CommandResponse, None) == name + "" == name;
  }

  lemma ResponseMessage(topics: Topics, id: Text, r: Response, correlation: nat) returns (m: Envelope)
    requires |id| < ID_CAPACITY && topics.Build(CommandResponse, None).Some?
    ensures m == Envelope(topics.Build(CommandResponse, None).value, Document(ResponseFields(id, r)), AtLeastOnce,
                          false, correlation)
    ensures Answers(topics, m, id, r, correlation) && Queueable(m) && Replayed(Stored(m)) == m
  {
    var topic, d := topics.Build(CommandResponse, None).value, Document(ResponseFields(id, r));
    m := Envelope(topic, d, AtLeastOnce, false, correlation);
    ResponseFits(id, r);
    ResponseTells(id, r, d);
    ResponseTopic(topics, topic);
    StoreAndReplay(m);
  }

  // ---------------------------------------------------------------- the ports

  /** A call of the authorizer or of the handler of that name, with what it answered. */
  datatype Call = Authorized(request: Request, status: Status) | Handled(name: Text, request: Request, response: Response)

  /**
   * The calls and the response of processing a request: it is authorised first, and goes to
   * its handler exactly if that succeeds and the name is known.
   */
  ghost predicate Executed(known: bool, request: Request, calls: seq<Call>, response: Response) {
    && calls != [] && calls[0].Authorized? && calls[0].request == request
    && if calls[0].status != Ok then |calls| == 1 && response == Response(calls[0].status, false)
       else if !known then |calls| == 1 && response == Response(NotFound, false)
       else calls[1..] == [Handled(request.name, request, response)]
  }

  /** Either nothing is called and the answer is the cached one, or the request is executed and remembered. */
  ghost predicate Resolved(known: bool, request: Request, before: seq<Processed>, after: seq<Processed>,
                           calls: seq<Call>, r: Response)
  {
    && r == Answer(before, Command(request.id, r)) && after == Process(before, Command(request.id, r))
    && if after == before then calls == [] else Executed(known, request, calls, r)
  }

  /** The id a response carries: none if the message is no command. */
  function IdOf(request: Option<Request>): Text {
    if request.None? then "" else request.value.id
  }

  /** A message that is no command is answered as corrupt and changes nothing; a command is resolved. */
  ghost predicate Decided(request: Option<Request>, known: bool, before: seq<Processed>, after: seq<Processed>,
                          calls: seq<Call>, r: Response)
  {
    if request.None? then r == Response(Corrupt, false) && after == before && calls == []
    else Resolved(known, request.value, before, after, calls, r)
  }

  /** The ids that were authorised, or refused, in order. */
  function AuthorizedIds(calls: seq<Call>): seq<Text> {
    if calls == [] then []
    else
      var last := calls[|calls| - 1];
      AuthorizedIds(calls[..|calls| - 1]) + if last.Authorized? then [last.request.id] else []
  }

  function Ids(log: seq<Processed>): (ids: seq<Text>)
    ensures |ids| == |log| && forall i :: 0 <= i < |ids| ==> ids[i] == log[i].id
  {
    seq(|log|, i requires 0 <= i < |log| => log[i].id)
  }

  /** A handler is called right after the authorizer has accepted the same request, by its name. */
  ghost predicate HandledAfterAuthorized(calls: seq<Call>) {
    forall i :: 0 <= i < |calls| && calls[i].Handled? ==>
                  i > 0 && calls[i - 1] == Authorized(calls[i].request, Ok) && calls[i].name == calls[i].request.name
  }

  /** The calls that were made for the commands processed, one authorisation for each. */
  ghost predicate Journaled(calls: seq<Call>, log: seq<Processed>) {
    AuthorizedIds(calls) == Ids(log) && HandledAfterAuthorized(calls)
  }

  /**
   * What the authorizer and the handler are asked about a command, if it is not answered from
   * memory: its own id, name and value; and the handler is the one of that name.
   */
  lemma CommandIsPassedOn(id: Text, name: Text, value: Option<bool>, known: bool, before: seq<Processed>,
                          after: seq<Processed>, calls: seq<Call>, r: Response)
    requires |id| < 16 && |name| < 24
    requires Decided(ParseRequest(Document(CommandFields(id, name, value))), known, before, after, calls, r)
    ensures var request := Request(id, name, value == Some(true), value.Some?);
            if Recall(before, id, WINDOW).Some? then calls == [] && after == before && Recall(before, id, WINDOW) == Some(r)
            else
              && after == before + [Processed(id, r)] && calls != [] && calls[0] == Authorized(request, calls[0].status)
              && (calls[0].status == Ok && known ==> calls[1..] == [Handled(name, request, r)])
              && (calls[0].status != Ok || !known ==> |calls| == 1)
  {
    ParsesCommand(id, name, value);
    assert Recall(before, id, WINDOW).None? ==> |Process(before, Command(id, r))| == |before| + 1;
  }

  predicate StringWithin(v: Option<Value>, n: nat) {
    v.Some? && v.value.Str? && |v.value.text| < n
  }

  /** A message without an id or a name that fits is answered as corrupt, under no id, and nothing is asked. */
  lemma OtherwiseCorrupt(fs: seq<Field>, known: bool, before: seq<Processed>, after: seq<Processed>,
                         calls: seq<Call>, r: Response)
    requires PlainKeys(fs) && Decided(ParseRequest(Document(fs)), known, before, after, calls, r)
    requires !StringWithin(Lookup(fs, "id"), 16) || !StringWithin(Lookup(fs, "name"), 24)
    ensures IdOf(ParseRequest(Document(fs))) == "" && r == Response(Corrupt, false) && calls == [] && after == before
  {
    ParsesDocument(fs);
  }

  lemma {:induction false} AuthorizedIdsConcat(s: seq<Call>, t: seq<Call>)
    ensures AuthorizedIds(s + t) == AuthorizedIds(s) + AuthorizedIds(t)
    decreases |t|
  {
    if t == [] {
      assert s + t == s;
    } else {
      var init, last := t[..|t| - 1], t[|t| - 1];
      assert (s + t)[..|s + t| - 1] == s + init;
      AuthorizedIdsConcat(s, init);
      Associate(AuthorizedIds(s), AuthorizedIds(init), if last.Authorized? then [last.request.id] else []);
    }
  }

  lemma AuthorizedOnce(known: bool, request: Request, calls: seq<Call>, response: Response)
    requires Executed(known, request, calls, response)
    ensures AuthorizedIds(calls) == [request.id]
  {
    assert calls == [calls[0]] + calls[1..];
    AuthorizedIdsConcat([calls[0]], calls[1..]);
    assert [calls[0]][..0] == [] && AuthorizedIds([calls[0]]) == [request.id];
    if calls[1..] != [] {
      assert calls[1..][..0] == [];
    }
    assert AuthorizedIds(calls[1..]) == [];
  }

  /** Processing one more command keeps the journal in step with the log. */
  lemma JournalGrows(calls: seq<Call>, log: seq<Processed>, known: bool, request: Request, more: seq<Call>, r: Response)
    requires Journaled(calls, log) && Executed(known, request, more, r)
    ensures Journaled(calls + more, log + [Processed(request.id, r)])
  {
    AuthorizedIdsConcat(calls, more);
    AuthorizedOnce(known, request, more, r);
    assert Ids(log + [Processed(request.id, r)]) == Ids(log) + [request.id];
    HandledStays(calls, known, request, more, r);
  }

  lemma HandledStays(calls: seq<Call>, known: bool, request: Request, more: seq<Call>, r: Response)
    requires HandledAfterAuthorized(calls) && Executed(known, request, more, r)
    ensures HandledAfterAuthorized(calls + more)
  {
    var all := calls + more;
    forall i | 0 <= i < |all| && all[i].Handled?
      ensures i > 0 && all[i - 1] == Authorized(all[i].request, Ok) && all[i].name == all[i].request.name
    {
      if i >= |calls| {
        assert all[i] == more[i - |calls|] && i - |calls| == 1 && more[1] == more[1..][0];
        assert all[i - 1] == more[0];
      } else {
        assert all[i] == calls[i] && all[i - 1] == calls[i - 1];
      }
    }
  }

  /** The ids end with eight that differ from `id` and from each other. */
  ghost predicate EightOthers(ids: seq<Text>, id: Text) {
    && |ids| >= 8
    && (forall a :: |ids| - 8 <= a < |ids| ==> ids[a] != id)
    && (forall a, b :: |ids| - 8 <= a < b < |ids| ==> ids[a] != ids[b])
  }

  /** Equal ids are more than eight entries apart. */
  lemma SpacedPair(log: seq<Processed>, i: nat, j: nat)
    requires Spaced(log) && i < j < |log|
    ensures Ids(log)[i] == Ids(log)[j] ==> j - i > WINDOW
  {
  }

  lemma PlacedAt(before: seq<Text>, id: Text, between: seq<Text>, rest: seq<Text>, all: seq<Text>)
    requires all == before + [id] + between + [id] + rest
    ensures |before| + 1 + |between| < |all|
    ensures all[|before|] == id && all[|before| + 1 + |between|] == id
    ensures forall a :: 0 <= a < |between| ==> between[a] == all[|before| + 1 + a]
  {
  }

  lemma SpacedIds(log: seq<Processed>, before: seq<Text>, id: Text, between: seq<Text>, rest: seq<Text>)
    requires Spaced(log) && Ids(log) == before + [id] + between + [id] + rest
    ensures EightOthers(between, id)
  {
    var r := |before| + 1;
    var q := r + |between|;
    PlacedAt(before, id, between, rest, Ids(log));
    SpacedPair(log, r - 1, q);
    forall a | |between| - WINDOW <= a < |between|
      ensures between[a] != id
    {
      SpacedPair(log, r + a, q);
    }
    forall a, b | |between| - WINDOW <= a < b < |between|
      ensures between[a] != between[b]
    {
      SpacedPair(log, r + a, r + b);
    }
  }

  /**
   * Between two authorisations of the same id, at least eight others take place, the last
   * eight of them with mutually different other ids.
   */
  lemma AuthorisationsSeparated(calls: seq<Call>, log: seq<Processed>, i: nat, j: nat)
    requires Journaled(calls, log) && Spaced(log) && i < j < |calls|
    requires calls[i].Authorized? && calls[j].Authorized? && calls[i].request.id == calls[j].request.id
    ensures EightOthers(AuthorizedIds(calls[i + 1..j]), calls[i].request.id)
  {
    var id := calls[i].request.id;
    var a, c, e := calls[..i], calls[i + 1..j], calls[j + 1..];
    assert calls == a + [calls[i]] + c + [calls[j]] + e;
    AuthorizedIdsConcat(a + [calls[i]] + c + [calls[j]], e);
    AuthorizedIdsConcat(a + [calls[i]] + c, [calls[j]]);
    AuthorizedIdsConcat(a + [calls[i]], c);
    AuthorizedIdsConcat(a, [calls[i]]);
    assert [calls[i]][..0] == [] && [calls[j]][..0] == [];
    assert AuthorizedIds([calls[i]]) == [id] && AuthorizedIds([calls[j]]) == [id];
    SpacedIds(log, AuthorizedIds(a), id, AuthorizedIds(c), AuthorizedIds(e));
  }

  /** And so between two calls of handlers for the same id. */
  lemma HandlingsSeparated(calls: seq<Call>, log: seq<Processed>, i: nat, j: nat)
    requires Journaled(calls, log) && Spaced(log) && i < j < |calls|
    requires calls[i].Handled? && calls[j].Handled? && calls[i].request.id == calls[j].request.id
    ensures i < j - 1 && EightOthers(AuthorizedIds(calls[i..j - 1]), calls[i].request.id)
  {
    assert calls[i - 1].Authorized? && calls[j - 1].Authorized?;
    AuthorisationsSeparated(calls, log, i - 1, j - 1);
  }

  /** The order in which authorizer and handlers are called. */
  class Journal {
    ghost var calls: seq<Call>

    constructor ()
      ensures calls == []
    {
      calls := [];
    }
  }

  class Authorizer {
    const journal: Journal

    constructor (journal: Journal)
      ensures this.journal == journal
    {
      this.journal := journal;
    }

    method Authorize(request: Request) returns (status: Status)
      modifies journal
      ensures journal.calls == old(journal.calls) + [Authorized(request, status)]
    {
      status := *;
      journal.calls := journal.calls + [Authorized(request, status)];
    }
  }

  class Handler {
    const name: Text
    const journal: Journal

    constructor (name: Text, journal: Journal)
      ensures this.name == name && this.journal == journal
    {
      this.name, this.journal := name, journal;
    }

    method Handle(request: Request) returns (status: Status, state: bool)
      modifies journal
      ensures journal.calls == old(journal.calls) + [Handled(name, request, Response(status, state))]
    {
      status, state := *, *;
      journal.calls := journal.calls + [Handled(name, request, Response(status, state))];
    }
  }

  // ---------------------------------------------------------------- the dispatcher

  datatype CacheEntry = CacheEntry(used: bool, id: Text, response: Response)

  const EMPTY := CacheEntry(false, "", Response(Ok, false))

  /** The slot of the command processed `age` commands ago. */
  function Place(index: nat, age: nat): int {
    if index >= age then index - age else index + WINDOW - age
  }

  /** The eight slots hold the last eight processed commands in ring order. */
  ghost predicate CacheHolds(cache: seq<CacheEntry>, index: nat, log: seq<Processed>) {
    && |cache| == WINDOW && index < WINDOW && Spaced(log)
    && (|log| < WINDOW ==> index == |log|)
    && (forall i :: 0 <= i < WINDOW && i >= |log| ==> !cache[i].used)
    && (forall age :: 1 <= age <= WINDOW && age <= |log| ==>
          cache[Place(index, age)] == CacheEntry(true, log[|log| - age].id, log[|log| - age].response))
  }

  /** A used slot is recalled by its id. */
  lemma CachedIsRecalled(cache: seq<CacheEntry>, index: nat, log: seq<Processed>, i: nat)
    requires CacheHolds(cache, index, log) && i < WINDOW && cache[i].used
    ensures Recall(log, cache[i].id, WINDOW) == Some(cache[i].response)
  {
    var age := if i < index then index - i else index + WINDOW - i;
    assert age <= |log| && Place(index, age) == i;
    var id, at := cache[i].id, |log| - age;
    if Recall(log, id, WINDOW).None? {
      RecallMisses(log, id, WINDOW, at);
    } else {
      var k := RecallFinds(log, id, WINDOW);
    }
  }

  /** An id in no used slot is not recalled. */
  lemma UncachedIsNotRecalled(cache: seq<CacheEntry>, index: nat, log: seq<Processed>, id: Text)
    requires CacheHolds(cache, index, log)
    requires forall i :: 0 <= i < WINDOW ==> !(cache[i].used && cache[i].id == id)
    ensures Recall(log, id, WINDOW) == None
  {
    if Recall(log, id, WINDOW).Some? {
      var k := RecallFinds(log, id, WINDOW);
      var i := Place(index, |log| - k);
    }
  }

  function NextPlace(index: nat): nat {
    if index + 1 == WINDOW then 0 else index + 1
  }

  lemma PlaceRotates(index: nat, age: nat)
    requires index < WINDOW && 1 <= age <= WINDOW
    ensures age == 1 ==> Place(NextPlace(index), age) == index
    ensures age > 1 ==> Place(NextPlace(index), age) == Place(index, age - 1) != index
  {
  }

  lemma CacheRotates(cache: seq<CacheEntry>, index: nat, log: seq<Processed>, id: Text, response: Response)
    requires CacheHolds(cache, index, log) && Recall(log, id, WINDOW).None?
    ensures CacheHolds(cache[index := CacheEntry(true, id, response)], NextPlace(index), log + [Processed(id, response)])
  {
    ProcessKeepsSpaced(log, Command(id, response));
    var after, next := log + [Processed(id, response)], NextPlace(index);
    var slots := cache[index := CacheEntry(true, id, response)];
    forall age | 1 <= age <= WINDOW && age <= |after|
      ensures slots[Place(next, age)] == CacheEntry(true, after[|after| - age].id, after[|after| - age].response)
    {
      PlaceRotates(index, age);
      if age > 1 {
        assert after[|after| - age] == log[|log| - (age - 1)];
      }
    }
  }

  class CommandDispatcher {
    const transport: Transport
    const queue: OfflineQueue
    const authorizer: Authorizer
    const journal: Journal
    const topics: Topics
    const cache: array<CacheEntry>
    var cacheIndex: nat
    var handlers: seq<Handler>

    /** The commands processed so far, and the calls made before. */
    ghost var log: seq<Processed>
    ghost const earlier: seq<Call>

    /** The calls made for these commands. */
    ghost function Calls(): seq<Call>
      requires earlier <= journal.calls
      reads journal
    {
      journal.calls[|earlier|..]
    }

    ghost predicate Valid()
      reads this, cache, queue, queue.ring, queue.ring.entries, journal
    {
      Shaped() && earlier <= journal.calls && Journaled(Calls(), log)
    }

    ghost predicate Shaped()
      reads this, cache, queue, queue.ring, queue.ring.entries
    {
      && queue.Valid() && authorizer.journal == journal
      && (forall i :: 0 <= i < |handlers| ==> handlers[i].journal == journal) && |handlers| <= HANDLER_CAPACITY
      && CacheHolds(cache[..], cacheIndex, log)
    }

    constructor (transport: Transport, queue: OfflineQueue, authorizer: Authorizer, topics: Topics)
      requires queue.Valid()
      ensures Valid() && log == [] && handlers == []
    {
      this.transport, this.queue, this.authorizer, this.topics := transport, queue, authorizer, topics;
      journal := authorizer.journal;
      cache := new CacheEntry[WINDOW](_ => EMPTY);
      cacheIndex, handlers, log := 0, [], [];
      earlier := authorizer.journal.calls;
      new;
      assert cache[..] == seq(WINDOW, _ => EMPTY);
    }

    /** Whatever was received: calls for the same id are separated by eight others. */
    lemma CallsSeparated(i: nat, j: nat)
      requires Valid() && i < j < |Calls()| && Calls()[i].request.id == Calls()[j].request.id
      ensures Calls()[i].Authorized? && Calls()[j].Authorized? ==>
                EightOthers(AuthorizedIds(Calls()[i + 1..j]), Calls()[i].request.id)
      ensures Calls()[i].Handled? && Calls()[j].Handled? ==>
                i < j - 1 && EightOthers(AuthorizedIds(Calls()[i..j - 1]), Calls()[i].request.id)
    {
      if Calls()[i].Authorized? && Calls()[j].Authorized? {
        AuthorisationsSeparated(Calls(), log, i, j);
      }
      if Calls()[i].Handled? && Calls()[j].Handled? {
        HandlingsSeparated(Calls(), log, i, j);
      }
    }

    ghost predicate Known(name: Text)
      reads this
    {
      exists i :: 0 <= i < |handlers| && handlers[i].name == name
    }

    method AddHandler(handler: Handler) returns (status: Status)
      requires Valid() && handler.journal == journal
      modifies this`handlers
      ensures Valid()
      ensures status == if |old(handlers)| >= 16 then NoResources else Ok
      ensures handlers == if status == Ok then old(handlers) + [handler] else old(handlers)
    {
      if |handlers| >= HANDLER_CAPACITY {
        return NoResources;
      }
      handlers := handlers + [handler];
      status := Ok;
    }

    /** The first handler of that name; names that do not fit a request's buffer never match. */
    method FindHandler(name: Text) returns (handler: Handler?)
      requires Shaped() && |name| < NAME_CAPACITY
      ensures handler == null <==> !Known(name)
      ensures handler != null ==> exists i :: 0 <= i < |handlers| && handlers[i] == handler && handler.name == name
                                              && forall j :: 0 <= j < i ==> handlers[j].name != name
    {
      var i := 0;
      while i < |handlers|
        invariant 0 <= i <= |handlers| && forall j :: 0 <= j < i ==> handlers[j].name != name
      {
        if handlers[i].name == name {
          return handlers[i];
        }
        i := i + 1;
      }
      handler := null;
    }

    method FindCached(id: Text) returns (found: bool, response: Response)
      requires Shaped()
      ensures found == Recall(log, id, WINDOW).Some?
      ensures found ==> Some(response) == Recall(log, id, WINDOW)
    {
      response := Response(Ok, false);
      var i := 0;
      while i < WINDOW
        invariant 0 <= i <= WINDOW
        invariant forall j :: 0 <= j < i ==> !(cache[j].used && cache[j].id == id)
      {
        if cache[i].used && cache[i].id == id {
          CachedIsRecalled(cache[..], cacheIndex, log, i);
          return true, cache[i].response;
        }
        i := i + 1;
      }
      UncachedIsNotRecalled(cache[..], cacheIndex, log, id);
      found := false;
    }

    method Cache(id: Text, response: Response)
      requires Shaped() && Recall(log, id, WINDOW).None?
      modifies this`cacheIndex, this`log, cache
      ensures Shaped() && log == old(log) + [Processed(id, response)]
    {
      CacheRotates(cache[..], cacheIndex, log, id, response);
      cache[cacheIndex] := CacheEntry(true, id, response);
      cacheIndex := if cacheIndex + 1 == WINDOW then 0 else cacheIndex + 1;
      log := log + [Processed(id, response)];
    }

    /** One response has been handed over, if its topic fits. */
    ghost predicate Responded(delivered: seq<Envelope>, queued: seq<Queued>, id: Text, r: Response, correlation: nat)
      requires queue.Valid()
      reads transport, queue, queue.ring, queue.ring.entries
    {
      var topic := topics.Build(CommandResponse, None);
      if topic.None? then transport.delivered == delivered && queue.Contents() == queued
      else
        HandedOver(delivered, queued,
                   Envelope(topic.value, Document(ResponseFields(id, r)), AtLeastOnce, false, correlation))
    }

    /**
     * What was handed over answers the request, and it reached the transport, or the end of the
     * queue, or else the queue was full.
     */
    lemma ResponseAnswers(delivered: seq<Envelope>, queued: seq<Queued>, id: Text, r: Response, correlation: nat)
      returns (m: Envelope)
      requires Valid() && |id| < 16 && |topics.Name(CommandResponse, None)| < 96
      requires Responded(delivered, queued, id, r, correlation)
      ensures Queueable(m) && Answers(topics, m, id, r, correlation) && Replayed(Stored(m)) == m
      ensures || (transport.delivered == delivered + [m] && queue.Contents() == queued)
              || (transport.delivered == delivered && queue.Contents() == queued + [Stored(m)])
              || (transport.delivered == delivered && queue.Contents() == queued && |queued| >= queue.ring.entries.Length)
    {
      m := ResponseMessage(topics, id, r, correlation);
    }

    method Respond(id: Text, response: Response, correlation: nat)
      requires Valid() && |id| < ID_CAPACITY
      modifies transport, queue, queue.ring, queue.ring.entries
      ensures Valid()
      ensures Responded(old(transport.delivered), old(queue.Contents()), id, response, correlation)
    {
      var ok, payload := EncodeResponse(id, response);
      if !ok {
        return;
      }
      var topic := topics.Build(CommandResponse, None);
      if topic.None? {
        return;
      }
      HandOver(Envelope(topic.value, payload, AtLeastOnce, false, correlation));
    }

    /** The message went to the transport, or was offered to the queue without dropping others. */
    ghost predicate HandedOver(delivered: seq<Envelope>, queued: seq<Queued>, m: Envelope)
      requires queue.Valid()
      reads transport, queue, queue.ring, queue.ring.entries
    {
      || (transport.delivered == delivered + [m] && queue.Contents() == queued)
      || (transport.delivered == delivered
          && queue.Contents() == EnqueueSpec(queued, queue.ring.entries.Length, m, false).1)
    }

    method HandOver(m: Envelope)
      requires queue.Valid() && |m.topic| == TOPIC_CAPACITY
      modifies transport, queue, queue.ring, queue.ring.entries
      ensures queue.Valid() && HandedOver(old(transport.delivered), old(queue.Contents()), m)
    {
      var connected := transport.IsConnected();
      var status := NotReady;
      if connected {
        status := transport.Publish(m);
      }
      if status != Ok {
        var _ := queue.Enqueue(m, false);
      }
    }

    static method EncodeResponse(id: Text, r: Response) returns (ok: bool, payload: string)
      requires |id| < ID_CAPACITY
      ensures ok && payload == Document(ResponseFields(id, r))
    {
      var buffer := new char[PAYLOAD_CAPACITY](_ => '\0');
      var writer := new JsonWriter(buffer, PAYLOAD_CAPACITY);
      ghost var a, b, c := Field("id", Str(id)), Field("status", Num(r.status.Code())), Field("state", Bool(r.state));
      Stages(a, b, c);
      ResponseFits(id, r);
      ok := writer.BeginObject();
      assert writer.Written() == Opened([]);
      if ok {
        ok := writer.FieldString(Some("id"), Some(id));
        assert writer.Written() == Opened([a]);
      }
      if ok {
        ok := writer.FieldU32(Some("status"), r.status.Code());
        assert writer.Written() == Opened([a, b]);
      }
      if ok {
        ok := writer.FieldBool(Some("state"), r.state);
        assert writer.Written() == Opened([a, b, c]);
      }
      if ok {
        ok := writer.EndObject();
      }
      payload := buffer[..writer.position];
    }

    /** Authorises a command, and routes it if that succeeds. */
    method Execute(request: Request) returns (response: Response, ghost calls: seq<Call>)
      requires Shaped() && |request.name| < NAME_CAPACITY
      modifies journal
      ensures Shaped() && journal.calls == old(journal.calls) + calls
      ensures Executed(Known(request.name), request, calls, response)
    {
      var status := authorizer.Authorize(request);
      response, calls := Response(status, false), [Authorized(request, status)];
      if status == Ok {
        var handler := FindHandler(request.name);
        if handler == null {
          response := Response(NotFound, false);
        } else {
          var state;
          status, state := handler.Handle(request);
          response := Response(status, state);
          calls := calls + [Handled(request.name, request, response)];
        }
      }
    }

    /**
     * One message: a response to it is handed over in any case.  Ports are called only for
     * commands that are not among the last eight processed, and those are remembered.
     */
    method OnMessage(data: array<char>, size: nat, correlation: nat)
      returns (ghost answered: Response, ghost calls: seq<Call>)
      requires Valid() && size <= data.Length
      modifies this`cacheIndex, this`log, cache, journal, transport, queue, queue.ring, queue.ring.entries
      ensures Valid() && journal.calls == old(journal.calls) + calls
      ensures var request := ParseRequest(old(data[..size]));
              && Decided(request, request.Some? && old(Known(request.value.name)), old(log), log, calls, answered)
              && Responded(old(transport.delivered), old(queue.Contents()), IdOf(request), answered, correlation)
    {
      var request := Scan(data, size);
      IdIsShort(data[..size]);
      var response;
      response, calls := Decide(request);
      answered := response;
      Respond(IdOf(request), response, correlation);
    }

    /** What a message that was scanned is answered with. */
    method Decide(request: Option<Request>) returns (response: Response, ghost calls: seq<Call>)
      requires Valid() && (request.Some? ==> |request.value.name| < NAME_CAPACITY)
      modifies this`cacheIndex, this`log, cache, journal
      ensures Valid() && journal.calls == old(journal.calls) + calls
      ensures Decided(request, request.Some? && old(Known(request.value.name)), old(log), log, calls, response)
    {
      if request.None? {
        return Response(Corrupt, false), [];
      }
      response, calls := Resolve(request.value);
    }

    /** The cached response, or that of processing the command now. */
    method Resolve(request: Request) returns (response: Response, ghost calls: seq<Call>)
      requires Valid() && |request.name| < NAME_CAPACITY
      modifies this`cacheIndex, this`log, cache, journal
      ensures Valid() && journal.calls == old(journal.calls) + calls
      ensures Resolved(old(Known(request.name)), request, old(log), log, calls, response)
    {
      calls := [];
      var found;
      found, response := FindCached(request.id);
      if !found {
        ghost var known := Known(request.name);
        ghost var before, was := Calls(), log;
        response, calls := Execute(request);
        assert Calls() == before + calls;
        Cache(request.id, response);
        assert |log| == |was| + 1;
        JournalGrows(before, was, known, request, calls, response);
      }
    }

    static method Scan(data: array<char>, size: nat) returns (request: Option<Request>)
      requires size <= data.Length
      ensures request == ParseRequest(data[..size])
    {
      var scanner := new JsonScanner(data, size);
      var idBuffer := new char[ID_CAPACITY](_ => '\0');
      var nameBuffer := new char[NAME_CAPACITY](_ => '\0');
      var hasId := scanner.GetString(Some("id"), idBuffer, ID_CAPACITY);
      if !hasId {
        return None;
      }
      var hasName := scanner.GetString(Some("name"), nameBuffer, NAME_CAPACITY);
      if !hasName {
        return None;
      }
      var hasValue, value := scanner.GetBool(Some("value"), false);
      BufferText(idBuffer[..], GetString(data[..size], "id", ID_CAPACITY).value);
      BufferText(nameBuffer[..], GetString(data[..size], "name", NAME_CAPACITY).value);
      request := Some(Request(TextOf(idBuffer[..]), TextOf(nameBuffer[..]), value, hasValue));
    }
  }

  /** A terminated copy in a buffer is the same C string. */
  lemma {:induction false} BufferText(buffer: string, s: string)
    requires |s| < |buffer| && buffer[..|s|] == s && buffer[|s|] == '\0'
    ensures TextOf(buffer) == TextOf(s)
    decreases |s|
  {
    if s != [] {
      assert buffer[0] == buffer[..|s|][0] == s[0];
      assert buffer[1..][..|s| - 1] == s[1..];
      BufferText(buffer[1..], s[1..]);
    }
  }
}
