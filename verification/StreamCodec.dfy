/**
 A command on its way through the stream: flattened into the fields of XADD, read back
 inside an XREADGROUP reply, and parsed into the same command. JSON is a parameter: a
 printer and a parser, of which only what the queue relies on is asked.
 */
module StreamCodec {
  import opened Wrappers
  import opened Resp
  import opened RespPrinting

  datatype StreamMessage = StreamMessage(id: string, fields: map<string, string>)
  datatype StreamRead = StreamRead(stream: string, messages: seq<StreamMessage>)

  /** `parse` yields None where JSON.parse throws or gives anything but an object. */
  datatype Json<!P> = Json(stringify: P -> string, parse: string -> Option<P>)

  ghost predicate Lawful<P(!new)>(json: Json<P>) {
    forall p: P :: json.stringify(p) != "" && json.parse(json.stringify(p)) == Some(p)
  }

  datatype CommandRecord<P> = CommandRecord(
    deviceId: string, commandId: string, commandType: string, payload: P, ts: int, expiresAt: int)
  datatype QueuedCommand<P> = QueuedCommand(streamId: string, command: CommandRecord<P>)

  // ---------------------------------------------------------------- reading replies

  predicate AllText(items: seq<Response>) {
    forall i :: 0 <= i < |items| ==> items[i].Text?
  }

  /** Assignment to a field of an object; a text assigned to its prototype is ignored. */
  function Assign(m: map<string, string>, key: string, value: string): map<string, string> {
    if key == "__proto__" then m else m[key := value]
  }

  /** Keys and values alternate; a later pair overrides an earlier one. */
  function FieldMap(items: seq<Response>): map<string, string>
    requires |items| % 2 == 0 && AllText(items)
  {
    if items == [] then map[]
    else Assign(FieldMap(items[..|items| - 2]), items[|items| - 2].text, items[|items| - 1].text)
  }

  method ParseStreamFields(raw: Response) returns (fields: Option<map<string, string>>)
    ensures fields == FieldsOf(raw)
  {
    if !raw.List? || |raw.items| % 2 != 0 { return None; }
    var pairs := raw.items;
    var m: map<string, string> := map[];
    var index := 0;
    while index < |pairs|
      invariant 0 <= index <= |pairs| && index % 2 == 0
      invariant AllText(pairs[..index]) && m == FieldMap(pairs[..index])
    {
      if !pairs[index].Text? || !pairs[index + 1].Text? { return None; }
      assert pairs[..index + 2][..index] == pairs[..index];
      m := Assign(m, pairs[index].text, pairs[index + 1].text);
      index := index + 2;
    }
    assert pairs[..|pairs|] == pairs;
    return Some(m);
  }

  function FieldsOf(raw: Response): Option<map<string, string>> {
    if raw.List? && |raw.items| % 2 == 0 && AllText(raw.items) then Some(FieldMap(raw.items)) else None
  }

  /** An entry needs a non-empty id and well-formed fields, or it is passed over. */
  function MessageOf(entry: Response): Option<StreamMessage> {
    if entry.List? && 2 <= |entry.items| && entry.items[0].Text? && entry.items[0].text != ""
      && FieldsOf(entry.items[1]).Some?
    then Some(StreamMessage(entry.items[0].text, FieldsOf(entry.items[1]).value))
    else None
  }

  function MessagesOf(entries: seq<Response>): seq<StreamMessage> {
    if entries == [] then []
    else MessagesOf(entries[..|entries| - 1])
         + if MessageOf(entries[|entries| - 1]).Some? then [MessageOf(entries[|entries| - 1]).value] else []
  }

  method ParseStreamMessages(raw: Response) returns (messages: seq<StreamMessage>)
    ensures messages == if raw.List? then MessagesOf(raw.items) else []
  {
    messages := [];
    if !raw.List? { return; }
    var i := 0;
    while i < |raw.items|
      invariant 0 <= i <= |raw.items| && messages == MessagesOf(raw.items[..i])
    {
      var entry := raw.items[i];
      assert raw.items[..i + 1][..i] == raw.items[..i];
      i := i + 1;
      if !entry.List? || |entry.items| < 2 { continue; }
      var fields := ParseStreamFields(entry.items[1]);
      if !entry.items[0].Text? || entry.items[0].text == "" || fields.None? { continue; }
      messages := messages + [StreamMessage(entry.items[0].text, fields.value)];
    }
    assert raw.items[..|raw.items|] == raw.items;
  }

  function ReadOf(entry: Response): Option<StreamRead> {
    if entry.List? && 2 <= |entry.items| && entry.items[0].Text? && entry.items[0].text != ""
    then Some(StreamRead(entry.items[0].text, if entry.items[1].List? then MessagesOf(entry.items[1].items) else []))
    else None
  }

  function ReadsOf(entries: seq<Response>): seq<StreamRead> {
    if entries == [] then []
    else ReadsOf(entries[..|entries| - 1])
         + if ReadOf(entries[|entries| - 1]).Some? then [ReadOf(entries[|entries| - 1]).value] else []
  }

  method ParseXreadgroupResponse(raw: Response) returns (result: Option<seq<StreamRead>>)
    ensures result == if raw.List? && ReadsOf(raw.items) != [] then Some(ReadsOf(raw.items)) else None
  {
    if !raw.List? { return None; }
    var streams, i := [], 0;
    while i < |raw.items|
      invariant 0 <= i <= |raw.items| && streams == ReadsOf(raw.items[..i])
    {
      var entry := raw.items[i];
      assert raw.items[..i + 1][..i] == raw.items[..i];
      i := i + 1;
      if !entry.List? || |entry.items| < 2 || !entry.items[0].Text? || entry.items[0].text == "" { continue; }
      var messages := ParseStreamMessages(entry.items[1]);
      streams := streams + [StreamRead(entry.items[0].text, messages)];
    }
    assert raw.items[..|raw.items|] == raw.items;
    return if streams != [] then Some(streams) else None;
  }

  // ---------------------------------------------------------------- commands

  /** The key-value list of XADD, in the order of the object literal. */
  function Flatten<P>(json: Json<P>, c: CommandRecord<P>): seq<string> {
    ["commandId", c.commandId, "commandType", c.commandType, "ts", Decimal(c.ts),
     "expiresAt", Decimal(c.expiresAt), "payload", json.stringify(c.payload)]
  }

  function Field(m: StreamMessage, key: string): string {
    if key in m.fields then m.fields[key] else ""
  }

  function ParseCommandMessage<P>(json: Json<P>, deviceId: string, m: StreamMessage): Option<QueuedCommand<P>> {
    var ts, expiresAt := ParseInt(Field(m, "ts")), ParseInt(Field(m, "expiresAt"));
    if Field(m, "commandId") == "" || Field(m, "commandType") == "" || ts.None? || expiresAt.None?
      || Field(m, "payload") == "" then None
    else
      match json.parse(Field(m, "payload"))
      case None => None
      case Some(payload) =>
        Some(QueuedCommand(m.id, CommandRecord(deviceId, Field(m, "commandId"), Field(m, "commandType"),
                                               payload, ts.value, expiresAt.value)))
  }

  lemma FiveFields(k1: string, v1: string, k2: string, v2: string, k3: string, v3: string,
                   k4: string, v4: string, k5: string, v5: string)
    requires k1 != k2 && k1 != k3 && k1 != k4 && k1 != k5 && k2 != k3 && k2 != k4 && k2 != k5
    requires k3 != k4 && k3 != k5 && k4 != k5 && "__proto__" !in {k1, k2, k3, k4, k5}
    ensures FieldsOf(List(Texts([k1, v1, k2, v2, k3, v3, k4, v4, k5, v5]))) ==
            Some(map[k1 := v1, k2 := v2, k3 := v3, k4 := v4, k5 := v5])
  {
    var items := Texts([k1, v1, k2, v2, k3, v3, k4, v4, k5, v5]);
    assert AllText(items);
    assert items[..8][..6] == items[..6] && items[..6][..4] == items[..4] && items[..4][..2] == items[..2];
    assert FieldMap(items[..2]) == map[k1 := v1];
    assert FieldMap(items[..4]) == map[k1 := v1, k2 := v2];
    assert FieldMap(items[..6]) == map[k1 := v1, k2 := v2, k3 := v3];
    assert FieldMap(items[..8]) == map[k1 := v1, k2 := v2, k3 := v3, k4 := v4];
  }

  // ---------------------------------------------------------------- any number of messages

  function KeyOf(fields: seq<string>, i: nat): string
    requires 2 * i < |fields|
  {
    fields[2 * i]
  }

  /** The i-th pair is the last one with its key. */
  ghost predicate LastPair(fields: seq<string>, i: nat)
    requires |fields| % 2 == 0
  {
    2 * i < |fields| && forall k: nat :: i < k && 2 * k < |fields| ==> KeyOf(fields, k) != KeyOf(fields, i)
  }

  /** The map holds what these alternating keys and values say: the last pair of each key, and
      nothing under a key that no object can have. */
  ghost predicate SaysFields(m: map<string, string>, fields: seq<string>)
    requires |fields| % 2 == 0
  {
    && (forall i: nat :: LastPair(fields, i) && KeyOf(fields, i) != "__proto__" ==>
          KeyOf(fields, i) in m && m[KeyOf(fields, i)] == fields[2 * i + 1])
    && (forall key :: key in m ==>
        key != "__proto__" && exists i: nat :: LastPair(fields, i) && KeyOf(fields, i) == key)
  }

  lemma LastPairBefore(fields: seq<string>, i: nat)
    requires |fields| >= 2 && |fields| % 2 == 0
    ensures var n := |fields| / 2 - 1;
      LastPair(fields, i) <==> i == n || (LastPair(fields[..2 * n], i) && KeyOf(fields, i) != KeyOf(fields, n))
  {
    var n := |fields| / 2 - 1;
    var init := fields[..2 * n];
    assert forall k: nat :: k < n ==> KeyOf(init, k) == KeyOf(fields, k);
  }

  /** One more pair. */
  lemma SaysOneMore(m: map<string, string>, fields: seq<string>)
    requires |fields| >= 2 && |fields| % 2 == 0 && SaysFields(m, fields[..|fields| - 2])
    ensures SaysFields(Assign(m, fields[|fields| - 2], fields[|fields| - 1]), fields)
  {
    hide LastPair;
    var n := |fields| / 2 - 1;
    var init := fields[..2 * n];
    var more := Assign(m, KeyOf(fields, n), fields[2 * n + 1]);
    forall i: nat
      ensures LastPair(fields, i) <==>
              i == n || (LastPair(init, i) && 2 * i < |init| && KeyOf(fields, i) != KeyOf(fields, n))
      ensures LastPair(init, i) ==> 2 * i < |init| && KeyOf(init, i) == KeyOf(fields, i)
    {
      LastPairBefore(fields, i);
      if LastPair(init, i) { LastPairWithin(init, i); }
    }
    assert LastPair(fields, n);
    forall key | key in more && key != KeyOf(fields, n)
      ensures exists i: nat :: LastPair(fields, i) && KeyOf(fields, i) == key
    {
      var i: nat :| LastPair(init, i) && KeyOf(init, i) == key;
      assert LastPair(fields, i) && KeyOf(fields, i) == key;
    }
  }

  lemma LastPairWithin(fields: seq<string>, i: nat)
    requires |fields| % 2 == 0 && LastPair(fields, i)
    ensures 2 * i < |fields|
  {
  }

  lemma {:induction false} FieldMapSays(fields: seq<string>)
    requires |fields| % 2 == 0
    ensures AllText(Texts(fields)) && SaysFields(FieldMap(Texts(fields)), fields)
    decreases |fields|
  {
    hide Assign, LastPair;
    if fields == [] {
      NothingSaid();
    } else {
      hide SaysFields;
      var init := fields[..|fields| - 2];
      FieldMapSays(init);
      assert Texts(fields)[..|fields| - 2] == Texts(init);
      SaysOneMore(FieldMap(Texts(init)), fields);
    }
  }

  lemma NothingSaid()
    ensures SaysFields(map[], [])
  {
  }

  /** An entry of a stream as Redis sends it. */
  function Entry(id: string, fields: seq<string>): Response {
    List([Text(id), List(Texts(fields))])
  }

  function Entries(entries: seq<(string, seq<string>)>): seq<Response> {
    seq(|entries|, i requires 0 <= i < |entries| => Entry(entries[i].0, entries[i].1))
  }

  lemma {:induction false} AllMessages(entries: seq<Response>)
    requires forall i :: 0 <= i < |entries| ==> MessageOf(entries[i]).Some?
    ensures |MessagesOf(entries)| == |entries|
    ensures forall i :: 0 <= i < |entries| ==> MessagesOf(entries)[i] == MessageOf(entries[i]).value
  {
    hide MessageOf;
    if entries != [] {
      var init := entries[..|entries| - 1];
      assert forall i :: 0 <= i < |init| ==> init[i] == entries[i];
      AllMessages(init);
    }
  }

  lemma {:induction false} AllReads(entries: seq<Response>)
    requires forall i :: 0 <= i < |entries| ==> ReadOf(entries[i]).Some?
    ensures |ReadsOf(entries)| == |entries|
    ensures forall i :: 0 <= i < |entries| ==> ReadsOf(entries)[i] == ReadOf(entries[i]).value
  {
    hide ReadOf;
    if entries != [] {
      var init := entries[..|entries| - 1];
      assert forall i :: 0 <= i < |init| ==> init[i] == entries[i];
      AllReads(init);
    }
  }

  predicate IsText(r: Response) {
    r.Text?
  }

  /** What is no message: not a list of two or more, an id that is no text or empty, or fields
      that are not an even number of texts. */
  predicate IllFormed(entry: Response) {
    || !entry.List? || |entry.items| < 2 || !entry.items[0].Text? || entry.items[0].text == ""
    || !entry.items[1].List? || |entry.items[1].items| % 2 == 1
    || exists k :: 0 <= k < |entry.items[1].items| && !IsText(entry.items[1].items[k])
  }

  lemma {:induction false} MessagesAppend(xs: seq<Response>, ys: seq<Response>)
    ensures MessagesOf(xs + ys) == MessagesOf(xs) + MessagesOf(ys)
    decreases |ys|
  {
    hide MessageOf;
    if ys == [] {
      assert xs + ys == xs;
    } else {
      var n := |ys| - 1;
      MessagesAppend(xs, ys[..n]);
      assert (xs + ys)[..|xs| + n] == xs + ys[..n];
    }
  }

  /** What is no message is passed over wherever it stands, and nothing else is. */
  lemma PassedOverIff(before: seq<Response>, entry: Response, after: seq<Response>)
    ensures MessagesOf(before + [entry] + after) == MessagesOf(before + after) <==> IllFormed(entry)
  {
    hide MessagesOf;
    MessagesAppend(before + [entry], after);
    MessagesAppend(before, [entry]);
    MessagesAppend(before, after);
    OneMessage(entry);
    assert MessagesOf(before) + [] == MessagesOf(before);
    if !IllFormed(entry) {
      assert |MessagesOf(before + [entry] + after)| == |MessagesOf(before + after)| + 1;
    }
  }

  /** A stream without a list of entries has no messages; what has no name is no stream. */
  lemma OneRead(entry: Response)
    ensures ReadOf(entry).None? <==>
            !entry.List? || |entry.items| < 2 || !entry.items[0].Text? || entry.items[0].text == ""
    ensures ReadOf(entry).Some? ==>
      ReadOf(entry).value.stream == entry.items[0].text
      && (!entry.items[1].List? ==> ReadOf(entry).value.messages == [])
  {
  }

  lemma OneMessage(entry: Response)
    ensures IllFormed(entry) ==> MessagesOf([entry]) == []
    ensures !IllFormed(entry) ==> |MessagesOf([entry])| == 1
  {
    assert [entry][..0] == [];
    assert !IllFormed(entry) ==> forall k :: 0 <= k < |entry.items[1].items| ==> IsText(entry.items[1].items[k]);
  }

  lemma EntryMessage(id: string, fields: seq<string>)
    requires id != "" && |fields| % 2 == 0
    ensures MessageOf(Entry(id, fields)) == Some(StreamMessage(id, FieldMap(Texts(fields))))
    ensures SaysFields(FieldMap(Texts(fields)), fields)
  {
    FieldMapSays(fields);
  }

  lemma {:induction false} TextsAreProper(fields: seq<string>)
    ensures forall r :: r in Texts(fields) ==> Proper(r)
  {
  }

  lemma EntriesAreProper(entries: seq<(string, seq<string>)>)
    ensures Proper(List(Entries(entries)))
  {
    forall r | r in Entries(entries) ensures Proper(r) {
      var i :| 0 <= i < |entries| && r == Entry(entries[i].0, entries[i].1);
      TextsAreProper(entries[i].1);
      assert Proper(List(Texts(entries[i].1)));
    }
  }

  /** From the text of a reply of any number of entries: each of them, in order, with its id and
      its fields. */
  lemma MessagesInOrder(entries: seq<(string, seq<string>)>, rest: string)
    requires forall i :: 0 <= i < |entries| ==> entries[i].0 != "" && |entries[i].1| % 2 == 0
    ensures var text := Print(WireOf(List(Entries(entries)))); var parsed := Parse(text + rest, 0);
      && parsed.Done? && parsed.next == |text| && parsed.value.List?
      && |MessagesOf(parsed.value.items)| == |entries|
      && forall i :: 0 <= i < |entries| ==>
           MessagesOf(parsed.value.items)[i].id == entries[i].0
           && SaysFields(MessagesOf(parsed.value.items)[i].fields, entries[i].1)
  {
    hide MessageOf, SaysFields, Entry, Proper, Parse, Print, WireOf;
    EntriesAreProper(entries);
    ValueParses(List(Entries(entries)), rest);
    forall i | 0 <= i < |entries|
      ensures MessageOf(Entries(entries)[i]) == Some(StreamMessage(entries[i].0, FieldMap(Texts(entries[i].1))))
      ensures SaysFields(FieldMap(Texts(entries[i].1)), entries[i].1)
    {
      EntryMessage(entries[i].0, entries[i].1);
    }
    AllMessages(Entries(entries));
  }

  function Read(stream: string, entries: seq<(string, seq<string>)>): Response {
    List([Text(stream), List(Entries(entries))])
  }

  function Reads(streams: seq<(string, seq<(string, seq<string>)>)>): seq<Response> {
    seq(|streams|, i requires 0 <= i < |streams| => Read(streams[i].0, streams[i].1))
  }

  lemma ReadsAreProper(streams: seq<(string, seq<(string, seq<string>)>)>)
    ensures Proper(List(Reads(streams)))
  {
    forall r | r in Reads(streams) ensures Proper(r) {
      var i :| 0 <= i < |streams| && r == Read(streams[i].0, streams[i].1);
      EntriesAreProper(streams[i].1);
    }
  }

  /** And of any number of streams, each under its name with its messages. */
  lemma StreamsInOrder(streams: seq<(string, seq<(string, seq<string>)>)>, rest: string)
    requires forall i :: 0 <= i < |streams| ==> streams[i].0 != ""
    ensures var text := Print(WireOf(List(Reads(streams)))); var parsed := Parse(text + rest, 0);
      && parsed.Done? && parsed.next == |text| && parsed.value.List?
      && |ReadsOf(parsed.value.items)| == |streams|
      && forall i :: 0 <= i < |streams| ==>
           ReadsOf(parsed.value.items)[i] == StreamRead(streams[i].0, MessagesOf(Entries(streams[i].1)))
  {
    hide MessagesOf, Entries, Proper, Parse, Print, WireOf;
    ReadsAreProper(streams);
    ValueParses(List(Reads(streams)), rest);
    AllReads(Reads(streams));
  }

  // ---------------------------------------------------------------- commands through a stream

  /** One command as it stands in the stream is read as that command exactly when its id and its
      type are not empty. */
  lemma CommandOfEntry<P(!new)>(json: Json<P>, c: CommandRecord<P>, id: string)
    requires Lawful(json) && id != ""
    ensures var m := MessageOf(Entry(id, Flatten(json, c)));
      m.Some? && (ParseCommandMessage(json, c.deviceId, m.value) == Some(QueuedCommand(id, c))
                  <==> c.commandId != "" && c.commandType != "")
  {
    FiveFields("commandId", c.commandId, "commandType", c.commandType, "ts", Decimal(c.ts),
               "expiresAt", Decimal(c.expiresAt), "payload", json.stringify(c.payload));
    DecimalParses(c.ts);
    DecimalParses(c.expiresAt);
    hide Texts, FieldsOf, ParseInt, Decimal;
  }

  /** Which messages are commands: an id, a type, two times that begin like numbers, and a payload
      that is the JSON of an object, and the command is made of just these. */
  lemma ParsedIff<P>(json: Json<P>, deviceId: string, m: StreamMessage)
    ensures var r := ParseCommandMessage(json, deviceId, m);
      && (r.Some? <==>
            && "commandId" in m.fields && m.fields["commandId"] != ""
            && "commandType" in m.fields && m.fields["commandType"] != ""
            && "ts" in m.fields && ParseInt(m.fields["ts"]).Some?
            && "expiresAt" in m.fields && ParseInt(m.fields["expiresAt"]).Some?
            && "payload" in m.fields && m.fields["payload"] != "" && json.parse(m.fields["payload"]).Some?)
      && (r.Some? ==>
            var command := r.value.command;
            && r.value.streamId == m.id && command.deviceId == deviceId
            && command.commandId == m.fields["commandId"] && command.commandType == m.fields["commandType"]
            && Some(command.ts) == ParseInt(m.fields["ts"])
              && Some(command.expiresAt) == ParseInt(m.fields["expiresAt"])
            && Some(command.payload) == json.parse(m.fields["payload"]))
  {
    NoNumber();
  }

  lemma NoNumber()
    ensures ParseInt("") == None
  {
  }

  function Stored<P>(json: Json<P>, commands: seq<(string, CommandRecord<P>)>): seq<(string, seq<string>)> {
    seq(|commands|, i requires 0 <= i < |commands| => (commands[i].0, Flatten(json, commands[i].1)))
  }

  /** From the bytes Redis sends for any number of queued commands back to those commands, in
      their order: each comes out under its own stream id exactly when its id and its type are
      not empty. */
  lemma CommandsSurviveStream<P(!new)>(json: Json<P>, stream: string, commands: seq<(string, CommandRecord<P>)>,
                                       rest: string)
    requires Lawful(json) && stream != "" && forall i :: 0 <= i < |commands| ==> commands[i].0 != ""
    ensures var text := Print(WireOf(List(Reads([(stream, Stored(json, commands))]))));
      var parsed := Parse(text + rest, 0);
      && parsed.Done? && parsed.next == |text| && parsed.value.List?
      && |ReadsOf(parsed.value.items)| == 1
      && var messages := ReadsOf(parsed.value.items)[0].messages;
         && |messages| == |commands|
         && forall i :: 0 <= i < |commands| ==>
              var (id, c) := commands[i];
              ParseCommandMessage(json, c.deviceId, messages[i]) == Some(QueuedCommand(id, c))
              <==> c.commandId != "" && c.commandType != ""
  {
    hide MessageOf, Entry, Parse, Print, WireOf, Flatten, ParseCommandMessage, Proper, Lawful;
    StreamsInOrder([(stream, Stored(json, commands))], rest);
    var entries := Entries(Stored(json, commands));
    forall i | 0 <= i < |commands|
      ensures MessageOf(entries[i]).Some?
      ensures ParseCommandMessage(json, commands[i].1.deviceId, MessageOf(entries[i]).value)
              == Some(QueuedCommand(commands[i].0, commands[i].1))
              <==> commands[i].1.commandId != "" && commands[i].1.commandType != ""
    {
      CommandOfEntry(json, commands[i].1, commands[i].0);
    }
    AllMessages(entries);
  }
}
