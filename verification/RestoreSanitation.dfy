/**
 Erasing removed content from a restored payload: `_targets_for` and `sanitize_payload` of
 scripts/restore-core-gate.py with the row rewriters `rewrite_core_*`, `verify_core_*` and
 `remove_core_media` of scripts/controlled-copy-retention.py.

 Dump followed by restore is taken as the identity on database contents.
 */
module RestoreSanitation {
  import opened Wrappers
  import opened Sequences

  type Path = string

  // ---- The payload

  datatype Content = Redacted | Body(text: string)

  /** A stored event document; `Unreadable` is JSON that is not an object. */
  datatype Document = Document(room: string, event: string, content: Content, rest: string) | Unreadable

  datatype EventRow = EventRow(room: string, event: string, kind: string)
  datatype JsonRow = JsonRow(room: string, event: string, doc: Document)
  datatype SynapseDb = SynapseDb(events: seq<EventRow>, json: seq<JsonRow>)

  datatype MessageRow = MessageRow(bridge: string, id: string, part: string, body: string)
  datatype ReactionRow = ReactionRow(bridge: string, message: string, part: string, emoji: string)
  datatype BridgeDb = BridgeDb(schemaSupported: bool, messages: seq<MessageRow>, reactions: seq<ReactionRow>)

  datatype Payload = Payload(synapse: SynapseDb, bridges: map<string, BridgeDb>, files: map<Path, string>)

  const MEDIA_PREFIX := "synapse-data/media_store/"

  // ---- Targets

  datatype Row =
    | EventTarget(room: string, event: string, kind: string)
    | PartTarget(bridge: string, message: string, part: string)

  datatype Target = Target(
    database: string,
    resource: string,
    generation: string,
    row: Row,
    media: seq<Path>,
    mediaComplete: bool)

  datatype Authority = Authority(id: string, resource: string, generation: string, targets: seq<Target>)

  /** A target together with the authority that publishes it. */
  datatype Bound = Bound(authorityId: string, target: Target)

  predicate SupportedDatabase(name: string) {
    name == "synapse" || name == "whatsapp_bridge" || name == "messenger_bridge" || name == "telegram_bridge"
  }

  /** The database is known and the row follows its contract. */
  predicate ContractOk(t: Target) {
    SupportedDatabase(t.database) && (t.row.EventTarget? <==> t.database == "synapse")
  }

  predicate TargetOk(a: Authority, t: Target) {
    t.resource == a.resource && t.generation == a.generation && ContractOk(t) && t.mediaComplete
  }

  predicate SameKey(b: Bound, c: Bound) {
    && b.authorityId == c.authorityId && b.target.database == c.target.database
    && b.target.resource == c.target.resource && b.target.generation == c.target.generation
  }

  function Bind(a: Authority): (r: seq<Bound>) {
    seq(|a.targets|, i requires 0 <= i < |a.targets| => Bound(a.id, a.targets[i]))
  }

  function BindAll(authorities: seq<Authority>): (r: seq<Bound>) {
    FlatMap(authorities, Bind)
  }

  ghost predicate AuthorityOk(a: Authority) {
    a.targets != [] && forall i :: 0 <= i < |a.targets| ==> TargetOk(a, a.targets[i])
  }

  ghost predicate DistinctKeys(bound: seq<Bound>) {
    forall i, j :: 0 <= i < j < |bound| ==> !SameKey(bound[i], bound[j])
  }

  /** Adds the targets of one authority, refusing a key already seen. */
  method BindTargets(a: Authority, targets: seq<Bound>) returns (r: Result<seq<Bound>>)
    requires DistinctKeys(targets)
    ensures r.Ok? <==> AuthorityOk(a) && DistinctKeys(targets + Bind(a))
    ensures r.Ok? ==> r.value == targets + Bind(a)
  {
    if a.targets == [] { return Refused("authority has no exact store targets"); }
    var bound := targets;
    for k := 0 to |a.targets|
      invariant bound == targets + Bind(a)[..k]
      invariant forall j :: 0 <= j < k ==> TargetOk(a, a.targets[j])
      invariant DistinctKeys(bound)
    {
      var b := Bound(a.id, a.targets[k]);
      if !TargetOk(a, a.targets[k]) { return Refused("target does not match its authority"); }
      assert (targets + Bind(a))[..|bound| + 1] == bound + [b];
      if exists j :: 0 <= j < |bound| && SameKey(bound[j], b) {
        ghost var j :| 0 <= j < |bound| && SameKey(bound[j], b);
        assert (targets + Bind(a))[j] == bound[j] && (targets + Bind(a))[|bound|] == b;
        return Refused("target is duplicated");
      }
      bound := bound + [b];
    }
    assert Bind(a)[..|a.targets|] == Bind(a);
    return Ok(bound);
  }

  /** The target list of all authorities, in order; every authority must publish some. */
  method TargetsFor(authorities: seq<Authority>) returns (r: Result<seq<Bound>>)
    ensures r.Ok? <==>
              (forall i :: 0 <= i < |authorities| ==> AuthorityOk(authorities[i])) && DistinctKeys(BindAll(authorities))
    ensures r.Ok? ==> r.value == BindAll(authorities)
  {
    var targets: seq<Bound> := [];
    assert authorities[..0] == [];
    for i := 0 to |authorities|
      invariant targets == BindAll(authorities[..i])
      invariant forall j :: 0 <= j < i ==> AuthorityOk(authorities[j])
      invariant DistinctKeys(targets)
    {
      assert authorities[..i + 1][..i] == authorities[..i];
      PrefixOfAll(authorities, i + 1);
      var next := BindTargets(authorities[i], targets);
      if next.Refused? { return next; }
      targets := next.value;
    }
    assert authorities[..|authorities|] == authorities;
    return Ok(targets);
  }

  lemma {:induction false} PrefixOfAll(authorities: seq<Authority>, n: nat)
    requires n <= |authorities|
    ensures BindAll(authorities[..n]) <= BindAll(authorities)
    decreases |authorities|
  {
    if n < |authorities| {
      var shorter := authorities[..|authorities| - 1];
      PrefixOfAll(shorter, n);
      assert shorter[..n] == authorities[..n];
    } else {
      assert authorities[..n] == authorities;
    }
  }

  // ---- Synapse rows

  predicate AtEvent(room: string, event: string, t: Row) {
    t.EventTarget? && t.room == room && t.event == event
  }

  function EventsAt(events: seq<EventRow>, t: Row): (r: seq<EventRow>) {
    if events == [] then []
    else
      var rest := EventsAt(events[..|events| - 1], t);
      var last := events[|events| - 1];
      if AtEvent(last.room, last.event, t) then rest + [last] else rest
  }

  function JsonAt(json: seq<JsonRow>, t: Row): (r: seq<JsonRow>) {
    if json == [] then []
    else
      var rest := JsonAt(json[..|json| - 1], t);
      var last := json[|json| - 1];
      if AtEvent(last.room, last.event, t) then rest + [last] else rest
  }

  /** The join of `events` and `event_json` yields one readable row that is what the target says. */
  predicate EventFound(db: SynapseDb, t: Row)
    requires t.EventTarget?
  {
    && |EventsAt(db.events, t)| == 1 && |JsonAt(db.json, t)| == 1
    && var kind := EventsAt(db.events, t)[0].kind;
       var doc := JsonAt(db.json, t)[0].doc;
       && doc.Document? && doc.room == t.room && doc.event == t.event
       && kind == t.kind && (kind == "m.room.message" || kind == "m.room.encrypted")
  }

  /** The rows at which the target points. */
  ghost predicate EventRowAt(events: seq<EventRow>, i: int, room: string, event: string) {
    0 <= i < |events| && events[i].room == room && events[i].event == event
  }

  ghost predicate JsonRowAt(json: seq<JsonRow>, i: int, room: string, event: string) {
    0 <= i < |json| && json[i].room == room && json[i].event == event
  }

  lemma {:induction false} EventsAtAre(events: seq<EventRow>, t: Row)
    requires t.EventTarget?
    ensures EventsAt(events, t) == [] <==> forall i :: !EventRowAt(events, i, t.room, t.event)
    ensures |EventsAt(events, t)| == 1 <==>
            exists i :: EventRowAt(events, i, t.room, t.event) &&
                        forall j :: EventRowAt(events, j, t.room, t.event) ==> j == i
    ensures forall i :: EventRowAt(events, i, t.room, t.event) && |EventsAt(events, t)| == 1 ==>
              EventsAt(events, t)[0] == events[i]
  {
    if events != [] {
      var n := |events| - 1;
      EventsAtAre(events[..n], t);
      assert EventRowAt(events, n, t.room, t.event) <==> AtEvent(events[n].room, events[n].event, t);
      forall i | i != n
        ensures EventRowAt(events, i, t.room, t.event) <==> EventRowAt(events[..n], i, t.room, t.event)
      {
      }
    }
  }

  lemma {:induction false} JsonAtAre(json: seq<JsonRow>, t: Row)
    requires t.EventTarget?
    ensures JsonAt(json, t) == [] <==> forall i :: !JsonRowAt(json, i, t.room, t.event)
    ensures |JsonAt(json, t)| == 1 <==>
            exists i :: JsonRowAt(json, i, t.room, t.event) &&
                        forall j :: JsonRowAt(json, j, t.room, t.event) ==> j == i
    ensures forall i :: JsonRowAt(json, i, t.room, t.event) && |JsonAt(json, t)| == 1 ==> JsonAt(json, t)[0] == json[i]
  {
    if json != [] {
      var n := |json| - 1;
      JsonAtAre(json[..n], t);
      assert JsonRowAt(json, n, t.room, t.event) <==> AtEvent(json[n].room, json[n].event, t);
      forall i | i != n ensures JsonRowAt(json, i, t.room, t.event) <==> JsonRowAt(json[..n], i, t.room, t.event) {
      }
    }
  }

  /** The target names one event row and one document, which is readable, is that event's and is
      of the kind the target states, a message or an encrypted one. */
  lemma EventFoundIff(db: SynapseDb, t: Row)
    requires t.EventTarget?
    ensures EventFound(db, t) <==>
            && (t.kind == "m.room.message" || t.kind == "m.room.encrypted")
            && (exists i :: EventRowAt(db.events, i, t.room, t.event) && db.events[i].kind == t.kind &&
                            forall j :: EventRowAt(db.events, j, t.room, t.event) ==> j == i)
            && (exists i :: JsonRowAt(db.json, i, t.room, t.event) &&
                            (forall j :: JsonRowAt(db.json, j, t.room, t.event) ==> j == i) &&
                            db.json[i].doc.Document? && db.json[i].doc.room == t.room &&
                            db.json[i].doc.event == t.event)
  {
    EventsAtAre(db.events, t);
    JsonAtAre(db.json, t);
    if EventFound(db, t) {
      var i :| EventRowAt(db.events, i, t.room, t.event);
      var j :| JsonRowAt(db.json, j, t.room, t.event);
    }
  }

  function Redact(doc: Document): (d: Document) {
    if doc.Document? then doc.(content := Redacted) else doc
  }

  predicate Targeted(row: JsonRow, ts: seq<Row>) {
    exists i :: 0 <= i < |ts| && AtEvent(row.room, row.event, ts[i])
  }

  /** Exactly the targeted rows lose their content; every other row is untouched. */
  function RedactRows(json: seq<JsonRow>, ts: seq<Row>): (r: seq<JsonRow>) {
    seq(|json|, i requires 0 <= i < |json| =>
      if Targeted(json[i], ts) then json[i].(doc := Redact(json[i].doc)) else json[i])
  }

  lemma {:induction false} RedactKeepsFound(db: SynapseDb, ts: seq<Row>, t: Row)
    requires t.EventTarget?
    ensures EventFound(db.(json := RedactRows(db.json, ts)), t) <==> EventFound(db, t)
    ensures EventFound(db, t) && t in ts ==>
              JsonAt(RedactRows(db.json, ts), t)[0].doc.content == Redacted
  {
    JsonAtRedacted(db.json, ts, t);
  }

  lemma {:induction false} JsonAtRedacted(json: seq<JsonRow>, ts: seq<Row>, t: Row)
    requires t.EventTarget?
    ensures var rows, after := JsonAt(json, t), JsonAt(RedactRows(json, ts), t);
            && |after| == |rows|
            && forall i :: 0 <= i < |rows| ==>
                 && AtEvent(rows[i].room, rows[i].event, t)
                 && after[i] == if Targeted(rows[i], ts) then rows[i].(doc := Redact(rows[i].doc)) else rows[i]
  {
    if json != [] {
      var n := |json| - 1;
      JsonAtRedacted(json[..n], ts, t);
      assert RedactRows(json, ts)[..n] == RedactRows(json[..n], ts);
    }
  }

  lemma RedactOneMore(json: seq<JsonRow>, ts: seq<Row>, t: Row)
    ensures RedactRows(json, ts + [t]) == RedactRows(RedactRows(json, ts), [t])
  {
    var all := ts + [t];
    var done := RedactRows(json, ts);
    forall i | 0 <= i < |json| ensures RedactRows(json, all)[i] == RedactRows(done, [t])[i] {
      assert Targeted(json[i], all) <==> Targeted(json[i], ts) || AtEvent(json[i].room, json[i].event, t) by {
        assert forall k :: 0 <= k < |ts| ==> all[k] == ts[k];
        assert all[|ts|] == t;
      }
      assert Targeted(done[i], [t]) <==> AtEvent(json[i].room, json[i].event, t) by { assert [t][0] == t; }
    }
  }

  /** The row is the stored document of an event that some target names. */
  ghost predicate IsNamed(row: JsonRow, ts: seq<Row>) {
    exists kind :: EventTarget(row.room, row.event, kind) in ts
  }

  /** Exactly the documents of the named events lose their content, and nothing but it. */
  ghost predicate OnlyContentGone(before: SynapseDb, after: SynapseDb, ts: seq<Row>) {
    && after.events == before.events && |after.json| == |before.json|
    && forall i :: 0 <= i < |before.json| ==>
         && after.json[i].room == before.json[i].room && after.json[i].event == before.json[i].event
         && after.json[i].doc ==
            if IsNamed(before.json[i], ts) && before.json[i].doc.Document? then
              Document(before.json[i].doc.room, before.json[i].doc.event, Redacted, before.json[i].doc.rest)
            else before.json[i].doc
  }

  lemma RedactRemovesContent(db: SynapseDb, ts: seq<Row>)
    ensures OnlyContentGone(db, db.(json := RedactRows(db.json, ts)), ts)
  {
    forall i | 0 <= i < |db.json| ensures Targeted(db.json[i], ts) <==> IsNamed(db.json[i], ts) {
      TargetedIff(db.json[i], ts);
    }
  }

  lemma TargetedIff(row: JsonRow, ts: seq<Row>)
    ensures Targeted(row, ts) <==> IsNamed(row, ts)
  {
    if i :| 0 <= i < |ts| && AtEvent(row.room, row.event, ts[i]) {
      assert ts[i] == EventTarget(row.room, row.event, ts[i].kind);
    }
    if kind :| EventTarget(row.room, row.event, kind) in ts {
      var i :| 0 <= i < |ts| && ts[i] == EventTarget(row.room, row.event, kind);
      assert AtEvent(row.room, row.event, ts[i]);
    }
  }

  /** `rewrite_core_database` then `verify_core_database` on the Synapse dump. */
  method RewriteSynapse(db: SynapseDb, ts: seq<Row>) returns (r: Result<SynapseDb>)
    requires forall i :: 0 <= i < |ts| ==> ts[i].EventTarget?
    ensures r.Ok? <==> forall i :: 0 <= i < |ts| ==> EventFound(db, ts[i])
    ensures r.Ok? ==> r.value == db.(json := RedactRows(db.json, ts)) && OnlyContentGone(db, r.value, ts)
  {
    var current := db;
    assert RedactRows(db.json, []) == db.json;
    assert ts[..0] == [];
    for i := 0 to |ts|
      invariant current == db.(json := RedactRows(db.json, ts[..i]))
      invariant forall j :: 0 <= j < i ==> EventFound(db, ts[j])
    {
      RedactKeepsFound(db, ts[..i], ts[i]);
      if !EventFound(current, ts[i]) { return Refused("event mapping is not unique or does not match"); }
      RedactOneMore(db.json, ts[..i], ts[i]);
      assert ts[..i + 1] == ts[..i] + [ts[i]];
      if JsonAt(current.json, ts[i])[0].doc.content != Redacted {
        current := current.(json := RedactRows(current.json, [ts[i]]));
      } else {
        AlreadyRedacted(current.json, ts[i]);
      }
    }
    assert ts[..|ts|] == ts;
    forall i | 0 <= i < |ts| ensures EventErased(current, ts[i]) { RedactKeepsFound(db, ts, ts[i]); }
    var verified := VerifySynapse(current, ts);
    if !verified { return Refused("dump still contains message content"); }
    RedactRemovesContent(db, ts);
    return Ok(current);
  }

  predicate EventErased(db: SynapseDb, t: Row)
    requires t.EventTarget?
  {
    EventFound(db, t) && JsonAt(db.json, t)[0].doc.content == Redacted
  }

  method VerifySynapse(db: SynapseDb, ts: seq<Row>) returns (ok: bool)
    requires forall i :: 0 <= i < |ts| ==> ts[i].EventTarget?
    ensures ok <==> forall i :: 0 <= i < |ts| ==> EventErased(db, ts[i])
  {
    for i := 0 to |ts|
      invariant forall j :: 0 <= j < i ==> EventErased(db, ts[j])
    {
      if !EventErased(db, ts[i]) { return false; }
    }
    return true;
  }

  lemma {:induction false} AlreadyRedacted(json: seq<JsonRow>, t: Row)
    requires |JsonAt(json, t)| <= 1
    requires forall i :: 0 <= i < |JsonAt(json, t)| ==> JsonAt(json, t)[i].doc == Redact(JsonAt(json, t)[i].doc)
    ensures RedactRows(json, [t]) == json
  {
    if json != [] {
      var n := |json| - 1;
      var rows, shorter := JsonAt(json, t), JsonAt(json[..n], t);
      assert forall i :: 0 <= i < |shorter| ==> shorter[i] == rows[i];
      AlreadyRedacted(json[..n], t);
      assert RedactRows(json, [t])[..n] == RedactRows(json[..n], [t]);
      if Targeted(json[n], [t]) {
        assert rows[|shorter|] == json[n];
      }
      assert json == json[..n] + [json[n]];
      assert RedactRows(json, [t]) == RedactRows(json, [t])[..n] + [RedactRows(json, [t])[n]];
    }
  }

  // ---- Bridge rows

  predicate AtPart(bridge: string, message: string, part: string, t: Row) {
    t.PartTarget? && t.bridge == bridge && t.message == message && t.part == part
  }

  predicate MessageTargeted(m: MessageRow, ts: seq<Row>) {
    exists i :: 0 <= i < |ts| && AtPart(m.bridge, m.id, m.part, ts[i])
  }

  predicate ReactionTargeted(m: ReactionRow, ts: seq<Row>) {
    exists i :: 0 <= i < |ts| && AtPart(m.bridge, m.message, m.part, ts[i])
  }

  /** The rows that survive, in order. */
  function KeepMessages(messages: seq<MessageRow>, ts: seq<Row>): (r: seq<MessageRow>) {
    if messages == [] then []
    else
      var rest := KeepMessages(messages[..|messages| - 1], ts);
      if MessageTargeted(messages[|messages| - 1], ts) then rest else rest + [messages[|messages| - 1]]
  }

  function KeepReactions(reactions: seq<ReactionRow>, ts: seq<Row>): (r: seq<ReactionRow>) {
    if reactions == [] then []
    else
      var rest := KeepReactions(reactions[..|reactions| - 1], ts);
      if ReactionTargeted(reactions[|reactions| - 1], ts) then rest else rest + [reactions[|reactions| - 1]]
  }

  function PartCount(messages: seq<MessageRow>, t: Row): (n: nat) {
    if messages == [] then 0
    else
      var last := messages[|messages| - 1];
      PartCount(messages[..|messages| - 1], t) + if AtPart(last.bridge, last.id, last.part, t) then 1 else 0
  }

  ghost predicate PartRowAt(messages: seq<MessageRow>, i: int, bridge: string, message: string, part: string) {
    && 0 <= i < |messages|
    && messages[i].bridge == bridge && messages[i].id == message && messages[i].part == part
  }

  /** A part that is counted once is stored in one row. */
  lemma {:induction false} PartCountIs(messages: seq<MessageRow>, t: Row)
    requires t.PartTarget?
    ensures PartCount(messages, t) == 0 <==> forall i :: !PartRowAt(messages, i, t.bridge, t.message, t.part)
    ensures PartCount(messages, t) == 1 <==>
            exists i :: PartRowAt(messages, i, t.bridge, t.message, t.part) &&
                        forall j :: PartRowAt(messages, j, t.bridge, t.message, t.part) ==> j == i
  {
    if messages != [] {
      var n := |messages| - 1;
      PartCountIs(messages[..n], t);
      var last := messages[n];
      assert PartRowAt(messages, n, t.bridge, t.message, t.part) <==> AtPart(last.bridge, last.id, last.part, t);
      forall i | i != n ensures PartRowAt(messages, i, t.bridge, t.message, t.part) <==>
                                PartRowAt(messages[..n], i, t.bridge, t.message, t.part) {
      }
    }
  }

  function Erase(db: BridgeDb, ts: seq<Row>): (r: BridgeDb) {
    db.(messages := KeepMessages(db.messages, ts), reactions := KeepReactions(db.reactions, ts))
  }

  lemma {:induction false} CountAfterErase(messages: seq<MessageRow>, ts: seq<Row>, t: Row)
    requires t.PartTarget?
    ensures PartCount(KeepMessages(messages, ts), t) == if t in ts then 0 else PartCount(messages, t)
  {
    if messages != [] {
      var n := |messages| - 1;
      CountAfterErase(messages[..n], ts, t);
      var kept, rest := KeepMessages(messages, ts), KeepMessages(messages[..n], ts);
      if MessageTargeted(messages[n], ts) {
        var i :| 0 <= i < |ts| && AtPart(messages[n].bridge, messages[n].id, messages[n].part, ts[i]);
        assert AtPart(messages[n].bridge, messages[n].id, messages[n].part, t) ==> ts[i] == t;
      } else {
        assert kept[..|kept| - 1] == rest;
      }
    }
  }

  /** Exactly the rows of the named parts are gone, and the reactions to them; every other row is
      there as often as before. */
  ghost predicate OnlyPartsGone(before: BridgeDb, after: BridgeDb, ts: seq<Row>) {
    && after.schemaSupported == before.schemaSupported
    && (forall m: MessageRow :: multiset(after.messages)[m] ==
          if PartTarget(m.bridge, m.id, m.part) in ts then 0 else multiset(before.messages)[m])
    && (forall m: ReactionRow :: multiset(after.reactions)[m] ==
          if PartTarget(m.bridge, m.message, m.part) in ts then 0 else multiset(before.reactions)[m])
  }

  lemma EraseRemovesParts(db: BridgeDb, ts: seq<Row>)
    ensures OnlyPartsGone(db, Erase(db, ts), ts)
  {
    forall m: MessageRow
      ensures multiset(KeepMessages(db.messages, ts))[m] ==
              if PartTarget(m.bridge, m.id, m.part) in ts then 0 else multiset(db.messages)[m]
    {
      KeptMessages(db.messages, ts, m);
    }
    forall m: ReactionRow
      ensures multiset(KeepReactions(db.reactions, ts))[m] ==
              if PartTarget(m.bridge, m.message, m.part) in ts then 0 else multiset(db.reactions)[m]
    {
      KeptReactions(db.reactions, ts, m);
    }
  }

  lemma {:induction false} KeptMessages(messages: seq<MessageRow>, ts: seq<Row>, m: MessageRow)
    ensures multiset(KeepMessages(messages, ts))[m] ==
            if PartTarget(m.bridge, m.id, m.part) in ts then 0 else multiset(messages)[m]
  {
    if messages != [] {
      var n := |messages| - 1;
      KeptMessages(messages[..n], ts, m);
      assert messages == messages[..n] + [messages[n]];
      MessageTargetedIff(m, ts);
    }
  }

  lemma {:induction false} KeptReactions(reactions: seq<ReactionRow>, ts: seq<Row>, m: ReactionRow)
    ensures multiset(KeepReactions(reactions, ts))[m] ==
            if PartTarget(m.bridge, m.message, m.part) in ts then 0 else multiset(reactions)[m]
  {
    if reactions != [] {
      var n := |reactions| - 1;
      KeptReactions(reactions[..n], ts, m);
      assert reactions == reactions[..n] + [reactions[n]];
      ReactionTargetedIff(m, ts);
    }
  }

  lemma MessageTargetedIff(m: MessageRow, ts: seq<Row>)
    ensures MessageTargeted(m, ts) <==> PartTarget(m.bridge, m.id, m.part) in ts
  {
    if i :| 0 <= i < |ts| && AtPart(m.bridge, m.id, m.part, ts[i]) {
      assert ts[i] == PartTarget(m.bridge, m.id, m.part);
    }
    if i :| 0 <= i < |ts| && ts[i] == PartTarget(m.bridge, m.id, m.part) {
      assert AtPart(m.bridge, m.id, m.part, ts[i]);
    }
  }

  lemma ReactionTargetedIff(m: ReactionRow, ts: seq<Row>)
    ensures ReactionTargeted(m, ts) <==> PartTarget(m.bridge, m.message, m.part) in ts
  {
    if i :| 0 <= i < |ts| && AtPart(m.bridge, m.message, m.part, ts[i]) {
      assert ts[i] == PartTarget(m.bridge, m.message, m.part);
    }
    if i :| 0 <= i < |ts| && ts[i] == PartTarget(m.bridge, m.message, m.part) {
      assert AtPart(m.bridge, m.message, m.part, ts[i]);
    }
  }

  lemma {:induction false} EraseOneMore(db: BridgeDb, ts: seq<Row>, t: Row)
    ensures Erase(db, ts + [t]) == Erase(Erase(db, ts), [t])
  {
    KeepMessagesOneMore(db.messages, ts, t);
    KeepReactionsOneMore(db.reactions, ts, t);
  }

  lemma {:induction false} KeepMessagesOneMore(messages: seq<MessageRow>, ts: seq<Row>, t: Row)
    ensures KeepMessages(messages, ts + [t]) == KeepMessages(KeepMessages(messages, ts), [t])
  {
    if messages != [] {
      var n := |messages| - 1;
      var all, last := ts + [t], messages[n];
      KeepMessagesOneMore(messages[..n], ts, t);
      assert MessageTargeted(last, all) <==> MessageTargeted(last, ts) || MessageTargeted(last, [t]) by {
        assert forall k :: 0 <= k < |ts| ==> all[k] == ts[k];
        assert all[|ts|] == t && [t][0] == t;
      }
      var kept, rest := KeepMessages(messages, ts), KeepMessages(messages[..n], ts);
      if !MessageTargeted(last, ts) { assert kept[..|kept| - 1] == rest && kept[|kept| - 1] == last; }
    }
  }

  lemma {:induction false} KeepReactionsOneMore(reactions: seq<ReactionRow>, ts: seq<Row>, t: Row)
    ensures KeepReactions(reactions, ts + [t]) == KeepReactions(KeepReactions(reactions, ts), [t])
  {
    if reactions != [] {
      var n := |reactions| - 1;
      var all, last := ts + [t], reactions[n];
      KeepReactionsOneMore(reactions[..n], ts, t);
      assert ReactionTargeted(last, all) <==> ReactionTargeted(last, ts) || ReactionTargeted(last, [t]) by {
        assert forall k :: 0 <= k < |ts| ==> all[k] == ts[k];
        assert all[|ts|] == t && [t][0] == t;
      }
      var kept, rest := KeepReactions(reactions, ts), KeepReactions(reactions[..n], ts);
      if !ReactionTargeted(last, ts) { assert kept[..|kept| - 1] == rest && kept[|kept| - 1] == last; }
    }
  }

  lemma {:induction false} EraseNothing(db: BridgeDb)
    ensures Erase(db, []) == db
  {
    KeepAllMessages(db.messages);
    KeepAllReactions(db.reactions);
  }

  lemma {:induction false} KeepAllMessages(messages: seq<MessageRow>)
    ensures KeepMessages(messages, []) == messages
  {
    if messages != [] { KeepAllMessages(messages[..|messages| - 1]); }
  }

  lemma {:induction false} KeepAllReactions(reactions: seq<ReactionRow>)
    ensures KeepReactions(reactions, []) == reactions
  {
    if reactions != [] { KeepAllReactions(reactions[..|reactions| - 1]); }
  }

  /** Every target names one stored part, and no part is named twice. */
  ghost predicate BridgeReady(db: BridgeDb, ts: seq<Row>) {
    && (ts != [] ==> db.schemaSupported)
    && (forall i :: 0 <= i < |ts| ==> PartCount(db.messages, ts[i]) == 1)
    && Distinct(ts)
  }

  lemma {:induction false} BridgeReadyStep(db: BridgeDb, ts: seq<Row>, t: Row)
    requires t.PartTarget?
    ensures BridgeReady(db, ts + [t]) <==>
            BridgeReady(db, ts) && db.schemaSupported && PartCount(KeepMessages(db.messages, ts), t) == 1
  {
    CountAfterErase(db.messages, ts, t);
    var all := ts + [t];
    assert all[|ts|] == t;
    assert forall i :: 0 <= i < |ts| ==> all[i] == ts[i];
    if BridgeReady(db, all) { assert t !in ts; }
  }

  /** `rewrite_core_bridge`: one part and its reactions are deleted, and the part is gone. */
  method EraseTarget(db: BridgeDb, t: Row) returns (r: Result<BridgeDb>)
    requires t.PartTarget?
    ensures r.Ok? <==> db.schemaSupported && PartCount(db.messages, t) == 1
    ensures r.Ok? ==> r.value == Erase(db, [t]) && OnlyPartsGone(db, r.value, [t])
  {
    if !db.schemaSupported { return Refused("bridge schema is unsupported"); }
    if PartCount(db.messages, t) != 1 { return Refused("target mapping is not unique"); }
    var erased := Erase(db, [t]);
    EraseRemovesParts(db, [t]);
    CountAfterErase(db.messages, [t], t);
    if PartCount(erased.messages, t) != 0 { return Refused("target row remains after rewrite"); }
    return Ok(erased);
  }

  /** `rewrite_core_database` then `verify_core_database` on one bridge dump. */
  method RewriteBridge(db: BridgeDb, ts: seq<Row>) returns (r: Result<BridgeDb>)
    requires forall i :: 0 <= i < |ts| ==> ts[i].PartTarget?
    ensures r.Ok? <==> BridgeReady(db, ts)
    ensures r.Ok? ==> r.value == Erase(db, ts) && OnlyPartsGone(db, r.value, ts)
  {
    var current := db;
    EraseNothing(db);
    assert ts[..0] == [];
    for i := 0 to |ts|
      invariant current == Erase(db, ts[..i]) && BridgeReady(db, ts[..i])
    {
      assert ts[..i + 1] == ts[..i] + [ts[i]];
      BridgeReadyStep(db, ts[..i], ts[i]);
      EraseOneMore(db, ts[..i], ts[i]);
      var next := EraseTarget(current, ts[i]);
      if next.Refused? {
        if BridgeReady(db, ts) { BridgeReadyPrefix(db, ts, i + 1); }
        return next;
      }
      current := next.value;
    }
    assert ts[..|ts|] == ts;
    forall i | 0 <= i < |ts| ensures PartCount(current.messages, ts[i]) == 0 {
      CountAfterErase(db.messages, ts, ts[i]);
    }
    var verified := VerifyBridge(current, ts);
    if !verified { return Refused("dump still contains target row"); }
    EraseRemovesParts(db, ts);
    return Ok(current);
  }

  lemma BridgeReadyPrefix(db: BridgeDb, ts: seq<Row>, n: nat)
    requires BridgeReady(db, ts) && n <= |ts|
    ensures BridgeReady(db, ts[..n])
  {
  }

  method VerifyBridge(db: BridgeDb, ts: seq<Row>) returns (ok: bool)
    ensures ok <==> forall i :: 0 <= i < |ts| ==> PartCount(db.messages, ts[i]) == 0
  {
    for i := 0 to |ts|
      invariant forall j :: 0 <= j < i ==> PartCount(db.messages, ts[j]) == 0
    {
      if PartCount(db.messages, ts[i]) != 0 { return false; }
    }
    return true;
  }

  // ---- Media

  predicate MediaFile(files: map<Path, string>, path: Path) {
    MEDIA_PREFIX <= path && path in files
  }

  ghost predicate MediaReady(files: map<Path, string>, media: seq<Path>) {
    Distinct(media) && forall i :: 0 <= i < |media| ==> MediaFile(files, media[i])
  }

  ghost function PathSet(paths: seq<Path>): (r: set<Path>) {
    set p | p in paths
  }

  /** `remove_core_media`: unlinks each listed file once. */
  method RemoveMedia(files: map<Path, string>, media: seq<Path>) returns (r: Result<map<Path, string>>)
    ensures r.Ok? <==> MediaReady(files, media)
    ensures r.Ok? <==> Distinct(media) && forall i :: 0 <= i < |media| ==> media[i] in files && MEDIA_PREFIX <= media[i]
    ensures r.Ok? ==> r.value == files - PathSet(media)
  {
    var current := files;
    var seen: set<Path> := {};
    for i := 0 to |media|
      invariant seen == PathSet(media[..i]) && current == files - seen
      invariant MediaReady(files, media[..i])
    {
      assert media[..i + 1] == media[..i] + [media[i]];
      if media[i] in seen { return Refused("media path is duplicated"); }
      seen := seen + {media[i]};
      if !MediaFile(current, media[i]) { return Refused("media path is not an ordinary media file"); }
      current := current - {media[i]};
    }
    assert media[..|media|] == media;
    return Ok(current);
  }

  // ---- The whole payload

  function RowsFor(bound: seq<Bound>, database: string): (r: seq<Row>) {
    FlatMap(bound, (b: Bound) => if b.target.database == database then [b.target.row] else [])
  }

  function MediaOf(bound: seq<Bound>): (r: seq<Path>) {
    FlatMap(bound, (b: Bound) => b.target.media)
  }

  /** All targets can be erased: each names an existing row, no bridge part and no media file
      is named twice. */
  ghost predicate Erasable(p: Payload, bound: seq<Bound>) {
    DatabasesReady(p, bound) && MediaReady(p.files, MediaOf(bound))
  }

  ghost predicate DatabasesReady(p: Payload, bound: seq<Bound>) {
    && SynapseReady(p.synapse, RowsFor(bound, "synapse"))
    && forall name :: BridgeName(name) && RowsFor(bound, name) != [] ==>
         name in p.bridges && BridgeReady(p.bridges[name], RowsFor(bound, name))
  }

  ghost predicate SynapseReady(db: SynapseDb, ts: seq<Row>) {
    forall i :: 0 <= i < |ts| ==> ts[i].EventTarget? && EventFound(db, ts[i])
  }

  predicate BridgeName(name: string) {
    SupportedDatabase(name) && name != "synapse"
  }

  /** The payload with every target erased and everything else as it was. */
  ghost function Sanitized(p: Payload, bound: seq<Bound>): (r: Payload) {
    Payload(
      p.synapse.(json := RedactRows(p.synapse.json, RowsFor(bound, "synapse"))),
      map name | name in p.bridges ::
        if BridgeName(name) then Erase(p.bridges[name], RowsFor(bound, name)) else p.bridges[name],
      p.files - PathSet(MediaOf(bound)))
  }

  lemma RowsForMembers(bound: seq<Bound>, database: string)
    ensures forall r :: r in RowsFor(bound, database) <==>
              exists i :: 0 <= i < |bound| && bound[i].target.database == database && bound[i].target.row == r
  {
    FlatMapMembers(bound, (b: Bound) => if b.target.database == database then [b.target.row] else []);
  }

  lemma MediaOfMembers(bound: seq<Bound>)
    ensures forall m :: m in MediaOf(bound) <==> exists i :: 0 <= i < |bound| && m in bound[i].target.media
  {
    FlatMapMembers(bound, (b: Bound) => b.target.media);
  }

  lemma RowsFollowContract(bound: seq<Bound>, database: string)
    requires forall i :: 0 <= i < |bound| ==> ContractOk(bound[i].target)
    ensures forall i :: 0 <= i < |RowsFor(bound, database)| ==>
              (RowsFor(bound, database)[i].EventTarget? <==> database == "synapse")
  {
    RowsForMembers(bound, database);
    forall i | 0 <= i < |RowsFor(bound, database)|
      ensures RowsFor(bound, database)[i].EventTarget? <==> database == "synapse"
    {
      assert RowsFor(bound, database)[i] in RowsFor(bound, database);
    }
  }

  lemma BoundFollowContract(authorities: seq<Authority>)
    requires forall i :: 0 <= i < |authorities| ==> AuthorityOk(authorities[i])
    ensures forall i :: 0 <= i < |BindAll(authorities)| ==> ContractOk(BindAll(authorities)[i].target)
  {
    var bound := BindAll(authorities);
    FlatMapMembers(authorities, Bind);
    forall i | 0 <= i < |bound| ensures ContractOk(bound[i].target) {
      assert bound[i] in bound;
      var k :| 0 <= k < |authorities| && bound[i] in Bind(authorities[k]);
      var j :| 0 <= j < |Bind(authorities[k])| && Bind(authorities[k])[j] == bound[i];
      assert TargetOk(authorities[k], authorities[k].targets[j]);
    }
  }

  /** The databases named by the targets, in order of first appearance. */
  method DatabasesOf(bound: seq<Bound>) returns (names: seq<string>)
    ensures forall name :: name in names <==> RowsFor(bound, name) != []
    ensures Distinct(names)
  {
    names := [];
    for i := 0 to |bound|
      invariant forall name :: name in names <==> exists j :: 0 <= j < i && bound[j].target.database == name
      invariant Distinct(names)
    {
      if bound[i].target.database !in names { names := names + [bound[i].target.database]; }
    }
    forall name ensures name in names <==> RowsFor(bound, name) != [] {
      RowsForMembers(bound, name);
      if j :| 0 <= j < |bound| && bound[j].target.database == name {
        assert bound[j].target.row in RowsFor(bound, name);
      }
      if RowsFor(bound, name) != [] { assert RowsFor(bound, name)[0] in RowsFor(bound, name); }
    }
  }

  /** `p` with the databases in `names` rewritten. */
  ghost function Rewritten(p: Payload, bound: seq<Bound>, names: seq<string>): (r: Payload) {
    p.(synapse := if "synapse" in names then p.synapse.(json := RedactRows(p.synapse.json, RowsFor(bound, "synapse")))
       else p.synapse,
       bridges := map name | name in p.bridges ::
                    if BridgeName(name) && name in names then Erase(p.bridges[name], RowsFor(bound, name))
                    else p.bridges[name])
  }

  ghost predicate DatabaseReady(p: Payload, bound: seq<Bound>, name: string) {
    if name == "synapse" then SynapseReady(p.synapse, RowsFor(bound, name))
    else name in p.bridges && BridgeReady(p.bridges[name], RowsFor(bound, name))
  }

  /** One database restored, rewritten, verified and put back. */
  method SanitizeDatabase(p: Payload, bound: seq<Bound>, name: string) returns (r: Result<Payload>)
    requires forall i :: 0 <= i < |bound| ==> ContractOk(bound[i].target)
    requires SupportedDatabase(name)
    ensures r.Ok? <==> DatabaseReady(p, bound, name)
    ensures r.Ok? ==> r.value == Rewritten(p, bound, [name])
  {
    var rows := RowsFor(bound, name);
    RowsFollowContract(bound, name);
    if name == "synapse" {
      var rewritten := RewriteSynapse(p.synapse, rows);
      if rewritten.Refused? { return Refused(rewritten.reason); }
      assert p.bridges == Rewritten(p, bound, [name]).bridges;
      return Ok(p.(synapse := rewritten.value));
    }
    if name !in p.bridges { return Refused("target database is absent from layout"); }
    var rewritten := RewriteBridge(p.bridges[name], rows);
    if rewritten.Refused? { return Refused(rewritten.reason); }
    assert p.bridges[name := rewritten.value] == Rewritten(p, bound, [name]).bridges;
    return Ok(p.(bridges := p.bridges[name := rewritten.value]));
  }

  lemma RewrittenStep(p: Payload, bound: seq<Bound>, names: seq<string>, name: string)
    requires name !in names
    ensures DatabaseReady(Rewritten(p, bound, names), bound, name) <==> DatabaseReady(p, bound, name)
    ensures Rewritten(Rewritten(p, bound, names), bound, [name]) == Rewritten(p, bound, names + [name])
  {
    var once, twice := Rewritten(p, bound, names), Rewritten(Rewritten(p, bound, names), bound, [name]);
    var all := Rewritten(p, bound, names + [name]);
    assert forall x :: x in names + [name] <==> x in names || x == name;
    forall x | x in p.bridges ensures twice.bridges[x] == all.bridges[x] {
      assert x in [name] <==> x == name;
    }
    assert twice.bridges == all.bridges;
  }

  /** All named databases rewritten and the media removed is the sanitized payload. */
  lemma AllRewritten(p: Payload, bound: seq<Bound>, names: seq<string>)
    requires forall name :: name in names <==> RowsFor(bound, name) != []
    ensures Rewritten(p, bound, names).(files := p.files - PathSet(MediaOf(bound))) == Sanitized(p, bound)
  {
    var done, goal := Rewritten(p, bound, names), Sanitized(p, bound);
    assert RedactRows(p.synapse.json, []) == p.synapse.json;
    forall name | name in p.bridges ensures done.bridges[name] == goal.bridges[name] {
      EraseNothing(p.bridges[name]);
    }
    assert done.bridges == goal.bridges;
  }

  method MediaPresent(files: map<Path, string>, media: seq<Path>) returns (ok: bool)
    ensures ok <==> forall i :: 0 <= i < |media| ==> MediaFile(files, media[i])
  {
    for i := 0 to |media|
      invariant forall j :: 0 <= j < i ==> MediaFile(files, media[j])
    {
      if !MediaFile(files, media[i]) { return false; }
    }
    return true;
  }

  ghost predicate CanSanitize(p: Payload, authorities: seq<Authority>) {
    && (forall i :: 0 <= i < |authorities| ==> AuthorityOk(authorities[i]))
    && DistinctKeys(BindAll(authorities))
    && Erasable(p, BindAll(authorities))
  }

  method SanitizePayload(p: Payload, authorities: seq<Authority>) returns (r: Result<Payload>)
    ensures r.Ok? <==> CanSanitize(p, authorities)
    ensures r.Ok? ==> r.value == Sanitized(p, BindAll(authorities))
  {
    var targets := TargetsFor(authorities);
    if targets.Refused? { return Refused(targets.reason); }
    var bound := targets.value;
    BoundFollowContract(authorities);
    var present := MediaPresent(p.files, MediaOf(bound));
    if !present { return Refused("target media mapping is incomplete"); }
    var databases := SanitizeDatabases(p, bound);
    if databases.Refused? { return databases; }
    var files := RemoveMedia(p.files, MediaOf(bound));
    if files.Refused? { return Refused(files.reason); }
    return Ok(databases.value.(files := files.value));
  }

  /** Every database that a target names, in order of first appearance. */
  method SanitizeDatabases(p: Payload, bound: seq<Bound>) returns (r: Result<Payload>)
    requires forall i :: 0 <= i < |bound| ==> ContractOk(bound[i].target)
    ensures r.Ok? <==> DatabasesReady(p, bound)
    ensures r.Ok? ==> r.value.(files := p.files - PathSet(MediaOf(bound))) == Sanitized(p, bound)
    ensures r.Ok? ==> r.value.files == p.files
  {
    var names := DatabasesOf(bound);
    SupportedNames(bound, names);
    ReadyByName(p, bound, names);
    r := RewriteNamed(p, bound, names);
    if r.Ok? { AllRewritten(p, bound, names); }
  }

  /** The named databases, one after the other. */
  method RewriteNamed(p: Payload, bound: seq<Bound>, names: seq<string>) returns (r: Result<Payload>)
    requires forall i :: 0 <= i < |bound| ==> ContractOk(bound[i].target)
    requires Distinct(names) && forall name :: name in names ==> SupportedDatabase(name)
    ensures r.Ok? <==> forall i :: 0 <= i < |names| ==> DatabaseReady(p, bound, names[i])
    ensures r.Ok? ==> r.value == Rewritten(p, bound, names)
  {
    var current := p;
    for i := 0 to |names|
      invariant current == InTurn(p, bound, names[..i])
      invariant forall j :: 0 <= j < i ==> DatabaseReady(p, bound, names[j])
    {
      NextReady(p, bound, names, i);
      var next := SanitizeDatabase(current, bound, names[i]);
      if next.Refused? { return next; }
      assert names[..i + 1][..i] == names[..i];
      current := next.value;
    }
    assert names[..|names|] == names;
    InTurnIsRewritten(p, bound, names, |names|);
    return Ok(current);
  }

  /** The databases rewritten one after the other. */
  ghost function InTurn(p: Payload, bound: seq<Bound>, names: seq<string>): (r: Payload) {
    if names == [] then p else Rewritten(InTurn(p, bound, names[..|names| - 1]), bound, [names[|names| - 1]])
  }

  lemma {:induction false} InTurnIsRewritten(p: Payload, bound: seq<Bound>, names: seq<string>, i: nat)
    requires Distinct(names) && i <= |names|
    ensures InTurn(p, bound, names[..i]) == Rewritten(p, bound, names[..i])
  {
    if i == 0 {
      NothingRewritten(p, bound);
      assert names[..0] == [];
    } else {
      InTurnIsRewritten(p, bound, names, i - 1);
      NextRewritten(p, bound, names, i - 1);
      assert names[..i][..i - 1] == names[..i - 1];
    }
  }

  lemma NextReady(p: Payload, bound: seq<Bound>, names: seq<string>, i: nat)
    requires Distinct(names) && i < |names|
    ensures names[i] in names
    ensures DatabaseReady(InTurn(p, bound, names[..i]), bound, names[i]) <==> DatabaseReady(p, bound, names[i])
  {
    InTurnIsRewritten(p, bound, names, i);
    NextRewritten(p, bound, names, i);
  }

  lemma NothingRewritten(p: Payload, bound: seq<Bound>)
    ensures Rewritten(p, bound, []) == p
  {
    assert Rewritten(p, bound, []).bridges == p.bridges;
  }

  lemma NextRewritten(p: Payload, bound: seq<Bound>, names: seq<string>, i: nat)
    requires Distinct(names) && i < |names|
    ensures names[i] in names
    ensures DatabaseReady(Rewritten(p, bound, names[..i]), bound, names[i]) <==> DatabaseReady(p, bound, names[i])
    ensures Rewritten(Rewritten(p, bound, names[..i]), bound, [names[i]]) == Rewritten(p, bound, names[..i + 1])
  {
    assert names[i] !in names[..i];
    RewrittenStep(p, bound, names[..i], names[i]);
    assert names[..i + 1] == names[..i] + [names[i]];
  }

  lemma ReadyByName(p: Payload, bound: seq<Bound>, names: seq<string>)
    requires forall name :: name in names <==> RowsFor(bound, name) != []
    requires forall name :: name in names ==> SupportedDatabase(name)
    ensures DatabasesReady(p, bound) <==> forall i :: 0 <= i < |names| ==> DatabaseReady(p, bound, names[i])
  {
    if DatabasesReady(p, bound) {
      forall i | 0 <= i < |names| ensures DatabaseReady(p, bound, names[i]) { assert names[i] in names; }
    }
    if forall i :: 0 <= i < |names| ==> DatabaseReady(p, bound, names[i]) {
      forall name | RowsFor(bound, name) != [] ensures DatabaseReady(p, bound, name) { assert name in names; }
    }
  }

  lemma SupportedNames(bound: seq<Bound>, names: seq<string>)
    requires forall i :: 0 <= i < |bound| ==> ContractOk(bound[i].target)
    requires forall name :: name in names <==> RowsFor(bound, name) != []
    ensures forall name :: name in names ==> SupportedDatabase(name)
  {
    forall name | name in names ensures SupportedDatabase(name) {
      RowsForMembers(bound, name);
      assert RowsFor(bound, name)[0] in RowsFor(bound, name);
    }
  }

  // ---- What sanitation achieves

  /** The target's content is gone from the payload. */
  ghost predicate Erased(p: Payload, t: Target) {
    && (forall i :: 0 <= i < |t.media| ==> t.media[i] !in p.files)
    && match t.row
       case EventTarget(room, event, _) =>
         EventErased(p.synapse, t.row)
       case PartTarget(bridge, message, part) =>
         && t.database in p.bridges
         && (forall m :: m in p.bridges[t.database].messages ==> !AtPart(m.bridge, m.id, m.part, t.row))
         && (forall m :: m in p.bridges[t.database].reactions ==> !AtPart(m.bridge, m.message, m.part, t.row))
  }

  /** Every target of every authority is erased. */
  lemma SanitizedErases(p: Payload, authorities: seq<Authority>, k: nat, i: nat)
    requires CanSanitize(p, authorities)
    requires k < |authorities| && i < |authorities[k].targets|
    ensures Erased(Sanitized(p, BindAll(authorities)), authorities[k].targets[i])
  {
    var a, t := authorities[k], authorities[k].targets[i];
    var bound := BindAll(authorities);
    FlatMapMembers(authorities, Bind);
    assert Bind(a)[i] in Bind(a);
    assert Bound(a.id, t) in bound;
    var j :| 0 <= j < |bound| && bound[j] == Bound(a.id, t);
    assert TargetOk(a, t);
    MediaOfMembers(bound);
    RowsForMembers(bound, t.database);
    assert t.row in RowsFor(bound, t.database);
    RowErased(p, bound, t);
  }

  lemma RowErased(p: Payload, bound: seq<Bound>, t: Target)
    requires Erasable(p, bound) && ContractOk(t) && t.row in RowsFor(bound, t.database)
    requires forall i :: 0 <= i < |t.media| ==> t.media[i] in MediaOf(bound)
    ensures Erased(Sanitized(p, bound), t)
  {
    var rows := RowsFor(bound, t.database);
    var j :| 0 <= j < |rows| && rows[j] == t.row;
    if t.row.EventTarget? {
      assert EventFound(p.synapse, rows[j]);
      RedactKeepsFound(p.synapse, rows, t.row);
    } else {
      var db := p.bridges[t.database];
      forall m | m in KeepMessages(db.messages, rows) ensures !AtPart(m.bridge, m.id, m.part, t.row) {
        KeptMessages(db.messages, rows, m);
        assert m in multiset(KeepMessages(db.messages, rows));
      }
      forall m | m in KeepReactions(db.reactions, rows) ensures !AtPart(m.bridge, m.message, m.part, t.row) {
        KeptReactions(db.reactions, rows, m);
        assert m in multiset(KeepReactions(db.reactions, rows));
      }
    }
  }

  /** The database has a target with this row. */
  ghost predicate TargetAt(bound: seq<Bound>, database: string, row: Row) {
    exists i :: 0 <= i < |bound| && bound[i].target.database == database && bound[i].target.row == row
  }

  /** Nothing else changes.  In each bridge database a row is gone if a target of that database
      names exactly its bridge, message and part, and is there as often as before otherwise; in
      the Synapse database exactly the documents of targeted events lose their content; the files
      that are gone are the media of the targets. */
  lemma SanitizedKeepsTheRest(p: Payload, bound: seq<Bound>)
    ensures var r := Sanitized(p, bound);
            && OnlyContentGone(p.synapse, r.synapse, RowsFor(bound, "synapse"))
            && (forall row :: row in RowsFor(bound, "synapse") <==> TargetAt(bound, "synapse", row))
            && r.bridges.Keys == p.bridges.Keys
            && (forall name :: name in p.bridges && !BridgeName(name) ==> r.bridges[name] == p.bridges[name])
            && (forall name, m: MessageRow :: name in p.bridges && BridgeName(name) ==>
                  multiset(r.bridges[name].messages)[m] ==
                  if TargetAt(bound, name, PartTarget(m.bridge, m.id, m.part)) then 0
                  else multiset(p.bridges[name].messages)[m])
            && (forall name, m: ReactionRow :: name in p.bridges && BridgeName(name) ==>
                  multiset(r.bridges[name].reactions)[m] ==
                  if TargetAt(bound, name, PartTarget(m.bridge, m.message, m.part)) then 0
                  else multiset(p.bridges[name].reactions)[m])
            && (forall f :: f in r.files <==>
                  f in p.files && forall i :: 0 <= i < |bound| ==> f !in bound[i].target.media)
            && (forall f :: f in r.files ==> r.files[f] == p.files[f])
  {
    var r := Sanitized(p, bound);
    RedactRemovesContent(p.synapse, RowsFor(bound, "synapse"));
    RowsForMembers(bound, "synapse");
    MediaOfMembers(bound);
    forall name | name in p.bridges && BridgeName(name)
      ensures OnlyPartsGone(p.bridges[name], r.bridges[name], RowsFor(bound, name))
      ensures forall row :: row in RowsFor(bound, name) <==> TargetAt(bound, name, row)
    {
      EraseRemovesParts(p.bridges[name], RowsFor(bound, name));
      RowsForMembers(bound, name);
    }
  }

  /** What a payload and its authorities must be for sanitation to succeed, target by target: the
      target carries its authority's lineage, lies in a supported database, names a row of that
      database's kind and its media are fully located. */
  lemma TargetOkIff(a: Authority, t: Target)
    ensures TargetOk(a, t) <==>
            && t.resource == a.resource && t.generation == a.generation && t.mediaComplete
            && if t.row.EventTarget? then t.database == "synapse"
               else t.database in {"whatsapp_bridge", "messenger_bridge", "telegram_bridge"}
  {
  }

  // ---- Order of authorities

  ghost predicate Permuted<T>(xs: seq<T>, ys: seq<T>) {
    multiset(xs) == multiset(ys)
  }

  lemma RowsForPermuted(b: seq<Bound>, c: seq<Bound>, name: string)
    requires Permuted(b, c)
    ensures Permuted(RowsFor(b, name), RowsFor(c, name))
  {
    FlatMapPermuted(b, c, (x: Bound) => if x.target.database == name then [x.target.row] else []);
  }

  lemma MediaOfPermuted(b: seq<Bound>, c: seq<Bound>)
    requires Permuted(b, c)
    ensures Permuted(MediaOf(b), MediaOf(c))
  {
    FlatMapPermuted(b, c, (x: Bound) => x.target.media);
  }

  /** The effect on rows depends only on which targets there are. */
  lemma {:induction false} EraseSameTargets(db: BridgeDb, ts: seq<Row>, us: seq<Row>)
    requires forall t :: t in ts <==> t in us
    ensures Erase(db, ts) == Erase(db, us)
  {
    KeepMessagesSame(db.messages, ts, us);
    KeepReactionsSame(db.reactions, ts, us);
  }

  lemma {:induction false} KeepMessagesSame(messages: seq<MessageRow>, ts: seq<Row>, us: seq<Row>)
    requires forall t :: t in ts <==> t in us
    ensures KeepMessages(messages, ts) == KeepMessages(messages, us)
  {
    if messages != [] {
      var n := |messages| - 1;
      KeepMessagesSame(messages[..n], ts, us);
      assert forall i :: 0 <= i < |ts| ==> ts[i] in us;
      assert forall i :: 0 <= i < |us| ==> us[i] in ts;
    }
  }

  lemma {:induction false} KeepReactionsSame(reactions: seq<ReactionRow>, ts: seq<Row>, us: seq<Row>)
    requires forall t :: t in ts <==> t in us
    ensures KeepReactions(reactions, ts) == KeepReactions(reactions, us)
  {
    if reactions != [] {
      var n := |reactions| - 1;
      KeepReactionsSame(reactions[..n], ts, us);
      assert forall i :: 0 <= i < |ts| ==> ts[i] in us;
      assert forall i :: 0 <= i < |us| ==> us[i] in ts;
    }
  }

  lemma RedactSameTargets(json: seq<JsonRow>, ts: seq<Row>, us: seq<Row>)
    requires forall t :: t in ts <==> t in us
    ensures RedactRows(json, ts) == RedactRows(json, us)
  {
    assert forall i :: 0 <= i < |ts| ==> ts[i] in us;
    assert forall i :: 0 <= i < |us| ==> us[i] in ts;
    forall i | 0 <= i < |json| ensures Targeted(json[i], ts) <==> Targeted(json[i], us) {
    }
  }

  lemma SanitizedPermuted(p: Payload, b: seq<Bound>, c: seq<Bound>)
    requires Permuted(b, c)
    ensures Sanitized(p, b) == Sanitized(p, c)
  {
    RowsForPermuted(b, c, "synapse");
    PermutationMembers(RowsFor(b, "synapse"), RowsFor(c, "synapse"));
    RedactSameTargets(p.synapse.json, RowsFor(b, "synapse"), RowsFor(c, "synapse"));
    MediaOfPermuted(b, c);
    PermutationMembers(MediaOf(b), MediaOf(c));
    assert PathSet(MediaOf(b)) == PathSet(MediaOf(c));
    forall name | name in p.bridges ensures Sanitized(p, b).bridges[name] == Sanitized(p, c).bridges[name] {
      RowsForPermuted(b, c, name);
      PermutationMembers(RowsFor(b, name), RowsFor(c, name));
      EraseSameTargets(p.bridges[name], RowsFor(b, name), RowsFor(c, name));
    }
    assert Sanitized(p, b).bridges == Sanitized(p, c).bridges;
  }

  lemma BridgeReadyPermuted(db: BridgeDb, ts: seq<Row>, us: seq<Row>)
    requires Permuted(ts, us) && BridgeReady(db, ts)
    ensures BridgeReady(db, us)
  {
    PermutationMembers(ts, us);
    PermutationLength(ts, us);
    DistinctPermuted(ts, us);
    forall i | 0 <= i < |us| ensures PartCount(db.messages, us[i]) == 1 { assert us[i] in ts; }
  }

  lemma ErasablePermuted(p: Payload, b: seq<Bound>, c: seq<Bound>)
    requires Permuted(b, c) && Erasable(p, b)
    ensures Erasable(p, c)
  {
    RowsForPermuted(b, c, "synapse");
    var ts, us := RowsFor(b, "synapse"), RowsFor(c, "synapse");
    PermutationMembers(ts, us);
    forall i | 0 <= i < |us| ensures us[i].EventTarget? && EventFound(p.synapse, us[i]) { assert us[i] in ts; }
    forall name | BridgeName(name) && RowsFor(c, name) != []
      ensures name in p.bridges && BridgeReady(p.bridges[name], RowsFor(c, name))
    {
      RowsForPermuted(b, c, name);
      PermutationLength(RowsFor(b, name), RowsFor(c, name));
      BridgeReadyPermuted(p.bridges[name], RowsFor(b, name), RowsFor(c, name));
    }
    MediaOfPermuted(b, c);
    PermutationMembers(MediaOf(b), MediaOf(c));
    DistinctPermuted(MediaOf(b), MediaOf(c));
    forall i | 0 <= i < |MediaOf(c)| ensures MediaFile(p.files, MediaOf(c)[i]) { assert MediaOf(c)[i] in MediaOf(b); }
  }

  function KeyOf(b: Bound): (k: (string, string, string, string)) {
    (b.authorityId, b.target.database, b.target.resource, b.target.generation)
  }

  lemma DistinctKeysPermuted(b: seq<Bound>, c: seq<Bound>)
    requires Permuted(b, c) && DistinctKeys(b)
    ensures DistinctKeys(c)
  {
    var keys := (x: Bound) => [KeyOf(x)];
    FlatMapPermuted(b, c, keys);
    KeysInOrder(b);
    KeysInOrder(c);
    DistinctPermuted(FlatMap(b, keys), FlatMap(c, keys));
  }

  lemma {:induction false} KeysInOrder(b: seq<Bound>)
    ensures var keys := FlatMap(b, (x: Bound) => [KeyOf(x)]);
            && |keys| == |b| && (forall i :: 0 <= i < |b| ==> keys[i] == KeyOf(b[i]))
            && (Distinct(keys) <==> DistinctKeys(b))
  {
    if b != [] { KeysInOrder(b[..|b| - 1]); }
  }

  /** The order in which authorities are processed decides neither whether sanitation
      succeeds nor what it produces. */
  lemma AuthorityOrderIrrelevant(p: Payload, a: seq<Authority>, b: seq<Authority>)
    requires Permuted(a, b)
    ensures CanSanitize(p, a) <==> CanSanitize(p, b)
    ensures Sanitized(p, BindAll(a)) == Sanitized(p, BindAll(b))
  {
    FlatMapPermuted(a, b, Bind);
    SanitizedPermuted(p, BindAll(a), BindAll(b));
    if CanSanitize(p, a) { CanSanitizePermuted(p, a, b); }
    if CanSanitize(p, b) { CanSanitizePermuted(p, b, a); }
  }

  lemma CanSanitizePermuted(p: Payload, a: seq<Authority>, b: seq<Authority>)
    requires Permuted(a, b) && CanSanitize(p, a)
    ensures CanSanitize(p, b)
  {
    FlatMapPermuted(a, b, Bind);
    PermutationMembers(a, b);
    forall i | 0 <= i < |b| ensures AuthorityOk(b[i]) { assert b[i] in a; }
    DistinctKeysPermuted(BindAll(a), BindAll(b));
    ErasablePermuted(p, BindAll(a), BindAll(b));
  }
}
