/**
 How chat messages are stored and read back: the content column, the metadata column, and the snapshots that a
 compare-and-swap of a whole history compares.  The JSON library is a parameter, of which only its laws are used.
 */
module ChatContent {
  import opened Options
  import opened Text

  type RowId = nat

  /** The "type" entry of a JSON object, as far as membership in a set of strings can tell. */
  datatype TypeField = Missing | Name(name: string) | OtherHashable | Unhashable

  /** An element of a parsed JSON array. */
  datatype Item = Object(kind: TypeField, rest: string) | NotObject(text: string)

  datatype Parsed = NotJson | NotArray | JsonArray(items: seq<Item>)

  /** Message content in memory: a string, or a list of multimodal blocks. */
  datatype Content = Plain(text: string) | Blocks(items: seq<Item>)

  /** A metadata dictionary, its two special keys apart. */
  datatype Metadata = Metadata(dbId: Option<RowId>, timestamp: Option<string>, rest: map<string, string>)

  const EMPTY := Metadata(None, None, map[])

  datatype ParsedMeta = BrokenMeta | NullMeta | OtherMeta | MetaObject(meta: Metadata)

  /** `json.dumps` and `json.loads` on contents and metadata, and the ISO rendering of a row's timestamp. */
  datatype Codec = Codec(
    dumps: seq<Item> -> string,
    loads: string -> Parsed,
    dumpMeta: Metadata -> string,
    loadMeta: string -> ParsedMeta,
    iso: int -> string
  )

  ghost predicate Lawful(c: Codec) {
    && (forall items: seq<Item> :: c.loads(c.dumps(items)) == JsonArray(items))
    && (forall items: seq<Item> :: items != [] && items[0].Object? ==> "[{" <= c.dumps(items))
    && (forall items: seq<Item> :: items != [] && items[0].Object? && items[0].kind.Name? ==> Contains(c.dumps(items), "\"type\""))
    && (forall m :: c.dumpMeta(m) != "" && c.loadMeta(c.dumpMeta(m)) == MetaObject(m))
  }

  // ---------------------------------------------------------------- content

  const BLOCK_TYPES: set<string> :=
    {"text", "image", "image_url", "audio", "input_audio", "input_image", "document", "file"}

  datatype Scan = AllKnown | StopsAtUnknown | TypeError

  /** `all(isinstance(p, dict) and p.get("type") in _BLOCK_TYPES for p in parsed)`: a list or dict is not hashable. */
  function ScanBlocks(items: seq<Item>): Scan {
    if items == [] then AllKnown
    else if items[0].NotObject? then StopsAtUnknown
    else
      match items[0].kind
      case Unhashable => TypeError
      case Name(name) => if name in BLOCK_TYPES then ScanBlocks(items[1..]) else StopsAtUnknown
      case _ => StopsAtUnknown
  }

  predicate IsKnownBlock(item: Item) {
    item.Object? && item.kind.Name? && item.kind.name in BLOCK_TYPES
  }

  /** The scan accepts exactly lists of known blocks, and raises exactly when an unhashable type follows only those. */
  lemma {:induction false} ScanBlocksIff(items: seq<Item>)
    ensures ScanBlocks(items) == AllKnown <==> forall i :: 0 <= i < |items| ==> IsKnownBlock(items[i])
    ensures ScanBlocks(items) == TypeError <==>
            exists k :: 0 <= k < |items| && items[k].Object? && items[k].kind.Unhashable?
                        && forall i :: 0 <= i < k ==> IsKnownBlock(items[i])
  {
    if items != [] {
      ScanBlocksIff(items[1..]);
      assert forall i :: 0 < i < |items| ==> items[1..][i - 1] == items[i];
      if ScanBlocks(items) == TypeError && IsKnownBlock(items[0]) {
        var k :| 0 <= k < |items[1..]| && items[1..][k].Object? && items[1..][k].kind.Unhashable?
                 && forall i :: 0 <= i < k ==> IsKnownBlock(items[1..][i]);
        assert items[k + 1].kind.Unhashable?;
      }
    }
  }

  /** `_parse_msg_content`: Err is the TypeError that it does not catch. */
  function ParseContent(c: Codec, raw: string): Result<Content, ()> {
    if !("[{" <= raw) || !Contains(raw, "\"type\"") || !c.loads(raw).JsonArray? || c.loads(raw).items == [] then
      Ok(Plain(raw))
    else
      match ScanBlocks(c.loads(raw).items)
      case AllKnown => Ok(Blocks(c.loads(raw).items))
      case StopsAtUnknown => Ok(Plain(raw))
      case TypeError => Err(())
  }

  /** What the content column holds for a content. */
  function Stored(c: Codec, content: Content): string {
    match content
    case Plain(text) => text
    case Blocks(items) => c.dumps(items)
  }

  ghost predicate RoundTrips(c: Codec, content: Content) {
    ParseContent(c, Stored(c, content)) == Ok(content)
  }

  /** A string that reads as a block list, or that makes the reader raise. */
  predicate LooksLikeBlocks(c: Codec, text: string) {
    && "[{" <= text && Contains(text, "\"type\"")
    && c.loads(text).JsonArray? && c.loads(text).items != [] && ScanBlocks(c.loads(text).items) != StopsAtUnknown
  }

  /** Exactly the contents that survive storage: recognized block lists, and strings that do not look like one. */
  lemma RoundTripsIff(c: Codec, content: Content)
    requires Lawful(c)
    ensures RoundTrips(c, content) <==>
            match content
            case Plain(text) => !LooksLikeBlocks(c, text)
            case Blocks(items) => items != [] && ScanBlocks(items) == AllKnown
  {
    if content.Blocks? {
      assert c.loads(c.dumps(content.items)) == JsonArray(content.items);
      if content.items != [] && ScanBlocks(content.items) == AllKnown {
        assert content.items[0].Object? && content.items[0].kind.Name?;
      }
    }
  }

  /**
   A pasted string such as `[{"type": []}]` is neither kept nor decoded: reading it raises, because a list cannot be
   looked up in a set, and with it loading the whole session.
   */
  lemma UnhashableTypeRaises(c: Codec, rest: string)
    requires c.loads("[{\"type\": []}]") == JsonArray([Object(Unhashable, rest)])
    ensures ParseContent(c, "[{\"type\": []}]") == Err(())
  {
    var raw := "[{\"type\": []}]";
    assert raw[2..8] == "\"type\"";
    assert At(raw, "\"type\"", 2);
  }

  // ---------------------------------------------------------------- rows and messages

  datatype Row = Row(id: RowId, role: string, content: string, meta: Option<string>, stamp: int)

  datatype Message = Message(role: string, content: Content, meta: Option<Metadata>)

  function MetaOf(m: Message): Metadata {
    if m.meta.Some? then m.meta.value else EMPTY
  }

  /** `json.loads(meta) if meta else {}`, where an absent and an empty column count the same. */
  function LoadMeta(c: Codec, meta: Option<string>): ParsedMeta {
    if meta.None? || meta.value == "" then MetaObject(EMPTY) else c.loadMeta(meta.value)
  }

  /** One message of a fresh load; Err when decoding it raises. */
  function Hydrate(c: Codec, row: Row): Result<Message, ()> {
    var content := ParseContent(c, row.content);
    match LoadMeta(c, row.meta)
    case BrokenMeta => Err(())
    case OtherMeta => Err(())
    case NullMeta =>
      if content.Err? then Err(()) else Ok(Message(row.role, content.value, Some(Completed(c, EMPTY, row))))
    case MetaObject(m) =>
      if content.Err? then Err(()) else Ok(Message(row.role, content.value, Some(Completed(c, m, row))))
  }

  /** The row's id always, and its timestamp unless the metadata has one. */
  function Completed(c: Codec, m: Metadata, row: Row): Metadata {
    m.(dbId := Some(row.id), timestamp := if m.timestamp.Some? then m.timestamp else Some(c.iso(row.stamp)))
  }

  /**
   A row fails to load exactly when its content raises, or its metadata column holds something else than an object or
   null.  Otherwise the message has the row's role and content, the row's id, the metadata's other entries, and the
   metadata's timestamp or else the row's.
   */
  lemma HydrateIs(c: Codec, row: Row)
    ensures Hydrate(c, row).Err? <==>
            || ParseContent(c, row.content).Err?
            || (row.meta.Some? && row.meta.value != ""
                && !c.loadMeta(row.meta.value).MetaObject? && c.loadMeta(row.meta.value) != NullMeta)
    ensures Hydrate(c, row).Ok? ==>
              var m := Hydrate(c, row).value;
              && m.role == row.role && Ok(m.content) == ParseContent(c, row.content)
              && m.meta.Some? && m.meta.value.dbId == Some(row.id)
              && if row.meta.Some? && row.meta.value != "" && c.loadMeta(row.meta.value).MetaObject? then
                   var stored := c.loadMeta(row.meta.value).meta;
                   && m.meta.value.rest == stored.rest
                   && m.meta.value.timestamp == (if stored.timestamp.Some? then stored.timestamp else Some(c.iso(row.stamp)))
                 else m.meta.value.rest == map[] && m.meta.value.timestamp == Some(c.iso(row.stamp))
  {
  }

  function HydrateAll(c: Codec, rows: seq<Row>): (r: Result<seq<Message>, ()>)
    ensures r.Ok? ==> |r.value| == |rows| && forall i :: 0 <= i < |rows| ==> Hydrate(c, rows[i]) == Ok(r.value[i])
  {
    if rows == [] then Ok([])
    else
      var front, last := HydrateAll(c, rows[..|rows| - 1]), Hydrate(c, rows[|rows| - 1]);
      if front.Err? || last.Err? then Err(()) else Ok(front.value + [last.value])
  }

  // ---------------------------------------------------------------- snapshots

  datatype Entry = Entry(id: Option<RowId>, role: string, content: Content, rest: map<string, string>)

  function MessageEntry(m: Message): Entry {
    Entry(MetaOf(m).dbId, m.role, m.content, MetaOf(m).rest)
  }

  function Snapshot(messages: seq<Message>): (r: seq<Entry>)
    ensures |r| == |messages| && forall i :: 0 <= i < |r| ==> r[i] == MessageEntry(messages[i])
  {
    seq(|messages|, i requires 0 <= i < |messages| => MessageEntry(messages[i]))
  }

  /** Undecodable metadata leaves a sentinel; undecodable content raises. */
  function RowEntry(c: Codec, row: Row): Result<Entry, ()> {
    var content := ParseContent(c, row.content);
    var rest := match LoadMeta(c, row.meta)
                case BrokenMeta => map["_invalid_raw_metadata" := if row.meta.Some? then row.meta.value else ""]
                case NullMeta => map[]
                case OtherMeta => map[]
                case MetaObject(m) => m.rest;
    if content.Err? then Err(()) else Ok(Entry(Some(row.id), row.role, content.value, rest))
  }

  /**
   The entry of a row: it fails exactly when the content raises, and otherwise has the row's id, role and content, and
   the metadata's other entries.  Metadata that cannot be decoded is kept raw under a key of its own, so that a change
   of it does not go unseen.
   */
  lemma RowEntryIs(c: Codec, row: Row)
    ensures RowEntry(c, row).Err? <==> ParseContent(c, row.content).Err?
    ensures RowEntry(c, row).Ok? ==>
              var e := RowEntry(c, row).value;
              && e.id == Some(row.id) && e.role == row.role && Ok(e.content) == ParseContent(c, row.content)
              && (if row.meta.None? || row.meta.value == "" then e.rest == map[]
                  else if c.loadMeta(row.meta.value).BrokenMeta? then e.rest == map["_invalid_raw_metadata" := row.meta.value]
                  else if c.loadMeta(row.meta.value).MetaObject? then e.rest == c.loadMeta(row.meta.value).meta.rest
                  else e.rest == map[])
  {
  }

  function RowSnapshot(c: Codec, rows: seq<Row>): (r: Result<seq<Entry>, ()>)
    ensures r.Ok? ==> |r.value| == |rows| && forall i :: 0 <= i < |rows| ==> RowEntry(c, rows[i]) == Ok(r.value[i])
  {
    if rows == [] then Ok([])
    else
      var front, last := RowSnapshot(c, rows[..|rows| - 1]), RowEntry(c, rows[|rows| - 1]);
      if front.Err? || last.Err? then Err(()) else Ok(front.value + [last.value])
  }

  /** Row snapshots are taken row by row. */
  lemma {:induction false} RowSnapshotIs(c: Codec, rows: seq<Row>, entries: seq<Entry>)
    ensures RowSnapshot(c, rows) == Ok(entries) <==>
            |entries| == |rows| && forall i :: 0 <= i < |rows| ==> RowEntry(c, rows[i]) == Ok(entries[i])
  {
    if |entries| == |rows| && forall i :: 0 <= i < |rows| ==> RowEntry(c, rows[i]) == Ok(entries[i]) {
      if rows != [] {
        var n := |rows| - 1;
        RowSnapshotIs(c, rows[..n], entries[..n]);
        assert entries == entries[..n] + [entries[n]];
      }
    }
  }

  /** A history just loaded and the rows it was loaded from give the same snapshot. */
  lemma HydratedSnapshotAgrees(c: Codec, rows: seq<Row>)
    requires HydrateAll(c, rows).Ok?
    ensures RowSnapshot(c, rows) == Ok(Snapshot(HydrateAll(c, rows).value))
  {
    var messages := HydrateAll(c, rows).value;
    forall i | 0 <= i < |rows| ensures RowEntry(c, rows[i]) == Ok(Snapshot(messages)[i]) {
      assert Hydrate(c, rows[i]) == Ok(messages[i]);
    }
    RowSnapshotIs(c, rows, Snapshot(messages));
  }

  /** A message as it was given, under an id, with its own timestamp or else this one. */
  function AsGiven(m: Message, id: RowId, stamp: Option<string>): Message {
    Message(m.role, m.content,
            Some(match m.meta
                 case None => Metadata(Some(id), stamp, map[])
                 case Some(meta) => Metadata(Some(id), if meta.timestamp.Some? then meta.timestamp else stamp, meta.rest)))
  }

  // ---------------------------------------------------------------- writing rows

  /** The row `_persist_message_locked` writes, and what the message's metadata becomes. */
  function Stamped(c: Codec, m: Message, now: int): Metadata {
    var meta := MetaOf(m);
    if meta.timestamp.Some? then meta else meta.(timestamp := Some(c.iso(now)))
  }

  function PersistedRow(c: Codec, m: Message, id: RowId, now: int): Row {
    Row(id, m.role, Stored(c, m.content), Some(c.dumpMeta(Stamped(c, m, now))), now)
  }

  function Persisted(c: Codec, m: Message, id: RowId, now: int): Message {
    m.(meta := Some(Stamped(c, m, now).(dbId := Some(id))))
  }

  /** The row a whole-history replacement writes: metadata without the id, NULL when nothing is left. */
  function ReplacementRow(c: Codec, m: Message, id: RowId, stamp: int): Row {
    var meta := MetaOf(m).(dbId := None);
    Row(id, m.role, Stored(c, m.content), if meta == EMPTY then None else Some(c.dumpMeta(meta)), stamp)
  }

  function WithId(m: Message, id: RowId): Message {
    m.(meta := Some(MetaOf(m).(dbId := Some(id))))
  }

  /** `m` is what loading `row` builds, up to the timestamp shown, which edits and snapshots ignore. */
  predicate Shows(c: Codec, row: Row, m: Message) {
    Hydrate(c, row).Ok? && MessageEntry(Hydrate(c, row).value) == MessageEntry(m)
  }

  /** A compare-and-swap sees the same entry in the message as in the row. */
  lemma ShownEntryAgrees(c: Codec, row: Row, m: Message)
    requires Shows(c, row, m)
    ensures RowEntry(c, row) == Ok(MessageEntry(m))
  {
    var loaded := Hydrate(c, row).value;
    assert RowEntry(c, row) == Ok(MessageEntry(loaded));
  }

  /** A persisted message is what its row shows exactly when its content survives storage. */
  lemma PersistedShowsIff(c: Codec, m: Message, id: RowId, now: int)
    requires Lawful(c)
    ensures Shows(c, PersistedRow(c, m, id, now), Persisted(c, m, id, now)) <==> RoundTrips(c, m.content)
  {
    var meta := Stamped(c, m, now);
    assert c.loadMeta(c.dumpMeta(meta)) == MetaObject(meta);
  }

  /** ... and a message of a replacement when, besides, the id it carries is that of this row. */
  lemma ReplacementShowsIff(c: Codec, m: Message, id: RowId, stamp: int, carried: RowId)
    requires Lawful(c)
    ensures Shows(c, ReplacementRow(c, m, id, stamp), WithId(m, carried)) <==> RoundTrips(c, m.content) && carried == id
  {
    var meta := MetaOf(m).(dbId := None);
    assert c.loadMeta(c.dumpMeta(meta)) == MetaObject(meta);
  }

  /** Loading a persisted row gives back the message itself, timestamp and all, when its content survives. */
  lemma PersistedHydrates(c: Codec, m: Message, id: RowId, now: int)
    requires Lawful(c) && RoundTrips(c, m.content)
    ensures Hydrate(c, PersistedRow(c, m, id, now)) == Ok(Persisted(c, m, id, now))
  {
    var meta := Stamped(c, m, now);
    assert c.loadMeta(c.dumpMeta(meta)) == MetaObject(meta);
  }

  /**
   After a replacement the message in memory is what a fresh load builds exactly when it carried a timestamp: the
   replacement writes none, and loading then shows the row's.
   */
  lemma ReplacementHydratesIff(c: Codec, m: Message, id: RowId, stamp: int)
    requires Lawful(c) && RoundTrips(c, m.content)
    ensures Hydrate(c, ReplacementRow(c, m, id, stamp)) == Ok(WithId(m, id)) <==> MetaOf(m).timestamp.Some?
  {
    var meta := MetaOf(m).(dbId := None);
    assert c.loadMeta(c.dumpMeta(meta)) == MetaObject(meta);
  }

  /** What a persisted row loads to, and what the object becomes: the message as given, with the new id and the time. */
  lemma PersistedIsGiven(c: Codec, m: Message, id: RowId, now: int)
    requires Lawful(c)
    ensures Persisted(c, m, id, now) == AsGiven(m, id, Some(c.iso(now)))
    ensures RoundTrips(c, m.content) ==> Hydrate(c, PersistedRow(c, m, id, now)) == Ok(AsGiven(m, id, Some(c.iso(now))))
  {
    if RoundTrips(c, m.content) { PersistedHydrates(c, m, id, now); }
  }

  /** A replacement's row loads to the same; its object gets no timestamp, and its metadata column no id. */
  lemma ReplacementIsGiven(c: Codec, m: Message, id: RowId, stamp: int)
    requires Lawful(c)
    ensures WithId(m, id) == AsGiven(m, id, None)
    ensures var column, given := ReplacementRow(c, m, id, stamp).meta, AsGiven(m, id, None).meta.value;
            if given.timestamp.None? && given.rest == map[] then column == None
            else column.Some? && c.loadMeta(column.value) == MetaObject(Metadata(None, given.timestamp, given.rest))
    ensures RoundTrips(c, m.content) ==>
              Hydrate(c, ReplacementRow(c, m, id, stamp)) == Ok(AsGiven(m, id, Some(c.iso(stamp))))
  {
    var meta := MetaOf(m).(dbId := None);
    assert c.loadMeta(c.dumpMeta(meta)) == MetaObject(meta);
  }
}
