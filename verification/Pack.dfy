/** The portable evidence pack: what one holds and how an export projects the stored
    rows into one.
 */
module Pack {
  import opened Crypto
  import opened LedgerSpec

  const MAX_BATCHES := 100
  const MAX_EVENTS := 2000
  const MAX_BYTES := 5242880
  const MAX_LINKS := 10000
  const VERSION := 5

  datatype Fields = Fields(fields: seq<string>, truncated: bool, total: int)

  datatype Marker = Marker(hash: string, bytes: int)

  datatype Attributed = NoLookup | Complete | LookupUnavailable | LookupUnsupported | Other

  /** The text formats around the ledger: writing and decoding of a stored field list,
      display and canonical form of a stored value, its truncation marker, the text of an
      attribution status, the encoded content and size of a pack, the signed statement
      and the meaning of public key bytes. */
  datatype World = World(
    env: Instance,
    publicBytes: string,
    keyOf: string -> PublicKey,
    fieldsText: Fields -> string,
    decodeFields: string -> Option<Fields>,
    display: string -> string,
    canonical: string -> string,
    marker: string -> Option<Marker>,
    markerText: (string, int, int, bool) -> string,
    statusText: Attributed -> string,
    attributed: string -> Attributed,
    content: Content -> string,
    readContent: string -> Option<Content>,
    statement: (int, string, string, int, string) -> string,
    size: Evidence -> nat)

  datatype ShownEvent = ShownEvent(
    id: int, batchId: int, generation: int, observedAt: int,
    collector: string, eventType: string, resourceId: string, name: string,
    fields: Fields, before: string, after: string,
    beforeMeta: ValueMeta, afterMeta: ValueMeta,
    severity: string, muted: bool, attribution: Option<string>)

  /** `sequence` is 0 for a batch without a ledger entry. */
  datatype Batch = Batch(
    id: int, generation: int, observedAt: int, changeCount: int, ledgerChangeCount: int,
    triggerId: int, triggerIds: set<int>,
    sequence: int, prevHash: string, hash: string, signature: string, keyId: string, payload: string,
    attributionStatus: string, events: seq<ShownEvent>)

  datatype Content = Content(version: int, batches: seq<Batch>, links: seq<Entry>, truncated: bool, nextCursor: int,
          head: string)

  datatype Evidence = Evidence(content: Content, contentHash: string, keyId: string, publicKey: string,
          generatedAt: int, signature: string)

  ghost predicate SoundWorld(w: World) {
    && Sound(w.env)
    && w.keyOf(w.publicBytes) == w.env.key
    && w.publicBytes != ""
    && w.decodeFields("").None?
    && (forall f :: w.decodeFields(w.fieldsText(f)) == Some(f))
    && w.marker("").None?
    && (forall hash, bytes, limit, rejected | bytes > 0 ::
        w.marker(w.markerText(hash, bytes, limit, rejected)) == Some(Marker(hash, bytes)))
    && w.attributed("") == NoLookup
    && (forall a :: w.attributed(w.statusText(a)) == a)
  }

  // ---------------------------------------------------------------- reading rows for display

  /** A field list is counted when its stored total is missing. */
  function Counted(f: Fields): Fields {
    if f.total == 0 then f.(total := |f.fields|) else f
  }

  /** History reads an empty field list as no fields; anything else must decode. */
  function ShownFields(w: World, changes: string): Option<Fields> {
    if changes == "" then Some(Fields([], false, 0))
    else match w.decodeFields(changes)
      case None => None
      case Some(f) => Some(Counted(f))
  }

  /** Size metadata as History completes it from the stored value. */
  function Completed(w: World, raw: string, stored: ValueMeta): ValueMeta {
    var marked := match w.marker(raw)
      case None => stored
      case Some(m) =>
        ValueMeta(if stored.hash == "" then m.hash else stored.hash,
                  if stored.bytes == 0 then m.bytes else stored.bytes, true);
    ValueMeta(
      if marked.hash == "" && raw != "" && !marked.truncated then w.env.sha(raw) else marked.hash,
      if marked.bytes == 0 && raw != "" then |raw| else marked.bytes,
      marked.truncated)
  }

  function Shown(w: World, e: Event): ShownEvent
    requires ShownFields(w, e.row.body.changes).Some?
  {
    var b := e.row.body;
    ShownEvent(e.id, e.batchId, e.generation, e.observedAt, b.collector, b.eventType, b.resourceId, b.name,
               ShownFields(w, b.changes).value, w.display(b.before), w.display(b.after),
               Completed(w, b.before, e.row.before), Completed(w, b.after, e.row.after),
               e.row.severity, b.muted, b.attribution)
  }

  /** A history filter: which batches, and, when it has event terms, which events. */
  datatype Filter = Filter(batch: (int, BatchRow) -> bool, narrowed: bool, event: Event -> bool)

  predicate Selects(filter: Filter, e: Event) {
    filter.narrowed ==> filter.event(e)
  }

  function Selected(filter: Filter, events: seq<Event>): (r: seq<Event>)
    ensures forall e | e in r :: e in events && Selects(filter, e)
    ensures |r| <= |events|
    ensures (exists e :: e in events && Selects(filter, e)) ==> r != []
  {
    if events == [] then []
    else (if Selects(filter, events[0]) then [events[0]] else []) + Selected(filter, events[1..])
  }

  function ShownOf(db: Db, filter: Filter, id: int): seq<Event> {
    Selected(filter, EventsOf(db.events, id))
  }

  predicate Readable(w: World, events: seq<Event>) {
    forall e | e in events :: ShownFields(w, e.row.body.changes).Some?
  }

  function EntryFor(ledger: seq<Entry>, batchId: int): (r: Option<Entry>)
    ensures r.Some? ==> r.value in ledger && r.value.batchId == batchId
    ensures r.None? ==> forall e | e in ledger :: e.batchId != batchId
  {
    if ledger == [] then None
    else if ledger[0].batchId == batchId then Some(ledger[0]) else EntryFor(ledger[1..], batchId)
  }

  /** One exported batch: the row, its ledger entry with the complete payload, and the
      events the filter shows. */
  function Exported(w: World, db: Db, filter: Filter, id: int): Batch
    requires id in db.batches && Readable(w, ShownOf(db, filter, id))
  {
    var row := db.batches[id];
    var events := ShownOf(db, filter, id);
    var entry := EntryFor(db.ledger, id);
    var ledgered := entry.Some? && entry.value.sequence > 0;
    var changeCount := if filter.narrowed then |events| else row.changeCount;
    var signedCount := Payload(db, id).changeCount;
    Batch(id, row.generation, row.observedAt, changeCount,
          if ledgered && signedCount > 0 then signedCount else changeCount,
          row.triggerId, TriggersOf(db.links, id, row.triggerId),
          if entry.Some? then entry.value.sequence else 0,
          if entry.Some? then entry.value.prevHash else "",
          if entry.Some? then entry.value.entryHash else "",
          if entry.Some? then entry.value.signature else "",
          if entry.Some? then entry.value.keyId else "",
          if ledgered then w.env.encode(Payload(db, id)) else "",
          row.attributionStatus,
          seq(|events|, i requires 0 <= i < |events| => Shown(w, events[i])))
  }

  // ---------------------------------------------------------------- ledger links

  /** The predecessor of the first needed sequence, when there is one. */
  function CheckpointSequence(sequence: int): int {
    if sequence > 1 then sequence - 1 else sequence
  }

  /** Smallest sequence of the ledgered batches, 0 when there are none. */
  function LowSequence(batches: seq<Batch>): (r: int)
    ensures (forall b | b in batches :: b.sequence >= 0) ==>
      r >= 0 && (r == 0 <==> forall b | b in batches :: b.sequence == 0)
      && (r > 0 ==> (exists b :: b in batches && b.sequence == r) && forall b | b in batches && b.sequence > 0 ::
          r <= b.sequence)
  {
    if batches == [] then 0
    else
      var rest := LowSequence(batches[..|batches| - 1]);
      var last := batches[|batches| - 1].sequence;
      assert forall b | b in batches :: b == batches[|batches| - 1] || b in batches[..|batches| - 1];
      if last == 0 then rest else if rest == 0 || last < rest then last else rest
  }

  function HighSequence(batches: seq<Batch>): (r: int)
    ensures r >= 0 && (forall b | b in batches :: b.sequence <= r)
    ensures r > 0 ==> exists b :: b in batches && b.sequence == r
  {
    if batches == [] then 0
    else
      var rest := HighSequence(batches[..|batches| - 1]);
      var last := batches[|batches| - 1].sequence;
      assert forall b | b in batches :: b == batches[|batches| - 1] || b in batches[..|batches| - 1];
      if last > rest then last else rest
  }

  /** Links with a sequence in a closed range, in order. */
  function Between(links: seq<Entry>, lo: int, hi: int): seq<Entry> {
    if links == [] then []
    else (if lo <= links[0].sequence <= hi then [links[0]] else []) + Between(links[1..], lo, hi)
  }

  /** The chain segment that spans the batches, newest MAX_LINKS entries at most. */
  function FetchedLinks(ledger: seq<Entry>, batches: seq<Batch>): seq<Entry> {
    var lo := LowSequence(batches);
    if lo == 0 then []
    else
      var span := Between(ledger, CheckpointSequence(lo), HighSequence(batches));
      if |span| > MAX_LINKS then span[|span| - MAX_LINKS..] else span
  }

  /** The part of a fetched segment that a prefix of the batches needs. */
  function LinksFor(batches: seq<Batch>, links: seq<Entry>): seq<Entry> {
    var lo := LowSequence(batches);
    if lo == 0 then [] else Between(links, CheckpointSequence(lo), HighSequence(batches))
  }

  /** How many leading batches fit the event cap and the fetched segment. */
  function WithinCaps(batches: seq<Batch>, firstLink: int, events: nat): (n: nat)
    ensures n <= |batches|
  {
    if batches == [] then 0
    else if events + |batches[0].events| > MAX_EVENTS then 0
    else if batches[0].sequence > 0 && CheckpointSequence(batches[0].sequence) < firstLink then 0
    else 1 + WithinCaps(batches[1..], firstLink, events + |batches[0].events|)
  }

  function FirstLink(links: seq<Entry>): int {
    if links == [] then 0 else links[0].sequence
  }

  /** A pack never mixes batches with and without a ledger entry. */
  predicate Uniform(batches: seq<Batch>) {
    && (forall b | b in batches :: b.sequence >= 0)
    && ((forall b | b in batches :: b.sequence > 0) || (forall b | b in batches :: b.sequence == 0))
  }

  /** Hash, statement and signature over finished content. */
  function SignedPack(w: World, content: Content, generatedAt: int): Evidence {
    var hash := w.env.sha(w.content(content));
    Evidence(content, hash, w.env.key.id, w.publicBytes, generatedAt,
             w.env.sign(w.statement(content.version, hash, content.head, generatedAt, w.env.key.id)))
  }
}
