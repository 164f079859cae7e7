/** Offline verification of an evidence pack, and what acceptance proves. */
module PackVerify {
  import opened Crypto
  import opened LedgerSpec
  import opened Pack

  // ---------------------------------------------------------------- one event against its signed form

  /** Size metadata agrees with the signed value; rows from before size metadata carry none. */
  predicate SnapshotAgrees(w: World, meta: ValueMeta, raw: string) {
    if meta.hash == "" && meta.bytes == 0 && !meta.truncated then true
    else if raw == "" then false
    else match w.marker(raw)
      case Some(m) => meta.truncated && meta.hash == m.hash && meta.bytes == m.bytes
      case None => !meta.truncated && meta.hash == w.env.sha(raw) && meta.bytes == |raw|
  }

  predicate EventBound(w: World, shown: ShownEvent, signed: LedgerEvent, batchId: int) {
    var b := signed.body;
    && shown.batchId == batchId && shown.generation == signed.generation
    && shown.collector == b.collector && shown.eventType == b.eventType && shown.resourceId == b.resourceId
        && shown.name == b.name
    && shown.observedAt == signed.observedAt
    && w.decodeFields(b.changes).Some?
    && shown.muted == b.muted && shown.attribution == b.attribution
    && shown.fields == Counted(w.decodeFields(b.changes).value)
    && w.canonical(w.display(b.before)) == w.canonical(shown.before)
    && w.canonical(w.display(b.after)) == w.canonical(shown.after)
    && SnapshotAgrees(w, shown.beforeMeta, b.before)
    && SnapshotAgrees(w, shown.afterMeta, b.after)
  }

  function LastChangeCount(batch: Batch): int {
    if batch.ledgerChangeCount == 0 then batch.changeCount else batch.ledgerChangeCount
  }

  predicate DistinctShown(events: seq<ShownEvent>) {
    forall i, j | 0 <= i < j < |events| :: events[i].id != events[j].id
  }

  predicate DistinctSigned(events: seq<LedgerEvent>) {
    forall i, j | 0 <= i < j < |events| :: events[i].id != events[j].id
  }

  /** The visible batch is a projection of its signed payload: the payload may hold more
      events, but every visible one occurs in it once and says the same. */
  predicate PayloadBound(w: World, batch: Batch, signed: LedgerBatch) {
    && signed.batchId == batch.id && signed.generation == batch.generation
    && signed.changeCount == LastChangeCount(batch)
    && |signed.events| == signed.changeCount
    && signed.observedAt == batch.observedAt
    && signed.triggerId == batch.triggerId && signed.triggerIds == batch.triggerIds
    && DistinctSigned(signed.events)
    && DistinctShown(batch.events)
    && forall e | e in batch.events :: exists s | s in signed.events :: s.id == e.id && EventBound(w, e, s, batch.id)
  }

  // ---------------------------------------------------------------- links

  predicate WellFormedBatch(batch: Batch, keyId: string) {
    && (batch.keyId != "" ==> batch.keyId == keyId)
    && (batch.sequence > 0 ==> IsHash(batch.hash) && IsHashOrEmpty(batch.prevHash))
  }

  /** Insertion into a list sorted by sequence. */
  function Insert(link: Entry, links: seq<Entry>): (r: seq<Entry>)
    ensures multiset(r) == multiset{link} + multiset(links)
    ensures |r| == |links| + 1
    ensures Nondecreasing(links) ==> Nondecreasing(r)
    decreases |links|, 1
  {
    if links == [] then [link]
    else if link.sequence <= links[0].sequence then
      assert [link] + links == [link] + links[0..];
      [link] + links
    else
      var rest := Insert(link, links[1..]);
      assert links == [links[0]] + links[1..];
      if Nondecreasing(links) then
        InsertBound(link, links);
        [links[0]] + rest
      else
        [links[0]] + rest
  }

  predicate Nondecreasing(links: seq<Entry>) {
    forall i, j | 0 <= i < j < |links| :: links[i].sequence <= links[j].sequence
  }

  lemma InsertBound(link: Entry, links: seq<Entry>)
    requires links != [] && link.sequence > links[0].sequence && Nondecreasing(links)
    requires multiset(Insert(link, links[1..])) == multiset{link} + multiset(links[1..])
    ensures forall i | 0 <= i < |Insert(link, links[1..])| :: links[0].sequence <= Insert(link, links[1..])[i].sequence
    decreases |links|, 0
  {
    var r := Insert(link, links[1..]);
    forall i | 0 <= i < |r| ensures links[0].sequence <= r[i].sequence {
      assert r[i] in multiset(r);
      if r[i] != link {
        assert r[i] in links[1..];
      }
    }
  }

  function SortedLinks(links: seq<Entry>): (r: seq<Entry>)
    ensures multiset(r) == multiset(links)
    ensures |r| == |links|
    ensures Nondecreasing(r)
  {
    if links == [] then []
    else
      assert links == [links[0]] + links[1..];
      Insert(links[0], SortedLinks(links[1..]))
  }

  /** Link i of the sorted chain is well formed, signed, and continues its predecessor. */
  predicate LinkOk(key: PublicKey, keyId: string, links: seq<Entry>, i: int)
    requires 0 <= i < |links|
  {
    var link := links[i];
    && link.sequence > 0 && IsHash(link.entryHash)
    && link.keyId == keyId
    && IsHashOrEmpty(link.prevHash)
    && (i == 0 && link.sequence == 1 ==> link.prevHash == "")
    && link.signature != "" && key.verify(link.entryHash, link.signature)
    && (i > 0 ==> link.sequence == links[i - 1].sequence + 1 && link.prevHash == links[i - 1].entryHash)
  }

  predicate LinkMatches(link: Entry, batch: Batch) {
    && link.sequence == batch.sequence && link.batchId == batch.id
    && link.prevHash == batch.prevHash && link.entryHash == batch.hash
    && link.signature == batch.signature && link.keyId == batch.keyId
  }

  /** The batch rehashes from its payload, and shows nothing the payload does not say. */
  predicate BatchOk(w: World, batch: Batch) {
    && batch.payload != ""
    && w.env.decode(batch.payload).Some?
    && LedgerDigest(w.env.sha, batch.prevHash, batch.payload) == batch.hash
    && PayloadBound(w, batch, w.env.decode(batch.payload).value)
  }

  predicate DistinctSequences(batches: seq<Batch>) {
    forall i, j | 0 <= i < j < |batches| && batches[i].sequence > 0 :: batches[i].sequence != batches[j].sequence
  }

  predicate NeighboursChain(batches: seq<Batch>) {
    forall i | 0 <= i < |batches| - 1 && batches[i + 1].sequence > 0
        && batches[i].sequence == batches[i + 1].sequence + 1 ::
      batches[i].prevHash == batches[i + 1].hash
  }

  predicate ChainOk(w: World, pack: Evidence) {
    var batches, links := pack.content.batches, SortedLinks(pack.content.links);
    if forall b | b in batches :: b.sequence == 0 then links == []
    else
      && links != []
      && links[0].sequence == CheckpointSequence(LowSequence(batches))
      && links[|links| - 1].sequence == HighSequence(batches)
      && (forall i | 0 <= i < |links| :: LinkOk(w.keyOf(pack.publicKey), pack.keyId, links, i))
      && (forall b | b in batches && b.sequence > 0 :: (exists l | l in links :: LinkMatches(l, b)) && BatchOk(w, b))
  }

  predicate LedgerOk(w: World, pack: Evidence) {
    && Uniform(pack.content.batches)
    && (forall b | b in pack.content.batches :: WellFormedBatch(b, pack.keyId))
    && DistinctSequences(pack.content.batches)
    && NeighboursChain(pack.content.batches)
    && ChainOk(w, pack)
  }

  // ---------------------------------------------------------------- the whole pack

  predicate VersionFieldsOk(w: World, content: Content) {
    forall b | b in content.batches ::
      && (content.version < VERSION ==> b.attributionStatus == "")
      && w.attributed(b.attributionStatus) != Other
      && forall e | e in b.events ::
        && (content.version == 3 ==> e.severity == "" && !e.muted)
        && (e.attribution.Some? ==> content.version == VERSION && w.attributed(b.attributionStatus) == Complete)
  }

  predicate CursorOk(content: Content) {
    if content.truncated then content.nextCursor > 0 && content.batches != []
        && content.batches[|content.batches| - 1].id == content.nextCursor
    else content.nextCursor == 0
  }

  /** `trusted` is the auditor's own key, when one is given. */
  predicate SignatureOk(w: World, pack: Evidence, trusted: Option<string>) {
    && pack.contentHash == w.env.sha(w.content(pack.content))
    && pack.keyId != "" && pack.publicKey != "" && pack.signature != ""
    && pack.keyId == w.keyOf(pack.publicKey).id
    && (trusted.Some? ==> pack.publicKey == trusted.value)
    && w.keyOf(pack.publicKey).verify(
         w.statement(pack.content.version, pack.contentHash, pack.content.head, pack.generatedAt, pack.keyId),
         pack.signature)
  }

  predicate Accepts(w: World, pack: Evidence, trusted: Option<string>) {
    && w.size(pack) <= MAX_BYTES
    && pack.content.version in {3, 4, VERSION}
    && VersionFieldsOk(w, pack.content)
    && CursorOk(pack.content)
    && SignatureOk(w, pack, trusted)
    && LedgerOk(w, pack)
  }

  // ---------------------------------------------------------------- the loops

  method VerifyPayloadBinding(w: World, batch: Batch, signed: LedgerBatch) returns (ok: bool)
    ensures ok <==> PayloadBound(w, batch, signed)
  {
    hide EventBound;
    if signed.batchId != batch.id || signed.generation != batch.generation { return false; }
    var changeCount := batch.ledgerChangeCount;
    if changeCount == 0 { changeCount := batch.changeCount; }
    if signed.changeCount != changeCount || |signed.events| != signed.changeCount { return false; }
    if signed.observedAt != batch.observedAt { return false; }
    if signed.triggerId != batch.triggerId || signed.triggerIds != batch.triggerIds { return false; }
    var byId: map<int, LedgerEvent> := map[];
    var i := 0;
    while i < |signed.events|
      invariant 0 <= i <= |signed.events|
      invariant forall k | 0 <= k < i :: signed.events[k].id in byId && byId[signed.events[k].id] == signed.events[k]
      invariant forall id | id in byId :: byId[id] in signed.events[..i] && byId[id].id == id
      invariant DistinctSigned(signed.events[..i])
    {
      var event := signed.events[i];
      if event.id in byId {
        assert byId[event.id] in signed.events[..i];
        return false;
      }
      byId := byId[event.id := event];
      i := i + 1;
    }
    assert signed.events[..i] == signed.events;
    var seen: set<int> := {};
    i := 0;
    while i < |batch.events|
      invariant 0 <= i <= |batch.events|
      invariant seen == set k | 0 <= k < i :: batch.events[k].id
      invariant DistinctShown(batch.events[..i])
      invariant forall k | 0 <= k < i :: exists s | s in signed.events ::
          s.id == batch.events[k].id && EventBound(w, batch.events[k], s, batch.id)
    {
      var event := batch.events[i];
      if event.id in seen { return false; }
      seen := seen + {event.id};
      if event.id !in byId {
        assert forall k | 0 <= k < |signed.events| :: signed.events[k].id != event.id;
        assert event in batch.events;
        return false;
      }
      if !EventBound(w, event, byId[event.id], batch.id) {
        forall s | s in signed.events && s.id == event.id ensures s == byId[event.id] { }
        assert event in batch.events;
        return false;
      }
      i := i + 1;
    }
    assert batch.events[..i] == batch.events;
    return true;
  }

  method ValidateLedgerBatchState(batches: seq<Batch>) returns (ok: bool)
    ensures ok <==> Uniform(batches)
  {
    var ledgered, unledgered := false, false;
    for i := 0 to |batches|
      invariant forall b | b in batches[..i] :: b.sequence >= 0
      invariant ledgered <==> exists b | b in batches[..i] :: b.sequence > 0
      invariant unledgered <==> exists b | b in batches[..i] :: b.sequence == 0
    {
      assert batches[..i + 1] == batches[..i] + [batches[i]];
      if batches[i].sequence < 0 {
        assert batches[i] in batches;
        return false;
      }
      if batches[i].sequence == 0 { unledgered := true; } else { ledgered := true; }
    }
    assert batches[..|batches|] == batches;
    return !(ledgered && unledgered);
  }

  /** Batches by ledger sequence, rejecting malformed hashes and repeated sequences. */
  method CollectBatches(batches: seq<Batch>, keyId: string) returns (ok: bool, bySequence: map<int, Batch>)
    ensures ok <==> (forall b | b in batches :: WellFormedBatch(b, keyId)) && DistinctSequences(batches)
    ensures ok ==> forall b | b in batches && b.sequence > 0 :: b.sequence in bySequence && bySequence[b.sequence] == b
    ensures forall s | s in bySequence :: s > 0 && bySequence[s] in batches && bySequence[s].sequence == s
  {
    hide WellFormedBatch;
    bySequence := map[];
    for i := 0 to |batches|
      invariant forall b | b in batches[..i] :: WellFormedBatch(b, keyId)
      invariant DistinctSequences(batches[..i])
      invariant forall k | 0 <= k < i && batches[k].sequence > 0 ::
          batches[k].sequence in bySequence && bySequence[batches[k].sequence] == batches[k]
      invariant forall s | s in bySequence :: s > 0 && bySequence[s] in batches[..i] && bySequence[s].sequence == s
    {
      var batch := batches[i];
      assert batches[..i + 1] == batches[..i] + [batch];
      if !WellFormedBatch(batch, keyId) {
        assert batch in batches;
        return false, map[];
      }
      if batch.sequence > 0 {
        if batch.sequence in bySequence {
          var k :| 0 <= k < i && batches[k] == bySequence[batch.sequence];
          return false, map[];
        }
        bySequence := bySequence[batch.sequence := batch];
      }
    }
    assert batches[..|batches|] == batches;
    return true, bySequence;
  }

  method CheckNeighbours(batches: seq<Batch>) returns (ok: bool)
    ensures ok <==> NeighboursChain(batches)
  {
    var i := 0;
    while i + 1 < |batches|
      invariant 0 <= i <= |batches|
      invariant forall k | 0 <= k < i && k < |batches| - 1 && batches[k + 1].sequence > 0
          && batches[k].sequence == batches[k + 1].sequence + 1 ::
        batches[k].prevHash == batches[k + 1].hash
    {
      var newer, older := batches[i], batches[i + 1];
      if newer.sequence > 0 && older.sequence > 0 && newer.sequence == older.sequence
          + 1 && newer.prevHash != older.hash {
        return false;
      }
      i := i + 1;
    }
    return true;
  }

  /** Smallest and largest key of the collected batches. */
  method SequenceBounds(bySequence: map<int, Batch>) returns (lo: int, hi: int)
    requires forall s | s in bySequence :: s > 0
    ensures bySequence == map[] ==> lo == 0 && hi == 0
    ensures bySequence != map[] ==> lo in bySequence && hi in bySequence
    ensures forall s | s in bySequence :: lo <= s <= hi
  {
    lo, hi := 0, 0;
    var rest := bySequence.Keys;
    while rest != {}
      invariant rest <= bySequence.Keys
      invariant rest == bySequence.Keys ==> lo == 0 && hi == 0
      invariant rest != bySequence.Keys ==> lo > 0 && lo in bySequence && hi in bySequence
      invariant forall s | s in bySequence :: s in rest || lo <= s <= hi
      decreases |rest|
    {
      ghost var some := Sets.Pick(rest);
      assert some in rest;
      var s :| s in rest;
      if lo == 0 || s < lo { lo := s; }
      if s > hi { hi := s; }
      rest := rest - {s};
    }
    if bySequence != map[] { assert bySequence.Keys != {}; }
  }

  predicate LinksOk(key: PublicKey, keyId: string, links: seq<Entry>) {
    forall i | 0 <= i < |links| :: LinkOk(key, keyId, links, i)
  }

  method CheckLinks(key: PublicKey, keyId: string, links: seq<Entry>) returns (ok: bool, seen: map<int, Entry>)
    ensures ok <==> LinksOk(key, keyId, links)
    ensures ok ==> forall l | l in links :: l.sequence in seen && seen[l.sequence] == l
    ensures forall s | s in seen :: seen[s] in links && seen[s].sequence == s
  {
    seen := map[];
    for i := 0 to |links|
      invariant forall k | 0 <= k < i :: LinkOk(key, keyId, links, k)
      invariant forall k | 0 <= k < i :: links[k].sequence in seen && seen[links[k].sequence] == links[k]
      invariant forall s | s in seen :: seen[s] in links && seen[s].sequence == s
      invariant i == 0 ==> seen == map[]
      invariant i > 0 ==> forall s | s in seen :: s <= links[i - 1].sequence
    {
      var link := links[i];
      if link.sequence in seen || !LinkOk(key, keyId, links, i) {
        assert !LinkOk(key, keyId, links, i);
        return false, seen;
      }
      seen := seen[link.sequence := link];
    }
    return true, seen;
  }

  /** Every collected batch against its link and its payload. */
  method CheckBatches(w: World, bySequence: map<int, Batch>, seen: map<int, Entry>) returns (ok: bool)
    requires forall s | s in seen :: seen[s].sequence == s
    ensures ok <==> forall s | s in bySequence ::
        s in seen && bySequence[s].sequence == s && LinkMatches(seen[s], bySequence[s]) && BatchOk(w, bySequence[s])
  {
    hide PayloadBound, LedgerDigest;
    var rest := bySequence.Keys;
    while rest != {}
      invariant rest <= bySequence.Keys
      invariant forall s | s in bySequence ::
          s in rest || (s in seen && bySequence[s].sequence == s && LinkMatches(seen[s], bySequence[s])
          && BatchOk(w, bySequence[s]))
      decreases |rest|
    {
      ghost var some := Sets.Pick(rest);
      assert some in rest;
      var s :| s in rest;
      var batch := bySequence[s];
      if s !in seen || !LinkMatches(seen[s], batch) || batch.payload == "" { return false; }
      var decoded := w.env.decode(batch.payload);
      if decoded.None? || LedgerDigest(w.env.sha, batch.prevHash, batch.payload) != batch.hash { return false; }
      var bound := VerifyPayloadBinding(w, batch, decoded.value);
      if !bound { return false; }
      rest := rest - {s};
    }
    return true;
  }

  /** The batches that were collected, as a map from their sequences. */
  ghost predicate Collects(batches: seq<Batch>, bySequence: map<int, Batch>) {
    && (forall b | b in batches :: b.sequence >= 0)
    && (forall b | b in batches && b.sequence > 0 :: b.sequence in bySequence && bySequence[b.sequence] == b)
    && (forall s | s in bySequence :: s > 0 && bySequence[s] in batches && bySequence[s].sequence == s)
  }

  lemma CollectedBounds(batches: seq<Batch>, bySequence: map<int, Batch>, lo: int, hi: int)
    requires Collects(batches, bySequence) && bySequence != map[]
    requires lo in bySequence && hi in bySequence && forall s | s in bySequence :: lo <= s <= hi
    ensures LowSequence(batches) == lo && HighSequence(batches) == hi
    ensures exists b :: b in batches && b.sequence > 0
  {
    assert bySequence[lo] in batches && bySequence[hi] in batches;
    LowIs(batches, lo);
    HighIs(batches, hi);
  }

  lemma NothingCollected(batches: seq<Batch>, bySequence: map<int, Batch>)
    requires Collects(batches, bySequence)
    ensures bySequence == map[] <==> forall b | b in batches :: b.sequence == 0
  {
    if bySequence != map[] {
      var s := Sets.Pick(bySequence.Keys);
      assert bySequence[s] in batches;
    }
  }

  /** The links and the batches they span, once the batches have been collected. */
  method CheckChain(w: World, pack: Evidence, bySequence: map<int, Batch>) returns (ok: bool)
    requires Collects(pack.content.batches, bySequence)
    ensures ok <==> ChainOk(w, pack)
  {
    hide LinkOk, LinkMatches, BatchOk, SortedLinks, LowSequence, HighSequence, Collects;
    var batches := pack.content.batches;
    var links := SortedLinks(pack.content.links);
    NothingCollected(batches, bySequence);
    if bySequence == map[] {
      return links == [];
    }
    PositiveKeys(batches, bySequence);
    var lo, hi := SequenceBounds(bySequence);
    CollectedBounds(batches, bySequence, lo, hi);
    if links == [] || links[0].sequence != CheckpointSequence(lo) || links[|links| - 1].sequence != hi { return false; }
    var linked, seen := CheckLinks(w.keyOf(pack.publicKey), pack.keyId, links);
    if !linked { return false; }
    ok := CheckBatches(w, bySequence, seen);
    MatchIsSeen(w, batches, bySequence, links, seen);
  }

  lemma PositiveKeys(batches: seq<Batch>, bySequence: map<int, Batch>)
    requires Collects(batches, bySequence)
    ensures forall s | s in bySequence :: s > 0
  {
  }

  method VerifyLedgerLinks(w: World, pack: Evidence) returns (ok: bool)
    ensures ok <==> LedgerOk(w, pack)
  {
    hide ChainOk, WellFormedBatch, NeighboursChain, DistinctSequences;
    var uniform := ValidateLedgerBatchState(pack.content.batches);
    if !uniform { return false; }
    var collected, bySequence := CollectBatches(pack.content.batches, pack.keyId);
    if !collected { return false; }
    var neighbours := CheckNeighbours(pack.content.batches);
    if !neighbours { return false; }
    ok := CheckChain(w, pack, bySequence);
  }

  lemma LowIs(batches: seq<Batch>, lo: int)
    requires lo > 0 && (forall b | b in batches :: b.sequence >= 0)
    requires (exists b :: b in batches && b.sequence == lo) && forall b | b in batches && b.sequence > 0 ::
        lo <= b.sequence
    ensures LowSequence(batches) == lo
  {
  }

  lemma HighIs(batches: seq<Batch>, hi: int)
    requires hi > 0 && (exists b :: b in batches && b.sequence == hi) && forall b | b in batches && b.sequence > 0 ::
        b.sequence <= hi
    ensures HighSequence(batches) == hi
  {
  }

  lemma MatchIsSeen(w: World, batches: seq<Batch>, bySequence: map<int, Batch>, links: seq<Entry>, seen: map<int,
          Entry>)
    requires Collects(batches, bySequence)
    requires forall l | l in links :: l.sequence in seen && seen[l.sequence] == l
    requires forall s | s in seen :: seen[s] in links && seen[s].sequence == s
    ensures (forall s | s in bySequence ::
        s in seen && bySequence[s].sequence == s && LinkMatches(seen[s], bySequence[s]) && BatchOk(w, bySequence[s]))
       <==> (forall b | b in batches && b.sequence > 0 :: (exists l | l in links :: LinkMatches(l, b)) && BatchOk(w, b))
  {
    hide BatchOk;
  }

  import Sets

  method VerifyEvidencePack(w: World, pack: Evidence, trusted: Option<string>) returns (ok: bool)
    ensures ok <==> Accepts(w, pack, trusted)
  {
    hide VersionFieldsOk, CursorOk, SignatureOk, LedgerOk;
    if w.size(pack) > MAX_BYTES || pack.content.version !in {3, 4, VERSION} { return false; }
    if !VersionFieldsOk(w, pack.content) || !CursorOk(pack.content) || !SignatureOk(w, pack, trusted) { return false; }
    ok := VerifyLedgerLinks(w, pack);
  }
}
