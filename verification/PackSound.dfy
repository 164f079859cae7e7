/** What an accepted pack proves, stated on the pack as it was received. */
module PackSound {
  import opened Crypto
  import opened LedgerSpec
  import opened Pack
  import opened PackVerify

  // ---------------------------------------------------------------- the signature over the whole pack

  /** What the signature of an accepted pack covers: it is the auditor's own key, when one
      is given, that signed the version, the hash of the content as it is read here, the
      ledger head and the time. */
  lemma AcceptedSigned(w: World, pack: Evidence, trusted: Option<string>)
    requires Accepts(w, pack, trusted)
    ensures pack.contentHash == w.env.sha(w.content(pack.content))
    ensures pack.keyId == w.keyOf(pack.publicKey).id && (trusted.Some? ==> pack.publicKey == trusted.value)
    ensures w.keyOf(pack.publicKey).verify(
      w.statement(pack.content.version, pack.contentHash, pack.content.head, pack.generatedAt, pack.keyId),
      pack.signature)
    ensures pack.keyId != "" && pack.publicKey != "" && pack.signature != ""
  {
    hide LedgerOk, CursorOk, VersionFieldsOk;
  }

  /** The canonical encoding of a content can be read back. */
  ghost predicate ReadsBack(w: World) {
    forall c :: w.readContent(w.content(c)) == Some(c)
  }

  /** Nothing can be altered under a signed hash: two packs that are accepted under one
      trusted key and carry the same content hash have the same content, or their two
      encodings are a collision. */
  lemma SameHashSameContent(w: World, a: Evidence, b: Evidence, trusted: string)
    requires Accepts(w, a, Some(trusted)) && Accepts(w, b, Some(trusted)) && ReadsBack(w)
    requires a.contentHash == b.contentHash
    ensures a.publicKey == b.publicKey && a.keyId == b.keyId
    ensures a.content == b.content || Collision(w.env.sha, w.content(a.content), w.content(b.content))
  {
    hide Accepts;
    AcceptedSigned(w, a, Some(trusted));
    AcceptedSigned(w, b, Some(trusted));
    if w.content(a.content) == w.content(b.content) {
      assert Some(a.content) == w.readContent(w.content(a.content)) == Some(b.content);
    }
  }

  /** The rest of the envelope: its size and version, the continuation cursor, which fields
      its version may carry, and that ledgered and other batches are not mixed. */
  lemma AcceptedEnvelope(w: World, pack: Evidence, trusted: Option<string>)
    requires Accepts(w, pack, trusted)
    ensures w.size(pack) <= 5 * 1024 * 1024 && pack.content.version in {3, 4, 5}
    ensures var batches, next := pack.content.batches, pack.content.nextCursor;
      if pack.content.truncated then next > 0 && batches != [] && batches[|batches| - 1].id == next else next == 0
    ensures forall b | b in pack.content.batches ::
      && (pack.content.version < 5 ==> b.attributionStatus == "")
      && forall e | e in b.events ::
        && (e.attribution.Some? ==> pack.content.version == 5 && w.attributed(b.attributionStatus) == Complete)
        && (pack.content.version == 3 ==> e.severity == "" && !e.muted)
    ensures
      || (forall b | b in pack.content.batches :: b.sequence > 0)
      || ((forall b | b in pack.content.batches :: b.sequence == 0) && pack.content.links == [])
  {
    hide SignatureOk, WellFormedBatch, NeighboursChain, DistinctSequences, BatchOk, LinkMatches, LinkOk;
    SortedLength(pack.content.links);
  }

  /** The batches among themselves: hashes and key IDs are well formed, no sequence occurs
      twice, and a batch that directly follows another in the ledger carries its hash,
      wherever the two stand in the pack. */
  lemma AcceptedTogether(w: World, pack: Evidence, trusted: Option<string>)
    requires Accepts(w, pack, trusted)
    ensures forall b | b in pack.content.batches :: b.keyId == "" || b.keyId == w.keyOf(pack.publicKey).id
    ensures forall b | b in pack.content.batches && b.sequence > 0 :: IsHash(b.hash) && IsHashOrEmpty(b.prevHash)
    ensures forall i, j | 0 <= i < j < |pack.content.batches| && pack.content.batches[i].sequence > 0 ::
      pack.content.batches[i].sequence != pack.content.batches[j].sequence
    ensures forall a, b | a in pack.content.batches && b in pack.content.batches && b.sequence > 0 ::
      a.sequence == b.sequence + 1 ==> a.prevHash == b.hash
  {
    hide BatchOk, LinkOk, VersionFieldsOk, CursorOk, SortedLinks, LowSequence, HighSequence;
    var links := SortedLinks(pack.content.links);
    forall a, b | a in pack.content.batches && b in pack.content.batches && b.sequence > 0
        && a.sequence == b.sequence + 1
      ensures a.prevHash == b.hash
    {
      var x :| x in links && LinkMatches(x, a);
      var y :| y in links && LinkMatches(y, b);
      ConsecutiveLinks(w.keyOf(pack.publicKey), pack.keyId, links, x, y);
    }
  }

  lemma ConsecutiveLinks(key: PublicKey, keyId: string, links: seq<Entry>, x: Entry, y: Entry)
    requires LinksOk(key, keyId, links) && x in links && y in links && x.sequence == y.sequence + 1
    ensures x.prevHash == y.entryHash
  {
    var i :| 0 <= i < |links| && links[i] == x;
    var j :| 0 <= j < |links| && links[j] == y;
    LinksContiguous(key, keyId, links, i);
    LinksContiguous(key, keyId, links, j);
    assert LinkOk(key, keyId, links, i);
  }

  // ---------------------------------------------------------------- the chain

  /** The smallest and the largest ledger sequence of some batches. */
  ghost predicate Ranges(batches: seq<Batch>, lo: int, hi: int) {
    && (exists b | b in batches :: b.sequence == lo)
    && (exists b | b in batches :: b.sequence == hi)
    && 0 < lo && forall b | b in batches :: lo <= b.sequence <= hi
  }

  /** Sorted links have one entry per sequence, without gaps. */
  lemma {:induction false} LinksContiguous(key: PublicKey, keyId: string, links: seq<Entry>, i: nat)
    requires i < |links| && LinksOk(key, keyId, links)
    ensures links[i].sequence == links[0].sequence + i
    decreases i
  {
    assert LinkOk(key, keyId, links, i);
    if i > 0 { LinksContiguous(key, keyId, links, i - 1); }
  }

  lemma SameElements(links: seq<Entry>)
    ensures forall l :: l in SortedLinks(links) <==> l in links
  {
    forall l ensures l in SortedLinks(links) <==> l in links {
      assert l in multiset(SortedLinks(links)) <==> l in multiset(links);
    }
  }

  ghost predicate Holds(links: seq<Entry>, sequence: int) {
    exists l | l in links :: l.sequence == sequence
  }

  /** A signed link that continues another link of the same pack, or opens the range. */
  ghost predicate Continues(key: PublicKey, links: seq<Entry>, first: int, l: Entry) {
    && key.verify(l.entryHash, l.signature)
    && (l.sequence == 1 ==> l.prevHash == "")
    && (l.sequence > first ==> exists p | p in links :: p.sequence == l.sequence - 1 && p.entryHash == l.prevHash)
  }

  /** No gap, no repetition, and every link continues its predecessor. */
  ghost predicate UnbrokenChain(key: PublicKey, links: seq<Entry>, first: int, last: int) {
    && |links| == last - first + 1
    && (forall s | first <= s <= last :: Holds(links, s))
    && (forall l | l in links :: first <= l.sequence <= last && Continues(key, links, first, l))
  }

  lemma SortedUnbroken(key: PublicKey, keyId: string, links: seq<Entry>)
    requires links != [] && LinksOk(key, keyId, links)
    ensures UnbrokenChain(key, links, links[0].sequence, links[|links| - 1].sequence)
  {
    var first, last := links[0].sequence, links[|links| - 1].sequence;
    LinksContiguous(key, keyId, links, |links| - 1);
    forall s | first <= s <= last ensures Holds(links, s) {
      LinksContiguous(key, keyId, links, s - first);
      assert links[s - first] in links;
    }
    forall l | l in links ensures first <= l.sequence <= last && Continues(key, links, first, l) {
      var i :| 0 <= i < |links| && links[i] == l;
      LinksContiguous(key, keyId, links, i);
      assert LinkOk(key, keyId, links, i) && LinkOk(key, keyId, links, 0);
      if i > 0 { assert links[i - 1] in links; }
    }
  }

  lemma UnbrokenUnsorted(key: PublicKey, links: seq<Entry>, first: int, last: int)
    requires UnbrokenChain(key, SortedLinks(links), first, last)
    ensures UnbrokenChain(key, links, first, last)
  {
    hide SortedLinks;
    SortedLength(links);
    SameElements(links);
    var sorted := SortedLinks(links);
    forall s | first <= s <= last ensures Holds(links, s) { assert Holds(sorted, s); }
    forall l | l in links ensures Continues(key, links, first, l) { assert Continues(key, sorted, first, l); }
  }

  lemma SortedLength(links: seq<Entry>)
    ensures |SortedLinks(links)| == |links|
  {
  }

  /** The chain an accepted pack carries: exactly one signed link for every sequence from
      one before the smallest exported one (or 1) to the largest, each continuing the
      link before it, starting without a predecessor at sequence 1. */
  lemma AcceptedChain(w: World, pack: Evidence, trusted: Option<string>, lo: int, hi: int)
    requires Accepts(w, pack, trusted) && Ranges(pack.content.batches, lo, hi)
    ensures UnbrokenChain(w.keyOf(pack.publicKey), pack.content.links, if lo > 1 then lo - 1 else 1, hi)
  {
    hide BatchOk, LinkMatches, LinkOk, VersionFieldsOk, SignatureOk, CursorOk, WellFormedBatch, NeighboursChain,
        SortedLinks, Uniform, UnbrokenChain, LowSequence, HighSequence;
    var key := w.keyOf(pack.publicKey);
    assert LinksOk(key, pack.keyId, SortedLinks(pack.content.links));
    SortedUnbroken(key, pack.keyId, SortedLinks(pack.content.links));
    RangeIs(pack.content.batches, lo, hi);
    var first, last := CheckpointSequence(LowSequence(pack.content.batches)), HighSequence(pack.content.batches);
    UnbrokenUnsorted(key, pack.content.links, first, last);
  }

  lemma RangeIs(batches: seq<Batch>, lo: int, hi: int)
    requires Ranges(batches, lo, hi)
    ensures LowSequence(batches) == lo && HighSequence(batches) == hi
  {
    LowIs(batches, lo);
    HighIs(batches, hi);
  }

  /** Every exported batch of an accepted pack is the one its link names, rehashes from
      its own payload, and shows only events that its payload holds, each once and each
      agreeing with it in every signed column. */
  lemma AcceptedBatch(w: World, pack: Evidence, trusted: Option<string>, batch: Batch)
    requires Accepts(w, pack, trusted) && batch in pack.content.batches && batch.sequence > 0
    ensures exists l | l in pack.content.links ::
      l == Entry(batch.sequence, batch.id, batch.prevHash, batch.hash, batch.signature, batch.keyId)
    ensures batch.hash == w.env.sha(Framed(batch.prevHash, batch.payload))
    ensures batch.payload != "" && w.env.decode(batch.payload).Some?
    ensures var signed := w.env.decode(batch.payload).value;
      && signed.batchId == batch.id && signed.generation == batch.generation && signed.observedAt == batch.observedAt
      && signed.triggerId == batch.triggerId && signed.triggerIds == batch.triggerIds
      && |signed.events| == signed.changeCount
      && signed.changeCount == (if batch.ledgerChangeCount == 0 then batch.changeCount else batch.ledgerChangeCount)
      && (forall i, j | 0 <= i < j < |signed.events| :: signed.events[i].id != signed.events[j].id)
      && (forall i, j | 0 <= i < j < |batch.events| :: batch.events[i].id != batch.events[j].id)
      && (forall e | e in batch.events :: exists s | s in signed.events ::
            && e.batchId == batch.id
            && s.id == e.id && s.generation == e.generation && s.observedAt == e.observedAt
            && s.body.collector == e.collector && s.body.eventType == e.eventType && s.body.resourceId == e.resourceId
            && s.body.name == e.name && s.body.muted == e.muted && s.body.attribution == e.attribution
            && w.decodeFields(s.body.changes).Some? && e.fields == Counted(w.decodeFields(s.body.changes).value)
            && w.canonical(e.before) == w.canonical(w.display(s.body.before))
                && w.canonical(e.after) == w.canonical(w.display(s.body.after))
            && SnapshotAgrees(w, e.beforeMeta, s.body.before) && SnapshotAgrees(w, e.afterMeta, s.body.after))
  {
    hide VersionFieldsOk, SignatureOk, CursorOk, WellFormedBatch, NeighboursChain, SortedLinks, Uniform,
        SnapshotAgrees, LowSequence, HighSequence;
    SameElements(pack.content.links);
    var links := SortedLinks(pack.content.links);
    assert batch in pack.content.batches && batch.sequence > 0;
    var l :| l in links && LinkMatches(l, batch);
    var signed := w.env.decode(batch.payload).value;
    forall e | e in batch.events
      ensures exists s | s in signed.events ::
            && e.batchId == batch.id
            && s.id == e.id && s.generation == e.generation && s.observedAt == e.observedAt
            && s.body.collector == e.collector && s.body.eventType == e.eventType && s.body.resourceId == e.resourceId
            && s.body.name == e.name && s.body.muted == e.muted && s.body.attribution == e.attribution
            && w.decodeFields(s.body.changes).Some? && e.fields == Counted(w.decodeFields(s.body.changes).value)
            && w.canonical(e.before) == w.canonical(w.display(s.body.before))
                && w.canonical(e.after) == w.canonical(w.display(s.body.after))
            && SnapshotAgrees(w, e.beforeMeta, s.body.before) && SnapshotAgrees(w, e.afterMeta, s.body.after)
    {
      var s :| s in signed.events && s.id == e.id && EventBound(w, e, s, batch.id);
    }
  }
}
