/**
 Message ids and their orders: lib/MessageId.cc, lib/MessageIdUtil.h and the comparison that the
 ack grouping tracker defines for itself in lib/AckGroupingTrackerEnabled.cc.
 */
module MessageIds {

  const INT_MAX: int := 0x7fff_ffff

  type Int32 = x: int | -0x8000_0000 <= x <= INT_MAX

  /** A message id. `batchIndex` is negative for a whole entry. */
  datatype MessageId = MessageId(ledgerId: int, entryId: int, partition: Int32, batchIndex: Int32, batchSize: Int32)

  const EARLIEST: MessageId := MessageId(-1, -1, -1, -1, 0)

  /** operator< on ids: ledger, entry, then batch index; the partition is ignored. */
  predicate Less(a: MessageId, b: MessageId) {
    if a.ledgerId < b.ledgerId then true
    else if a.ledgerId > b.ledgerId then false
    else if a.entryId < b.entryId then true
    else if a.entryId > b.entryId then false
    else a.batchIndex < b.batchIndex
  }

  /** operator== on ids, which does look at the partition. */
  predicate Same(a: MessageId, b: MessageId) {
    a.ledgerId == b.ledgerId && a.entryId == b.entryId && a.batchIndex == b.batchIndex && a.partition == b.partition
  }

  predicate AtMost(a: MessageId, b: MessageId) {
    Less(a, b) || Same(a, b)
  }

  /** What an ordered set keyed by operator< distinguishes. */
  datatype Key = Key(ledgerId: int, entryId: int, batchIndex: int)

  function KeyOf(m: MessageId): Key {
    Key(m.ledgerId, m.entryId, m.batchIndex)
  }

  /** The order in which such a set is walked through. */
  predicate KeyLess(a: Key, b: Key) {
    || a.ledgerId < b.ledgerId
    || (a.ledgerId == b.ledgerId && a.entryId < b.entryId)
    || (a.ledgerId == b.ledgerId && a.entryId == b.entryId && a.batchIndex < b.batchIndex)
  }

  function Sign(a: int, b: int): int {
    if a < b then -1 else if a == b then 0 else 1
  }

  function CompareLedgerAndEntryId(a: MessageId, b: MessageId): int {
    var r := Sign(a.ledgerId, b.ledgerId);
    if r != 0 then r else Sign(a.entryId, b.entryId)
  }

  /** The tracker's order: an id for the whole entry counts as the largest of its entry. */
  function Compare(a: MessageId, b: MessageId): int {
    var r := CompareLedgerAndEntryId(a, b);
    if r != 0 then r
    else Sign(if a.batchIndex < 0 then INT_MAX else a.batchIndex, if b.batchIndex < 0 then INT_MAX else b.batchIndex)
  }

  function DiscardBatch(m: MessageId): MessageId {
    m.(batchIndex := -1, batchSize := 0)
  }

  function PreviousEntry(m: MessageId): MessageId {
    MessageId(m.ledgerId, m.entryId - 1, m.partition, -1, 0)
  }

  /** A cumulative ack of `ack` covers `m`. */
  predicate Covers(ack: MessageId, m: MessageId) {
    Compare(m, ack) <= 0
  }

  /** Compare is a total preorder. */
  lemma {:induction false} CompareIsTotalPreorder(a: MessageId, b: MessageId, c: MessageId)
    ensures Compare(a, a) == 0
    ensures Compare(a, b) == -Compare(b, a)
    ensures Compare(a, b) <= 0 && Compare(b, c) <= 0 ==> Compare(a, c) <= 0
    ensures Compare(a, b) <= 0 && Compare(b, c) < 0 ==> Compare(a, c) < 0
    ensures Compare(a, b) < 0 && Compare(b, c) <= 0 ==> Compare(a, c) < 0
  {}

  /** An ack of a whole entry covers exactly the messages up to and in it, one of the previous entry those before it. */
  lemma {:induction false} WholeEntryBoundsItsBatch(m: MessageId, k: MessageId)
    ensures Covers(DiscardBatch(m), k) <==>
              k.ledgerId < m.ledgerId || (k.ledgerId == m.ledgerId && k.entryId <= m.entryId)
    ensures Covers(PreviousEntry(m), k) <==>
              k.ledgerId < m.ledgerId || (k.ledgerId == m.ledgerId && k.entryId < m.entryId)
    ensures DiscardBatch(m).partition == PreviousEntry(m).partition == m.partition
  {}

  /**
   Inside one partition operator<, operator== and the key agree: exactly one of a < b, a == b, b < a.
   Across partitions two ids can be neither less, greater nor equal.
   */
  lemma {:induction false} OrderInOnePartition(a: MessageId, b: MessageId)
    ensures Less(a, b) <==> KeyLess(KeyOf(a), KeyOf(b))
    ensures !Less(a, b) && !Less(b, a) <==> KeyOf(a) == KeyOf(b)
    ensures a.partition == b.partition ==> (AtMost(a, b) <==> !Less(b, a))
    ensures KeyOf(a) == KeyOf(b) && a.partition != b.partition ==> !AtMost(a, b) && !AtMost(b, a)
  {}

  /** The two orders differ only inside one entry, when exactly one id is for the whole entry. */
  lemma {:induction false} CompareAgainstLess(a: MessageId, b: MessageId)
    requires a.batchIndex >= -1 && b.batchIndex >= -1
    requires a.batchIndex < INT_MAX && b.batchIndex < INT_MAX
    ensures (Compare(a, b) < 0 <==> Less(a, b)) <==>
            !(a.ledgerId == b.ledgerId && a.entryId == b.entryId && (a.batchIndex < 0) != (b.batchIndex < 0))
  {}
}
