/**
 Acknowledging the messages of one batch: lib/BatchMessageAcker.h, the delegation in
 lib/BatchedMessageIdImpl.h and the rules of ConsumerImpl::prepareIndividualAck and
 prepareCumulativeAck that decide when an id is handed to the ack tracker.
 */
module BatchAcker {
  import opened BitSets
  import opened MessageIds

  /**
   The acker shared by the ids of one batch. `bitSet` is null for an id rebuilt from raw bytes
   (batch size 0), whose ack methods always answer false.
   */
  class BatchMessageAcker {
    const batchSize: nat
    const bitSet: BitSet?
    var prevBatchCumulativelyAcked: bool

    // History: the indices acknowledged so far, and how often the previous entry was released.
    ghost var acked: set<nat>
    ghost var previousReleases: nat

    ghost predicate Valid()
      reads this, bitSet
    {
      && (bitSet == null <==> batchSize == 0)
      && (bitSet != null ==> bitSet.Valid() && bitSet.Elements() == Range(0, batchSize) - acked)
      && previousReleases == (if prevBatchCumulativelyAcked then 1 else 0)
    }

    /** Every message of the batch has been acknowledged. */
    ghost predicate AllAcked()
      reads this
    {
      batchSize > 0 && Range(0, batchSize) <= acked
    }

    constructor (batchSize: nat)
      ensures Valid() && this.batchSize == batchSize && (bitSet != null ==> fresh(bitSet))
      ensures acked == {} && !prevBatchCumulativelyAcked && previousReleases == 0
    {
      this.batchSize := batchSize;
      this.prevBatchCumulativelyAcked := false;
      this.acked := {};
      this.previousReleases := 0;
      if batchSize > 0 {
        var bits := new BitSet(batchSize);
        bits.Set(0, batchSize);
        this.bitSet := bits;
      } else {
        this.bitSet := null;
      }
    }

    method AckIndividual(batchIndex: nat) returns (all: bool)
      requires Valid()
      modifies this`acked, bitSet
      ensures Valid()
      ensures acked == old(acked) + {batchIndex}
      ensures all <==> AllAcked()
    {
      acked := acked + {batchIndex};
      if bitSet == null {
        return false;
      }
      bitSet.Clear(batchIndex);
      all := bitSet.IsEmpty();
      AllAckedIffEmpty(batchSize, acked);
    }

    method AckCumulative(batchIndex: nat) returns (all: bool)
      requires Valid()
      modifies this`acked, bitSet
      ensures Valid()
      ensures acked == old(acked) + Range(0, batchIndex + 1)
      ensures all <==> AllAcked()
    {
      acked := acked + Range(0, batchIndex + 1);
      if bitSet == null {
        return false;
      }
      bitSet.ClearRange(0, batchIndex + 1);
      all := bitSet.IsEmpty();
      AllAckedIffEmpty(batchSize, acked);
    }

    /** True for the first caller only. */
    method ShouldAckPreviousMessageId() returns (first: bool)
      requires Valid()
      modifies this`prevBatchCumulativelyAcked, this`previousReleases
      ensures Valid()
      ensures first <==> old(previousReleases) == 0
      ensures previousReleases == 1
    {
      first := !prevBatchCumulativelyAcked;
      prevBatchCumulativelyAcked := true;
      previousReleases := 1;
    }
  }

  lemma {:induction false} AllAckedIffEmpty(batchSize: nat, acked: set<nat>)
    ensures Range(0, batchSize) - acked == {} <==> Range(0, batchSize) <= acked
  {
    var left := Range(0, batchSize) - acked;
    if left == {} {
      forall i | i in Range(0, batchSize)
        ensures i in acked
      {
        assert i !in left;
      }
    }
  }

  /** The k-th message of the entry of `m`. */
  function Member(m: MessageId, k: nat): MessageId
    requires k <= INT_MAX
  {
    m.(batchIndex := k)
  }

  /**
   Individual ack of a message of a batch (or, with a null acker, of an entry of its own, which may
   be the last of a chunked message). With
   batch-index acks off, the whole entry is released exactly when every index has been acked.
   */
  method PrepareIndividualAck(m: MessageId, chunked: bool, acker: BatchMessageAcker?, batchIndexAckEnabled: bool)
    returns (id: MessageId, ready: bool)
    requires acker != null ==> acker.Valid() && m.batchIndex >= 0 && !chunked
    modifies if acker == null then {} else {acker, acker.bitSet}
    ensures acker == null ==> ready && id == if chunked then m else DiscardBatch(m)
    ensures acker != null ==>
              && acker.Valid() && acker.acked == old(acker.acked) + {m.batchIndex as nat}
              && acker.previousReleases == old(acker.previousReleases)
              && (acker.AllAcked() ==> ready && id == DiscardBatch(m))
              && (!acker.AllAcked() ==> ready == batchIndexAckEnabled && (ready ==> id == m))
  {
    var all := true;
    if acker != null {
      all := acker.AckIndividual(m.batchIndex);
    }
    if all {
      return if chunked then m else DiscardBatch(m), true;
    } else if batchIndexAckEnabled {
      return m, true;
    } else {
      return EARLIEST, false;
    }
  }

  /**
   Cumulative ack of a message of a batch. With batch-index acks off, the whole entry is released
   exactly when every index has been acked; before that the previous entry is released at most
   once, and no released id covers a message of the batch that is not acked yet.
   */
  method PrepareCumulativeAck(m: MessageId, acker: BatchMessageAcker?, batchIndexAckEnabled: bool)
    returns (id: MessageId, ready: bool)
    requires acker != null ==> acker.Valid() && m.batchIndex >= 0
    modifies if acker == null then {} else {acker, acker.bitSet}
    ensures acker == null ==> ready && id == DiscardBatch(m)
    ensures acker != null ==>
              && acker.Valid() && acker.acked == old(acker.acked) + Range(0, m.batchIndex as nat + 1)
              && old(acker.previousReleases) <= acker.previousReleases <= 1
              && (acker.AllAcked() || batchIndexAckEnabled ==> acker.previousReleases == old(acker.previousReleases))
              && (acker.AllAcked() ==> ready && id == DiscardBatch(m))
              && (!acker.AllAcked() && !batchIndexAckEnabled ==>
                    && (ready <==> old(acker.previousReleases) == 0) && acker.previousReleases == 1
                    && (ready ==> id == PreviousEntry(m)))
              && (!acker.AllAcked() && batchIndexAckEnabled ==> ready && id == m)
    ensures acker != null && ready ==>
              forall k | 0 <= k < acker.batchSize && k <= INT_MAX && k !in acker.acked :: !Covers(id, Member(m, k))
  {
    var all := true;
    if acker != null {
      all := acker.AckCumulative(m.batchIndex);
    }
    if all {
      id, ready := DiscardBatch(m), true;
      assert acker != null ==> forall k | 0 <= k < acker.batchSize :: k in Range(0, acker.batchSize);
    } else if batchIndexAckEnabled {
      id, ready := m, true;
      var hi: nat := m.batchIndex + 1;
      assert forall k: nat | k < hi :: k in Range(0, hi);
    } else {
      var first := acker.ShouldAckPreviousMessageId();
      id, ready := if first then PreviousEntry(m) else EARLIEST, first;
    }
  }

  datatype Ack = Individual(index: nat) | Cumulative(index: nat)

  ghost function Indices(a: Ack): set<nat> {
    match a
    case Individual(i) => {i}
    case Cumulative(i) => Range(0, i + 1)
  }

  /** The indices that a sequence of acks has acknowledged. */
  ghost function AckedBy(acks: seq<Ack>): set<nat> {
    if acks == [] then {} else AckedBy(acks[..|acks| - 1]) + Indices(acks[|acks| - 1])
  }

  datatype Release = Nothing | WholeEntry | PreviousEntryOnly

  /** The id that a release hands to the tracker. */
  function ReleasedId(r: Release, m: MessageId): MessageId
    requires !r.Nothing?
  {
    if r.WholeEntry? then DiscardBatch(m) else PreviousEntry(m)
  }

  /** The t-th ack is cumulative and leaves some message of the batch unacked. */
  ghost predicate ShortAt(batchSize: nat, acks: seq<Ack>, t: nat)
    requires t < |acks|
  {
    acks[t].Cumulative? && !(Range(0, batchSize) <= AckedBy(acks[..t + 1]))
  }

  ghost predicate FirstShort(batchSize: nat, acks: seq<Ack>, t: nat)
    requires t < |acks|
  {
    ShortAt(batchSize, acks, t) && forall u | 0 <= u < t :: !ShortAt(batchSize, acks, u)
  }

  /**
   Every sequence of acks on one batch, with batch-index acks off. After each ack the whole entry
   is released exactly when the indices acked so far cover the batch; the previous entry is
   released exactly by the first cumulative ack that leaves the batch uncovered, so at most once; no
   release covers an unacked message.
   */
  method RunAcks(entry: MessageId, batchSize: nat, acks: seq<Ack>) returns (releases: seq<Release>)
    requires 0 < batchSize <= INT_MAX
    requires forall a | a in acks :: a.index < batchSize
    ensures |releases| == |acks|
    ensures forall t | 0 <= t < |acks| ::
              releases[t].WholeEntry? <==> Range(0, batchSize) <= AckedBy(acks[..t + 1])
    ensures forall t | 0 <= t < |acks| ::
              releases[t].PreviousEntryOnly? <==> FirstShort(batchSize, acks, t)
    ensures forall t, u | 0 <= t < u < |acks| :: !(releases[t].PreviousEntryOnly? && releases[u].PreviousEntryOnly?)
    ensures forall t, k |
              0 <= t < |acks| && !releases[t].Nothing? && 0 <= k < batchSize && k !in AckedBy(acks[..t + 1]) ::
              !Covers(ReleasedId(releases[t], entry), Member(entry, k))
  {
    hide AckedBy, Covers, Range, BatchMessageAcker.Valid;
    var acker := new BatchMessageAcker(batchSize);
    releases := [];
    NothingAcked();
    for t := 0 to |acks|
      invariant acker.Valid() && acker.batchSize == batchSize && fresh(acker) && fresh(acker.bitSet)
      invariant acker.acked == AckedBy(acks[..t])
      invariant |releases| == t
      invariant forall u | 0 <= u < t :: releases[u].WholeEntry? <==> Range(0, batchSize) <= AckedBy(acks[..u + 1])
      invariant forall u | 0 <= u < t :: releases[u].PreviousEntryOnly? <==> FirstShort(batchSize, acks, u)
      invariant acker.previousReleases == 0 ==> forall u | 0 <= u < t :: !ShortAt(batchSize, acks, u)
      invariant acker.previousReleases != 0 ==> exists u | 0 <= u < t :: ShortAt(batchSize, acks, u)
    {
      AckedByNext(acks, t);
      var release := AckOne(entry, acker, acks[t]);
      releases := releases + [release];
      if acker.previousReleases != 0 && !ShortAt(batchSize, acks, t) {
        ghost var u :| 0 <= u < t && ShortAt(batchSize, acks, u);
        assert u < t + 1;
      }
    }
    forall t, k | 0 <= t < |acks| && !releases[t].Nothing? && 0 <= k < batchSize && k !in AckedBy(acks[..t + 1])
      ensures !Covers(ReleasedId(releases[t], entry), Member(entry, k))
    {
      NotCovered(entry, batchSize, k, AckedBy(acks[..t + 1]), releases[t]);
    }
  }

  lemma {:induction false} NothingAcked()
    ensures AckedBy([]) == {}
  {
  }

  lemma {:induction false} AckedByNext(acks: seq<Ack>, t: nat)
    requires t < |acks|
    ensures AckedBy(acks[..t + 1]) == AckedBy(acks[..t]) + Indices(acks[t])
  {
    assert acks[..t + 1][..t] == acks[..t];
  }

  lemma {:induction false} NotCovered(entry: MessageId, batchSize: nat, k: nat, acked: set<nat>, release: Release)
    requires k < batchSize <= INT_MAX && k !in acked && !release.Nothing?
    requires release.WholeEntry? ==> Range(0, batchSize) <= acked
    ensures !Covers(ReleasedId(release, entry), Member(entry, k))
  {
    assert k in Range(0, batchSize);
    WholeEntryBoundsItsBatch(entry, Member(entry, k));
  }

  /** One ack of the batch and what it releases. */
  method AckOne(entry: MessageId, acker: BatchMessageAcker, a: Ack) returns (release: Release)
    requires acker.Valid() && acker.bitSet != null
    requires a.index < acker.batchSize <= INT_MAX
    modifies acker, acker.bitSet
    ensures acker.Valid() && acker.acked == old(acker.acked) + Indices(a)
    ensures release.WholeEntry? <==> Range(0, acker.batchSize) <= acker.acked
    ensures
      var short := a.Cumulative? && !(Range(0, acker.batchSize) <= acker.acked);
      && (release.PreviousEntryOnly? <==> short && old(acker.previousReleases) == 0)
      && acker.previousReleases == if short then 1 else old(acker.previousReleases)
  {
    var m := entry.(batchIndex := a.index);
    var id, ready;
    if a.Individual? {
      id, ready := PrepareIndividualAck(m, false, acker, false);
    } else {
      id, ready := PrepareCumulativeAck(m, acker, false);
    }
    release := if !ready then Nothing else if id == DiscardBatch(m) then WholeEntry else PreviousEntryOnly;
  }
}
