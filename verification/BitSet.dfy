/**
 The word-array bit set of lib/BitSet.h: a vector of 64-bit words, of which the first
 `wordsInUse` are significant, standing for a finite set of non-negative integers. The
 contracts of the methods speak only of that set (`Elements`) and of the representation
 invariant (`Valid`).
 */
module BitSets {
  import opened BitWords

  /** Member test on a vector of words: bit i % 64 of word i / 64. */
  ghost predicate InWords(words: seq<Word>, i: nat) {
    i / 64 < |words| && Bit(words[i / 64], i % 64)
  }

  ghost function ElementsOf(words: seq<Word>): set<nat> {
    set i: nat | 0 <= i < 64 * |words| && InWords(words, i)
  }

  predicate Between(from: nat, i: nat, to: nat) {
    from <= i < to
  }

  ghost function Range(from: nat, to: nat): set<nat> {
    set i: nat | from <= i < to && Between(from, i, to)
  }

  lemma {:induction false} InElementsOf(words: seq<Word>, i: nat)
    ensures i in ElementsOf(words) <==> InWords(words, i)
  {}

  /** A run of words is zero exactly when it holds no element. */
  lemma {:induction false} NonZeroWordHasElement(words: seq<Word>, k: nat)
    requires k < |words| && words[k] != 0
    ensures ElementsOf(words) != {}
  {
    WordLimitIsPow2();
    var j := SomeBit(words[k], 64);
    var i := 64 * k + j;
    assert InWords(words, i);
    assert i in ElementsOf(words);
  }

  lemma {:induction false} ZeroWordsHaveNoElement(words: seq<Word>, i: nat)
    requires i / 64 < |words| ==> words[i / 64] == 0
    ensures !InWords(words, i)
  {
    BitOfZero(i % 64);
  }

  function FirstWordMask(from: nat): Word {
    ShiftLeft(WORD_MASK, SafeShiftCount(64, from))
  }

  function LastWordMask(to: nat): Word {
    ShiftRight(WORD_MASK, SafeShiftCount(64, -(to as int)))
  }

  /** The masks of set and clear select exactly the positions of [from, to) in their words. */
  lemma {:induction false} MaskBits(from: nat, to: nat, j: nat)
    requires j < 64 && to > 0
    ensures Bit(FirstWordMask(from), j) <==> from % 64 <= j
    ensures Bit(LastWordMask(to), j) <==> j <= (to - 1) % 64
  {
    hide Bit, ShiftLeft, ShiftRight, Pow2;
    BitOfShiftLeft(WORD_MASK, from % 64, j);
    if from % 64 <= j { BitOfMask(j - from % 64); }
    var n: nat := 63 - (to - 1) % 64;
    assert -(to as int) % 64 == n;
    BitOfShiftRight(WORD_MASK, n, j);
    if j + n < 64 {
      BitOfMask(j + n);
    } else {
      WordLimitIsPow2();
      NoBitAbove(WORD_MASK, 64, j + n);
    }
  }

  class BitSet {
    var words: seq<Word>
    var wordsInUse: nat

    /** Words past `wordsInUse` are zero and the last word in use is not. */
    ghost predicate Valid()
      reads this
    {
      && wordsInUse <= |words|
      && (forall k | wordsInUse <= k < |words| :: words[k] == 0)
      && (wordsInUse > 0 ==> words[wordsInUse - 1] != 0)
    }

    ghost function Elements(): set<nat>
      reads this
    {
      ElementsOf(words)
    }

    constructor (numBits: nat)
      requires numBits > 0
      ensures Valid() && Elements() == {}
    {
      words := seq(numBits / 64 + (if numBits % 64 == 0 then 0 else 1), _ => 0);
      wordsInUse := 0;
      new;
      forall i: nat
        ensures !InWords(words, i)
      {
        ZeroWordsHaveNoElement(words, i);
      }
    }

    method IsEmpty() returns (r: bool)
      requires Valid()
      ensures r <==> Elements() == {}
    {
      r := wordsInUse == 0;
      if r {
        forall i: nat ensures !InWords(words, i) { ZeroWordsHaveNoElement(words, i); }
      } else {
        NonZeroWordHasElement(words, wordsInUse - 1);
      }
    }

    method Get(bitIndex: nat) returns (r: bool)
      requires Valid()
      ensures r <==> bitIndex in Elements()
    {
      var i := bitIndex / 64;
      SingleBitTest(if i < |words| then words[i] else 0, bitIndex % 64);
      InElementsOf(words, bitIndex);
      if wordsInUse <= i { ZeroWordsHaveNoElement(words, bitIndex); }
      r := i < wordsInUse && And(words[i], ShiftLeft(1, SafeShiftCount(64, bitIndex))) != 0;
    }

    /** The words sent on the wire: they encode exactly the elements, with no trailing zero word. */
    function WordsInUse(): (r: seq<Word>)
      requires Valid()
      reads this
      ensures ElementsOf(r) == Elements()
      ensures |r| > 0 ==> r[|r| - 1] != 0
    {
      SameElements(words, words[..wordsInUse]);
      words[..wordsInUse]
    }

    method ExpandTo(wordIndex: nat)
      requires Valid()
      modifies this
      ensures wordsInUse == if old(wordsInUse) < wordIndex + 1 then wordIndex + 1 else old(wordsInUse)
      ensures wordsInUse <= |words|
      ensures forall k | wordsInUse <= k < |words| :: words[k] == 0
      ensures old(wordsInUse) >= wordIndex + 1 ==> words == old(words)
      ensures Elements() == old(Elements())
    {
      var wordsRequired := wordIndex + 1;
      if wordsInUse < wordsRequired {
        // std::vector::resize may also shrink; the words it drops are zero
        words := Resize(words, wordsRequired);
        SameElements(words, old(words));
        wordsInUse := wordsRequired;
      }
    }

    method RecalculateWordsInUse()
      requires wordsInUse <= |words|
      requires forall k | wordsInUse <= k < |words| :: words[k] == 0
      modifies this`wordsInUse
      ensures Valid()
    {
      var i := wordsInUse as int - 1;
      while i >= 0
        invariant -1 <= i < wordsInUse
        invariant forall k | i < k < |words| :: words[k] == 0
      {
        if words[i] != 0 {
          break;
        }
        i := i - 1;
      }
      wordsInUse := i + 1;
    }

    /** The loops over the intermediate words of set and clear. */
    method Fill(from: nat, to: nat, w: Word)
      requires from <= to <= |words|
      modifies this`words
      ensures |words| == old(|words|)
      ensures forall k | 0 <= k < |words| :: words[k] == if from <= k < to then w else old(words)[k]
    {
      for i := from to to
        invariant |words| == old(|words|)
        invariant forall k | 0 <= k < |words| :: words[k] == if from <= k < i then w else old(words)[k]
      {
        words := words[i := w];
      }
    }

    method Set(fromIndex: nat, toIndex: nat)
      requires fromIndex <= toIndex
      modifies this
      requires Valid()
      ensures Valid()
      ensures Elements() == old(Elements()) + Range(fromIndex, toIndex)
    {
      if fromIndex == toIndex {
        return;
      }
      var startWord, endWord := fromIndex / 64, (toIndex - 1) / 64;
      ExpandTo(endWord);
      ghost var before := words;
      var firstMask := FirstWordMask(fromIndex);
      var lastMask := LastWordMask(toIndex);
      if startWord == endWord {
        words := words[startWord := WordOr(words[startWord], And(firstMask, lastMask))];
      } else {
        words := words[startWord := WordOr(words[startWord], firstMask)];
        Fill(startWord + 1, endWord, WORD_MASK);
        words := words[endWord := WordOr(words[endWord], lastMask)];
      }
      SetElements(before, words, fromIndex, toIndex);
    }

    /** One past the highest element. */
    method Length() returns (r: nat)
      requires Valid()
      ensures forall i | i in Elements() :: i < r
      ensures r > 0 ==> r - 1 in Elements() && (r - 1) / 64 == wordsInUse - 1
      ensures r == 0 <==> wordsInUse == 0
    {
      NoElementFrom(words, wordsInUse, 64 * wordsInUse);
      if wordsInUse == 0 {
        return 0;
      }
      var zeros := LeadingZeros(words[wordsInUse - 1]);
      HighestElement(words, wordsInUse, zeros);
      r := 64 * (wordsInUse - 1) + (64 - zeros);
    }

    method ClearRange(fromIndex: nat, toIndex: nat)
      requires Valid()
      requires fromIndex <= toIndex
      modifies this
      ensures Valid()
      ensures Elements() == old(Elements()) - Range(fromIndex, toIndex)
    {
      if fromIndex == toIndex {
        return;
      }
      var startWord := fromIndex / 64;
      if startWord >= wordsInUse {
        NoElementFrom(words, wordsInUse, fromIndex);
        return;
      }
      var to := toIndex;
      if (to - 1) / 64 >= wordsInUse {
        to := Length();
        ClampRange(Elements(), fromIndex, to, toIndex);
      }
      ClearWords(fromIndex, to);
      RecalculateWordsInUse();
    }

    /** The word-level part of clear; the range ends inside the words in use. */
    method ClearWords(fromIndex: nat, toIndex: nat)
      requires Valid() && toIndex > 0
      requires fromIndex / 64 <= (toIndex - 1) / 64 < wordsInUse
      modifies this`words
      ensures |words| == old(|words|)
      ensures forall k | wordsInUse <= k < |words| :: words[k] == 0
      ensures Elements() == old(Elements()) - Range(fromIndex, toIndex)
    {
      ghost var before := words;
      var startWord, endWord := fromIndex / 64, (toIndex - 1) / 64;
      var firstMask, lastMask := FirstWordMask(fromIndex), LastWordMask(toIndex);
      if startWord == endWord {
        words := words[startWord := And(words[startWord], Not(And(firstMask, lastMask)))];
      } else {
        words := words[startWord := And(words[startWord], Not(firstMask))];
        Fill(startWord + 1, endWord, 0);
        words := words[endWord := And(words[endWord], Not(lastMask))];
      }
      ClearElements(before, words, fromIndex, toIndex);
    }

    method Clear(bitIndex: nat)
      requires Valid()
      modifies this
      ensures Valid()
      ensures Elements() == old(Elements()) - {bitIndex}
    {
      ghost var before := words;
      var i := bitIndex / 64;
      if i >= wordsInUse {
        ZeroWordsHaveNoElement(words, bitIndex);
        return;
      }
      var mask := ShiftLeft(1, SafeShiftCount(64, bitIndex));
      words := words[i := And(words[i], Not(mask))];
      SingleBitTest(before[i], bitIndex % 64);
      forall b: nat
        ensures InWords(words, b) <==> InWords(before, b) && b != bitIndex
      {
        ClearedBit(before[i], mask, b % 64);
      }
      RecalculateWordsInUse();
    }
  }

  lemma {:induction false} NoElementFrom(words: seq<Word>, wordsInUse: nat, from: nat)
    requires forall k | wordsInUse <= k < |words| :: words[k] == 0
    requires wordsInUse <= from / 64
    ensures forall i | i in ElementsOf(words) :: i < from
  {
    forall i | i in ElementsOf(words)
      ensures i < from
    {
      if from <= i { ZeroWordsHaveNoElement(words, i); }
    }
  }

  /** Clearing past the highest element clears nothing more. */
  lemma {:induction false} ClampRange(elements: set<nat>, from: nat, length: nat, to: nat)
    requires length <= to && forall i | i in elements :: i < length
    ensures elements - Range(from, length) == elements - Range(from, to)
  {}

  lemma {:induction false} HighestElement(words: seq<Word>, wordsInUse: nat, zeros: nat)
    requires 0 < wordsInUse <= |words| && zeros < 64
    requires Bit(words[wordsInUse - 1], 63 - zeros)
    requires var w := words[wordsInUse - 1]; forall j | 64 - zeros <= j :: !Bit(w, j)
    requires forall k | wordsInUse <= k < |words| :: words[k] == 0
    ensures
      var top := 64 * (wordsInUse - 1) + (63 - zeros);
      top / 64 == wordsInUse - 1 && top in ElementsOf(words) && forall i | i in ElementsOf(words) :: i <= top
  {
    var top := 64 * (wordsInUse - 1) + (63 - zeros);
    assert InWords(words, top);
    NoElementFrom(words, wordsInUse, 64 * wordsInUse);
    forall i | i in ElementsOf(words)
      ensures i <= top
    {
      assert InWords(words, i);
    }
  }

  /** std::vector::resize on zero-initialised words. */
  function Resize(words: seq<Word>, n: nat): (r: seq<Word>)
    ensures |r| == n
    ensures forall k | 0 <= k < n :: r[k] == if k < |words| then words[k] else 0
  {
    seq(n, k requires 0 <= k => if k < |words| then words[k] else 0)
  }

  /** Vectors that differ only in trailing zero words have the same elements. */
  lemma {:induction false} SameElements(a: seq<Word>, b: seq<Word>)
    requires forall k | 0 <= k < |a| :: a[k] == if k < |b| then b[k] else 0
    requires forall k | |a| <= k < |b| :: b[k] == 0
    ensures ElementsOf(a) == ElementsOf(b)
  {
    forall i: nat
      ensures InWords(a, i) <==> InWords(b, i)
    {
      BitOfZero(i % 64);
    }
  }

  /** What the word-level steps of set have done. */
  ghost predicate SetWords(before: seq<Word>, after: seq<Word>, from: nat, to: nat)
    requires from < to && (to - 1) / 64 < |before| == |after|
  {
    var s, e := from / 64, (to - 1) / 64;
    var first, last := FirstWordMask(from), LastWordMask(to);
    && (forall k | 0 <= k < |after| && (k < s || e < k) :: after[k] == before[k])
    && (s == e ==> after[s] == WordOr(before[s], And(first, last)))
    && (s < e ==> after[s] == WordOr(before[s], first) && after[e] == WordOr(before[e], last))
    && (forall k | s < k < e :: after[k] == WORD_MASK)
  }

  /** What the word-level steps of clear have done. */
  ghost predicate ClearedWords(before: seq<Word>, after: seq<Word>, from: nat, to: nat)
    requires to > 0 && from / 64 <= (to - 1) / 64 < |before| == |after|
  {
    var s, e := from / 64, (to - 1) / 64;
    var first, last := FirstWordMask(from), LastWordMask(to);
    && (forall k | 0 <= k < |after| && (k < s || e < k) :: after[k] == before[k])
    && (s == e ==> after[s] == And(before[s], Not(And(first, last))))
    && (s < e ==> after[s] == And(before[s], Not(first)) && after[e] == And(before[e], Not(last)))
    && (forall k | s < k < e :: after[k] == 0)
  }

  lemma {:induction false} SetElements(before: seq<Word>, after: seq<Word>, from: nat, to: nat)
    requires from < to && (to - 1) / 64 < |before| == |after|
    requires SetWords(before, after, from, to)
    ensures ElementsOf(after) == ElementsOf(before) + Range(from, to)
    ensures after[(to - 1) / 64] != 0
  {
    forall i: nat | i / 64 < |after|
      ensures InWords(after, i) <==> InWords(before, i) || from <= i < to
    {
      SetAt(before, after, from, to, i);
    }
    assert InWords(after, to - 1);
    BitOfZero((to - 1) % 64);
  }

  lemma {:induction false} ClearElements(before: seq<Word>, after: seq<Word>, from: nat, to: nat)
    requires to > 0 && from / 64 <= (to - 1) / 64 < |before| == |after|
    requires ClearedWords(before, after, from, to)
    ensures ElementsOf(after) == ElementsOf(before) - Range(from, to)
  {
    forall i: nat | i / 64 < |after|
      ensures InWords(after, i) <==> InWords(before, i) && !(from <= i < to)
    {
      ClearAt(before, after, from, to, i);
    }
  }

  lemma {:induction false} SetAt(before: seq<Word>, after: seq<Word>, from: nat, to: nat, i: nat)
    requires from < to && (to - 1) / 64 < |before| == |after|
    requires i / 64 < |before|
    requires SetWords(before, after, from, to)
    ensures InWords(after, i) <==> InWords(before, i) || from <= i < to
  {
    var first := FirstWordMask(from);
    var last := LastWordMask(to);
    var k, j := i / 64, i % 64;
    MaskBits(from, to, j);
    BitOfMask(j);
    BitOfAnd(first, last, j);
    BitOfOr(before[k], first, j);
    BitOfOr(before[k], last, j);
    BitOfOr(before[k], And(first, last), j);
  }

  lemma {:induction false} ClearAt(before: seq<Word>, after: seq<Word>, from: nat, to: nat, i: nat)
    requires to > 0 && from / 64 <= (to - 1) / 64 < |before| == |after|
    requires i / 64 < |before|
    requires ClearedWords(before, after, from, to)
    ensures InWords(after, i) <==> InWords(before, i) && !(from <= i < to)
  {
    hide Bit, And, Not, FirstWordMask, LastWordMask;
    var first, last := FirstWordMask(from), LastWordMask(to);
    var k, j := i / 64, i % 64;
    MaskBits(from, to, j);
    BitOfZero(j);
    BitOfAnd(first, last, j);
    ClearedBit(before[k], first, j);
    ClearedBit(before[k], last, j);
    ClearedBit(before[k], And(first, last), j);
  }

  lemma {:induction false} ClearedBit(w: Word, mask: Word, j: nat)
    requires j < 64
    ensures Bit(And(w, Not(mask)), j) <==> Bit(w, j) && !Bit(mask, j)
  {
    BitOfNot(mask, j);
    BitOfAnd(w, Not(mask), j);
  }
}
