/** Reading a log from a record id on. Record ids serve as offsets; the read
    finds its start by binary search. */
module Offsets {
  import opened Records

  predicate Later(rec: Record, offset: RecordId) { rec.id > offset }

  /** sort.Search on the range [i, j): where the bisection ends, on any log. */
  function Search(log: Log, offset: RecordId, i: nat, j: nat): (start: nat)
    requires i <= j <= |log|
    ensures i <= start <= j
    decreases j - i
  {
    if i == j then i
    else
      var h := (i + j) / 2;
      if Later(log[h], offset) then Search(log, offset, i, h) else Search(log, offset, h + 1, j)
  }

  /** What a read after the offset returns; NONE reads the whole log. */
  function ReadAfter(log: Log, offset: RecordId): Log {
    if offset == NONE then log else log[Search(log, offset, 0, |log|)..]
  }

  /** The records later than the offset, in order: the reference. */
  function LaterThan(log: Log, offset: RecordId): Log {
    Filter((rec: Record) => Later(rec, offset), log)
  }

  /** The log is cut at k: earlier records up to k, later ones from k on. */
  ghost predicate CutAt(log: Log, offset: RecordId, k: nat) {
    && k <= |log|
    && (forall i :: 0 <= i < k ==> !Later(log[i], offset))
    && (forall i :: k <= i < |log| ==> Later(log[i], offset))
  }

  ghost predicate Increasing(log: Log) {
    && (forall i :: 0 <= i < |log| ==> log[i].id != NONE)
    && (forall i, j :: 0 <= i < j < |log| ==> log[i].id < log[j].id)
  }

  lemma {:induction false} SearchFindsTheCut(log: Log, offset: RecordId, i: nat, j: nat, k: nat)
    requires i <= k <= j <= |log| && CutAt(log, offset, k)
    ensures Search(log, offset, i, j) == k
    decreases j - i
  {
    if i < j {
      var h := (i + j) / 2;
      if Later(log[h], offset) {
        SearchFindsTheCut(log, offset, i, h, k);
      } else {
        SearchFindsTheCut(log, offset, h + 1, j, k);
      }
    }
  }

  lemma {:induction false} FilterOfCut(log: Log, offset: RecordId, k: nat)
    requires CutAt(log, offset, k)
    ensures LaterThan(log, offset) == log[k..]
  {
    if log != [] {
      var n := |log| - 1;
      if k <= n {
        FilterOfCut(log[..n], offset, k);
        assert log[k..] == log[..n][k..] + [log[n]];
      } else {
        FilterOfCut(log[..n], offset, n);
        assert log[k..] == [] && log[..n][n..] == [];
      }
    }
  }

  lemma {:induction false} AllLater(log: Log, offset: RecordId)
    ensures forall i :: 0 <= i < |LaterThan(log, offset)| ==> Later(LaterThan(log, offset)[i], offset)
    ensures |LaterThan(log, offset)| <= |log|
  {
    if log != [] { AllLater(log[..|log| - 1], offset); }
  }

  lemma {:induction false} LaterSplits(log: Log, more: Log, offset: RecordId)
    ensures LaterThan(log + more, offset) == LaterThan(log, offset) + LaterThan(more, offset)
  {
    FilterAppend((rec: Record) => Later(rec, offset), log, more);
  }

  lemma {:induction false} NoneLater(log: Log, offset: RecordId)
    requires LaterThan(log, offset) == []
    ensures forall i :: 0 <= i < |log| ==> !Later(log[i], offset)
  {
    if log != [] { NoneLater(log[..|log| - 1], offset); }
  }

  /** A suffix that is the filter is a cut. */
  lemma SuffixIsCut(log: Log, offset: RecordId, k: nat)
    requires k <= |log| && LaterThan(log, offset) == log[k..]
    ensures CutAt(log, offset, k)
  {
    var pre, post := log[..k], log[k..];
    AllLater(log, offset);
    assert log == pre + post;
    LaterSplits(pre, post, offset);
    assert forall i :: 0 <= i < |post| ==> post[i] == log[k + i];
    assert CutAt(post, offset, 0);
    FilterOfCut(post, offset, 0);
    assert post[0..] == post;
    assert |LaterThan(pre, offset)| == 0;
    NoneLater(pre, offset);
  }

  /** On any log, the bisected read returns exactly the later records when, and
      only when, no record at or before the offset follows a later one. */
  lemma ReadIsTheFilter(log: Log, offset: RecordId)
    requires offset != NONE
    ensures ReadAfter(log, offset) == LaterThan(log, offset) <==> exists k :: CutAt(log, offset, k)
  {
    var s := Search(log, offset, 0, |log|);
    if ReadAfter(log, offset) == LaterThan(log, offset) {
      SuffixIsCut(log, offset, s);
    }
    if k :| CutAt(log, offset, k) {
      SearchFindsTheCut(log, offset, 0, |log|, k);
      FilterOfCut(log, offset, k);
    }
  }

  lemma {:induction false} IncreasingIsCut(log: Log, offset: RecordId) returns (k: nat)
    requires Increasing(log)
    ensures CutAt(log, offset, k)
  {
    k := 0;
    while k < |log| && !Later(log[k], offset)
      invariant k <= |log| && forall i :: 0 <= i < k ==> !Later(log[i], offset)
    {
      k := k + 1;
    }
  }

  /** With ids in append order every read is the filter. */
  lemma IncreasingReadsExactly(log: Log, offset: RecordId)
    requires Increasing(log)
    ensures ReadAfter(log, offset) == LaterThan(log, offset)
  {
    var k := IncreasingIsCut(log, offset);
    if offset == NONE {
      FilterOfCut(log, offset, 0);
      assert log[0..] == log;
    } else {
      ReadIsTheFilter(log, offset);
    }
  }

  /** A record whose id was minted before the last one's is lost to every reader
      that had caught up, whatever follows. */
  lemma LateRecordIsNeverRead(log: Log, rec: Record, more: Log)
    requires Increasing(log) && log != [] && rec.id <= log[|log| - 1].id
    requires forall i :: 0 <= i < |more| ==> more[i].id > log[|log| - 1].id
    ensures ReadAfter(log + [rec] + more, log[|log| - 1].id) == more
  {
    var all, offset := log + [rec] + more, log[|log| - 1].id;
    assert CutAt(all, offset, |log| + 1);
    SearchFindsTheCut(all, offset, 0, |all|, |log| + 1);
    assert all[|log| + 1..] == more;
  }
}
