/** A stream as the strictly increasing sequence numbers of its messages. */
module Stream {
  predicate Increasing(log: seq<nat>) {
    forall i, j :: 0 <= i < j < |log| ==> log[i] < log[j]
  }

  /** The messages of the stream from sequence `start` on. */
  function From(log: seq<nat>, start: nat): (s: seq<nat>)
    ensures |s| <= |log|
  {
    if log == [] || log[0] >= start then log else From(log[1..], start)
  }

  lemma {:induction false} FromSkips(log: seq<nat>, start: nat, i: nat)
    requires Increasing(log) && i < |From(log, start)|
    ensures From(log, From(log, start)[i] + 1) == From(log, start)[i + 1..]
  {
    var s := From(log, start);
    if log == [] || log[0] >= start {
      SuffixAfter(log, i);
    } else {
      FromSkips(log[1..], start, i);
      FromMember(log[1..], start, i);
      assert log[0] < log[1..][FromIndex(log[1..], start) + i];
    }
  }

  function FromIndex(log: seq<nat>, start: nat): (n: nat)
    ensures n <= |log| && From(log, start) == log[n..]
  {
    if log == [] || log[0] >= start then 0 else 1 + FromIndex(log[1..], start)
  }

  lemma {:induction false} FromMember(log: seq<nat>, start: nat, i: nat)
    requires i < |From(log, start)|
    ensures From(log, start)[i] == log[FromIndex(log, start) + i]
  {
    var n := FromIndex(log, start);
    assert From(log, start) == log[n..];
  }

  lemma {:induction false} SuffixAfter(log: seq<nat>, i: nat)
    requires Increasing(log) && i < |log|
    ensures From(log, log[i] + 1) == log[i + 1..]
  {
    if i == 0 {
      if |log| > 1 {
        assert log[1..][0] == log[1];
      }
    } else {
      SuffixAfter(log[1..], i - 1);
      assert log[1..][i - 1] == log[i];
      assert log[1..][i..] == log[i + 1..];
    }
  }

  /** The first message after an accepted prefix of `base` extends it. */
  lemma PrefixGrows(base: seq<nat>, accepted: seq<nat>, next: nat)
    requires accepted <= base && |accepted| < |base| && next == base[|accepted|]
    ensures accepted + [next] <= base
  {
  }

  /** A server that has stored less answers with a prefix. */
  lemma {:induction false} FromPrefix(log: seq<nat>, n: nat, start: nat)
    requires Increasing(log) && n <= |log|
    ensures From(log[..n], start) <= From(log, start)
  {
    if n > 0 && log[0] < start {
      assert log[..n][1..] == log[1..][..n - 1];
      FromPrefix(log[1..], n - 1, start);
    } else if n > 0 {
      assert log[..n][0] == log[0];
    }
  }

  lemma {:induction false} FromAtLeast(log: seq<nat>, start: nat)
    requires Increasing(log)
    ensures forall i :: 0 <= i < |From(log, start)| ==> From(log, start)[i] >= start
  {
    if log != [] && log[0] < start {
      FromAtLeast(log[1..], start);
    } else if log != [] {
      assert forall i :: 0 < i < |log| ==> log[0] < log[i];
    }
  }

  /** A suffix of a strictly increasing stream is one too. */
  lemma FromMembers(log: seq<nat>, start: nat)
    requires Increasing(log)
    ensures Increasing(From(log, start)) && forall i :: 0 <= i < |From(log, start)| ==> From(log, start)[i] in log
  {
    var n := FromIndex(log, start);
    assert From(log, start) == log[n..];
  }
}
