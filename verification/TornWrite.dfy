/** What an interrupted in-place write leaves in a file, and how it is recognised afterwards. */
module TornWrite {

  /** The file after `k` bytes of `after` were written over `before`, ahead of the final truncation. */
  function Torn(before: string, after: string, k: nat): string
    requires k <= |after|
  {
    after[..k] + if k <= |before| then before[k..] else ""
  }

  /** One byte written in place, or appended at the end. */
  function Overwrite(file: string, at: nat, byte: char): string
    requires at <= |file|
  {
    file[..at] + [byte] + if at < |file| then file[at + 1..] else ""
  }

  lemma TornStep(before: string, after: string, k: nat)
    requires k < |after|
    ensures Overwrite(Torn(before, after, k), k, after[k]) == Torn(before, after, k + 1)
  {
    assert after[..k + 1] == after[..k] + [after[k]];
  }

  lemma TornEnds(before: string, after: string)
    ensures Torn(before, after, 0) == before
    ensures Torn(before, after, |after|)[..|after|] == after
  {
  }

  /** Everything a write of `after` over `before` can leave, at whichever byte it stops. */
  ghost predicate Interrupted(file: string, before: string, after: string) {
    file == before || file == after || exists k | 0 <= k <= |after| :: file == Torn(before, after, k)
  }

  function CommonPrefix(a: string, b: string): (n: nat)
    ensures n <= |a| && n <= |b| && a[..n] == b[..n]
    ensures n < |a| && n < |b| ==> a[n] != b[n]
  {
    if a == "" || b == "" || a[0] != b[0] then 0
    else
      var n := CommonPrefix(a[1..], b[1..]);
      assert a[..n + 1] == [a[0]] + a[1..][..n] && b[..n + 1] == [b[0]] + b[1..][..n];
      n + 1
  }

  /** The test made before repairing a file: only the longest prefix shared with `after` is tried. */
  predicate Recognised(file: string, before: string, after: string) {
    file == after || file == before || file == Torn(before, after, CommonPrefix(file, after))
  }

  /** Trying one prefix length is enough: the test accepts exactly what an interrupted write can leave. */
  lemma RecognisesInterrupted(file: string, before: string, after: string)
    ensures Recognised(file, before, after) <==> Interrupted(file, before, after)
  {
    var n := CommonPrefix(file, after);
    if k :| 0 <= k <= |after| && file == Torn(before, after, k) {
      LongerPrefix(file, before, after, k);
    }
  }

  lemma LongerPrefix(file: string, before: string, after: string, k: nat)
    requires k <= |after| && file == Torn(before, after, k)
    ensures file == Torn(before, after, CommonPrefix(file, after))
  {
    var n := CommonPrefix(file, after);
    assert file[..k] == after[..k];
    assert forall i | 0 <= i < k :: file[..k][i] == file[i] && after[..k][i] == after[i];
    assert k <= n;
    assert file == file[..n] + file[n..];
    if k <= |before| {
      assert file[n..] == before[n..];
    }
  }

  /** Interrupting the repair of an interrupted write leaves nothing new. */
  lemma InterruptedAgain(middle: string, before: string, after: string, k: nat)
    requires Interrupted(middle, before, after)
    requires k <= |after|
    ensures Interrupted(Torn(middle, after, k), before, after)
  {
    var file := Torn(middle, after, k);
    if middle == before {
      assert file == Torn(before, after, k);
    } else if middle == after {
      assert file == after;
    } else {
      var j :| 0 <= j <= |after| && middle == Torn(before, after, j);
      if j <= k {
        assert file == Torn(before, after, k);
      } else {
        assert file == middle;
      }
    }
  }
}
