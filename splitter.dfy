/**
 * The pipe splitter: a flat token sequence is cut into keyword calls at every
 * token equal to the pipe operator; separators that would close an empty group
 * are absorbed.
 */
module Splitter {
  import opened Calls

  /** The number of leading tokens of ts that are not the separator. */
  function RunLength<V(==)>(ts: seq<V>, sep: V): (n: nat)
    ensures n <= |ts|
    ensures forall j :: 0 <= j < n ==> ts[j] != sep
    ensures n < |ts| ==> ts[n] == sep
  {
    if ts == [] || ts[0] == sep then 0 else 1 + RunLength(ts[1..], sep)
  }

  /**
   * Reference definition of the split: skip separators; otherwise the maximal
   * run of non-separator tokens is one call (first token the name, the rest
   * its arguments).
   */
  function Split<V(==)>(ts: seq<V>, sep: V): seq<Call<V>>
    decreases |ts|
  {
    if ts == [] then []
    else if ts[0] == sep then Split(ts[1..], sep)
    else
      var n := RunLength(ts, sep);
      [Call(ts[0], ts[1..n])] + Split(ts[n..], sep)
  }

  /** The tokens of a call sequence, each call written as its name followed by its arguments. */
  function Flatten<V>(calls: seq<Call<V>>): seq<V> {
    if calls == [] then [] else [calls[0].name] + calls[0].args + Flatten(calls[1..])
  }

  /** The token sequence with every separator removed. */
  function Strip<V(==)>(ts: seq<V>, sep: V): seq<V> {
    if ts == [] then [] else (if ts[0] == sep then [] else [ts[0]]) + Strip(ts[1..], sep)
  }

  /** The calls written back as tokens, one separator between consecutive calls. */
  function Join<V>(calls: seq<Call<V>>, sep: V): seq<V> {
    if calls == [] then []
    else if |calls| == 1 then [calls[0].name] + calls[0].args
    else [calls[0].name] + calls[0].args + [sep] + Join(calls[1..], sep)
  }

  /** A separator-free run ends where the first separator after it stands. */
  lemma RunLengthOfGroup<V>(c: seq<V>, r: seq<V>, sep: V)
    requires sep !in c
    ensures RunLength(c + [sep] + r, sep) == |c|
    ensures RunLength(c, sep) == |c|
  {
    var x := c + [sep] + r;
    var n := RunLength(x, sep);
    assert x[|c|] == sep;
    assert forall j :: 0 <= j < |c| ==> x[j] == c[j];
  }

  /** The step the splitter takes when a separator closes a non-empty group. */
  lemma SplitClosesGroup<V>(c: seq<V>, r: seq<V>, sep: V)
    requires c != [] && sep !in c
    ensures Split(c + [sep] + r, sep) == [Call(c[0], c[1..])] + Split(r, sep)
  {
    var x := c + [sep] + r;
    RunLengthOfGroup(c, r, sep);
    assert x[0] == c[0];
    assert x[1..|c|] == c[1..];
    assert x[|c|..] == [sep] + r;
    assert ([sep] + r)[1..] == r;
  }

  /** A separator met while no group is open is absorbed. */
  lemma SplitSkipsSeparator<V>(r: seq<V>, sep: V)
    ensures Split([sep] + r, sep) == Split(r, sep)
  {
  }

  /** What the scanner holds after a prefix: the calls closed so far and the open group. */
  datatype ScanState<V> = ScanState(done: seq<Call<V>>, current: seq<V>)

  /** One token read by the scanner: a separator closes a non-empty open group or is absorbed; any other token joins the group. */
  function Step<V(==)>(s: ScanState<V>, t: V, sep: V): ScanState<V> {
    if t != sep then ScanState(s.done, s.current + [t])
    else if s.current == [] then s
    else ScanState(s.done + [Call(s.current[0], s.current[1..])], [])
  }

  /** The scanner's state after reading ts from left to right. */
  function Scan<V(==)>(ts: seq<V>, sep: V): ScanState<V>
  {
    if ts == [] then ScanState([], []) else Step(Scan(ts[..|ts| - 1], sep), ts[|ts| - 1], sep)
  }

  /** The calls once the scan is over: a non-empty open group is closed. */
  function Finish<V>(s: ScanState<V>): seq<Call<V>> {
    if s.current == [] then s.done else s.done + [Call(s.current[0], s.current[1..])]
  }

  /** One step keeps "closed calls + split of (open group + unread tokens)" unchanged. */
  lemma StepKeepsSplit<V>(s: ScanState<V>, t: V, r: seq<V>, sep: V)
    requires sep !in s.current
    ensures var s' := Step(s, t, sep);
      sep !in s'.current && s'.done + Split(s'.current + r, sep) == s.done + Split(s.current + ([t] + r), sep)
  {
    if t != sep {
      assert s.current + ([t] + r) == (s.current + [t]) + r;
    } else if s.current == [] {
      assert s.current + ([t] + r) == [t] + r;
      SplitSkipsSeparator(r, sep);
      assert s.current + r == r;
    } else {
      assert s.current + ([t] + r) == s.current + [sep] + r;
      SplitClosesGroup(s.current, r, sep);
      assert [] + r == r;
    }
  }

  /**
   * After any prefix, the open group is separator-free, and the calls closed
   * so far followed by the split of (open group + unread tokens) are the split
   * of the whole input.
   */
  lemma {:induction false} ScanInvariant<V>(ts: seq<V>, k: nat, sep: V)
    requires k <= |ts|
    ensures var s := Scan(ts[..k], sep);
      sep !in s.current && Split(ts, sep) == s.done + Split(s.current + ts[k..], sep)
  {
    if k == 0 {
      assert ts[..0] == [];
      assert [] + ts[0..] == ts;
    } else {
      ScanInvariant(ts, k - 1, sep);
      assert ts[..k][..k - 1] == ts[..k - 1];
      assert ts[k - 1..] == [ts[k - 1]] + ts[k..];
      StepKeepsSplit(Scan(ts[..k - 1], sep), ts[k - 1], ts[k..], sep);
    }
  }

  /** Scanning the whole input and closing the open group gives the split. */
  lemma ScanSplits<V>(ts: seq<V>, sep: V)
    ensures Finish(Scan(ts, sep)) == Split(ts, sep)
  {
    ScanInvariant(ts, |ts|, sep);
    assert ts[..|ts|] == ts;
    var s := Scan(ts, sep);
    assert s.current + ts[|ts|..] == s.current;
    if s.current != [] {
      SplitWithoutSeparator(s.current, sep);
    }
  }

  /** A non-empty sequence without separators is one call: first token the name, the rest the arguments. */
  lemma SplitWithoutSeparator<V>(ts: seq<V>, sep: V)
    requires ts != [] && sep !in ts
    ensures Split(ts, sep) == [Call(ts[0], ts[1..])]
  {
    RunLengthOfGroup(ts, [], sep);
    assert ts[0] != sep by { assert ts[0] in ts; }
    assert ts[1..|ts|] == ts[1..];
    assert ts[|ts|..] == [];
  }

  /** A sequence of separators only, the empty one included, splits into no calls. */
  lemma {:induction false} SplitOnlySeparators<V>(ts: seq<V>, sep: V)
    requires forall i :: 0 <= i < |ts| ==> ts[i] == sep
    ensures Split(ts, sep) == []
  {
    if ts != [] {
      SplitOnlySeparators(ts[1..], sep);
    }
  }

  /** No produced call has the separator as its name or among its arguments. */
  lemma {:induction false} SplitAvoidsSeparator<V>(ts: seq<V>, sep: V)
    ensures forall k :: 0 <= k < |Split(ts, sep)| ==> Avoids(Split(ts, sep)[k], sep)
    decreases |ts|
  {
    if ts == [] {
    } else if ts[0] == sep {
      SplitAvoidsSeparator(ts[1..], sep);
    } else {
      var n := RunLength(ts, sep);
      SplitAvoidsSeparator(ts[n..], sep);
      var head := Call(ts[0], ts[1..n]);
      assert Avoids(head, sep) by {
        forall j | 0 <= j < n - 1 ensures ts[1..n][j] != sep {
          assert ts[1..n][j] == ts[j + 1];
        }
      }
    }
  }

  lemma {:induction false} StripAppend<V>(a: seq<V>, b: seq<V>, sep: V)
    ensures Strip(a + b, sep) == Strip(a, sep) + Strip(b, sep)
  {
    if a != [] {
      assert (a + b)[0] == a[0];
      assert (a + b)[1..] == a[1..] + b;
      StripAppend(a[1..], b, sep);
    } else {
      assert a + b == b;
    }
  }

  lemma {:induction false} StripNoSeparator<V>(a: seq<V>, sep: V)
    requires sep !in a
    ensures Strip(a, sep) == a
  {
    if a != [] {
      StripNoSeparator(a[1..], sep);
    }
  }

  /**
   * Writing the calls back out as name-then-arguments gives the input with its
   * separators removed: order kept, nothing dropped, nothing duplicated.
   */
  lemma {:induction false} SplitFlattensToStripped<V>(ts: seq<V>, sep: V)
    ensures Flatten(Split(ts, sep)) == Strip(ts, sep)
    decreases |ts|
  {
    if ts == [] {
    } else if ts[0] == sep {
      SplitFlattensToStripped(ts[1..], sep);
    } else {
      var n := RunLength(ts, sep);
      var calls := Split(ts, sep);
      SplitFlattensToStripped(ts[n..], sep);
      assert calls[1..] == Split(ts[n..], sep);
      assert ts == ts[..n] + ts[n..];
      StripAppend(ts[..n], ts[n..], sep);
      StripNoSeparator(ts[..n], sep);
      assert [ts[0]] + ts[1..n] == ts[..n];
    }
  }

  /** At most one call more than there are separators. */
  lemma {:induction false} SplitCountBound<V>(ts: seq<V>, sep: V)
    ensures |Split(ts, sep)| <= multiset(ts)[sep] + 1
    decreases |ts|
  {
    if ts == [] {
    } else if ts[0] == sep {
      SplitCountBound(ts[1..], sep);
      assert ts == [ts[0]] + ts[1..];
    } else {
      var n := RunLength(ts, sep);
      assert ts == ts[..n] + ts[n..];
      assert multiset(ts[..n])[sep] == 0;
      if n < |ts| {
        var rest := ts[n..];
        assert rest == [rest[0]] + rest[1..];
        assert rest[1..] == ts[n + 1..];
        SplitCountBound(ts[n + 1..], sep);
      }
    }
  }

  /**
   * Splitting calls joined with separators gives the calls back, when no call
   * contains the separator (splitting is idempotent on its own output).
   */
  lemma {:induction false} SplitJoinRoundTrip<V>(calls: seq<Call<V>>, sep: V)
    requires forall k :: 0 <= k < |calls| ==> Avoids(calls[k], sep)
    ensures Split(Join(calls, sep), sep) == calls
  {
    if calls == [] {
    } else {
      var c := calls[0];
      var group := [c.name] + c.args;
      assert sep !in group by {
        assert Avoids(calls[0], sep);
      }
      if |calls| == 1 {
        SplitWithoutSeparator(group, sep);
        assert group[1..] == c.args;
      } else {
        SplitJoinRoundTrip(calls[1..], sep);
        SplitClosesGroup(group, Join(calls[1..], sep), sep);
        assert group[1..] == c.args;
        assert calls == [c] + calls[1..];
      }
    }
  }
}
