/**
 * Sequence operations the bot relies on: a filter-map that keeps the results
 * of an optional projection in order, concatenation of a list of lists, and
 * Python's `sep.join(parts)` and `s.split(sep)` for a one-character separator.
 */
module Sequences {
  import opened Wrappers

  /** Filter-map: the `Some` values of `f` over `s`, in the order of `s`.
      Defined from the end so that a loop that appends matches it step by step. */
  function Keep<T, U>(f: T -> Option<U>, s: seq<T>): (r: seq<U>)
    ensures |r| <= |s|
  {
    if s == [] then [] else Keep(f, s[..|s| - 1]) + f(s[|s| - 1]).ToSeq()
  }

  /** The positions of `s` at which `f` yields a value, ascending. */
  ghost function KeptIndices<T, U>(f: T -> Option<U>, s: seq<T>): seq<nat>
  {
    if s == [] then []
    else KeptIndices(f, s[..|s| - 1]) + (if f(s[|s| - 1]).Some? then [|s| - 1] else [])
  }

  /** Keep distributes over concatenation: the kept values of `a + b` are
      those of `a` followed by those of `b`. */
  lemma {:induction false} KeepAppend<T, U>(f: T -> Option<U>, a: seq<T>, b: seq<T>)
    ensures Keep(f, a + b) == Keep(f, a) + Keep(f, b)
    decreases |b|
  {
    if b == [] {
      assert a + b == a;
    } else {
      var b' := b[..|b| - 1];
      assert (a + b)[..|a + b| - 1] == a + b';
      assert (a + b)[|a + b| - 1] == b[|b| - 1];
      KeepAppend(f, a, b');
    }
  }

  /** Exactly one kept value per position where `f` yields one, in ascending
      position order, and nothing else: result k is the value of `f` at the
      k-th such position. */
  lemma {:induction false} KeepIndexed<T, U>(f: T -> Option<U>, s: seq<T>)
    ensures |KeptIndices(f, s)| == |Keep(f, s)|
    ensures forall k :: 0 <= k < |KeptIndices(f, s)| ==>
      KeptIndices(f, s)[k] < |s| && f(s[KeptIndices(f, s)[k]]) == Some(Keep(f, s)[k])
    ensures forall k, l :: 0 <= k < l < |KeptIndices(f, s)| ==>
      KeptIndices(f, s)[k] < KeptIndices(f, s)[l]
    ensures forall j :: 0 <= j < |s| ==> (f(s[j]).Some? <==> j in KeptIndices(f, s))
  {
    KeptIndicesAscending(f, s);
    KeptIndicesMatch(f, s);
    KeptIndicesComplete(f, s);
  }

  lemma {:induction false} KeptIndicesAscending<T, U>(f: T -> Option<U>, s: seq<T>)
    ensures forall k :: 0 <= k < |KeptIndices(f, s)| ==> KeptIndices(f, s)[k] < |s|
    ensures forall k, l :: 0 <= k < l < |KeptIndices(f, s)| ==>
      KeptIndices(f, s)[k] < KeptIndices(f, s)[l]
  {
    if s != [] {
      KeptIndicesAscending(f, s[..|s| - 1]);
    }
  }

  lemma {:induction false} KeptIndicesMatch<T, U>(f: T -> Option<U>, s: seq<T>)
    ensures |KeptIndices(f, s)| == |Keep(f, s)|
    ensures forall k :: 0 <= k < |KeptIndices(f, s)| ==>
      KeptIndices(f, s)[k] < |s| && f(s[KeptIndices(f, s)[k]]) == Some(Keep(f, s)[k])
  {
    if s != [] {
      var s' := s[..|s| - 1];
      KeptIndicesMatch(f, s');
      var idx, idx' := KeptIndices(f, s), KeptIndices(f, s');
      var r, r' := Keep(f, s), Keep(f, s');
      var last := f(s[|s| - 1]);
      assert idx == idx' + (if last.Some? then [|s| - 1] else []);
      assert r == r' + last.ToSeq();
      forall k | 0 <= k < |idx| ensures idx[k] < |s| && f(s[idx[k]]) == Some(r[k]) {
        if k < |idx'| {
          assert idx[k] == idx'[k] && r[k] == r'[k] && s[idx[k]] == s'[idx'[k]];
        }
      }
    }
  }

  lemma {:induction false} KeptIndicesComplete<T, U>(f: T -> Option<U>, s: seq<T>)
    ensures forall j :: 0 <= j < |s| ==> (f(s[j]).Some? <==> j in KeptIndices(f, s))
  {
    if s != [] {
      var s' := s[..|s| - 1];
      KeptIndicesComplete(f, s');
      KeptIndicesAscending(f, s');
      var idx, idx' := KeptIndices(f, s), KeptIndices(f, s');
      assert idx == idx' + (if f(s[|s| - 1]).Some? then [|s| - 1] else []);
      forall j | 0 <= j < |s| ensures f(s[j]).Some? <==> j in idx {
        if j < |s| - 1 {
          assert s[j] == s'[j];
          assert j in idx' <==> j in idx;
        } else {
          assert j !in idx';
        }
      }
    }
  }

  /** The concatenation of a list of lists, in order. */
  function Flatten<T>(ss: seq<seq<T>>): seq<T>
  {
    if ss == [] then [] else Flatten(ss[..|ss| - 1]) + ss[|ss| - 1]
  }

  /** Each list filter-mapped on its own. */
  function KeepEach<T, U>(f: T -> Option<U>, ss: seq<seq<T>>): (r: seq<seq<U>>)
    ensures |r| == |ss|
  {
    if ss == [] then [] else KeepEach(f, ss[..|ss| - 1]) + [Keep(f, ss[|ss| - 1])]
  }

  /** Filter-mapping a concatenation of lists is concatenating the lists
      filter-mapped one by one, in the same order. */
  lemma {:induction false} KeepFlatten<T, U>(f: T -> Option<U>, ss: seq<seq<T>>)
    ensures Keep(f, Flatten(ss)) == Flatten(KeepEach(f, ss))
  {
    if ss != [] {
      var n := |ss|;
      var ss' := ss[..n - 1];
      KeepAppend(f, Flatten(ss'), ss[n - 1]);
      KeepFlatten(f, ss');
      var kept := KeepEach(f, ss);
      assert kept == KeepEach(f, ss') + [Keep(f, ss[n - 1])];
      assert kept[..n - 1] == KeepEach(f, ss');
    }
  }

  /** Python's `sep.join(parts)`: the parts in order, the separator between
      each two of them; it starts with the first part. */
  function Join(parts: seq<string>, sep: string): (r: string)
    ensures |parts| >= 1 ==> parts[0] <= r
  {
    if parts == [] then ""
    else if |parts| == 1 then parts[0]
    else parts[0] + sep + Join(parts[1..], sep)
  }

  /** A join ends with its last part. */
  lemma {:induction false} JoinEndsWithLast(parts: seq<string>, sep: string)
    requires |parts| >= 1
    ensures var j, last := Join(parts, sep), parts[|parts| - 1];
      |j| >= |last| && j[|j| - |last|..] == last
  {
    if |parts| > 1 {
      JoinEndsWithLast(parts[1..], sep);
      var tail := Join(parts[1..], sep);
      assert Join(parts, sep) == (parts[0] + sep) + tail;
    }
  }

  /** Python's `s.split(c)`: the maximal runs between occurrences of `c`,
      empty runs included; always at least one part. */
  function Split(s: string, c: char): (r: seq<string>)
    ensures |r| == Occurrences(s, c) + 1
  {
    if s == [] then [[]]
    else
      var rest := Split(s[1..], c);
      if s[0] == c then [[]] + rest else [[s[0]] + rest[0]] + rest[1..]
  }

  /** The number of occurrences of `c` in `s`. */
  function Occurrences(s: string, c: char): nat
  {
    if s == [] then 0 else (if s[0] == c then 1 else 0) + Occurrences(s[1..], c)
  }

  /** None of the parts split(c) yields contains the separator, and joining
      them back gives the input. */
  lemma {:induction false} SplitParts(s: string, c: char)
    ensures forall k :: 0 <= k < |Split(s, c)| ==> c !in Split(s, c)[k]
    ensures Join(Split(s, c), [c]) == s
  {
    SplitFieldsFree(s, c);
    SplitJoinsBack(s, c);
  }

  lemma {:induction false} SplitFieldsFree(s: string, c: char)
    ensures forall k :: 0 <= k < |Split(s, c)| ==> c !in Split(s, c)[k]
  {
    if s != [] {
      var rest := Split(s[1..], c);
      SplitFieldsFree(s[1..], c);
      var r := Split(s, c);
      if s[0] == c {
        assert r == [[]] + rest;
        forall k | 0 <= k < |r| ensures c !in r[k] {
          if k > 0 { assert r[k] == rest[k - 1]; }
        }
      } else {
        assert r == [[s[0]] + rest[0]] + rest[1..];
        forall k | 0 <= k < |r| ensures c !in r[k] {
          if k > 0 { assert r[k] == rest[k]; }
        }
      }
    }
  }

  lemma {:induction false} SplitJoinsBack(s: string, c: char)
    ensures Join(Split(s, c), [c]) == s
  {
    if s != [] {
      var rest := Split(s[1..], c);
      SplitJoinsBack(s[1..], c);
      var r := Split(s, c);
      if s[0] == c {
        assert r == [[]] + rest;
        assert r[1..] == rest;
        assert s == [] + [c] + s[1..];
      } else {
        assert r == [[s[0]] + rest[0]] + rest[1..];
        if |rest| == 1 {
          assert s == [s[0]] + s[1..];
        } else {
          assert r[1..] == rest[1..];
          assert Join(rest, [c]) == rest[0] + [c] + Join(rest[1..], [c]);
          assert s == [s[0]] + s[1..];
        }
      }
    }
  }

  /** Conversely, splitting a join of separator-free parts gives the parts back
      (Python's "".split(c) is [""], so the list must not be empty). */
  lemma {:induction false} SplitJoin(parts: seq<string>, c: char)
    requires |parts| >= 1
    requires forall k :: 0 <= k < |parts| ==> c !in parts[k]
    ensures Split(Join(parts, [c]), c) == parts
    decreases |parts|, |parts[0]|
  {
    var p := parts[0];
    if p == [] {
      if |parts| > 1 {
        var tail := Join(parts[1..], [c]);
        assert Join(parts, [c]) == [c] + tail;
        assert ([c] + tail)[1..] == tail;
        SplitJoin(parts[1..], c);
        assert parts == [[]] + parts[1..];
      }
    } else {
      var s := Join(parts, [c]);
      var parts' := [p[1..]] + parts[1..];
      forall k | 0 <= k < |parts'| ensures c !in parts'[k] {
        if k == 0 {
          assert forall x :: x in p[1..] ==> x in p;
        } else {
          assert parts'[k] == parts[k];
        }
      }
      if |parts| == 1 {
        assert s == p;
        assert Join(parts', [c]) == p[1..];
      } else {
        assert s == [p[0]] + (p[1..] + [c] + Join(parts[1..], [c]));
        assert parts'[1..] == parts[1..];
      }
      assert s[0] == p[0] && s[1..] == Join(parts', [c]);
      SplitJoin(parts', c);
      assert p == [p[0]] + p[1..];
      assert parts == [[p[0]] + parts'[0]] + parts'[1..];
    }
  }
}
