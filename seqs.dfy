/** Sequence helpers shared by the byte serializer and the text wrappers. */
module Seqs {

  /** Concatenation of a list of sequences, in order (Array.prototype.join('') / flat()). */
  function Flatten<T>(parts: seq<seq<T>>): seq<T>
    decreases |parts|
  {
    if parts == [] then [] else Flatten(parts[..|parts| - 1]) + parts[|parts| - 1]
  }

  /** Sum of the lengths of the parts. */
  function TotalLength<T>(parts: seq<seq<T>>): nat
    decreases |parts|
  {
    if parts == [] then 0 else TotalLength(parts[..|parts| - 1]) + |parts[|parts| - 1]|
  }

  lemma {:induction false} FlattenLength<T>(parts: seq<seq<T>>)
    ensures |Flatten(parts)| == TotalLength(parts)
    decreases |parts|
  {
    if parts != [] {
      FlattenLength(parts[..|parts| - 1]);
    }
  }

  /** Extending the list by one part extends the flattening by that part. */
  lemma FlattenSnoc<T>(parts: seq<seq<T>>, i: nat)
    requires i < |parts|
    ensures Flatten(parts[..i + 1]) == Flatten(parts[..i]) + parts[i]
  {
    assert parts[..i + 1][..i] == parts[..i];
  }

  lemma {:induction false} FlattenAppend<T>(a: seq<seq<T>>, b: seq<seq<T>>)
    ensures Flatten(a + b) == Flatten(a) + Flatten(b)
    decreases |b|
  {
    if b == [] {
      assert a + b == a;
    } else {
      var b' := b[..|b| - 1];
      assert (a + b)[..|a + b| - 1] == a + b';
      FlattenAppend(a, b');
    }
  }

  /** The flattening of a list is the flattening of a prefix followed by that of the rest. */
  lemma FlattenSplit<T>(parts: seq<seq<T>>, k: nat)
    requires k <= |parts|
    ensures Flatten(parts) == Flatten(parts[..k]) + Flatten(parts[k..])
  {
    assert parts[..k] + parts[k..] == parts;
    FlattenAppend(parts[..k], parts[k..]);
  }

  /** Appending one part appends its contents. */
  lemma FlattenPush<T>(parts: seq<seq<T>>, p: seq<T>)
    ensures Flatten(parts + [p]) == Flatten(parts) + p
  {
    assert (parts + [p])[..|parts|] == parts;
  }

  /** A slice of a slice: where `g` sits at `off` in `s`, its part `a..b` sits at `off + a`. */
  lemma SliceShift<T>(s: seq<T>, off: nat, g: seq<T>, a: nat, b: nat)
    requires off + |g| <= |s| && s[off..off + |g|] == g && a <= b <= |g|
    ensures s[off + a..off + b] == g[a..b]
  {
    forall i | a <= i < b
      ensures s[off + i] == g[i]
    {
      assert s[off..off + |g|][i] == s[off + i];
    }
  }

  /** The three parts of a concatenation sliced back out. */
  lemma Concat3<T>(a: seq<T>, b: seq<T>, c: seq<T>)
    ensures (a + b + c)[..|a|] == a
    ensures (a + b + c)[|a|..|a| + |b|] == b
    ensures (a + b + c)[|a| + |b|..] == c
  {
  }

  /** The four parts of a concatenation sliced back out. */
  lemma Concat4<T>(a: seq<T>, b: seq<T>, c: seq<T>, d: seq<T>)
    ensures (a + b + c + d)[..|a|] == a
    ensures (a + b + c + d)[|a|..|a| + |b|] == b
    ensures (a + b + c + d)[|a| + |b|..|a| + |b| + |c|] == c
    ensures (a + b + c + d)[|a| + |b| + |c|..] == d
  {
  }

  /** The five parts of a concatenation sliced back out. */
  lemma Concat5<T>(a: seq<T>, b: seq<T>, c: seq<T>, d: seq<T>, e: seq<T>)
    ensures (a + b + c + d + e)[..|a|] == a
    ensures (a + b + c + d + e)[|a|..|a| + |b|] == b
    ensures (a + b + c + d + e)[|a| + |b|..|a| + |b| + |c|] == c
    ensures (a + b + c + d + e)[|a| + |b| + |c|..|a| + |b| + |c| + |d|] == d
    ensures (a + b + c + d + e)[|a| + |b| + |c| + |d|..] == e
  {
    Concat4(a, b, c, d);
    var p := a + b + c + d;
    assert (p + e)[..|p|] == p;
    SliceShift(p + e, 0, p, 0, |a|);
    SliceShift(p + e, 0, p, |a|, |a| + |b|);
    SliceShift(p + e, 0, p, |a| + |b|, |a| + |b| + |c|);
    SliceShift(p + e, 0, p, |a| + |b| + |c|, |p|);
  }

  lemma FlattenSingle<T>(s: seq<T>)
    ensures Flatten([s]) == s
  {
    assert [s][..0] == [];
  }

  lemma FlattenPair<T>(a: seq<T>, b: seq<T>)
    ensures Flatten([a, b]) == a + b
  {
    assert [a, b][..1] == [a];
    FlattenSingle(a);
  }

  lemma FlattenFour<T>(a: seq<T>, b: seq<T>, c: seq<T>, d: seq<T>)
    ensures Flatten([a, b, c, d]) == a + b + c + d
  {
    assert [a, b, c, d][..3] == [a, b, c];
    assert [a, b, c][..2] == [a, b];
    FlattenPair(a, b);
  }
}
