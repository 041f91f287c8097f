/** Byte strings, which every stage of the pipeline passes to the next. */
module Bytes {

  type byte = b: int | 0 <= b < 256

  type Text = seq<byte>

  const NEWLINE: byte := 10
  const ZERO: byte := 48

  /** The bytes of a text in ASCII. */
  function Ascii(s: string): (t: Text)
    requires forall i :: 0 <= i < |s| ==> s[i] < 128 as char
    ensures |t| == |s| && forall i :: 0 <= i < |s| ==> t[i] == s[i] as int
  {
    seq(|s|, i requires 0 <= i < |s| => s[i] as int)
  }

  datatype Option<T> = None | Some(value: T)

  /** The concatenation of `parts`, in order. */
  function Join(parts: seq<Text>): Text
  {
    if parts == [] then [] else Join(parts[..|parts| - 1]) + parts[|parts| - 1]
  }

  lemma JoinSnoc(parts: seq<Text>, last: Text)
    ensures Join(parts + [last]) == Join(parts) + last
  {
    assert (parts + [last])[..|parts|] == parts;
  }

  lemma Assoc(x: Text, y: Text, z: Text)
    ensures (x + y) + z == x + (y + z)
  {
  }

  lemma JoinOne(part: Text)
    ensures Join([part]) == part
  {
    JoinSnoc([], part);
    assert [] + [part] == [part];
  }

  lemma {:induction false} JoinAppend(xs: seq<Text>, ys: seq<Text>)
    ensures Join(xs + ys) == Join(xs) + Join(ys)
  {
    if ys == [] {
      assert xs + ys == xs;
    } else {
      var init := ys[..|ys| - 1];
      assert xs + ys == (xs + init) + [ys[|ys| - 1]];
      JoinSnoc(xs + init, ys[|ys| - 1]);
      JoinAppend(xs, init);
    }
  }

  /** The first index of `b` in `s` from `from` on, or `|s|`: `memchr` and `strchr`. */
  function Find(s: Text, b: byte, from: nat): (k: nat)
    requires from <= |s|
    ensures from <= k <= |s|
    ensures b !in s[from..k]
    ensures k < |s| ==> s[k] == b
    decreases |s| - from
  {
    if from == |s| || s[from] == b then from
    else
      var k := Find(s, b, from + 1);
      assert s[from..k] == [s[from]] + s[from + 1..k];
      k
  }

  lemma {:induction false} FindIs(s: Text, b: byte, from: nat, n: nat)
    requires from <= n < |s| && s[n] == b && b !in s[from..n]
    ensures Find(s, b, from) == n
    decreases n - from
  {
    if from < n {
      assert s[from] == s[from..n][0];
      assert s[from..n] == [s[from]] + s[from + 1..n];
      FindIs(s, b, from + 1, n);
    }
  }

  // ---------------------------------------------------------------- bytes written into a buffer

  /** `base` with `bytes` written over it from `at`. */
  function Splice(base: Text, at: nat, bytes: Text): (r: Text)
    requires at + |bytes| <= |base|
    ensures |r| == |base|
  {
    base[..at] + bytes + base[at + |bytes|..]
  }

  lemma SpliceIs(base: Text, after: Text, at: nat, bytes: Text)
    requires at + |bytes| <= |base| == |after|
    requires forall k :: 0 <= k < |bytes| ==> after[at + k] == bytes[k]
    requires forall k :: 0 <= k < |base| && !(at <= k < at + |bytes|) ==> after[k] == base[k]
    ensures after == Splice(base, at, bytes)
  {
  }

  lemma SpliceTwice(base: Text, at: nat, xs: Text, ys: Text)
    requires at + |xs| + |ys| <= |base|
    ensures Splice(Splice(base, at, xs), at + |xs|, ys) == Splice(base, at, xs + ys)
  {
    var once := Splice(base, at, xs);
    assert once[..at + |xs|] == base[..at] + xs;
    assert once[at + |xs| + |ys|..] == base[at + |xs| + |ys|..];
  }

  /** A splice shows `bytes` in their place, and leaves every slice clear of them alone. */
  lemma SpliceElsewhere(base: Text, at: nat, bytes: Text, from: nat, size: nat)
    requires at + |bytes| <= |base| && from + size <= |base|
    requires from + size <= at || at + |bytes| <= from
    ensures Splice(base, at, bytes)[from..from + size] == base[from..from + size]
  {
  }

  lemma SpliceExtends(base: Text, at: nat, bytes: Text, from: nat)
    requires from <= at && at + |bytes| <= |base|
    ensures Splice(base, at, bytes)[from..at + |bytes|] == base[from..at] + bytes
  {
  }

  /** `memcpy` (or a `read`) of `bytes` to `a[at..]`. */
  method CopyInto(a: array<byte>, at: nat, bytes: Text)
    requires at + |bytes| <= a.Length
    modifies a
    ensures a[..] == Splice(old(a[..]), at, bytes)
  {
    for k := 0 to |bytes|
      invariant forall i :: 0 <= i < k ==> a[at + i] == bytes[i]
      invariant forall i :: 0 <= i < a.Length && !(at <= i < at + k) ==> a[i] == old(a[i])
    {
      a[at + k] := bytes[k];
    }
    SpliceIs(old(a[..]), a[..], at, bytes);
  }

  /** Writes `bytes` at `a[at..]` and returns the position after them. */
  method Append(a: array<byte>, at: nat, bytes: Text) returns (end: nat)
    requires at + |bytes| <= a.Length
    modifies a
    ensures end == at + |bytes| && a[..end] == old(a[..at]) + bytes
  {
    CopyInto(a, at, bytes);
    end := at + |bytes|;
  }
}
