/**
 Codecs: a writer paired with a reader that takes a value off the front of a byte
 string. A codec is lawful when the reader gives back every value that may be written,
 with any bytes after it, and accepts nothing but such a value followed by the bytes it
 leaves. The combinators below keep the law, so a format built from them is lawful.
 */
module Codecs {
  import opened Wrappers
  import opened Bytes

  datatype Read<+T> = Read(value: T, rest: seq<byte>)

  datatype Codec<!T> = Codec(write: T -> seq<byte>, read: seq<byte> -> Result<Read<T>>, ok: T -> bool)

  ghost predicate ReadsBack<T(!new)>(c: Codec<T>) {
    forall x, rest :: c.ok(x) ==> c.read(c.write(x) + rest) == Success(Read(x, rest))
  }

  ghost predicate AcceptsOnly<T(!new)>(c: Codec<T>) {
    forall b :: c.read(b).Success? ==>
      c.ok(c.read(b).value.value) && b == c.write(c.read(b).value.value) + c.read(b).value.rest
  }

  ghost predicate Lawful<T(!new)>(c: Codec<T>) {
    ReadsBack(c) && AcceptsOnly(c)
  }

  /** No two values that may be written have the same encoding, nor one a prefix of another. */
  lemma PrefixFree<T(!new)>(c: Codec<T>, x: T, y: T, a: seq<byte>, b: seq<byte>)
    requires Lawful(c) && c.ok(x) && c.ok(y) && c.write(x) + a == c.write(y) + b
    ensures x == y && a == b
  {
    assert c.read(c.write(x) + a) == Success(Read(x, a));
    assert c.read(c.write(y) + b) == Success(Read(y, b));
  }

  // ------------------------------------------------------------ fixed width

  function Take(b: seq<byte>, n: nat): Result<Read<seq<byte>>> {
    if n <= |b| then Success(Read(b[..n], b[n..])) else Failure
  }

  function Fixed(n: nat): Codec<seq<byte>> {
    Codec((s: seq<byte>) => s, (b: seq<byte>) => Take(b, n), (s: seq<byte>) => |s| == n)
  }

  lemma FixedLawful(n: nat)
    ensures Lawful(Fixed(n))
  {
    var c := Fixed(n);
    forall s: seq<byte>, rest | c.ok(s) ensures c.read(c.write(s) + rest) == Success(Read(s, rest)) {
      assert (s + rest)[..n] == s && (s + rest)[n..] == rest;
    }
    forall b | c.read(b).Success?
      ensures c.ok(c.read(b).value.value) && b == c.write(c.read(b).value.value) + c.read(b).value.rest
    {
      assert b == b[..n] + b[n..];
    }
  }

  // ------------------------------------------------------------------ pairs

  function ReadPair<A, B>(a: Codec<A>, b: Codec<B>, s: seq<byte>): Result<Read<(A, B)>> {
    var x :- a.read(s);
    var y :- b.read(x.rest);
    Success(Read((x.value, y.value), y.rest))
  }

  function Pair<A, B>(a: Codec<A>, b: Codec<B>): Codec<(A, B)> {
    Codec((p: (A, B)) => a.write(p.0) + b.write(p.1), (s: seq<byte>) => ReadPair(a, b, s),
          (p: (A, B)) => a.ok(p.0) && b.ok(p.1))
  }

  lemma PairLawful<A(!new), B(!new)>(a: Codec<A>, b: Codec<B>)
    requires Lawful(a) && Lawful(b)
    ensures Lawful(Pair(a, b))
  {
    var c := Pair(a, b);
    forall p: (A, B), rest | c.ok(p) ensures c.read(c.write(p) + rest) == Success(Read(p, rest)) {
      assert c.write(p) + rest == a.write(p.0) + (b.write(p.1) + rest);
    }
    forall s | c.read(s).Success?
      ensures c.ok(c.read(s).value.value) && s == c.write(c.read(s).value.value) + c.read(s).value.rest
    {
      var x := a.read(s).value;
      var y := b.read(x.rest).value;
      assert s == a.write(x.value) + (b.write(y.value) + y.rest);
    }
  }

  /** The second part read as the first one says. */
  function ReadThen<A, B>(a: Codec<A>, next: A -> Codec<B>, s: seq<byte>): Result<Read<(A, B)>> {
    var x :- a.read(s);
    var y :- next(x.value).read(x.rest);
    Success(Read((x.value, y.value), y.rest))
  }

  function Then<A, B>(a: Codec<A>, next: A -> Codec<B>): Codec<(A, B)> {
    Codec((p: (A, B)) => a.write(p.0) + next(p.0).write(p.1), (s: seq<byte>) => ReadThen(a, next, s),
          (p: (A, B)) => a.ok(p.0) && next(p.0).ok(p.1))
  }

  lemma ThenLawful<A(!new), B(!new)>(a: Codec<A>, next: A -> Codec<B>)
    requires Lawful(a) && forall x :: Lawful(next(x))
    ensures Lawful(Then(a, next))
  {
    var c := Then(a, next);
    forall p: (A, B), rest | c.ok(p) ensures c.read(c.write(p) + rest) == Success(Read(p, rest)) {
      assert Lawful(next(p.0));
      assert c.write(p) + rest == a.write(p.0) + (next(p.0).write(p.1) + rest);
    }
    forall s | c.read(s).Success?
      ensures c.ok(c.read(s).value.value) && s == c.write(c.read(s).value.value) + c.read(s).value.rest
    {
      var x := a.read(s).value;
      assert Lawful(next(x.value));
      var y := next(x.value).read(x.rest).value;
      assert s == a.write(x.value) + (next(x.value).write(y.value) + y.rest);
    }
  }

  // -------------------------------------------------------- change of view

  function ReadMapped<A, B>(c: Codec<A>, to: A -> B, s: seq<byte>): Result<Read<B>> {
    var x :- c.read(s);
    Success(Read(to(x.value), x.rest))
  }

  function Mapped<A, B>(c: Codec<A>, to: A -> B, from: B -> A): Codec<B> {
    Codec((y: B) => c.write(from(y)), (s: seq<byte>) => ReadMapped(c, to, s), (y: B) => c.ok(from(y)))
  }

  lemma MappedLawful<A(!new), B(!new)>(c: Codec<A>, to: A -> B, from: B -> A)
    requires Lawful(c) && (forall x :: c.ok(x) ==> from(to(x)) == x) && (forall y :: c.ok(from(y)) ==> to(from(y)) == y)
    ensures Lawful(Mapped(c, to, from))
  {
    var m := Mapped(c, to, from);
    forall y: B, rest | m.ok(y) ensures m.read(m.write(y) + rest) == Success(Read(y, rest)) {
      assert c.read(c.write(from(y)) + rest) == Success(Read(from(y), rest));
    }
    forall s | m.read(s).Success?
      ensures m.ok(m.read(s).value.value) && s == m.write(m.read(s).value.value) + m.read(s).value.rest
    {
      assert c.ok(c.read(s).value.value);
    }
  }

  /** Only the values that pass a test. */
  function ReadFiltered<T>(c: Codec<T>, keep: T -> bool, s: seq<byte>): Result<Read<T>> {
    var x :- c.read(s);
    if keep(x.value) then Success(x) else Failure
  }

  function Filtered<T>(c: Codec<T>, keep: T -> bool): Codec<T> {
    Codec(c.write, (s: seq<byte>) => ReadFiltered(c, keep, s), (x: T) => c.ok(x) && keep(x))
  }

  lemma FilteredLawful<T(!new)>(c: Codec<T>, keep: T -> bool)
    requires Lawful(c)
    ensures Lawful(Filtered(c, keep))
  {
    var f := Filtered(c, keep);
    forall x: T, rest | f.ok(x) ensures f.read(f.write(x) + rest) == Success(Read(x, rest)) {
      assert c.read(c.write(x) + rest) == Success(Read(x, rest));
    }
  }

  // ------------------------------------------------------- counted sequences

  /** A byte string with its length in front. */
  function ReadVar(count: Codec<nat>, s: seq<byte>): Result<Read<seq<byte>>> {
    var n :- count.read(s);
    Take(n.rest, n.value)
  }

  function VarBytes(count: Codec<nat>): Codec<seq<byte>> {
    Codec((v: seq<byte>) => count.write(|v|) + v, (s: seq<byte>) => ReadVar(count, s), (v: seq<byte>) => count.ok(|v|))
  }

  lemma VarBytesLawful(count: Codec<nat>)
    requires Lawful(count)
    ensures Lawful(VarBytes(count))
  {
    var c := VarBytes(count);
    forall v: seq<byte>, rest | c.ok(v) ensures c.read(c.write(v) + rest) == Success(Read(v, rest)) {
      assert c.write(v) + rest == count.write(|v|) + (v + rest);
      assert (v + rest)[..|v|] == v && (v + rest)[|v|..] == rest;
    }
    forall s | c.read(s).Success?
      ensures c.ok(c.read(s).value.value) && s == c.write(c.read(s).value.value) + c.read(s).value.rest
    {
      var n := count.read(s).value;
      assert n.rest == n.rest[..n.value] + n.rest[n.value..];
      assert s == count.write(n.value) + (n.rest[..n.value] + n.rest[n.value..]);
    }
  }

  /** Written one after the other. */
  function WriteMany<T>(c: Codec<T>, xs: seq<T>): seq<byte> {
    if xs == [] then [] else c.write(xs[0]) + WriteMany(c, xs[1..])
  }

  function ReadMany<T>(c: Codec<T>, n: nat, s: seq<byte>): Result<Read<seq<T>>>
    decreases n
  {
    if n == 0 then Success(Read([], s))
    else
      var first :- c.read(s);
      var others :- ReadMany(c, n - 1, first.rest);
      Success(Read([first.value] + others.value, others.rest))
  }

  predicate AllOk<T>(c: Codec<T>, xs: seq<T>) {
    forall i :: 0 <= i < |xs| ==> c.ok(xs[i])
  }

  lemma {:induction false} WriteManyAppend<T>(c: Codec<T>, xs: seq<T>, ys: seq<T>)
    ensures WriteMany(c, xs + ys) == WriteMany(c, xs) + WriteMany(c, ys)
  {
    if xs == [] {
      assert xs + ys == ys;
    } else {
      assert (xs + ys)[1..] == xs[1..] + ys;
      WriteManyAppend(c, xs[1..], ys);
    }
  }

  lemma WriteOneMore<T>(c: Codec<T>, xs: seq<T>, x: T)
    ensures WriteMany(c, xs + [x]) == WriteMany(c, xs) + c.write(x)
  {
    WriteManyAppend(c, xs, [x]);
    assert WriteMany(c, [x]) == c.write(x) + WriteMany(c, [x][1..]);
  }

  lemma {:induction false} ManyReadBack<T(!new)>(c: Codec<T>, xs: seq<T>, rest: seq<byte>)
    requires Lawful(c) && AllOk(c, xs)
    ensures ReadMany(c, |xs|, WriteMany(c, xs) + rest) == Success(Read(xs, rest))
  {
    if xs == [] {
      assert WriteMany(c, xs) + rest == rest;
    } else {
      assert WriteMany(c, xs) + rest == c.write(xs[0]) + (WriteMany(c, xs[1..]) + rest);
      ManyReadBack(c, xs[1..], rest);
      assert [xs[0]] + xs[1..] == xs;
    }
  }

  lemma {:induction false} ManyAccepted<T(!new)>(c: Codec<T>, n: nat, s: seq<byte>)
    requires Lawful(c) && ReadMany(c, n, s).Success?
    ensures var r := ReadMany(c, n, s).value;
            |r.value| == n && AllOk(c, r.value) && s == WriteMany(c, r.value) + r.rest
    decreases n
  {
    if n > 0 {
      var first := c.read(s).value;
      ManyAccepted(c, n - 1, first.rest);
      var r := ReadMany(c, n, s).value;
      assert r.value[1..] == ReadMany(c, n - 1, first.rest).value.value;
      assert s == c.write(first.value) + (WriteMany(c, r.value[1..]) + r.rest);
    }
  }

  /** What a loop has read so far, and the rest of the reading. */
  function Prefixed<T>(xs: seq<T>, r: Result<Read<seq<T>>>): Result<Read<seq<T>>> {
    match r case Success(v) => Success(Read(xs + v.value, v.rest)) case Failure => Failure
  }

  lemma PrefixedNone<T>(r: Result<Read<seq<T>>>)
    ensures Prefixed([], r) == r
  {
    if r.Success? {
      assert [] + r.value.value == r.value.value;
    }
  }

  lemma PrefixedOnce<T>(c: Codec<T>, xs: seq<T>, n: nat, s: seq<byte>)
    requires n > 0 && c.read(s).Success?
    ensures Prefixed(xs, ReadMany(c, n, s)) ==
            Prefixed(xs + [c.read(s).value.value], ReadMany(c, n - 1, c.read(s).value.rest))
  {
    var one := c.read(s).value;
    var others := ReadMany(c, n - 1, one.rest);
    if others.Success? {
      assert xs + ([one.value] + others.value.value) == xs + [one.value] + others.value.value;
    }
  }

  /** Exactly `n` values. */
  function Many<T>(c: Codec<T>, n: nat): Codec<seq<T>> {
    Codec((xs: seq<T>) => WriteMany(c, xs), (s: seq<byte>) => ReadMany(c, n, s),
          (xs: seq<T>) => |xs| == n && AllOk(c, xs))
  }

  lemma ManyLawful<T(!new)>(c: Codec<T>, n: nat)
    requires Lawful(c)
    ensures Lawful(Many(c, n))
  {
    var m := Many(c, n);
    forall xs: seq<T>, rest | m.ok(xs) ensures m.read(m.write(xs) + rest) == Success(Read(xs, rest)) {
      ManyReadBack(c, xs, rest);
    }
    forall s | m.read(s).Success?
      ensures m.ok(m.read(s).value.value) && s == m.write(m.read(s).value.value) + m.read(s).value.rest
    {
      ManyAccepted(c, n, s);
    }
  }

  function ReadList<T>(count: Codec<nat>, c: Codec<T>, s: seq<byte>): Result<Read<seq<T>>> {
    var n :- count.read(s);
    ReadMany(c, n.value, n.rest)
  }

  function ListOf<T>(count: Codec<nat>, c: Codec<T>): Codec<seq<T>> {
    Codec((xs: seq<T>) => count.write(|xs|) + WriteMany(c, xs), (s: seq<byte>) => ReadList(count, c, s),
          (xs: seq<T>) => count.ok(|xs|) && AllOk(c, xs))
  }

  lemma ListLawful<T(!new)>(count: Codec<nat>, c: Codec<T>)
    requires Lawful(count) && Lawful(c)
    ensures Lawful(ListOf(count, c))
  {
    var l := ListOf(count, c);
    forall xs: seq<T>, rest | l.ok(xs) ensures l.read(l.write(xs) + rest) == Success(Read(xs, rest)) {
      assert l.write(xs) + rest == count.write(|xs|) + (WriteMany(c, xs) + rest);
      ManyReadBack(c, xs, rest);
    }
    forall s | l.read(s).Success?
      ensures l.ok(l.read(s).value.value) && s == l.write(l.read(s).value.value) + l.read(s).value.rest
    {
      var n := count.read(s).value;
      ManyAccepted(c, n.value, n.rest);
      var r := ReadMany(c, n.value, n.rest).value;
      assert s == count.write(n.value) + (WriteMany(c, r.value) + r.rest);
    }
  }
}
