/** Bytes and the little-endian layout of the packed records the tracer emits. */
module Bytes {
  newtype Byte = x: int | 0 <= x < 256

  function Zeros(n: nat): (r: seq<Byte>)
    ensures |r| == n && forall i :: 0 <= i < n ==> r[i] == 0
  {
    seq(n, i => 0)
  }

  /** The low `width` bytes of x, the lowest first: an assignment to an unsigned field of
      that width, which drops the upper bits. */
  function Little(width: nat, x: nat): (r: seq<Byte>)
    ensures |r| == width
  {
    if width == 0 then [] else [(x % 256) as Byte] + Little(width - 1, x / 256)
  }

  function FromLittle(s: seq<Byte>): nat {
    if s == [] then 0 else s[0] as nat + 256 * FromLittle(s[1..])
  }

  function Capacity(width: nat): (r: nat)
    ensures r > 0
  {
    if width == 0 then 1 else 256 * Capacity(width - 1)
  }

  lemma {:induction false} LittleRoundTrip(width: nat, x: nat)
    requires x < Capacity(width)
    ensures FromLittle(Little(width, x)) == x
  {
    if width > 0 {
      LittleRoundTrip(width - 1, x / 256);
      assert Little(width, x)[1..] == Little(width - 1, x / 256);
    }
  }

  lemma {:induction false} LittleZero(width: nat, x: nat)
    requires x < Capacity(width)
    ensures Little(width, x) == Zeros(width) <==> x == 0
  {
    if width > 0 {
      LittleZero(width - 1, x / 256);
      var l, z := Little(width, x), Zeros(width);
      assert l[0] == (x % 256) as Byte && l[1..] == Little(width - 1, x / 256);
      assert z[0] == 0 && z[1..] == Zeros(width - 1);
      assert l == z <==> l[0] == z[0] && l[1..] == z[1..] by {
        assert l == [l[0]] + l[1..] && z == [z[0]] + z[1..];
      }
    }
  }

  lemma ZeroParts(a: seq<Byte>, b: seq<Byte>)
    ensures a + b == Zeros(|a| + |b|) <==> a == Zeros(|a|) && b == Zeros(|b|)
  {
    var s := a + b;
    if s == Zeros(|a| + |b|) {
      assert forall i :: 0 <= i < |a| ==> a[i] == s[i];
      assert forall i :: 0 <= i < |b| ==> b[i] == s[|a| + i];
    }
  }

  lemma Associative(a: seq<Byte>, b: seq<Byte>, c: seq<Byte>)
    ensures (a + b) + c == a + (b + c)
  {
  }

  lemma Unit(a: seq<Byte>)
    ensures a + [] == a == [] + a
  {
  }

  lemma SumTail(a: seq<Byte>, b: seq<Byte>)
    requires a != []
    ensures (a + b)[0] == a[0] && (a + b)[1..] == a[1..] + b
  {
  }

  lemma NextPrefix(s: seq<Byte>, i: nat)
    requires i < |s|
    ensures s[..i + 1] == s[..i] + [s[i]]
  {
  }

  // ---------------------------------------------------------------- chunks

  function Joined(chunks: seq<seq<Byte>>): seq<Byte> {
    if chunks == [] then [] else chunks[0] + Joined(chunks[1..])
  }

  lemma {:induction false} JoinedAppend(chunks: seq<seq<Byte>>, chunk: seq<Byte>)
    ensures Joined(chunks + [chunk]) == Joined(chunks) + chunk
  {
    if chunks == [] {
      assert [] + [chunk] == [chunk] && [chunk][1..] == [];
      assert Joined([chunk]) == chunk;
    } else {
      JoinedAppend(chunks[1..], chunk);
      assert (chunks + [chunk])[1..] == chunks[1..] + [chunk];
    }
  }

  ghost predicate AllOf(size: nat, chunks: seq<seq<Byte>>) {
    forall i :: 0 <= i < |chunks| ==> |chunks[i]| == size
  }

  lemma {:induction false} JoinedLength(size: nat, chunks: seq<seq<Byte>>)
    requires AllOf(size, chunks)
    ensures |Joined(chunks)| == |chunks| * size
  {
    if chunks != [] {
      JoinedLength(size, chunks[1..]);
    }
  }
}
