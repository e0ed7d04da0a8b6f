/**
 Byte-string keys and their order.

 The tree compares keys as byte slices, lexicographically.  `Num` embeds byte
 strings into the reals, preserving and reflecting that order, so that the rest
 of the project can compare keys with plain arithmetic.
 */
module Keys {

  newtype byte = b: int | 0 <= b < 256

  type Key = seq<byte>
  type Value = seq<byte>

  /** Lexicographic order on byte strings, as the slice comparison of the source defines it. */
  predicate LexLess(a: Key, b: Key)
  {
    if |b| == 0 then false
    else if |a| == 0 then true
    else if a[0] != b[0] then a[0] < b[0]
    else LexLess(a[1..], b[1..])
  }

  /** The base-257 fraction whose digits are the bytes of `k` from index `i` on, each shifted up by one. */
  ghost function NumFrom(k: Key, i: nat): (r: real)
    requires i <= |k|
    ensures 0.0 <= r < 1.0
    ensures i < |k| ==> r > 0.0
    decreases |k| - i
  {
    if i == |k| then 0.0 else ((k[i] as int + 1) as real + NumFrom(k, i + 1)) / 257.0
  }

  ghost function Num(k: Key): (r: real)
  {
    NumFrom(k, 0)
  }

  lemma {:induction false} NumShift(k: Key, i: nat)
    requires 0 < i <= |k|
    ensures NumFrom(k, i) == NumFrom(k[1..], i - 1)
    decreases |k| - i
  {
    if i < |k| {
      NumShift(k, i + 1);
    }
  }

  /** `Num` is an order embedding: it is injective and agrees with the byte order both ways. */
  lemma {:induction false} NumIsOrder(a: Key, b: Key)
    ensures Num(a) < Num(b) <==> LexLess(a, b)
    ensures Num(a) == Num(b) <==> a == b
    decreases |a|
  {
    if |a| > 0 && |b| > 0 {
      NumShift(a, 1);
      NumShift(b, 1);
      NumIsOrder(a[1..], b[1..]);
      if a[0] == b[0] {
        assert a == [a[0]] + a[1..] && b == [b[0]] + b[1..];
      }
    }
  }

  /** A full scan resumes at the last key followed by a zero byte: no key lies strictly between the two. */
  lemma {:induction false} NextKeyIsTight(k: Key, x: Key)
    ensures Num(k) < Num(k + [0])
    ensures Num(k) < Num(x) ==> Num(k + [0]) <= Num(x)
  {
    LexNext(k, x);
    NumIsOrder(k, k + [0]);
    NumIsOrder(k, x);
    NumIsOrder(x, k + [0]);
  }

  lemma {:induction false} LexNext(k: Key, x: Key)
    ensures LexLess(k, k + [0])
    ensures LexLess(k, x) ==> !LexLess(x, k + [0])
    decreases |k|
  {
    var y := k + [0];
    if |k| > 0 {
      assert y[1..] == k[1..] + [0];
      LexNext(k[1..], if |x| > 0 then x[1..] else x);
    } else {
      assert y[1..] == [];
    }
  }

  predicate StartsWith(k: Key, prefix: Key)
  {
    |prefix| <= |k| && k[..|prefix|] == prefix
  }

  /** Keys with a common prefix are contiguous and start at the prefix itself. */
  lemma {:induction false} PrefixIsInterval(prefix: Key, a: Key, b: Key)
    ensures StartsWith(a, prefix) ==> Num(prefix) <= Num(a)
    ensures Num(prefix) <= Num(a) <= Num(b) && StartsWith(b, prefix) ==> StartsWith(a, prefix)
  {
    LexPrefix(prefix, a, b);
    NumIsOrder(a, prefix);
    NumIsOrder(b, a);
  }

  lemma {:induction false} LexPrefix(prefix: Key, a: Key, b: Key)
    ensures StartsWith(a, prefix) ==> !LexLess(a, prefix)
    ensures !LexLess(a, prefix) && !LexLess(b, a) && StartsWith(b, prefix) ==> StartsWith(a, prefix)
    decreases |prefix|
  {
    if |prefix| > 0 && |a| > 0 {
      var b' := if |b| > 0 then b[1..] else b;
      LexPrefix(prefix[1..], a[1..], b');
      assert StartsWith(a, prefix) <==> a[0] == prefix[0] && StartsWith(a[1..], prefix[1..]) by {
        if |a| >= |prefix| {
          assert a[..|prefix|] == [a[0]] + a[1..][..|prefix| - 1];
          assert prefix == [prefix[0]] + prefix[1..];
        }
      }
      if |b| > 0 {
        assert StartsWith(b, prefix) ==> b[0] == prefix[0] && StartsWith(b[1..], prefix[1..]) by {
          if StartsWith(b, prefix) {
            assert b[..|prefix|] == [b[0]] + b[1..][..|prefix| - 1];
            assert prefix == [prefix[0]] + prefix[1..];
          }
        }
      }
    }
  }
}
