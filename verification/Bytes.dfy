/** Outcomes shared by every component: optional values and failing operations. */
module Outcomes {
  datatype Option<+T> = None | Some(value: T)

  /** The failures the modelled operations report; messages are not modelled. */
  datatype Error = CapacityRejected | Internal | Conflict | HistoryUnavailable | InvalidBound | Encoding

  datatype Result<+T> = Ok(value: T) | Err(error: Error) {
    predicate IsFailure() { Err? }

    function PropagateFailure<U>(): Result<U>
      requires Err?
    {
      Err(error)
    }

    function Extract(): T
      requires Ok?
    {
      value
    }
  }
}

/** Native keys: byte strings in lexicographic order, their prefix ranges, and
    fixed-width big-endian integers. */
module Bytes {
  import opened Outcomes

  type Byte = b: int | 0 <= b < 256
  type Key = seq<Byte>

  const USIZE_MAX: nat := 0xFFFF_FFFF_FFFF_FFFF

  /** Lexicographic byte order, the order of the native key space. */
  predicate Less(a: Key, b: Key) {
    if b == [] then false
    else if a == [] then true
    else a[0] < b[0] || (a[0] == b[0] && Less(a[1..], b[1..]))
  }

  /** A half-open native range [begin, end). */
  predicate InRange(k: Key, begin: Key, end: Key) {
    !Less(k, begin) && Less(k, end)
  }

  lemma {:induction false} LessTotal(a: Key, b: Key)
    ensures (Less(a, b) && a != b && !Less(b, a))
         || (a == b && !Less(a, b) && !Less(b, a))
         || (Less(b, a) && a != b && !Less(a, b))
    decreases |a|
  {
    if a != [] && b != [] {
      LessTotal(a[1..], b[1..]);
      assert a == [a[0]] + a[1..] && b == [b[0]] + b[1..];
    }
  }

  lemma {:induction false} LessTransitive(a: Key, b: Key, c: Key)
    requires Less(a, b) && Less(b, c)
    ensures Less(a, c)
    decreases |a|
  {
    if a != [] && a[0] == b[0] && b[0] == c[0] {
      LessTransitive(a[1..], b[1..], c[1..]);
    }
  }

  /** A common prefix does not affect the order. */
  lemma {:induction false} LessCommonPrefix(p: Key, a: Key, b: Key)
    ensures Less(p + a, p + b) == Less(a, b)
    decreases |p|
  {
    if p == [] {
      assert p + a == a && p + b == b;
    } else {
      assert (p + a)[1..] == p[1..] + a && (p + b)[1..] == p[1..] + b;
      LessCommonPrefix(p[1..], a, b);
    }
  }

  /** Keys that already differ within equal-length heads ignore their tails. */
  lemma {:induction false} LessEqualWidth(a: Key, b: Key, x: Key, y: Key)
    requires |a| == |b| && a != b
    ensures Less(a + x, b + y) == Less(a, b)
    decreases |a|
  {
    assert (a + x)[1..] == a[1..] + x && (b + y)[1..] == b[1..] + y;
    if a[0] == b[0] {
      assert a == [a[0]] + a[1..] && b == [b[0]] + b[1..];
      LessEqualWidth(a[1..], b[1..], x, y);
    }
  }

  // ----- Prefix ranges -----

  /** The least key above every key that begins with `p`, if there is one. */
  function PrefixEnd(p: Key): Option<Key> {
    if p == [] then None
    else match PrefixEnd(p[1..])
      case Some(rest) => Some([p[0]] + rest)
      case None => if p[0] < 255 then Some([p[0] + 1]) else None
  }

  /** The half-open range from a prefix to its end holds exactly the keys with that prefix. */
  lemma {:induction false} PrefixRangeExact(p: Key, k: Key)
    ensures PrefixEnd(p).Some? ==> (InRange(k, p, PrefixEnd(p).value) <==> p <= k)
    ensures PrefixEnd(p).None? ==> (!Less(k, p) <==> p <= k)
    decreases |p|
  {
    if p != [] && k != [] {
      PrefixRangeExact(p[1..], k[1..]);
      assert p <= k <==> p[0] == k[0] && p[1..] <= k[1..] by {
        assert p == [p[0]] + p[1..] && k == [k[0]] + k[1..];
      }
      if PrefixEnd(p).Some? {
        var end := PrefixEnd(p).value;
        if PrefixEnd(p[1..]).Some? {
          assert end[1..] == PrefixEnd(p[1..]).value && end[0] == p[0];
        } else {
          assert end == [p[0] + 1] && end[1..] == [];
          assert Less(k, end) <==> k[0] <= p[0];
        }
      }
    }
  }

  /** Only prefixes made of 0xFF bytes have no upper end. */
  lemma {:induction false} PrefixEndExists(p: Key)
    ensures PrefixEnd(p).Some? <==> exists i :: 0 <= i < |p| && p[i] != 255
    ensures PrefixEnd(p).Some? ==> |PrefixEnd(p).value| <= |p|
    decreases |p|
  {
    if p != [] {
      PrefixEndExists(p[1..]);
      if PrefixEnd(p[1..]).Some? {
        var i :| 0 <= i < |p[1..]| && p[1..][i] != 255;
        assert p[i + 1] != 255;
      } else if p[0] == 255 {
        forall i | 0 <= i < |p| ensures p[i] == 255 {
          if i > 0 { assert p[1..][i - 1] == p[i]; }
        }
      }
    }
  }

  lemma {:induction false} PrefixEndLast(q: Key, b: Byte)
    ensures PrefixEnd(q + [b]) == if b < 255 then Some(q + [b + 1]) else PrefixEnd(q)
    decreases |q|
  {
    if q == [] {
      assert q + [b] == [b] && (q + [b])[1..] == [];
      assert b < 255 ==> q + [b + 1] == [b + 1];
    } else {
      assert (q + [b])[1..] == q[1..] + [b];
      PrefixEndLast(q[1..], b);
      if b < 255 {
        assert [q[0]] + (q[1..] + [b + 1]) == q + [b + 1];
      }
    }
  }

  /** Drops trailing 0xFF bytes and increments the byte before them. */
  method IncrementPrefix(prefix: Key) returns (end: Option<Key>)
    ensures end == PrefixEnd(prefix)
  {
    var rest := prefix;
    while rest != []
      invariant PrefixEnd(rest) == PrefixEnd(prefix)
      decreases |rest|
    {
      var byte := rest[|rest| - 1];
      assert rest == rest[..|rest| - 1] + [byte];
      PrefixEndLast(rest[..|rest| - 1], byte);
      rest := rest[..|rest| - 1];
      if byte != 255 {
        return Some(rest + [byte + 1]);
      }
    }
    return None;
  }

  // ----- Fixed-width big-endian integers -----

  function Pow256(w: nat): (r: nat)
    ensures r > 0
  {
    if w == 0 then 1 else 256 * Pow256(w - 1)
  }

  lemma Widths()
    ensures Pow256(1) == 0x100 && Pow256(2) == 0x1_0000
    ensures Pow256(4) == 0x1_0000_0000 && Pow256(8) == 0x1_0000_0000_0000_0000
  {
    assert Pow256(4) == 256 * (256 * (256 * Pow256(1)));
    assert Pow256(8) == 256 * (256 * (256 * (256 * Pow256(4))));
  }

  /** The low `w` bytes of `n`, most significant first. */
  function Be(n: nat, w: nat): (r: Key)
    ensures |r| == w
  {
    if w == 0 then [] else Be(n / 256, w - 1) + [n % 256]
  }

  function FromBe(bytes: Key): nat {
    if bytes == [] then 0 else FromBe(bytes[..|bytes| - 1]) * 256 + bytes[|bytes| - 1]
  }

  lemma {:induction false} FromBeOfBe(n: nat, w: nat)
    requires n < Pow256(w)
    ensures FromBe(Be(n, w)) == n
    decreases w
  {
    if w > 0 {
      FromBeOfBe(n / 256, w - 1);
      assert Be(n, w)[..w - 1] == Be(n / 256, w - 1);
    }
  }

  lemma {:induction false} BeOfFromBe(bytes: Key)
    ensures FromBe(bytes) < Pow256(|bytes|)
    ensures Be(FromBe(bytes), |bytes|) == bytes
    decreases |bytes|
  {
    if bytes != [] {
      BeOfFromBe(bytes[..|bytes| - 1]);
      assert bytes == bytes[..|bytes| - 1] + [bytes[|bytes| - 1]];
    }
  }

  lemma BeInjective(m: nat, n: nat, w: nat)
    requires m < Pow256(w) && n < Pow256(w) && Be(m, w) == Be(n, w)
    ensures m == n
  {
    FromBeOfBe(m, w);
    FromBeOfBe(n, w);
  }

  /** Big-endian order is numeric order. */
  lemma {:induction false} BeOrder(m: nat, n: nat, w: nat)
    requires m < Pow256(w) && n < Pow256(w)
    ensures Less(Be(m, w), Be(n, w)) <==> m < n
    decreases w
  {
    if w > 0 {
      var a, b := Be(m / 256, w - 1), Be(n / 256, w - 1);
      BeOrder(m / 256, n / 256, w - 1);
      if m / 256 == n / 256 {
        LessCommonPrefix(a, [m % 256], [n % 256]);
      } else {
        if a == b { BeInjective(m / 256, n / 256, w - 1); }
        LessEqualWidth(a, b, [m % 256], [n % 256]);
      }
    }
  }
}
