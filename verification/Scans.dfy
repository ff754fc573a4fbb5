/** Index keys that order by a timestamp: a scope, the timestamp, then an identifier. */
module TimedKeys {
  import opened Outcomes
  import opened Bytes

  const TWO63: int := 0x8000_0000_0000_0000
  const TWO64: int := 0x1_0000_0000_0000_0000

  type I64 = i: int | -TWO63 <= i < TWO63

  // ----- Timestamps -----

  /** Two's complement. */
  function Unsigned(t: I64): (u: nat)
    ensures u < TWO64
  {
    if t < 0 then t + TWO64 else t
  }

  function Signed(u: nat): I64
    requires u < TWO64
  {
    if u >= TWO63 then u - TWO64 else u
  }

  function FlipTop(u: nat): (r: nat)
    requires u < TWO64
    ensures r < TWO64
  {
    if u >= TWO63 then u - TWO63 else u + TWO63
  }

  /** A timestamp in the byte order of its value. */
  function OrderedTimestamp(t: I64): (k: Key)
    ensures |k| == 8
  {
    Be(FlipTop(Unsigned(t)), 8)
  }

  function FromOrdered(k: Key): I64
    requires |k| == 8
  {
    BeOfFromBe(k);
    Widths();
    Signed(FlipTop(FromBe(k)))
  }

  lemma OrderedRoundTrip(t: I64, k: Key)
    ensures FromOrdered(OrderedTimestamp(t)) == t
    ensures |k| == 8 ==> OrderedTimestamp(FromOrdered(k)) == k
  {
    Widths();
    FromBeOfBe(FlipTop(Unsigned(t)), 8);
    if |k| == 8 {
      BeOfFromBe(k);
    }
  }

  lemma OrderedTimestampOrder(a: I64, b: I64)
    ensures Less(OrderedTimestamp(a), OrderedTimestamp(b)) <==> a < b
    ensures OrderedTimestamp(a) == OrderedTimestamp(b) <==> a == b
  {
    Widths();
    BeOrder(FlipTop(Unsigned(a)), FlipTop(Unsigned(b)), 8);
    OrderedRoundTrip(a, []);
    OrderedRoundTrip(b, []);
  }

  // ----- Keys -----

  function TimedKey(scope: Key, at: I64, id: Key): Key {
    scope + OrderedTimestamp(at) + id
  }

  lemma TimedKeyParts(scope: Key, at: I64, id: Key)
    ensures var k, n := TimedKey(scope, at, id), |scope|;
            |k| == n + 8 + |id| && k[..n] == scope && k[n..n + 8] == OrderedTimestamp(at)
              && k[n..][..8] == OrderedTimestamp(at)
            && k[n + 8..] == id && k[n..][8..] == id && scope <= k
  {
  }

  lemma TimedKeyInjective(scope: Key, at: I64, id: Key, at': I64, id': Key)
    requires TimedKey(scope, at, id) == TimedKey(scope, at', id')
    ensures at == at' && id == id'
  {
    TimedKeyParts(scope, at, id);
    TimedKeyParts(scope, at', id');
    OrderedTimestampOrder(at, at');
  }

  /** Keys of one scope order by time, then by identifier. */
  lemma TimedKeyOrder(scope: Key, at: I64, id: Key, at': I64, id': Key)
    ensures Less(TimedKey(scope, at, id), TimedKey(scope, at', id')) <==> at < at' || (at == at' && Less(id, id'))
  {
    var x, y := OrderedTimestamp(at), OrderedTimestamp(at');
    OrderedTimestampOrder(at, at');
    assert TimedKey(scope, at, id) == scope + (x + id) && TimedKey(scope, at', id') == scope + (y + id');
    LessCommonPrefix(scope, x + id, y + id');
    if at == at' {
      LessCommonPrefix(x, id, id');
    } else {
      LessEqualWidth(x, y, id, id');
    }
  }

  // ----- Ranges -----

  lemma {:induction false} PrefixEndOfConcat(p: Key, x: Key)
    ensures PrefixEnd(p + x) == if PrefixEnd(x).Some? then Some(p + PrefixEnd(x).value) else PrefixEnd(p)
    decreases |p|
  {
    if p == [] {
      assert p + x == x;
      assert PrefixEnd(x).Some? ==> p + PrefixEnd(x).value == PrefixEnd(x).value;
    } else {
      assert (p + x)[1..] == p[1..] + x;
      PrefixEndOfConcat(p[1..], x);
      if PrefixEnd(x).Some? {
        assert [p[0]] + (p[1..] + PrefixEnd(x).value) == p + PrefixEnd(x).value;
      }
    }
  }

  /** A key between a prefix and a key with that prefix has the prefix too. */
  lemma {:induction false} BetweenHasPrefix(p: Key, e: Key, k: Key)
    requires !Less(k, p) && Less(k, p + e)
    ensures p <= k
    decreases |p|
  {
    if p != [] {
      assert (p + e)[1..] == p[1..] + e;
      BetweenHasPrefix(p[1..], e, k[1..]);
      assert k == [k[0]] + k[1..] && p == [p[0]] + p[1..];
    }
  }

  /** The end of the keys of a scope up to a time. */
  function TimedEnd(scope: Key, now: I64): Option<Key> {
    PrefixEnd(scope + OrderedTimestamp(now))
  }

  /** The range up to a time exists, holds only keys of the scope, and of those exactly the ones
      no later than that time. */
  lemma TimedRangeExact(scope: Key, now: I64, key: Key, at: I64, id: Key)
    requires scope != [] && scope[0] != 255
    ensures TimedEnd(scope, now).Some?
    ensures InRange(key, scope, TimedEnd(scope, now).value) ==> scope <= key
    ensures InRange(TimedKey(scope, at, id), scope, TimedEnd(scope, now).value) <==> at <= now
  {
    var x := OrderedTimestamp(now);
    assert (scope + x)[0] != 255;
    PrefixEndExists(scope);
    PrefixEndExists(scope + x);
    PrefixEndOfConcat(scope, x);
    if InRange(key, scope, TimedEnd(scope, now).value) {
      if PrefixEnd(x).Some? {
        BetweenHasPrefix(scope, PrefixEnd(x).value, key);
      } else {
        PrefixRangeExact(scope, key);
      }
    }
    UpToNow(scope, now, at, id);
  }

  lemma UpToNow(p: Key, now: I64, at: I64, id: Key)
    requires TimedEnd(p, now).Some?
    ensures InRange(TimedKey(p, at, id), p, TimedEnd(p, now).value) <==> at <= now
  {
    var x, y := OrderedTimestamp(now), OrderedTimestamp(at);
    var k, q, end := TimedKey(p, at, id), p + x, TimedEnd(p, now).value;
    OrderedTimestampOrder(at, now);
    PrefixRangeExact(q, k);
    PrefixRangeExact(q, q);
    LessTotal(q, end);
    assert k == p + (y + id) && q == p + (x + []);
    AboveOwnPrefix(p, y + id);
    LessCommonPrefix(p, y + id, x + []);
    TimedKeyParts(p, at, id);
    if at == now {
      assert q <= k by { assert k[..|q|] == q; }
    } else {
      LessEqualWidth(y, x, id, []);
      assert !(q <= k) by { assert k[|p|..|p| + 8] == y && q[|p|..|p| + 8] == x; }
      if at < now {
        LessTransitive(k, q, end);
      }
    }
  }

  lemma {:induction false} AboveOwnPrefix(p: Key, x: Key)
    ensures !Less(p + x, p)
    decreases |p|
  {
    if p != [] {
      assert (p + x)[1..] == p[1..] + x;
      AboveOwnPrefix(p[1..], x);
    }
  }

  /** Nothing lies between a key and the same key with a zero byte appended. */
  lemma {:induction false} SuccessorKey(k: Key, x: Key)
    ensures Less(x, k + [0]) <==> Less(x, k) || x == k
    decreases |k|
  {
    if k == [] {
      assert k + [0] == [0];
    } else {
      assert (k + [0])[1..] == k[1..] + [0];
      if x != [] {
        SuccessorKey(k[1..], x[1..]);
        assert x == [x[0]] + x[1..] && k == [k[0]] + k[1..];
      }
    }
  }
}

/** Native range scans, page by page. */
module Scans {
  import opened Bytes

  function KeysIn(keys: set<Key>, begin: Key, end: Key): set<Key> {
    set k | k in keys && InRange(k, begin, end)
  }

  predicate Ascending(page: seq<Key>) {
    forall i, j :: 0 <= i < j < |page| ==> Less(page[i], page[j])
  }

  /** A native page: the first keys of the range in order, with a flag for the rest. It may be
      shorter than asked for, but not empty while something remains. */
  ghost predicate IsPage(keys: set<Key>, begin: Key, end: Key, page: seq<Key>, more: bool) {
    && Ascending(page)
    && (forall i :: 0 <= i < |page| ==> page[i] in KeysIn(keys, begin, end))
    && (forall k :: k in KeysIn(keys, begin, end) && k !in page ==> more && forall i :: 0 <= i < |page| ==>
         Less(page[i], k))
    && (more ==> page != [])
  }

  method Least(keys: set<Key>) returns (least: Key)
    requires keys != {}
    ensures least in keys && forall k :: k in keys && k != least ==> Less(least, k)
  {
    least :| least in keys;
    var rest := keys - {least};
    while rest != {}
      invariant rest <= keys && least in keys && least !in rest
      invariant forall k :: k in keys && k !in rest && k != least ==> Less(least, k)
      decreases rest
    {
      var k :| k in rest;
      LessTotal(least, k);
      if Less(k, least) {
        LeastMoves(keys, rest, least, k);
        least := k;
      }
      rest := rest - {k};
    }
  }

  lemma LeastMoves(keys: set<Key>, rest: set<Key>, least: Key, k: Key)
    requires Less(k, least) && forall x :: x in keys && x !in rest && x != least ==> Less(least, x)
    ensures forall x :: x in keys && x !in rest ==> Less(k, x)
  {
    forall x | x in keys && x !in rest ensures Less(k, x) {
      if x != least { LessTransitive(k, least, x); }
    }
  }

  method Scan(keys: set<Key>, begin: Key, end: Key, limit: nat) returns (page: seq<Key>, more: bool)
    requires limit > 0
    ensures IsPage(keys, begin, end, page, more) && |page| <= limit
  {
    page := [];
    var rest := KeysIn(keys, begin, end);
    while rest != {} && |page| < limit
      invariant rest <= KeysIn(keys, begin, end) && |page| <= limit && Ascending(page)
      invariant forall k :: k in KeysIn(keys, begin, end) <==> k in rest || k in page
      invariant forall i, k :: 0 <= i < |page| && k in rest ==> Less(page[i], k)
      decreases rest
    {
      var k := Least(rest);
      page := page + [k];
      rest := rest - {k};
    }
    more := rest != {};
    assert forall i :: 0 <= i < |page| ==> page[i] in page;
  }
}
