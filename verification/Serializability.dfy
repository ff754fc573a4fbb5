/** Unsigned machine masks as naturals, with their bitwise operations. */
module Bitmask {
  function Pow2(n: nat): (r: nat)
    ensures r > 0
  {
    if n == 0 then 1 else 2 * Pow2(n - 1)
  }

  predicate Bit(mask: nat, i: nat) {
    if i == 0 then mask % 2 == 1 else Bit(mask / 2, i - 1)
  }

  function And(a: nat, b: nat): nat {
    if a == 0 then 0 else 2 * And(a / 2, b / 2) + (if a % 2 == 1 && b % 2 == 1 then 1 else 0)
  }

  function Or(a: nat, b: nat): nat
    decreases a + b
  {
    if a == 0 && b == 0 then 0 else 2 * Or(a / 2, b / 2) + (if a % 2 == 1 || b % 2 == 1 then 1 else 0)
  }

  /** `a & !b`. */
  function AndNot(a: nat, b: nat): nat {
    if a == 0 then 0 else 2 * AndNot(a / 2, b / 2) + (if a % 2 == 1 && b % 2 == 0 then 1 else 0)
  }

  lemma {:induction false} BitZero(i: nat)
    ensures !Bit(0, i)
    decreases i
  {
    if i > 0 { BitZero(i - 1); }
  }

  lemma {:induction false} BitAnd(a: nat, b: nat, i: nat)
    ensures Bit(And(a, b), i) <==> Bit(a, i) && Bit(b, i)
    decreases i
  {
    if a == 0 {
      BitZero(i);
    } else if i > 0 {
      BitAnd(a / 2, b / 2, i - 1);
    }
  }

  lemma {:induction false} BitOr(a: nat, b: nat, i: nat)
    ensures Bit(Or(a, b), i) <==> Bit(a, i) || Bit(b, i)
    decreases i
  {
    if a == 0 && b == 0 {
      BitZero(i);
    } else if i > 0 {
      BitOr(a / 2, b / 2, i - 1);
    }
  }

  lemma {:induction false} BitAndNot(a: nat, b: nat, i: nat)
    ensures Bit(AndNot(a, b), i) <==> Bit(a, i) && !Bit(b, i)
    decreases i
  {
    if a == 0 {
      BitZero(i);
    } else if i > 0 {
      BitAndNot(a / 2, b / 2, i - 1);
    }
  }

  lemma {:induction false} BitPow2(n: nat, i: nat)
    ensures Bit(Pow2(n), i) <==> n == i
    decreases n
  {
    if n == 0 {
      if i > 0 { BitZero(i - 1); }
    } else if i > 0 {
      BitPow2(n - 1, i - 1);
    }
  }

  lemma {:induction false} BitComplete(n: nat, i: nat)
    ensures Bit(Pow2(n) - 1, i) <==> i < n
    decreases n
  {
    if n == 0 {
      BitZero(i);
    } else {
      assert (Pow2(n) - 1) / 2 == Pow2(n - 1) - 1;
      if i > 0 { BitComplete(n - 1, i - 1); }
    }
  }

  /** A mask is nonzero exactly when one of its bits is set. */
  lemma {:induction false} NonzeroHasBit(mask: nat) returns (i: nat)
    requires mask != 0
    ensures Bit(mask, i)
    decreases mask
  {
    if mask % 2 == 1 {
      i := 0;
    } else {
      var j := NonzeroHasBit(mask / 2);
      i := j + 1;
    }
  }

  lemma {:induction false} SameBits(a: nat, b: nat)
    requires forall i: nat :: Bit(a, i) <==> Bit(b, i)
    ensures a == b
    decreases a + b
  {
    if a != 0 || b != 0 {
      assert Bit(a, 0) <==> Bit(b, 0);
      forall i: nat ensures Bit(a / 2, i) <==> Bit(b / 2, i) { assert Bit(a, i + 1) <==> Bit(b, i + 1); }
      if a == b == 1 {
      } else {
        SameBits(a / 2, b / 2);
      }
    }
  }

  /** Bits below `n`, as a set. */
  function Members(mask: nat, n: nat): (s: set<nat>)
    ensures forall i :: i in s <==> 0 <= i < n && Bit(mask, i)
  {
    set i: nat | i < n && Bit(mask, i)
  }

  predicate Within(mask: nat, n: nat) {
    mask < Pow2(n)
  }

  lemma {:induction false} WithinBits(mask: nat, n: nat, i: nat)
    requires Within(mask, n) && Bit(mask, i)
    ensures i < n
    decreases i
  {
    if n == 0 {
      BitZero(i);
    } else if i > 0 {
      WithinBits(mask / 2, n - 1, i - 1);
    }
  }

  lemma {:induction false} BitsWithin(mask: nat, n: nat)
    requires forall i: nat :: Bit(mask, i) ==> i < n
    ensures Within(mask, n)
    decreases n
  {
    if n == 0 {
      if mask != 0 { var i := NonzeroHasBit(mask); }
    } else {
      forall i: nat | Bit(mask / 2, i) ensures i < n - 1 { assert Bit(mask, i + 1); }
      BitsWithin(mask / 2, n - 1);
    }
  }

  /** Setting one bit adds one member. */
  lemma SetBit(mask: nat, n: nat, i: nat)
    requires Within(mask, n) && i < n
    ensures Within(Or(mask, Pow2(i)), n) && Members(Or(mask, Pow2(i)), n) == Members(mask, n) + {i}
    ensures And(mask, Pow2(i)) != 0 <==> i in Members(mask, n)
  {
    forall j: nat ensures Bit(Or(mask, Pow2(i)), j) <==> Bit(mask, j) || j == i {
      BitOr(mask, Pow2(i), j);
      BitPow2(i, j);
    }
    forall j: nat | Bit(Or(mask, Pow2(i)), j) ensures j < n { if Bit(mask, j) { WithinBits(mask, n, j); } }
    BitsWithin(Or(mask, Pow2(i)), n);
    if And(mask, Pow2(i)) != 0 {
      var j := NonzeroHasBit(And(mask, Pow2(i)));
      BitAnd(mask, Pow2(i), j);
      BitPow2(i, j);
    } else {
      BitAnd(mask, Pow2(i), i);
      BitPow2(i, i);
      BitZero(i);
    }
  }

  /** `a & !b` is zero exactly when the members of `a` are members of `b`. */
  lemma AndNotZero(a: nat, b: nat, n: nat)
    requires Within(a, n)
    ensures AndNot(a, b) == 0 <==> Members(a, n) <= Members(b, n)
  {
    if AndNot(a, b) == 0 {
      forall i | i in Members(a, n) ensures i in Members(b, n) { BitAndNot(a, b, i); BitZero(i); }
    } else {
      var i := NonzeroHasBit(AndNot(a, b));
      BitAndNot(a, b, i);
      WithinBits(a, n, i);
      assert i in Members(a, n) && i !in Members(b, n);
    }
  }

  /** The complete mask is the one with all `n` members. */
  lemma CompleteMask(mask: nat, n: nat)
    requires Within(mask, n)
    ensures mask == Pow2(n) - 1 <==> forall i :: 0 <= i < n ==> i in Members(mask, n)
  {
    if mask == Pow2(n) - 1 {
      forall i | 0 <= i < n ensures i in Members(mask, n) { BitComplete(n, i); }
    } else if forall i :: 0 <= i < n ==> i in Members(mask, n) {
      forall i: nat ensures Bit(mask, i) <==> Bit(Pow2(n) - 1, i) {
        BitComplete(n, i);
        if Bit(mask, i) { WithinBits(mask, n, i); }
        if i < n { assert i in Members(mask, n); }
      }
      SameBits(mask, Pow2(n) - 1);
    }
  }
}

/** Serializability of the operations on one shared key, and the memoised search for it. */
module Serializability {
  import opened Outcomes
  import opened Bitmask

  datatype Op =
    | Write(value: string)
    | PutIfAbsent(value: string)
    | Delete
    | Read(actual: Option<string>)
    | ConditionFailed

  datatype OpEntry = OpEntry(clientId: int, sequence: nat, startedAt: nat, completedAt: nat, op: Op)

  predicate MustPrecede(left: OpEntry, right: OpEntry) {
    || (left.clientId == right.clientId && left.sequence < right.sequence)
    || (left.completedAt > 0 && right.startedAt > 0 && left.completedAt <= right.startedAt)
  }

  /** The value after an operation, or nothing if the operation cannot happen here. */
  function ApplySerial(current: Option<string>, op: Op): Option<Option<string>> {
    match op
    case Write(value) => Some(Some(value))
    case PutIfAbsent(value) => if current.None? then Some(Some(value)) else None
    case Delete => Some(None)
    case Read(actual) => if actual == current then Some(current) else None
    case ConditionFailed => if current.Some? then Some(current) else None
  }

  // ----- The specification -----

  function Run(current: Option<string>, order: seq<OpEntry>): Option<Option<string>>
    decreases |order|
  {
    if order == [] then Some(current)
    else match ApplySerial(current, order[0].op)
      case None => None
      case Some(next) => Run(next, order[1..])
  }

  predicate Respects(order: seq<OpEntry>) {
    forall i, j :: 0 <= i < j < |order| ==> !MustPrecede(order[j], order[i])
  }

  predicate EndsIn(finals: seq<Option<string>>, value: Option<string>) {
    forall i :: 0 <= i < |finals| ==> finals[i] == value
  }

  /** An order that respects precedence, in which every operation happens and after which the
      key holds what every final read saw. */
  predicate Explains(order: seq<OpEntry>, start: Option<string>, finals: seq<Option<string>>) {
    Respects(order) && Run(start, order).Some? && EndsIn(finals, Run(start, order).value)
  }

  ghost predicate Serializable(ops: seq<OpEntry>, finals: seq<Option<string>>) {
    exists order: seq<OpEntry> :: multiset(order) == multiset(ops) && Explains(order, None, finals)
  }

  // ----- What is left to schedule -----

  ghost function Remaining(ops: seq<OpEntry>, done: set<nat>, n: nat): multiset<OpEntry>
    requires n <= |ops|
  {
    if n == 0 then multiset{}
    else Remaining(ops, done, n - 1) + (if n - 1 in done then multiset{} else multiset{ops[n - 1]})
  }

  lemma {:induction false} RemainingIndex(ops: seq<OpEntry>, done: set<nat>, n: nat, e: OpEntry) returns (i: nat)
    requires n <= |ops| && e in Remaining(ops, done, n)
    ensures i < n && i !in done && ops[i] == e
    decreases n
  {
    if n - 1 !in done && ops[n - 1] == e {
      i := n - 1;
    } else {
      i := RemainingIndex(ops, done, n - 1, e);
    }
  }

  lemma {:induction false} RemainingHas(ops: seq<OpEntry>, done: set<nat>, n: nat, i: nat)
    requires i < n <= |ops| && i !in done
    ensures ops[i] in Remaining(ops, done, n)
    decreases n
  {
    if i < n - 1 { RemainingHas(ops, done, n - 1, i); }
  }

  ghost function Copies(ops: seq<OpEntry>, done: set<nat>, n: nat, e: OpEntry): nat
    requires n <= |ops|
  {
    if n == 0 then 0 else Copies(ops, done, n - 1, e) + (if n - 1 !in done && ops[n - 1] == e then 1 else 0)
  }

  lemma {:induction false} CopiesExact(ops: seq<OpEntry>, done: set<nat>, n: nat, e: OpEntry)
    requires n <= |ops|
    ensures Remaining(ops, done, n)[e] == Copies(ops, done, n, e)
    decreases n
  {
    if n > 0 {
      CopiesExact(ops, done, n - 1, e);
      var before := Remaining(ops, done, n - 1);
      if n - 1 in done {
        assert Remaining(ops, done, n) == before + multiset{};
      } else {
        assert Remaining(ops, done, n) == before + multiset{ops[n - 1]};
      }
    }
  }

  lemma {:induction false} CopiesWithout(ops: seq<OpEntry>, done: set<nat>, n: nat, i: nat, e: OpEntry)
    requires i < |ops| && n <= |ops| && i !in done
    ensures Copies(ops, done, n, e) == Copies(ops, done + {i}, n, e) + (if i < n && ops[i] == e then 1 else 0)
    decreases n
  {
    if n > 0 { CopiesWithout(ops, done, n - 1, i, e); }
  }

  lemma RemainingWithout(ops: seq<OpEntry>, done: set<nat>, i: nat)
    requires i < |ops| && i !in done
    ensures Remaining(ops, done, |ops|) == Remaining(ops, done + {i}, |ops|) + multiset{ops[i]}
  {
    forall e: OpEntry
      ensures Remaining(ops, done, |ops|)[e] == (Remaining(ops, done + {i}, |ops|) + multiset{ops[i]})[e] {
      CopiesExact(ops, done, |ops|, e);
      CopiesExact(ops, done + {i}, |ops|, e);
      CopiesWithout(ops, done, |ops|, i, e);
    }
  }

  lemma SumCancels(a: multiset<OpEntry>, b: multiset<OpEntry>, c: multiset<OpEntry>)
    requires a + c == b + c
    ensures a == b
  {
    assert a == a + c - c;
    assert b == b + c - c;
  }

  lemma {:induction false} RemainingAll(ops: seq<OpEntry>, n: nat)
    requires n <= |ops|
    ensures Remaining(ops, {}, n) == multiset(ops[..n])
    decreases n
  {
    if n > 0 {
      RemainingAll(ops, n - 1);
      assert ops[..n] == ops[..n - 1] + [ops[n - 1]];
    }
  }

  lemma {:induction false} RemainingNone(ops: seq<OpEntry>, done: set<nat>, n: nat)
    requires n <= |ops| && forall i :: 0 <= i < n ==> i in done
    ensures Remaining(ops, done, n) == multiset{}
    decreases n
  {
    if n > 0 { RemainingNone(ops, done, n - 1); }
  }

  /** The unscheduled operations can be ordered so that the run explains the final reads. */
  ghost predicate Completable(ops: seq<OpEntry>, done: set<nat>, value: Option<string>, finals: seq<Option<string>>) {
    exists order: seq<OpEntry> :: multiset(order) == Remaining(ops, done, |ops|) && Explains(order, value, finals)
  }

  /** Operation `i` may be scheduled next. */
  predicate Ready(ops: seq<OpEntry>, done: set<nat>, value: Option<string>, i: nat) {
    && i < |ops| && i !in done && ApplySerial(value, ops[i].op).Some?
    && forall k :: 0 <= k < |ops| && k != i && MustPrecede(ops[k], ops[i]) ==> k in done
  }

  lemma CompleteState(ops: seq<OpEntry>, done: set<nat>, value: Option<string>, finals: seq<Option<string>>)
    requires forall i :: 0 <= i < |ops| ==> i in done
    ensures Completable(ops, done, value, finals) <==> EndsIn(finals, value)
  {
    RemainingNone(ops, done, |ops|);
    if EndsIn(finals, value) {
      var order: seq<OpEntry> := [];
      assert multiset(order) == Remaining(ops, done, |ops|) && Explains(order, value, finals);
    }
    if order: seq<OpEntry> :| multiset(order) == Remaining(ops, done, |ops|) && Explains(order, value, finals) {
      assert |multiset(order)| == 0;
    }
  }

  /** Scheduling a ready operation first extends a completion. */
  lemma ScheduleFirst(ops: seq<OpEntry>, done: set<nat>, value: Option<string>, finals: seq<Option<string>>, i: nat)
    requires Ready(ops, done, value, i) && Completable(ops, done + {i}, ApplySerial(value, ops[i].op).value, finals)
    ensures Completable(ops, done, value, finals)
  {
    var next := ApplySerial(value, ops[i].op).value;
    var rest: seq<OpEntry> :| multiset(rest) == Remaining(ops, done + {i}, |ops|) && Explains(rest, next, finals);
    NoneBeforeFirst(ops, done, value, rest, i);
    Prepend(ops[i], rest, value, finals);
    PrependRemaining(ops, done, rest, i);
  }

  lemma NoneBeforeFirst(ops: seq<OpEntry>, done: set<nat>, value: Option<string>, rest: seq<OpEntry>, i: nat)
    requires Ready(ops, done, value, i) && multiset(rest) == Remaining(ops, done + {i}, |ops|)
    ensures forall j :: 0 <= j < |rest| ==> !MustPrecede(rest[j], ops[i])
  {
    forall j | 0 <= j < |rest| ensures !MustPrecede(rest[j], ops[i]) {
      assert rest[j] in multiset(rest);
      var k := RemainingIndex(ops, done + {i}, |ops|, rest[j]);
    }
  }

  lemma PrependRemaining(ops: seq<OpEntry>, done: set<nat>, rest: seq<OpEntry>, i: nat)
    requires i < |ops| && i !in done && multiset(rest) == Remaining(ops, done + {i}, |ops|)
    ensures multiset([ops[i]] + rest) == Remaining(ops, done, |ops|)
  {
    RemainingWithout(ops, done, i);
  }

  lemma Prepend(first: OpEntry, rest: seq<OpEntry>, value: Option<string>, finals: seq<Option<string>>)
    requires ApplySerial(value, first.op).Some? && Explains(rest, ApplySerial(value, first.op).value, finals)
    requires forall j :: 0 <= j < |rest| ==> !MustPrecede(rest[j], first)
    ensures Explains([first] + rest, value, finals)
  {
    var order := [first] + rest;
    assert order[1..] == rest;
    forall a, b | 0 <= a < b < |order| ensures !MustPrecede(order[b], order[a]) {
      assert order[b] == rest[b - 1];
      if a > 0 { assert order[a] == rest[a - 1]; }
    }
  }

  lemma DropFirst(order: seq<OpEntry>, value: Option<string>, finals: seq<Option<string>>)
    requires order != [] && Explains(order, value, finals)
    ensures ApplySerial(value, order[0].op).Some? && Explains(order[1..], ApplySerial(value, order[0].op).value, finals)
    ensures forall j :: 0 <= j < |order[1..]| ==> !MustPrecede(order[1..][j], order[0])
  {
    var rest := order[1..];
    forall a, b | 0 <= a < b < |rest| ensures !MustPrecede(rest[b], rest[a]) {
      assert rest[a] == order[a + 1] && rest[b] == order[b + 1];
    }
  }

  /** What is left once the first of an order has been scheduled. */
  lemma RemainingRest(ops: seq<OpEntry>, done: set<nat>, order: seq<OpEntry>, i: nat)
    requires order != [] && multiset(order) == Remaining(ops, done, |ops|)
    requires i < |ops| && i !in done && ops[i] == order[0]
    ensures multiset(order[1..]) == Remaining(ops, done + {i}, |ops|)
  {
    var rest := order[1..];
    assert order == [order[0]] + rest;
    RemainingWithout(ops, done, i);
    assert multiset(order) == multiset(rest) + multiset{order[0]};
    SumCancels(multiset(rest), Remaining(ops, done + {i}, |ops|), multiset{order[0]});
  }

  /** Every completion starts with some ready operation. */
  lemma FirstIsReady(ops: seq<OpEntry>, done: set<nat>, value: Option<string>, finals: seq<Option<string>>, u: nat)
    returns (i: nat)
    requires Completable(ops, done, value, finals) && u < |ops| && u !in done
    ensures Ready(ops, done, value, i) && Completable(ops, done + {i}, ApplySerial(value, ops[i].op).value, finals)
    ensures !Fruitless(ops, finals, done, value, i)
  {
    var order: seq<OpEntry> :| multiset(order) == Remaining(ops, done, |ops|) && Explains(order, value, finals);
    RemainingHas(ops, done, |ops|, u);
    assert ops[u] in multiset(order);
    assert order[0] in multiset(order);
    i := RemainingIndex(ops, done, |ops|, order[0]);
    RemainingRest(ops, done, order, i);
    DropFirst(order, value, finals);
    FirstHasNoPredecessor(ops, done, order[1..], i);
  }

  lemma FirstHasNoPredecessor(ops: seq<OpEntry>, done: set<nat>, rest: seq<OpEntry>, i: nat)
    requires i < |ops| && multiset(rest) == Remaining(ops, done + {i}, |ops|)
    requires forall j :: 0 <= j < |rest| ==> !MustPrecede(rest[j], ops[i])
    ensures forall k :: 0 <= k < |ops| && k != i && MustPrecede(ops[k], ops[i]) ==> k in done
  {
    forall k | 0 <= k < |ops| && k != i && k !in done ensures !MustPrecede(ops[k], ops[i]) {
      RemainingHas(ops, done + {i}, |ops|, k);
      assert ops[k] in multiset(rest);
      var j :| 0 <= j < |rest| && rest[j] == ops[k];
    }
  }

  // ----- Predecessor masks -----

  /** Mask `i` holds exactly the operations that must come before operation `i`. */
  ghost predicate MasksMatch(ops: seq<OpEntry>, masks: seq<nat>) {
    && |masks| == |ops|
    && forall i :: 0 <= i < |ops| ==> Within(masks[i], |ops|) && MaskMatches(ops, masks[i], i, |ops|)
  }

  ghost predicate MaskMatches(ops: seq<OpEntry>, mask: nat, i: nat, n: nat)
    requires i < |ops| && n <= |ops|
  {
    forall k :: k in Members(mask, |ops|) <==> 0 <= k < n && k != i && MustPrecede(ops[k], ops[i])
  }

  /** How many of the first `n` operations must follow operation `left`. */
  function RowConstraints(ops: seq<OpEntry>, left: nat, n: nat): nat
    requires left < |ops| && n <= |ops|
  {
    if n == 0 then 0
    else RowConstraints(ops, left, n - 1) + if left != n - 1 && MustPrecede(ops[left], ops[n - 1]) then 1 else 0
  }

  function ConstraintTotal(ops: seq<OpEntry>, n: nat): nat
    requires n <= |ops|
  {
    if n == 0 then 0 else ConstraintTotal(ops, n - 1) + RowConstraints(ops, n - 1, |ops|)
  }

  ghost predicate MasksUpTo(ops: seq<OpEntry>, masks: seq<nat>, left: nat, right: nat) {
    && |masks| == |ops| && left < |ops| && right <= |ops|
    && forall i :: 0 <= i < |ops| ==>
         Within(masks[i], |ops|) && MaskMatches(ops, masks[i], i, if i < right then left + 1 else left)
  }

  lemma MaskStep(ops: seq<OpEntry>, mask: nat, left: nat, right: nat)
    requires left < |ops| && right < |ops| && Within(mask, |ops|) && MaskMatches(ops, mask, right, left)
    ensures And(mask, Pow2(left)) == 0
    ensures left != right && MustPrecede(ops[left], ops[right]) ==>
      Within(Or(mask, Pow2(left)), |ops|) && MaskMatches(ops, Or(mask, Pow2(left)), right, left + 1)
    ensures !(left != right && MustPrecede(ops[left], ops[right])) ==> MaskMatches(ops, mask, right, left + 1)
  {
    SetBit(mask, |ops|, left);
  }

  /** Adds the constraints that one operation puts on all others. */
  method AddConstraints(ops: seq<OpEntry>, left: nat, masks: seq<nat>) returns (updated: seq<nat>, added: nat)
    requires MasksUpTo(ops, masks, left, 0)
    ensures MasksUpTo(ops, updated, left, |ops|) && added == RowConstraints(ops, left, |ops|)
  {
    updated, added := masks, 0;
    for right := 0 to |ops|
      invariant MasksUpTo(ops, updated, left, right) && added == RowConstraints(ops, left, right)
    {
      MaskStep(ops, updated[right], left, right);
      if left != right && MustPrecede(ops[left], ops[right]) {
        var bit := Pow2(left);
        if And(updated[right], bit) == 0 {
          updated := updated[right := Or(updated[right], bit)];
          added := added + 1;
        }
      }
    }
  }

  /** Builds every mask bit by bit and counts the constraints. */
  method PredecessorMasks(ops: seq<OpEntry>) returns (masks: seq<nat>, count: nat)
    ensures MasksMatch(ops, masks) && count == ConstraintTotal(ops, |ops|)
  {
    masks, count := seq(|ops|, _ => 0), 0;
    forall k: nat ensures !Bit(0, k) { BitZero(k); }
    for left := 0 to |ops|
      invariant |masks| == |ops| && forall i :: 0 <= i < |ops| ==>
                Within(masks[i], |ops|) && MaskMatches(ops, masks[i], i, left)
      invariant count == ConstraintTotal(ops, left)
    {
      var added;
      masks, added := AddConstraints(ops, left, masks);
      count := count + added;
    }
  }

  // ----- The search -----

  datatype SearchState = SearchState(mask: nat, value: Option<string>)

  ghost predicate Dead(ops: seq<OpEntry>, finals: seq<Option<string>>, s: SearchState) {
    !Completable(ops, Members(s.mask, |ops|), s.value, finals)
  }

  ghost function Size(ops: seq<OpEntry>, s: SearchState): nat {
    |Members(s.mask, |ops|)|
  }

  /** Every visited state with at least `size` scheduled operations is a dead end. States with
      fewer may still be on the search stack. */
  ghost predicate Explored(ops: seq<OpEntry>, finals: seq<Option<string>>, visited: set<SearchState>, size: nat) {
    forall t :: t in visited && Size(ops, t) >= size ==> Dead(ops, finals, t)
  }

  /** Scheduling operation `i` next leads nowhere. */
  ghost predicate Fruitless(ops: seq<OpEntry>, finals: seq<Option<string>>, done: set<nat>, value: Option<string>,
      i: nat) {
    Ready(ops, done, value, i) ==> !Completable(ops, done + {i}, ApplySerial(value, ops[i].op).value, finals)
  }

  /** Newly visited states have at least `size` scheduled operations. */
  ghost predicate Deeper(ops: seq<OpEntry>, visited: set<SearchState>, marked: set<SearchState>, size: nat) {
    forall t :: t in marked && t !in visited ==> Size(ops, t) >= size
  }

  /** The tests the loop makes on masks are the readiness of the operation. */
  lemma ReadyByMasks(ops: seq<OpEntry>, masks: seq<nat>, s: SearchState, i: nat)
    requires MasksMatch(ops, masks) && Within(s.mask, |ops|) && i < |ops|
    ensures And(s.mask, Pow2(i)) == 0 && AndNot(masks[i], s.mask) == 0 && ApplySerial(s.value, ops[i].op).Some?
       <==> Ready(ops, Members(s.mask, |ops|), s.value, i)
  {
    SetBit(s.mask, |ops|, i);
    AndNotZero(masks[i], s.mask, |ops|);
    assert MaskMatches(ops, masks[i], i, |ops|);
  }

  lemma NoReadyIsDead(ops: seq<OpEntry>, finals: seq<Option<string>>, s: SearchState)
    requires exists u :: 0 <= u < |ops| && u !in Members(s.mask, |ops|)
    requires forall i :: 0 <= i < |ops| ==> Fruitless(ops, finals, Members(s.mask, |ops|), s.value, i)
    ensures Dead(ops, finals, s)
  {
    var done := Members(s.mask, |ops|);
    if Completable(ops, done, s.value, finals) {
      var u :| 0 <= u < |ops| && u !in done;
      var i := FirstIsReady(ops, done, s.value, finals, u);
    }
  }

  lemma MembersBound(ops: seq<OpEntry>, mask: nat)
    ensures |Members(mask, |ops|)| <= |ops|
  {
    SubsetSize(Members(mask, |ops|), Below(|ops|));
  }

  ghost function Below(n: nat): (s: set<nat>)
    ensures |s| == n && forall i :: i in s <==> 0 <= i < n
  {
    if n == 0 then {} else Below(n - 1) + {n - 1}
  }

  lemma {:induction false} SubsetSize(a: set<nat>, b: set<nat>)
    requires a <= b
    ensures |a| <= |b|
    decreases |a|
  {
    if a != {} {
      var x :| x in a;
      SubsetSize(a - {x}, b - {x});
    }
  }

  /** The memoised search is sound and complete: it succeeds exactly on completable states,
      although states are marked visited when they are entered. */
  method Search(ops: seq<OpEntry>, masks: seq<nat>, finals: seq<Option<string>>, state: SearchState,
      visited: set<SearchState>)
    returns (found: bool, marked: set<SearchState>)
    requires MasksMatch(ops, masks) && Within(state.mask, |ops|)
    requires Explored(ops, finals, visited, Size(ops, state))
    ensures found <==> Completable(ops, Members(state.mask, |ops|), state.value, finals)
    ensures visited <= marked && state in marked && Deeper(ops, visited, marked, Size(ops, state))
    ensures !found ==> Explored(ops, finals, marked, Size(ops, state))
    decreases |ops| - Size(ops, state)
  {
    if state in visited {
      return false, visited;
    }
    marked := visited + {state};
    ghost var done, size := Members(state.mask, |ops|), Size(ops, state);
    CompleteMask(state.mask, |ops|);
    if state.mask == Pow2(|ops|) - 1 {
      CompleteState(ops, done, state.value, finals);
      found := EndsIn(finals, state.value);
      return;
    }
    for i := 0 to |ops|
      invariant visited + {state} <= marked
      invariant Deeper(ops, visited + {state}, marked, size + 1)
      invariant Explored(ops, finals, marked, size + 1)
      invariant forall j :: 0 <= j < i ==> Fruitless(ops, finals, done, state.value, j)
    {
      var bit := Pow2(i);
      ReadyByMasks(ops, masks, state, i);
      if And(state.mask, bit) != 0 {
        continue;
      }
      if AndNot(masks[i], state.mask) != 0 {
        continue;
      }
      var nextValue := ApplySerial(state.value, ops[i].op);
      if nextValue.None? {
        continue;
      }
      var next := SearchState(Or(state.mask, bit), nextValue.value);
      SetBit(state.mask, |ops|, i);
      assert Size(ops, next) == size + 1;
      MembersBound(ops, next.mask);
      found, marked := Search(ops, masks, finals, next, marked);
      if found {
        ScheduleFirst(ops, done, state.value, finals, i);
        return;
      }
    }
    NoReadyIsDead(ops, finals, state);
    found := false;
  }

  // ----- The checker -----

  /** Insertion sort under any comparison; only that it permutes matters to the result. */
  method SortEntries(ops: seq<OpEntry>, less: (OpEntry, OpEntry) -> bool) returns (sorted: seq<OpEntry>)
    ensures multiset(sorted) == multiset(ops)
  {
    sorted := [];
    for i := 0 to |ops|
      invariant multiset(sorted) == multiset(ops[..i])
    {
      var at := |sorted|;
      while at > 0 && less(ops[i], sorted[at - 1])
        invariant 0 <= at <= |sorted|
      {
        at := at - 1;
      }
      assert sorted == sorted[..at] + sorted[at..];
      assert ops[..i + 1] == ops[..i] + [ops[i]];
      sorted := sorted[..at] + [ops[i]] + sorted[at..];
    }
    assert ops[..|ops|] == ops;
  }

  /** Decides serializability of one key's operations, whatever order they arrive in. */
  method CheckSerializable(ops: seq<OpEntry>, finals: seq<Option<string>>, less: (OpEntry, OpEntry) -> bool)
    returns (serializable: bool, constraints: nat)
    ensures serializable <==> Serializable(ops, finals)
  {
    var sorted := SortEntries(ops, less);
    var masks;
    masks, constraints := PredecessorMasks(sorted);
    var initial := SearchState(0, None);
    var visited: set<SearchState>;
    serializable, visited := Search(sorted, masks, finals, initial, {});
    forall k: nat ensures !Bit(0, k) { BitZero(k); }
    assert Members(0, |sorted|) == {};
    RemainingAll(sorted, |sorted|);
    assert sorted[..|sorted|] == sorted;
  }
}
