/** The bitset of required fields: words and masks against the set they stand for. */
module FieldsSeen {
  import opened Bits
  import opened Schema
  import opened DecodeSpec
  import opened FieldIterator

  /** Bit `j` of the word says whether lo + j is in the set. */
  function WordOf(S: set<nat>, lo: nat, n: nat): nat
    decreases n
  {
    if n == 0 then 0 else (if lo in S then 1 else 0) + 2 * WordOf(S, lo + 1, n - 1)
  }

  lemma {:induction false} WordBit(k: nat, lo: nat, n: nat)
    requires lo <= k < lo + n
    ensures WordOf({k}, lo, n) == Pow2(k - lo)
    decreases n
  {
    if k > lo {
      WordBit(k, lo + 1, n - 1);
    } else {
      WordEmpty({k}, lo + 1, n - 1);
    }
  }

  lemma {:induction false} WordEmpty(S: set<nat>, lo: nat, n: nat)
    requires forall k :: lo <= k < lo + n ==> k !in S
    ensures WordOf(S, lo, n) == 0
    decreases n
  {
    if n > 0 {
      WordEmpty(S, lo + 1, n - 1);
    }
  }

  /** Setting a bit that may already be set. */
  lemma {:induction false} WordOr(S: set<nat>, T: set<nat>, lo: nat, n: nat)
    ensures Or(WordOf(S, lo, n), WordOf(T, lo, n)) == WordOf(S + T, lo, n)
    decreases n
  {
    if n > 0 {
      WordOr(S, T, lo + 1, n - 1);
      var a, b := WordOf(S, lo + 1, n - 1), WordOf(T, lo + 1, n - 1);
      OrDouble(if lo in S then 1 else 0, a, if lo in T then 1 else 0, b);
    }
  }

  lemma OrDouble(x: nat, a: nat, y: nat, b: nat)
    requires x < 2 && y < 2
    ensures Or(x + 2 * a, y + 2 * b) == (if x == 1 || y == 1 then 1 else 0) + 2 * Or(a, b)
  {
  }

  /** A word whose bits are limited to the first `m` is full exactly when it equals 2^m - 1. */
  lemma {:induction false} WordFull(S: set<nat>, lo: nat, n: nat, m: nat)
    requires m <= n && forall k :: k in S ==> k < lo + m
    ensures WordOf(S, lo, n) == Pow2(m) - 1 <==> forall k :: lo <= k < lo + m ==> k in S
    decreases n
  {
    if m == 0 {
      WordEmpty(S, lo, n);
    } else {
      WordFull(S, lo + 1, n - 1, m - 1);
      if forall k :: lo <= k < lo + m ==> k in S {
        assert forall k :: lo + 1 <= k < lo + 1 + (m - 1) ==> k in S;
      }
    }
  }

  /** All bits of a full word. */
  lemma {:induction false} WordAll(S: set<nat>, lo: nat, n: nat)
    ensures WordOf(S, lo, n) <= Pow2(n) - 1
    ensures WordOf(S, lo, n) == Pow2(n) - 1 <==> forall k :: lo <= k < lo + n ==> k in S
    decreases n
  {
    if n > 0 {
      WordAll(S, lo + 1, n - 1);
      if forall k :: lo <= k < lo + n ==> k in S {
        assert forall k :: lo + 1 <= k < lo + 1 + (n - 1) ==> k in S;
      }
    }
  }

  /** fields_seen holds the set `S` of required-field indices. */
  ghost predicate Holds(words: array<nat>, S: set<nat>)
    reads words
  {
    words.Length == 2 && words[0] == WordOf(S, 0, 32) && words[1] == WordOf(S, 32, 32)
  }

  /** fields_seen[index >> 5] |= 1 << (index & 31). */
  method MarkSeen(words: array<nat>, index: nat, ghost S: set<nat>)
    requires Holds(words, S) && index < PB_MAX_REQUIRED_FIELDS
    modifies words
    ensures Holds(words, S + {index})
  {
    hide WordOf, Or;
    var tmp := Pow2(index % 32);
    WordOr(S, {index}, 0, 32);
    WordOr(S, {index}, 32, 32);
    if index < 32 {
      WordBit(index, 0, 32);
      WordEmpty({index}, 32, 32);
    } else {
      WordEmpty({index}, 0, 32);
      WordBit(index, 32, 32);
    }
    OrZero(WordOf(S, 0, 32));
    OrZero(WordOf(S, 32, 32));
    words[index / 32] := Or(words[index / 32], tmp);
  }

  lemma OrZero(a: nat)
    ensures Or(a, 0) == a
  {
  }

  lemma Quotient(a: nat, b: nat)
    requires a > 0 && b > 0
    ensures (a * b - 1) / b == a - 1
  {
    var r := (a * b - 1) / b;
    assert r * b + (a * b - 1) % b == a * b - 1;
    assert (a - 1) * b == a * b - b;
    if r < a - 1 {
      Product(r + 1, a - 1, b);
    } else if r > a - 1 {
      Product(a, r, b);
    }
  }

  /** allbits >> (32 - m). */
  lemma LowBits(m: nat)
    requires m <= 32
    ensures (TWO_32 - 1) / Pow2(32 - m) == Pow2(m) - 1
  {
    hide Pow2;
    Powers();
    PowerSum(m, 32 - m);
    Quotient(Pow2(m), Pow2(32 - m));
  }

  lemma {:induction false} RequiredMonotone(F: Fields, i: nat, j: nat)
    requires i <= j <= |F|
    ensures RequiredBefore(F, i) <= RequiredBefore(F, j)
    decreases j
  {
    if i < j {
      RequiredMonotone(F, i, j - 1);
    }
  }

  /** The iterator is run to the end of the table to count the required fields, wherever it stood. */
  method CountRequired(iter: FieldIter) returns (count: nat)
    requires iter.Valid() && SharedSize(iter.start) && forall k :: 0 <= k < |iter.start| ==> iter.start[k].tag != 0
    modifies iter
    ensures iter.Valid() && count == RequiredBefore(iter.start, |iter.start|)
  {
    hide Offset;
    var F := iter.start;
    var lastType := REQUIRED;
    count := 0;
    var more := true;
    while more
      invariant iter.Valid() && iter.start == F
      invariant !more ==>
                  iter.pos == 0 && count == RequiredBefore(F, if F == [] then 0 else |F| - 1)
                  && (F != [] ==> lastType == F[|F| - 1].ht)
      decreases more, |F| - iter.pos
    {
      count := iter.requiredFieldIndex;
      lastType := Entry(F, iter.pos).ht;
      more := iter.Next();
    }
    if lastType == REQUIRED && Entry(F, iter.pos).tag != 0 {
      count := count + 1;
    }
  }

  /** The final check of pb_decode_noinit: whole words, then the remaining bits. It accepts exactly
      when each of the first 64 required fields has occurred, however many there are. */
  method CheckRequired(iter: FieldIter, words: array<nat>, ghost S: set<nat>) returns (ok: bool)
    requires iter.Valid() && SharedSize(iter.start) && forall k :: 0 <= k < |iter.start| ==> iter.start[k].tag != 0
    requires iter.start != [] ==> Holds(words, S)
    requires forall r :: r in S ==> r < PB_MAX_REQUIRED_FIELDS && r < RequiredBefore(iter.start, |iter.start|)
    requires words.Length == 2
    modifies iter
    ensures ok == AllRequired(iter.start, S)
  {
    hide WordOf, Pow2, Offset;
    var F := iter.start;
    var count := CountRequired(iter);
    if count > PB_MAX_REQUIRED_FIELDS {
      count := PB_MAX_REQUIRED_FIELDS;
    }
    if count > 0 {
      WordAll(S, 0, 32);
      WordAll(S, 32, 32);
      Powers();
      for i := 0 to count / 32
        invariant forall r :: 0 <= r < 32 * i ==> r in S
      {
        if words[i] != TWO_32 - 1 {
          return false;
        }
      }
      if count % 32 != 0 {
        var q, m := count / 32, count % 32;
        LowBits(m);
        WordFull(S, 32 * q, 32, m);
        if words[q] != (TWO_32 - 1) / Pow2(32 - m) {
          return false;
        }
      }
    }
    ok := true;
  }
}
