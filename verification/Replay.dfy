/** The anti-replay filter of src/session.rs: what it should accept, stated on a plain set of nonces. */
module Replay {
  import opened Words

  const WINDOW_BITS := 1024

  /** A nonce passes when it never passed before and no nonce that passed is 1024 or more above it. */
  predicate Accepts(seen: set<u64>, n: u64) {
    n !in seen && forall m | m in seen :: m < n + WINDOW_BITS
  }

  function Present(seen: set<u64>, n: u64): set<u64> {
    if Accepts(seen, n) then seen + {n} else seen
  }

  /** Everything accepted after the nonces `ns` were presented in order to a new window. */
  function Accepted(ns: seq<u64>): set<u64> {
    if ns == [] then {} else Present(Accepted(ns[..|ns| - 1]), ns[|ns| - 1])
  }

  /** What each call answered. */
  function Verdicts(ns: seq<u64>): seq<bool> {
    if ns == [] then []
    else var prefix := ns[..|ns| - 1];
         Verdicts(prefix) + [Accepts(Accepted(prefix), ns[|ns| - 1])]
  }

  predicate IsMax(s: set<u64>, last: u64) {
    last in s && forall m | m in s :: m <= last
  }

  function Set(ns: seq<u64>): set<u64> {
    set n | n in ns
  }

  function Newest(ns: seq<u64>): u64
    requires ns != []
  {
    var prefix, n := ns[..|ns| - 1], ns[|ns| - 1];
    if prefix == [] || n > Newest(prefix) then n else Newest(prefix)
  }

  /** `seen` and `presented` have the same maximum and agree less than 1024 behind it. */
  ghost predicate AgreeInWindow(seen: set<u64>, presented: set<u64>, last: u64) {
    && IsMax(seen, last)
    && IsMax(presented, last)
    && forall n: u64 | last < n + WINDOW_BITS :: n in seen <==> n in presented
  }

  lemma PresentKeepsAgreement(seen: set<u64>, presented: set<u64>, last: u64, n: u64)
    requires AgreeInWindow(seen, presented, last)
    ensures AgreeInWindow(Present(seen, n), presented + {n}, if n > last then n else last)
  {
    assert Accepts(seen, n) <==> n !in seen && last < n + WINDOW_BITS;
  }

  /**
   * The set of nonces presented decides the window, not their order or repetition: the newest
   * accepted nonce is the newest presented one, and below it the window holds exactly the
   * presented nonces less than 1024 behind.
   */
  lemma {:induction false} WindowIsOrderFree(ns: seq<u64>)
    requires ns != []
    ensures AgreeInWindow(Accepted(ns), Set(ns), Newest(ns))
  {
    var prefix, n := ns[..|ns| - 1], ns[|ns| - 1];
    SetSnoc(prefix, n);
    assert ns == prefix + [n];
    if prefix == [] {
      assert Present({}, n) == {n};
    } else {
      WindowIsOrderFree(prefix);
      PresentKeepsAgreement(Accepted(prefix), Set(prefix), Newest(prefix), n);
    }
  }

  lemma SetSnoc(ns: seq<u64>, n: u64)
    ensures Set(ns + [n]) == Set(ns) + {n}
  {
    assert n == (ns + [n])[|ns|];
    forall m | m in ns ensures m in Set(ns + [n]) {
      assert m in ns + [n];
    }
  }

  lemma SameNoncesSameWindow(ns: seq<u64>, ms: seq<u64>)
    requires ns != [] && Set(ns) == Set(ms)
    ensures ms != [] && AgreeInWindow(Accepted(ns), Accepted(ms), Newest(ns))
  {
    assert ns[0] in Set(ms);
    WindowIsOrderFree(ns);
    WindowIsOrderFree(ms);
  }

  /** Reordering never costs a packet while each one is less than 1024 behind the newest so far. */
  lemma {:induction false} ReorderingWithinWindowLosesNothing(ns: seq<u64>)
    requires forall i, j | 0 <= i < j < |ns| :: ns[i] != ns[j] && ns[i] < ns[j] as nat + 1024
    ensures Accepted(ns) == Set(ns)
  {
    if ns != [] {
      var prefix, n := ns[..|ns| - 1], ns[|ns| - 1];
      ReorderingWithinWindowLosesNothing(prefix);
      assert ns == prefix + [n];
      SetSnoc(prefix, n);
    }
  }

  /** The next nonce passes exactly if it was not presented before and is less than 1024 behind the newest. */
  lemma VerdictByTheNumbers(ns: seq<u64>, n: u64)
    requires ns != []
    ensures Accepts(Accepted(ns), n) <==> n !in ns && Newest(ns) < n as nat + 1024
  {
    WindowIsOrderFree(ns);
    assert n in Set(ns) <==> n in ns;
    AcceptedWerePresented(ns);
  }

  lemma {:induction false} AcceptedWerePresented(ns: seq<u64>)
    ensures Accepted(ns) <= Set(ns)
  {
    if ns != [] {
      var prefix, n := ns[..|ns| - 1], ns[|ns| - 1];
      AcceptedWerePresented(prefix);
      assert ns == prefix + [n];
      SetSnoc(prefix, n);
    }
  }

  /** No nonce passes twice: of two equal entries in any call sequence, at most the first is accepted. */
  lemma {:induction false} NeverAcceptedTwice(ns: seq<u64>, i: nat, j: nat)
    requires i < j < |ns| && ns[i] == ns[j]
    requires Accepts(Accepted(ns[..i]), ns[i])
    ensures !Accepts(Accepted(ns[..j]), ns[j])
    decreases j
  {
    AcceptedGrows(ns, i + 1, j);
    assert ns[..i + 1][..i] == ns[..i];
  }

  lemma {:induction false} AcceptedGrows(ns: seq<u64>, i: nat, j: nat)
    requires i <= j <= |ns|
    ensures Accepted(ns[..i]) <= Accepted(ns[..j])
    decreases j
  {
    if i < j {
      AcceptedGrows(ns, i, j - 1);
      assert ns[..j][..j - 1] == ns[..j - 1];
    }
  }
}

/** The 1024-bit ring of src/session.rs, which must agree with `Replay.Accepts` on every call. */
module Session {
  import opened Words
  import opened Replay
  import opened Bits

  const BITMAP_WORDS := 16

  function Slot(nonce: u64): (r: (nat, nat))
    ensures r.0 < BITMAP_WORDS && r.1 < 64 && 64 * r.0 + r.1 == nonce % WINDOW_BITS
  {
    var bit := nonce % WINDOW_BITS;
    (bit / 64, bit % 64)
  }

  /** The bit of the ring that stands for `nonce`: word `nonce % 1024 / 64`, bit `nonce % 64`. */
  predicate BitAt(words: seq<u64>, nonce: u64)
    requires |words| == BITMAP_WORDS
  {
    Bit(words[Slot(nonce).0], Slot(nonce).1)
  }

  lemma WordAfterSet(w: u64, b: nat)
    requires b < 64
    ensures Or(w, Shl(1, b, 64)) < 0x1_0000_0000_0000_0000
    ensures forall c | 0 <= c < 64 :: Bit(Or(w, Shl(1, b, 64)), c) <==> b == c || Bit(w, c)
  {
    OneShifted(b, 64);
    WidthValues();
    OrBelow(w, Pow2(b), 64);
    forall c | 0 <= c < 64
      ensures Bit(Or(w, Shl(1, b, 64)), c) <==> b == c || Bit(w, c)
    {
      BitOfOr(w, Pow2(b), c);
      BitOfPow2(b, c);
    }
  }

  lemma WordAfterClear(w: u64, b: nat)
    requires b < 64
    ensures Shl(1, b, 64) < Pow2(64)
    ensures And(w, Not(Shl(1, b, 64), 64)) <= w
    ensures forall c | 0 <= c < 64 :: Bit(And(w, Not(Shl(1, b, 64), 64)), c) <==> b != c && Bit(w, c)
  {
    OneShifted(b, 64);
    var mask := Not(Pow2(b), 64);
    AndBelow(w, mask);
    forall c | 0 <= c < 64
      ensures Bit(And(w, mask), c) <==> b != c && Bit(w, c)
    {
      BitOfAnd(w, mask, c);
      BitOfNot(Pow2(b), 64, c);
      BitOfPow2(b, c);
    }
  }

  lemma SameSlot(m: u64, n: u64)
    ensures Slot(m) == Slot(n) <==> m % WINDOW_BITS == n % WINDOW_BITS
  {
  }

  class ReplayWindow {
    const bitmap: array<u64>
    var last: u64
    var initialized: bool
    /** Every nonce accepted so far; the ring remembers only the newest 1024 of them. */
    ghost var Seen: set<u64>

    ghost predicate Valid()
      reads this, bitmap
    {
      && bitmap.Length == BITMAP_WORDS
      && (initialized <==> Seen != {})
      && (!initialized ==> forall n: u64 :: !BitAt(bitmap[..], n))
      && (initialized ==> IsMax(Seen, last) && RingHolds(last, last + 1))
    }

    /** The ring agrees with `Seen` on every nonce below `end` that is less than 1024 behind `top`. */
    ghost predicate RingHolds(top: u64, end: nat)
      requires bitmap.Length == BITMAP_WORDS
      reads this, bitmap
    {
      forall n: u64 | n < end && top < n + WINDOW_BITS :: BitAt(bitmap[..], n) <==> n in Seen
    }

    constructor ()
      ensures Valid() && fresh(this) && fresh(bitmap)
      ensures Seen == {}
    {
      bitmap := new u64[BITMAP_WORDS](_ => 0);
      last := 0;
      initialized := false;
      Seen := {};
      new;
      forall n: u64 ensures !BitAt(bitmap[..], n) {
        ZeroHasNoBits(Slot(n).1);
      }
    }

    predicate GetBit(nonce: u64)
      requires bitmap.Length == BITMAP_WORDS
      reads this, bitmap
      ensures GetBit(nonce) <==> BitAt(bitmap[..], nonce)
    {
      var (word, bit) := Slot(nonce);
      BitIsShiftAndMask(bitmap[word], bit);
      And(Shr(bitmap[word], bit), 1) == 1
    }

    method SetBit(nonce: u64)
      requires bitmap.Length == BITMAP_WORDS
      modifies bitmap
      ensures forall n: u64 :: BitAt(bitmap[..], n) <==>
                               n % WINDOW_BITS == nonce % WINDOW_BITS || BitAt(old(bitmap[..]), n)
    {
      var (word, bit) := Slot(nonce);
      WordAfterSet(bitmap[word], bit);
      bitmap[word] := Or(bitmap[word], Shl(1, bit, 64));
      forall n: u64
        ensures BitAt(bitmap[..], n) <==> n % WINDOW_BITS == nonce % WINDOW_BITS || BitAt(old(bitmap[..]), n)
      {
        SameSlot(n, nonce);
      }
    }

    method ClearBit(nonce: u64)
      requires bitmap.Length == BITMAP_WORDS
      modifies bitmap
      ensures forall n: u64 :: BitAt(bitmap[..], n) <==>
                               n % WINDOW_BITS != nonce % WINDOW_BITS && BitAt(old(bitmap[..]), n)
    {
      var (word, bit) := Slot(nonce);
      WordAfterClear(bitmap[word], bit);
      bitmap[word] := And(bitmap[word], Not(Shl(1, bit, 64), 64));
      forall n: u64
        ensures BitAt(bitmap[..], n) <==> n % WINDOW_BITS != nonce % WINDOW_BITS && BitAt(old(bitmap[..]), n)
      {
        SameSlot(n, nonce);
      }
    }

    method ClearAll()
      requires bitmap.Length == BITMAP_WORDS
      modifies bitmap
      ensures forall n: u64 :: !BitAt(bitmap[..], n)
    {
      forall i | 0 <= i < BITMAP_WORDS {
        bitmap[i] := 0;
      }
      forall n: u64 ensures !BitAt(bitmap[..], n) {
        ZeroHasNoBits(Slot(n).1);
      }
    }

    /** Clear the slot of `n`, which no younger nonce of the window that ends at `top` shares. */
    method Forget(n: u64, top: u64)
      requires bitmap.Length == BITMAP_WORDS && RingHolds(top, n)
      requires n !in Seen && n <= top < n + WINDOW_BITS
      modifies bitmap
      ensures RingHolds(top, n + 1)
    {
      ClearBit(n);
      forall m: u64 | m <= n && top < m + WINDOW_BITS
        ensures BitAt(bitmap[..], m) <==> m in Seen
      {
        assert m % WINDOW_BITS == n % WINDOW_BITS ==> m == n;
      }
    }

    /** Clear the slots of the nonces after `last` up to `nonce`, whose bits are 1024 or more old. */
    method Expose(nonce: u64)
      requires Valid() && initialized && last < nonce
      modifies bitmap
      ensures RingHolds(nonce, nonce + 1)
    {
      var shift := nonce - last;
      if shift >= WINDOW_BITS {
        ClearAll();
      } else {
        for n := last + 1 to nonce + 1
          invariant RingHolds(nonce, n)
        {
          Forget(n, nonce);
        }
      }
    }

    /** Mark `nonce` as seen in the window that ends at `top`. */
    method Record(nonce: u64, top: u64)
      requires bitmap.Length == BITMAP_WORDS && RingHolds(top, top + 1)
      requires nonce <= top < nonce + WINDOW_BITS
      modifies this`Seen, bitmap
      ensures RingHolds(top, top + 1)
      ensures Seen == old(Seen) + {nonce}
    {
      SetBit(nonce);
      Seen := Seen + {nonce};
      forall n: u64 | n <= top < n + WINDOW_BITS
        ensures BitAt(bitmap[..], n) <==> n in Seen
      {
        assert n % WINDOW_BITS == nonce % WINDOW_BITS ==> n == nonce;
      }
    }

    /** The verdict is exactly that of the plain set of accepted nonces, on all of u64. */
    method CheckAndUpdate(nonce: u64) returns (ok: bool)
      requires Valid()
      modifies this, bitmap
      ensures Valid()
      ensures ok <==> Accepts(old(Seen), nonce)
      ensures Seen == Present(old(Seen), nonce)
    {
      if !initialized {
        initialized := true;
        last := nonce;
        Record(nonce, nonce);
        return true;
      }
      if nonce > last {
        Expose(nonce);
        last := nonce;
        Record(nonce, nonce);
        ok := true;
      } else {
        if last - nonce >= WINDOW_BITS {
          return false;
        }
        if GetBit(nonce) {
          return false;
        }
        Record(nonce, last);
        ok := true;
      }
    }
  }

  /** Any call sequence from a new window gives, call by call, the verdicts of the plain set. */
  method PresentAll(ns: seq<u64>) returns (verdicts: seq<bool>)
    ensures verdicts == Verdicts(ns)
  {
    var window := new ReplayWindow();
    verdicts := [];
    for i := 0 to |ns|
      invariant window.Valid() && fresh(window) && fresh(window.bitmap)
      invariant window.Seen == Accepted(ns[..i]) && verdicts == Verdicts(ns[..i])
    {
      var ok := window.CheckAndUpdate(ns[i]);
      verdicts := verdicts + [ok];
      assert ns[..i + 1][..i] == ns[..i];
    }
    assert ns[..|ns|] == ns;
  }
}
