/** Linear shift registers over any vector space in which every element is its own inverse. */
module ShiftRegisters {

  /** Addition and zero of registers R and input symbols B, the embedding of symbols into
      registers, and the step that divides one symbol out. */
  datatype Space<!R, !B> = Space(
    plus: (R, R) -> R,
    zero: R,
    plusB: (B, B) -> B,
    zeroB: B,
    embed: B -> R,
    step: R -> R)

  ghost predicate Laws<R(!new), B(!new)>(v: Space<R, B>) {
    && SelfInverse(v.plus, v.zero) && Medial(v.plus)
    && SelfInverse(v.plusB, v.zeroB)
    && Embeds(v.embed, v.plusB, v.plus) && v.embed(v.zeroB) == v.zero
    && Additive(v.step, v.plus) && KeepsNonzero(v.step, v.zero)
  }

  /** Zero is neutral, and every element is its own and only inverse. */
  ghost predicate SelfInverse<R(!new)>(plus: (R, R) -> R, zero: R) {
    && (forall x, y :: plus(x, y) == zero <==> x == y)
    && (forall x :: plus(x, zero) == x && plus(zero, x) == x)
  }

  ghost predicate Medial<R(!new)>(plus: (R, R) -> R) {
    forall x, y, p, q :: plus(plus(x, y), plus(p, q)) == plus(plus(x, p), plus(y, q))
  }

  ghost predicate Commutes<R(!new)>(plus: (R, R) -> R) {
    forall x, y :: plus(x, y) == plus(y, x)
  }

  ghost predicate Associates<R(!new)>(plus: (R, R) -> R) {
    forall x, y, z :: plus(plus(x, y), z) == plus(x, plus(y, z))
  }

  lemma MedialOfGroup<R(!new)>(plus: (R, R) -> R)
    requires Commutes(plus) && Associates(plus)
    ensures Medial(plus)
  {
    forall x, y, p, q
      ensures plus(plus(x, y), plus(p, q)) == plus(plus(x, p), plus(y, q))
    {
      calc {
        plus(plus(x, y), plus(p, q));
        plus(x, plus(y, plus(p, q)));
        plus(x, plus(plus(y, p), q));
        plus(x, plus(plus(p, y), q));
        plus(x, plus(p, plus(y, q)));
        plus(plus(x, p), plus(y, q));
      }
    }
  }

  ghost predicate Embeds<R(!new), B(!new)>(embed: B -> R, plusB: (B, B) -> B, plus: (R, R) -> R) {
    forall a, b :: embed(plusB(a, b)) == plus(embed(a), embed(b))
  }

  ghost predicate Additive<R(!new)>(f: R -> R, plus: (R, R) -> R) {
    forall x, y :: f(plus(x, y)) == plus(f(x), f(y))
  }

  ghost predicate KeepsNonzero<R(!new)>(f: R -> R, zero: R) {
    forall x :: f(x) == zero <==> x == zero
  }

  function Iterate<R>(f: R -> R, n: nat, x: R): R {
    if n == 0 then x else Iterate(f, n - 1, f(x))
  }

  lemma {:induction false} IterateAdditive<R(!new)>(f: R -> R, plus: (R, R) -> R, n: nat, x: R, y: R)
    requires Additive(f, plus)
    ensures Iterate(f, n, plus(x, y)) == plus(Iterate(f, n, x), Iterate(f, n, y))
  {
    if n > 0 {
      IterateAdditive(f, plus, n - 1, f(x), f(y));
    }
  }

  lemma {:induction false} IterateKeepsNonzero<R(!new)>(f: R -> R, zero: R, n: nat, x: R)
    requires KeepsNonzero(f, zero)
    ensures Iterate(f, n, x) == zero <==> x == zero
  {
    if n > 0 {
      IterateKeepsNonzero(f, zero, n - 1, f(x));
    }
  }

  /** A symbol is added in and divided out. */
  function Feed<R, B>(v: Space<R, B>, c: R, b: B): R {
    v.step(v.plus(c, v.embed(b)))
  }

  function Register<R, B>(v: Space<R, B>, c: R, s: seq<B>): R
    decreases |s|
  {
    if s == [] then c else Register(v, Feed(v, c, s[0]), s[1..])
  }

  lemma {:induction false} RegisterConcat<R, B>(v: Space<R, B>, c: R, a: seq<B>, b: seq<B>)
    ensures Register(v, c, a + b) == Register(v, Register(v, c, a), b)
    decreases |a|
  {
    if a == [] {
      assert a + b == b;
    } else {
      assert (a + b)[1..] == a[1..] + b;
      RegisterConcat(v, Feed(v, c, a[0]), a[1..], b);
    }
  }

  function Sum<R, B>(v: Space<R, B>, a: seq<B>, b: seq<B>): (d: seq<B>)
    requires |a| == |b|
    ensures |d| == |a|
  {
    seq(|a|, i requires 0 <= i < |a| => v.plusB(a[i], b[i]))
  }

  lemma {:induction false} RegisterLinear<R(!new), B(!new)>(v: Space<R, B>, c: R, d: R, a: seq<B>, b: seq<B>)
    requires Laws(v) && |a| == |b|
    ensures Register(v, v.plus(c, d), Sum(v, a, b)) == v.plus(Register(v, c, a), Register(v, d, b))
    decreases |a|
  {
    if a != [] {
      RegisterLinear(v, Feed(v, c, a[0]), Feed(v, d, b[0]), a[1..], b[1..]);
      assert Sum(v, a, b)[1..] == Sum(v, a[1..], b[1..]);
    }
  }

  /** Whether two symbol strings leave different registers does not depend on the start, only on
      their difference. */
  lemma DifferenceDecides<R(!new), B(!new)>(v: Space<R, B>, c: R, a: seq<B>, b: seq<B>)
    requires Laws(v) && |a| == |b|
    ensures Register(v, v.zero, Sum(v, a, b)) == v.plus(Register(v, c, a), Register(v, c, b))
    ensures Register(v, c, a) == Register(v, c, b) <==> Register(v, v.zero, Sum(v, a, b)) == v.zero
  {
    RegisterLinear(v, c, c, a, b);
    assert v.plus(c, c) == v.zero;
  }

  predicate AllZero<R, B(==)>(v: Space<R, B>, s: seq<B>) {
    forall i :: 0 <= i < |s| ==> s[i] == v.zeroB
  }

  lemma {:induction false} ZerosKeepNonzero<R(!new), B(!new)>(v: Space<R, B>, c: R, z: seq<B>)
    requires Laws(v) && AllZero(v, z)
    ensures Register(v, c, z) == v.zero <==> c == v.zero
    decreases |z|
  {
    if z != [] {
      assert Feed(v, c, z[0]) == v.step(c);
      ZerosKeepNonzero(v, Feed(v, c, z[0]), z[1..]);
    }
  }

  /** No nonzero string of this length takes the zero register back to zero. */
  ghost predicate WindowLaw<R(!new), B(!new)>(v: Space<R, B>, width: nat) {
    forall w: seq<B> | |w| == width :: Register(v, v.zero, w) == v.zero ==> AllZero(v, w)
  }

  lemma ShorterWindow<R(!new), B(!new)>(v: Space<R, B>, width: nat, w: seq<B>)
    requires Laws(v) && WindowLaw(v, width) && |w| <= width
    requires Register(v, v.zero, w) == v.zero
    ensures AllZero(v, w)
  {
    var pad := seq(width - |w|, _ => v.zeroB);
    RegisterConcat(v, v.zero, w, pad);
    ZerosKeepNonzero(v, Register(v, v.zero, w), pad);
    assert AllZero(v, w + pad);
    assert forall i :: 0 <= i < |w| ==> (w + pad)[i] == w[i];
  }

  /** Zeros before and after a string do not change whether it is caught. */
  lemma ZerosAround<R(!new), B(!new)>(v: Space<R, B>, head: seq<B>, mid: seq<B>, tail: seq<B>)
    requires Laws(v) && AllZero(v, head) && AllZero(v, tail)
    ensures Register(v, v.zero, head + mid + tail) == v.zero <==> Register(v, v.zero, mid) == v.zero
  {
    RegisterConcat(v, v.zero, head + mid, tail);
    RegisterConcat(v, v.zero, head, mid);
    ZerosKeepNonzero(v, v.zero, head);
    ZerosKeepNonzero(v, Register(v, v.zero, mid), tail);
  }

  lemma SumAt<R(!new), B(!new)>(v: Space<R, B>, a: seq<B>, b: seq<B>, i: nat)
    requires Laws(v) && |a| == |b| && i < |a|
    ensures Sum(v, a, b)[i] == v.zeroB <==> a[i] == b[i]
  {
  }

  lemma CaughtInWindow<R(!new), B(!new)>(v: Space<R, B>, width: nat, head: seq<B>, mid: seq<B>, tail: seq<B>)
    requires Laws(v) && WindowLaw(v, width) && |mid| <= width
    requires AllZero(v, head) && AllZero(v, tail) && !AllZero(v, mid)
    ensures Register(v, v.zero, head + mid + tail) != v.zero
  {
    ZerosAround(v, head, mid, tail);
    if Register(v, v.zero, mid) == v.zero {
      ShorterWindow(v, width, mid);
    }
  }

  /** The difference of two strings that differ only inside positions k .. e is zero around it. */
  lemma DifferenceWindow<R, B>(v: Space<R, B>, d: seq<B>, k: nat, e: nat, m: nat)
    requires k <= m < e <= |d| && d[m] != v.zeroB
    requires forall i :: 0 <= i < |d| && !(k <= i < e) ==> d[i] == v.zeroB
    ensures AllZero(v, d[..k]) && AllZero(v, d[e..]) && !AllZero(v, d[k..e])
    ensures d == d[..k] + d[k..e] + d[e..]
  {
    assert d[k..e][m - k] == d[m];
  }

  lemma SumZeros<R(!new), B(!new)>(v: Space<R, B>, a: seq<B>, b: seq<B>, k: nat, e: nat)
    requires Laws(v) && |a| == |b|
    requires forall i :: 0 <= i < |a| && !(k <= i < e) ==> a[i] == b[i]
    ensures forall i :: 0 <= i < |a| && !(k <= i < e) ==> Sum(v, a, b)[i] == v.zeroB
  {
    forall i | 0 <= i < |a| && !(k <= i < e)
      ensures Sum(v, a, b)[i] == v.zeroB
    {
      SumAt(v, a, b, i);
    }
  }

  /** Different strings whose differences lie within one window leave different registers. */
  lemma BurstDetected<R(!new), B(!new)>(v: Space<R, B>, width: nat, c: R, a: seq<B>, b: seq<B>, k: nat, m: nat)
    requires Laws(v) && WindowLaw(v, width)
    requires |a| == |b| && k <= m < k + width && m < |a| && a[m] != b[m]
    requires forall i :: 0 <= i < |a| && !(k <= i < k + width) ==> a[i] == b[i]
    ensures Register(v, c, a) != Register(v, c, b)
  {
    var d := Sum(v, a, b);
    var e := if k + width <= |d| then k + width else |d|;
    SumZeros(v, a, b, k, e);
    SumAt(v, a, b, m);
    DifferenceWindow(v, d, k, e, m);
    CaughtInWindow(v, width, d[..k], d[k..e], d[e..]);
    DifferenceDecides(v, c, a, b);
  }

  // ---------- the parts of one step ----------

  lemma AddTwice<R(!new), B(!new)>(v: Space<R, B>, x: R, y: R)
    requires Laws(v)
    ensures v.plus(v.plus(x, y), y) == x
  {
    calc {
      v.plus(v.plus(x, y), y);
      v.plus(v.plus(x, y), v.plus(v.zero, y));
      v.plus(v.plus(x, v.zero), v.plus(y, y));
      v.plus(x, v.zero);
    }
  }

  /** A sum can be divided part by part. */
  lemma FeedInParts<R(!new), B(!new)>(v: Space<R, B>, c: R, b: B, low: R, high: R, down: R)
    requires Laws(v)
    requires v.plus(c, v.embed(b)) == v.plus(low, high) && v.step(high) == down
    ensures Feed(v, c, b) == v.plus(v.step(low), down)
  {
  }

  /** What is known to divide to the register after a symbol tells the register before it. */
  lemma Unfed<R(!new), B(!new)>(v: Space<R, B>, c: R, b: B, up: R)
    requires Laws(v) && Feed(v, c, b) == v.step(up)
    ensures c == v.plus(up, v.embed(b))
  {
    var x := v.plus(c, v.embed(b));
    assert v.step(v.plus(x, up)) == v.plus(v.step(x), v.step(up)) == v.zero;
    assert x == up;
    AddTwice(v, c, v.embed(b));
  }

  /** A word is a symbol and what stands above it: bringing in the symbol leaves what was above it,
      one step down, to be brought in. */
  lemma FeedRest<R(!new), B(!new)>(v: Space<R, B>, c: R, word: R, b: B, up: R, rest: R)
    requires Laws(v) && word == v.plus(v.embed(b), up) && v.step(up) == rest
    ensures v.plus(Feed(v, c, b), rest) == v.step(v.plus(c, word))
  {
    calc {
      v.plus(c, word);
      v.plus(v.plus(c, v.zero), v.plus(v.embed(b), up));
      v.plus(v.plus(c, v.embed(b)), v.plus(v.zero, up));
      v.plus(v.plus(c, v.embed(b)), up);
    }
  }

  lemma RegisterOne<R, B>(v: Space<R, B>, c: R, b: B, s: seq<B>, next: R)
    requires Feed(v, c, b) == next
    ensures Register(v, c, [b] + s) == Register(v, next, s)
  {
    assert ([b] + s)[1..] == s;
  }

  lemma RegisterThree<R, B>(v: Space<R, B>, c: R, b0: B, b1: B, b2: B, s: seq<B>, r1: R, r2: R, r3: R)
    requires Feed(v, c, b0) == r1 && Feed(v, r1, b1) == r2 && Feed(v, r2, b2) == r3
    ensures Register(v, c, [b0, b1, b2] + s) == Register(v, r3, s)
  {
    RegisterOne(v, c, b0, [b1, b2] + s, r1);
    RegisterOne(v, r1, b1, [b2] + s, r2);
    RegisterOne(v, r2, b2, s, r3);
    assert [b0, b1, b2] + s == [b0] + ([b1, b2] + s) && [b1, b2] + s == [b1] + ([b2] + s);
  }

  lemma RegisterFour<R, B>(v: Space<R, B>, c: R, w: seq<B>, r1: R, r2: R, r3: R)
    requires |w| == 4
    requires r1 == Feed(v, c, w[0]) && r2 == Feed(v, r1, w[1]) && r3 == Feed(v, r2, w[2])
    ensures Register(v, c, w) == Feed(v, r3, w[3])
  {
    RegisterOne(v, c, w[0], w[1..], r1);
    RegisterOne(v, r1, w[1], w[2..], r2);
    RegisterOne(v, r2, w[2], w[3..], r3);
    RegisterOne(v, r3, w[3], [], Feed(v, r3, w[3]));
    assert w == [w[0]] + w[1..] && w[1..] == [w[1]] + w[2..] && w[2..] == [w[2]] + w[3..] && w[3..] == [w[3]] + [];
  }

  lemma FourTimes<R>(f: R -> R, x: R)
    ensures Iterate(f, 4, x) == f(f(f(f(x))))
  {
    assert Iterate(f, 4, x) == Iterate(f, 2, f(f(x)));
    assert Iterate(f, 2, f(f(x))) == Iterate(f, 0, f(f(f(f(x)))));
  }

  lemma {:induction false} IterateTells<R(!new)>(f: R -> R, plus: (R, R) -> R, zero: R, n: nat, x: R, y: R)
    requires SelfInverse(plus, zero) && Additive(f, plus) && KeepsNonzero(f, zero)
    ensures Iterate(f, n, x) == Iterate(f, n, y) <==> x == y
  {
    IterateAdditive(f, plus, n, x, y);
    IterateKeepsNonzero(f, zero, n, plus(x, y));
    assert plus(x, y) == zero <==> x == y;
    assert plus(Iterate(f, n, x), Iterate(f, n, y)) == zero <==> Iterate(f, n, x) == Iterate(f, n, y);
  }

  // ---------- checksums: a register complemented before and after ----------

  function Checksum<R, B>(v: Space<R, B>, ones: R, seed: R, s: seq<B>): R {
    v.plus(Register(v, v.plus(seed, ones), s), ones)
  }

  /** The checksum of a, given as the seed for b, is the checksum of a followed by b. */
  lemma ChecksumConcat<R(!new), B(!new)>(v: Space<R, B>, ones: R, seed: R, a: seq<B>, b: seq<B>)
    requires Laws(v)
    ensures Checksum(v, ones, Checksum(v, ones, seed, a), b) == Checksum(v, ones, seed, a + b)
  {
    AddTwice(v, Register(v, v.plus(seed, ones), a), ones);
    RegisterConcat(v, v.plus(seed, ones), a, b);
  }

  /** The checksums of two strings of one length differ by the register of their difference,
      whatever the seed. */
  lemma ChecksumDiffer<R(!new), B(!new)>(v: Space<R, B>, ones: R, seed: R, a: seq<B>, b: seq<B>)
    requires Laws(v) && |a| == |b|
    ensures v.plus(Checksum(v, ones, seed, a), Checksum(v, ones, seed, b)) == Register(v, v.zero, Sum(v, a, b))
  {
    DifferenceDecides(v, v.plus(seed, ones), a, b);
  }

  /** Additive up to the checksum of zeros. */
  lemma ChecksumAdditive<R(!new), B(!new)>(v: Space<R, B>, ones: R, seed: R, a: seq<B>, b: seq<B>, zeros: seq<B>)
    requires Laws(v) && |a| == |b| == |zeros| && AllZero(v, zeros)
    ensures Checksum(v, ones, seed, Sum(v, a, b))
         == v.plus(v.plus(Checksum(v, ones, seed, a), Checksum(v, ones, seed, b)), Checksum(v, ones, seed, zeros))
  {
    var d := Sum(v, a, b);
    assert Sum(v, d, zeros) == d;
    ChecksumDiffer(v, ones, seed, a, b);
    ChecksumDiffer(v, ones, seed, d, zeros);
    AddTwice(v, Checksum(v, ones, seed, d), Checksum(v, ones, seed, zeros));
  }

  lemma ChecksumTells<R(!new), B(!new)>(v: Space<R, B>, ones: R, seed: R, a: seq<B>, b: seq<B>)
    requires Laws(v)
    ensures Checksum(v, ones, seed, a) == Checksum(v, ones, seed, b)
       <==> Register(v, v.plus(seed, ones), a) == Register(v, v.plus(seed, ones), b)
  {
    AddTwice(v, Register(v, v.plus(seed, ones), a), ones);
    AddTwice(v, Register(v, v.plus(seed, ones), b), ones);
  }

  /** What follows a string brings its checksum to that of the complement alone if and only if it is the
      string's own checksum. The word stands for the symbols in w. */
  lemma ResidueTells<R(!new), B(!new)>(v: Space<R, B>, ones: R, seed: R, s: seq<B>, w: seq<B>, word: R, n: nat)
    requires Laws(v)
    requires forall c :: Register(v, c, w) == Iterate(v.step, n, v.plus(c, word))
    ensures Checksum(v, ones, seed, s + w) == v.plus(Iterate(v.step, n, ones), ones)
       <==> word == Checksum(v, ones, seed, s)
  {
    var r := Register(v, v.plus(seed, ones), s);
    RegisterConcat(v, v.plus(seed, ones), s, w);
    assert Register(v, r, w) == Iterate(v.step, n, v.plus(r, word));
    IterateTells(v.step, v.plus, v.zero, n, v.plus(r, word), ones);
    AddTwice(v, Iterate(v.step, n, v.plus(r, word)), ones);
    AddTwice(v, Iterate(v.step, n, ones), ones);
    MoveOver(v, r, word, ones);
  }

  lemma MoveOver<R(!new), B(!new)>(v: Space<R, B>, x: R, y: R, z: R)
    requires Laws(v)
    ensures v.plus(x, y) == z <==> y == v.plus(x, z)
  {
    assert v.plus(x, x) == v.zero && v.plus(y, z) == v.zero <==> y == z;
    assert v.plus(v.plus(x, y), z) == v.zero <==> v.plus(x, y) == z;
    assert v.plus(y, v.plus(x, z)) == v.zero <==> y == v.plus(x, z);
    calc {
      v.plus(v.plus(x, y), z);
      v.plus(v.plus(x, y), v.plus(z, v.zero));
      v.plus(v.plus(x, z), v.plus(y, v.zero));
      v.plus(v.plus(x, z), y);
    }
    calc {
      v.plus(v.plus(x, z), y);
      v.plus(v.plus(x, z), v.plus(y, v.zero));
    }
    Swap(v, y, v.plus(x, z));
  }

  lemma Swap<R(!new), B(!new)>(v: Space<R, B>, x: R, y: R)
    requires Laws(v)
    ensures v.plus(x, y) == v.plus(y, x)
  {
    calc {
      v.plus(x, y);
      v.plus(v.plus(v.zero, x), v.plus(y, v.zero));
      v.plus(v.plus(v.zero, y), v.plus(x, v.zero));
      v.plus(y, x);
    }
  }
}
