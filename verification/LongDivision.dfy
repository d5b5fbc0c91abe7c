/** Division of polynomials over the field of two elements, as sequences of coefficients with the highest first. */
module LongDivision {
  function Zeros(n: nat): (z: seq<bool>)
    ensures |z| == n && forall i | 0 <= i < n :: !z[i]
  {
    seq(n, _ => false)
  }

  /** The sum of d and f, aligned at the highest coefficient of d. */
  function Plus(d: seq<bool>, f: seq<bool>): (r: seq<bool>)
    requires |f| <= |d|
    ensures |r| == |d| && forall i | 0 <= i < |d| :: r[i] == if i < |f| then d[i] != f[i] else d[i]
  {
    seq(|d|, i requires 0 <= i < |d| => if i < |f| then d[i] != f[i] else d[i])
  }

  /** One line of a long division: the divisor is subtracted if the leading coefficient is one, which goes away. */
  function Line(d: seq<bool>, g: seq<bool>): (r: seq<bool>)
    requires 0 < |g| <= |d|
    ensures |r| == |d| - 1
  {
    (if d[0] then Plus(d, g) else d)[1..]
  }

  /** What is left once the dividend is shorter than the divisor. */
  function Remainder(d: seq<bool>, g: seq<bool>): (r: seq<bool>)
    requires g != []
    ensures |d| >= |g| - 1 ==> |r| == |g| - 1
    decreases |d|
  {
    if |d| < |g| then d else Remainder(Line(d, g), g)
  }

  function Quotient(d: seq<bool>, g: seq<bool>): (q: seq<bool>)
    requires g != []
    ensures |d| >= |g| - 1 ==> |q| == |d| - (|g| - 1)
    decreases |d|
  {
    if |d| < |g| then [] else [d[0]] + Quotient(Line(d, g), g)
  }

  function Product(q: seq<bool>, g: seq<bool>): (r: seq<bool>)
    requires g != []
    ensures |r| == |q| + |g| - 1
  {
    if q == [] then Zeros(|g| - 1)
    else
      var rest := [false] + Product(q[1..], g);
      if q[0] then Plus(rest, g) else rest
  }

  /** The sum of d and the shorter r, aligned at the lowest coefficient. */
  function PlusLow(d: seq<bool>, r: seq<bool>): seq<bool>
    requires |r| <= |d|
  {
    Plus(d, Zeros(|d| - |r|) + r)
  }

  /** The divisor's coefficient at position i + 1, if it is subtracted. */
  predicate Taken(lead: bool, g: seq<bool>, i: nat) {
    lead && i + 1 < |g| && g[i + 1]
  }

  lemma LineAt(d: seq<bool>, g: seq<bool>, i: nat)
    requires 0 < |g| <= |d| && i + 1 < |d|
    ensures Line(d, g)[i] == (d[i + 1] != Taken(d[0], g, i))
  {
  }

  lemma PlusLowAt(d: seq<bool>, r: seq<bool>, i: nat)
    requires |r| <= |d| && i < |d|
    ensures PlusLow(d, r)[i] == (d[i] != (i >= |d| - |r| && r[i - (|d| - |r|)]))
  {
  }

  lemma PlusBehindZero(p: seq<bool>, g: seq<bool>, i: nat)
    requires 0 < |g| <= |p| + 1 && i < |p|
    ensures Plus([false] + p, g)[i + 1] == (p[i] != Taken(true, g, i))
  {
  }

  lemma ProductStep(q: seq<bool>, g: seq<bool>, p: seq<bool>, i: nat)
    requires g != [] && q != [] && p == Product(q[1..], g) && i < |p|
    ensures Product(q, g)[i + 1] == (p[i] != Taken(q[0], g, i))
  {
    PlusBehindZero(p, g, i);
    assert ([false] + p)[i + 1] == p[i];
  }

  lemma ProductAt(q: seq<bool>, g: seq<bool>, r: seq<bool>, p: seq<bool>, i: nat)
    requires g != [] && q != [] && |r| == |g| - 1 && p == Product(q[1..], g) && i < |p|
    ensures PlusLow(Product(q, g), r)[i + 1] == (PlusLow(p, r)[i] != Taken(q[0], g, i))
  {
    PlusLowAt(Product(q, g), r, i + 1);
    PlusLowAt(p, r, i);
    ProductStep(q, g, p, i);
  }

  lemma ProductLead(q: seq<bool>, g: seq<bool>, r: seq<bool>)
    requires g != [] && g[0] && q != [] && |r| == |g| - 1
    ensures PlusLow(Product(q, g), r)[0] == q[0]
  {
    PlusLowAt(Product(q, g), r, 0);
    assert ([false] + Product(q[1..], g))[0] == false;
  }

  /** Two sequences agree exactly when what is left after one line of division does. */
  lemma SameAfterLine(d: seq<bool>, a: seq<bool>, l: seq<bool>, b: seq<bool>, g: seq<bool>)
    requires |d| == |a| > 0 && |l| == |b| == |d| - 1
    requires forall i | 0 <= i < |l| :: l[i] == (d[i + 1] != Taken(d[0], g, i))
    requires forall i | 0 <= i < |b| :: a[i + 1] == (b[i] != Taken(a[0], g, i))
    ensures d == a <==> a[0] == d[0] && l == b
  {
    if d == a {
      forall i | 0 <= i < |l| ensures l[i] == b[i] {
        assert a[i + 1] == d[i + 1];
      }
    } else if a[0] == d[0] && l == b {
      forall i | 0 <= i < |d| ensures d[i] == a[i] {
        if i > 0 {
          assert l[i - 1] == b[i - 1];
          assert a[i - 1 + 1] == a[i];
        }
      }
    }
  }

  /** One more leading coefficient in the quotient. */
  lemma LongerQuotient(d: seq<bool>, g: seq<bool>, q: seq<bool>, r: seq<bool>)
    requires g != [] && g[0] && q != [] && |r| == |g| - 1 && |d| == |q| + |r|
    ensures d == PlusLow(Product(q, g), r) <==> q[0] == d[0] && Line(d, g) == PlusLow(Product(q[1..], g), r)
  {
    var p := Product(q[1..], g);
    var a, b, l := PlusLow(Product(q, g), r), PlusLow(p, r), Line(d, g);
    ProductLead(q, g, r);
    forall i | 0 <= i < |b| ensures a[i + 1] == (b[i] != Taken(a[0], g, i)) {
      ProductAt(q, g, r, p, i);
    }
    forall i | 0 <= i < |l| ensures l[i] == (d[i + 1] != Taken(d[0], g, i)) {
      LineAt(d, g, i);
    }
    SameAfterLine(d, a, l, b, g);
  }

  /** Quotient and remainder are the only ones there are. */
  lemma {:induction false} DivisionIsExact(d: seq<bool>, g: seq<bool>, q: seq<bool>, r: seq<bool>)
    requires g != [] && g[0] && |r| == |g| - 1 && |d| == |q| + |r|
    ensures d == PlusLow(Product(q, g), r) <==> q == Quotient(d, g) && r == Remainder(d, g)
    decreases |d|
  {
    if q == [] {
      assert PlusLow(Product(q, g), r) == r;
    } else {
      LongerQuotient(d, g, q, r);
      DivisionIsExact(Line(d, g), g, q[1..], r);
      assert q == [q[0]] + q[1..];
    }
  }

  /** What a shift register holds after one line of the division, when the next coefficient of the dividend is zero. */
  function Shifted(b: seq<bool>, g: seq<bool>): (r: seq<bool>)
    requires b != [] && |g| == |b| + 1
    ensures |r| == |b|
  {
    var s := b[1..] + [false];
    if b[0] then Plus(s, g[1..]) else s
  }

  lemma ShiftedAt(b: seq<bool>, g: seq<bool>, i: nat)
    requires i < |b| && |g| == |b| + 1
    ensures Shifted(b, g)[i] == ((i + 1 < |b| && b[i + 1]) != Taken(b[0], g, i))
  {
  }

  lemma BehindZero(rest: seq<bool>, b: seq<bool>, i: nat)
    requires 0 < |b| <= |rest| && i < |rest|
    ensures Plus([false] + rest, b)[i + 1] == (rest[i] != (i + 1 < |b| && b[i + 1]))
    ensures Plus([false] + rest, b)[0] == b[0]
  {
    assert ([false] + rest)[i + 1] == rest[i];
  }

  /** A dividend whose first coefficients are partly in a register b. */
  lemma RegisterShifts(rest: seq<bool>, b: seq<bool>, g: seq<bool>)
    requires 0 < |b| <= |rest| && |g| == |b| + 1
    ensures Line(Plus([false] + rest, b), g) == Plus(rest, Shifted(b, g))
  {
    var d, r := Plus([false] + rest, b), Plus(rest, Shifted(b, g));
    var l := Line(d, g);
    forall i | 0 <= i < |rest| ensures l[i] == r[i] {
      LineAt(d, g, i);
      BehindZero(rest, b, i);
      if i < |b| {
        ShiftedAt(b, g, i);
      }
    }
  }
}
