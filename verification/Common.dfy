/** Datatypes shared by every model of the service. */
module Common {

  datatype Option<+T> = None | Some(value: T)

  datatype Result<+T, +E> = Ok(value: T) | Err(error: E)

  /** What became of one command sent to Redis or Postgres: it was carried out, it was not carried
      out, or it was carried out but the caller saw an error because the reply was lost. */
  datatype Outcome = Done | Failed | Lost
  {
    predicate Applied() { !Failed? }

    predicate Raised() { !Done? }
  }

  function Elements<T>(s: seq<T>): set<T> {
    set x | x in s
  }

  /** Pairwise different items are as many as their set. */
  lemma {:induction false} DistinctCount<T>(s: seq<T>)
    requires forall i, j | 0 <= i < j < |s| :: s[i] != s[j]
    ensures |Elements(s)| == |s|
  {
    if s != [] {
      DistinctCount(s[1..]);
      assert Elements(s) == {s[0]} + Elements(s[1..]);
      assert forall j | 1 <= j < |s| :: s[j] != s[0];
    }
  }

  lemma SubsetSize<T>(a: set<T>, b: set<T>)
    requires a <= b
    ensures |a| <= |b|
  {
    assert b == a + (b - a);
  }

  function Min(a: int, b: int): (m: int)
    ensures m <= a && m <= b && (m == a || m == b)
  {
    if a <= b then a else b
  }

  /** ceil(a / b), the value of `Math.ceil(a / b)` for a page or batch count. */
  function CeilDiv(a: nat, b: nat): (q: nat)
    requires b > 0
    ensures (q - 1) * b < a <= q * b || (a == 0 && q == 0)
  {
    Quotient(a, b);
    if a % b == 0 then a / b else a / b + 1
  }

  lemma Quotient(a: nat, b: nat)
    requires b > 0
    ensures (a / b) * b == a - a % b && (a / b - 1) * b == a - a % b - b && (a / b + 1) * b == a - a % b + b
    ensures a % b == 0 && a > 0 ==> a / b > 0
  {
    var q := a / b;
    assert a == b * q + a % b;
    assert (q - 1) * b == q * b - b && (q + 1) * b == q * b + b;
  }

  lemma {:induction false} Monotone(a: int, c: int, b: nat)
    requires a <= c
    ensures a * b <= c * b
    decreases c - a
  {
    if a < c {
      Monotone(a, c - 1, b);
      assert c * b == (c - 1) * b + b;
    }
  }

  /** A number of batches of size b covers a items exactly when it is at least ceil(a / b). */
  lemma CoversIff(a: nat, b: nat, k: nat)
    requires b > 0
    ensures a <= k * b <==> CeilDiv(a, b) <= k
  {
    var q := CeilDiv(a, b);
    if q <= k {
      Monotone(q, k, b);
    } else {
      Monotone(k, q - 1, b);
    }
  }
}
