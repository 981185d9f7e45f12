/** Small definitions shared by the models of several source files. */
module Common {

  datatype Option<+T> = None | Some(value: T)

  /** Go's conversion of an int64 to int32: keep the low 32 bits, two's complement. */
  function ToInt32(v: int): int {
    (v + 0x8000_0000) % 0x1_0000_0000 - 0x8000_0000
  }

  /** The one int32 that differs from v by a multiple of 2^32. */
  lemma ToInt32Is(v: int, i: int)
    ensures ToInt32(v) == i <==> -0x8000_0000 <= i < 0x8000_0000 && (i - v) % 0x1_0000_0000 == 0
  {
    var q := (v + 0x8000_0000) / 0x1_0000_0000;
    assert ToInt32(v) == v - q * 0x1_0000_0000;
    if -0x8000_0000 <= i < 0x8000_0000 && (i - v) % 0x1_0000_0000 == 0 {
      var k := (i - v) / 0x1_0000_0000;
      assert v + 0x8000_0000 == (i + 0x8000_0000) - k * 0x1_0000_0000;
    }
  }

  /** The value Go reads from a map[K]int32: the zero value when the key is missing. */
  function Count<K>(m: map<K, int>, k: K): int {
    if k in m then m[k] else 0
  }

  function Min(a: int, b: int): int {
    if a <= b then a else b
  }

  function Max(a: int, b: int): int {
    if a >= b then a else b
  }

  /** Some element: the next key of a Go map range, which is in no particular order. */
  method Choose<T>(s: set<T>) returns (x: T)
    requires s != {}
    ensures x in s
  {
    x :| x in s;
  }

  /** rand.Intn: any value below n; it panics unless n is positive. */
  method RandIntn(n: int) returns (r: int)
    requires n > 0
    ensures 0 <= r < n
  {
    r :| 0 <= r < n;
  }

  /** Go's integer division truncates toward zero. */
  function GoDiv(a: int, b: int): int
    requires b != 0
  {
    if (a >= 0) == (b > 0) then Abs(a) / Abs(b) else -(Abs(a) / Abs(b))
  }

  function Abs(a: int): int {
    if a < 0 then -a else a
  }

  /** A subset is no larger, and smaller when it lacks something. */
  lemma SubsetSize<T>(a: set<T>, b: set<T>)
    requires a <= b
    ensures |a| <= |b| && (a != b ==> |a| < |b|)
  {
    assert b == a + (b - a);
  }

  ghost predicate NonDecreasing(s: seq<int>) {
    forall i, j :: 0 <= i <= j < |s| ==> s[i] <= s[j]
  }

  /** The elements of a set, each once, in some order: what a Go map range goes through. */
  ghost predicate Lists<T>(order: seq<T>, keys: set<T>) {
    (forall j :: 0 <= j < |order| ==> order[j] in keys) && (forall x :: x in keys ==> x in order) &&
    forall i, j :: 0 <= i < j < |order| ==> order[i] != order[j]
  }

  lemma {:induction false} Listing<T>(keys: set<T>) returns (order: seq<T>)
    ensures Lists(order, keys)
  {
    if x :| x in keys {
      var rest := Listing(keys - {x});
      order := rest + [x];
    } else {
      order := [];
    }
  }

  lemma ListsSum<T>(a: seq<T>, x: set<T>, b: seq<T>, y: set<T>)
    requires Lists(a, x) && Lists(b, y) && x !! y
    ensures Lists(a + b, x + y)
  {
    assert forall e :: e in x + y ==> e in a + b;
  }
}
