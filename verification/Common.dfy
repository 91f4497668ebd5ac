/** Vocabulary shared by the other modules: bytes, options, Go's string order and
    its decimal rendering of integers. */
module Common {

  type Byte = x: int | 0 <= x < 256

  type Bytes = seq<Byte>

  datatype Option<+T> = None | Some(value: T)

  function Or<T>(o: Option<T>, other: T): T {
    if o.Some? then o.value else other
  }

  function Front<T>(xs: seq<T>): seq<T>
    requires xs != []
  {
    xs[..|xs| - 1]
  }

  function Last<T>(xs: seq<T>): T
    requires xs != []
  {
    xs[|xs| - 1]
  }

  function Elements<T>(xs: seq<T>): set<T> {
    set x | x in xs
  }

  lemma ElementsEmpty<T>(xs: seq<T>)
    ensures Elements(xs) == {} <==> xs == []
  {
    if xs != [] { assert xs[0] in Elements(xs); }
  }

  predicate NoDuplicates<T(==)>(xs: seq<T>) {
    forall i, j :: 0 <= i < j < |xs| ==> xs[i] != xs[j]
  }

  /** Go's `a < b` on strings: lexicographic, a proper prefix being smaller. */
  predicate LexLess(a: string, b: string) {
    b != "" && (a == "" || a[0] < b[0] || (a[0] == b[0] && LexLess(a[1..], b[1..])))
  }

  /** How far two strings agree. */
  function CommonLength(a: string, b: string): (d: nat)
    ensures d <= |a| && d <= |b| && a[..d] == b[..d]
    ensures d == |a| || d == |b| || a[d] != b[d]
  {
    if a == "" || b == "" || a[0] != b[0] then 0
    else
      var d := CommonLength(a[1..], b[1..]);
      assert a[..d + 1] == [a[0]] + a[1..][..d] && b[..d + 1] == [b[0]] + b[1..][..d];
      d + 1
  }

  /** The comparison goes by the first character that differs; a proper prefix is smaller. */
  lemma {:induction false} LexLessMeans(a: string, b: string)
    ensures var d := CommonLength(a, b);
            LexLess(a, b) <==> if d == |a| || d == |b| then |a| == d < |b| else a[d] < b[d]
  {
    if a != "" && b != "" && a[0] == b[0] {
      LexLessMeans(a[1..], b[1..]);
    }
  }

  /** Any two different strings compare one way and not the other. */
  lemma {:induction false} LexLessTotal(a: string, b: string)
    ensures !(LexLess(a, b) && LexLess(b, a))
    ensures a != b ==> LexLess(a, b) || LexLess(b, a)
    ensures a == b ==> !LexLess(a, b)
  {
    if a != "" && b != "" {
      LexLessTotal(a[1..], b[1..]);
      assert a == [a[0]] + a[1..] && b == [b[0]] + b[1..];
    }
  }

  function Digits(n: nat): (s: string)
    ensures s != ""
  {
    if n < 10 then [('0' as int + n) as char] else Digits(n / 10) + [('0' as int + n % 10) as char]
  }

  /** The text `%d` produces for an integer. */
  function Decimal(n: int): string {
    if n < 0 then "-" + Digits(-n) else Digits(n)
  }

  predicate AllDigits(s: string) {
    forall i :: 0 <= i < |s| ==> '0' <= s[i] <= '9'
  }

  /** The number a decimal text stands for. */
  function Value(s: string): int {
    if s == "" then 0 else 10 * Value(s[..|s| - 1]) + (s[|s| - 1] as int - '0' as int)
  }

  lemma {:induction false} DigitsRead(n: nat)
    ensures AllDigits(Digits(n)) && Value(Digits(n)) == n
  {
    if n >= 10 {
      DigitsRead(n / 10);
      var s := Digits(n);
      assert s[..|s| - 1] == Digits(n / 10) && s[|s| - 1] as int - '0' as int == n % 10;
    } else {
      assert Digits(n)[..0] == "";
    }
  }

  /** Different numbers have different texts, which hold digits and at most a sign in front. */
  lemma DecimalInjective(a: int, b: int)
    ensures Decimal(a) == Decimal(b) <==> a == b
    ensures AllDigits(Decimal(a)) || (Decimal(a)[0] == '-' && AllDigits(Decimal(a)[1..]))
  {
    DigitsRead(if a < 0 then -a else a);
    DigitsRead(if b < 0 then -b else b);
    if a < 0 { assert Decimal(a)[1..] == Digits(-a) && Decimal(a)[0] == '-'; }
    if b < 0 { assert Decimal(b)[1..] == Digits(-b) && Decimal(b)[0] == '-'; }
  }

  lemma SamePrefix(p: string, a: string, b: string)
    ensures p + a == p + b <==> a == b
  {
    assert (p + a)[|p|..] == a && (p + b)[|p|..] == b;
  }

  function Min(a: int, b: int): int {
    if a < b then a else b
  }

  function Zeros(n: nat): (z: Bytes)
    ensures |z| == n && forall i :: 0 <= i < n ==> z[i] == 0
  {
    seq(n, i => 0)
  }

  /** The unsigned value of a big-endian byte string. */
  function BigEndian(s: Bytes): (n: nat) {
    if s == [] then 0 else 256 * BigEndian(s[..|s| - 1]) + s[|s| - 1]
  }

  function Pow256(n: nat): (p: nat)
    ensures p > 0
  {
    if n == 0 then 1 else 256 * Pow256(n - 1)
  }

  lemma {:induction false} BigEndianBound(s: Bytes)
    ensures BigEndian(s) < Pow256(|s|)
  {
    if s != [] { BigEndianBound(s[..|s| - 1]); }
  }

  /** A big-endian number splits at any byte: the head counts in units of 256 to the
      length of the tail. */
  lemma {:induction false} BigEndianSplit(a: Bytes, b: Bytes)
    ensures BigEndian(a + b) == BigEndian(a) * Pow256(|b|) + BigEndian(b)
  {
    if b == [] {
      assert a + b == a;
    } else {
      var b0 := b[..|b| - 1];
      BigEndianSplit(a, b0);
      assert (a + b)[..|a + b| - 1] == a + b0;
      assert BigEndian(a + b) == 256 * BigEndian(a + b0) + b[|b| - 1];
      assert Pow256(|b|) == 256 * Pow256(|b0|);
      assert 256 * (BigEndian(a) * Pow256(|b0|)) == BigEndian(a) * (256 * Pow256(|b0|));
    }
  }

  lemma MultipleIsFar(d: int, n: int)
    requires n > 0
    ensures d == 0 || d * n >= n || d * n <= -n
  {
    if d > 0 {
      assert (d - 1) * n >= 0;
    } else if d < 0 {
      assert (-d - 1) * n >= 0;
    }
  }

  lemma RemainderUnique(a: int, q: int, r: int, n: int)
    requires n > 0 && 0 <= r < n && a == q * n + r
    ensures a % n == r
  {
    var d := a / n - q;
    assert a == a / n * n + a % n;
    assert d * n == r - a % n by {
      assert d * n == a / n * n - q * n;
    }
    MultipleIsFar(d, n);
  }

  lemma Quotient(q: nat, r: nat, n: nat)
    requires r < n
    ensures (q * n + r) / n == q
  {
    RemainderUnique(q * n + r, q, r, n);
    var d := (q * n + r) / n - q;
    assert d * n == 0 by {
      assert d * n == (q * n + r) / n * n - q * n;
    }
    MultipleIsFar(d, n);
  }

  /** Go's copy into a buffer from some position on. */
  method CopyAt(result: array<Byte>, at: nat, b: Bytes) returns (n: nat)
    requires at <= result.Length
    modifies result
    ensures n == Min(|b|, result.Length - at)
    ensures forall j :: 0 <= j < n ==> result[at + j] == b[j]
    ensures forall j :: 0 <= j < result.Length && !(at <= j < at + n) ==> result[j] == old(result[j])
  {
    n := Min(|b|, result.Length - at);
    for k := 0 to n
      invariant forall j :: 0 <= j < k ==> result[at + j] == b[j]
      invariant forall j :: 0 <= j < result.Length && !(at <= j < at + k) ==> result[j] == old(result[j])
    {
      result[at + k] := b[k];
    }
  }

  /** Go's copy within one array, towards the front. */
  method SlideBack(a: array<Byte>, source: nat, target: nat, n: nat)
    requires target <= source && source + n <= a.Length
    modifies a
    ensures a[target..target + n] == old(a[source..source + n])
    ensures a[..target] == old(a[..target])
    ensures forall j :: target + n <= j < a.Length ==> a[j] == old(a[j])
  {
    ghost var was := a[..];
    for k := 0 to n
      invariant forall j :: target <= j < target + k ==> a[j] == was[j + (source - target)]
      invariant forall j :: target + k <= j < a.Length ==> a[j] == was[j]
      invariant forall j :: 0 <= j < target ==> a[j] == was[j]
    {
      a[target + k] := a[source + k];
    }
    ghost var now := a[..];
    assert now[target..target + n] == was[source..source + n];
    assert a[target..target + n] == now[target..target + n] && old(a[source..source + n]) == was[source..source + n];
    assert a[..target] == now[..target] && old(a[..target]) == was[..target];
  }
}
