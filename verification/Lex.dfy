/** The byte order bbolt keeps its keys in, and the cursor order it induces. */
module Lex {

  predicate Less(a: string, b: string)
    decreases |b|
  {
    b != [] && (a == [] || a[0] < b[0] || (a[0] == b[0] && Less(a[1..], b[1..])))
  }

  lemma {:induction false} LessIrreflexive(a: string)
    ensures !Less(a, a)
    decreases |a|
  {
    if a != [] { LessIrreflexive(a[1..]); }
  }

  lemma {:induction false} LessTransitive(a: string, b: string, c: string)
    requires Less(a, b) && Less(b, c)
    ensures Less(a, c)
    decreases |c|
  {
    if a != [] && a[0] == b[0] && b[0] == c[0] { LessTransitive(a[1..], b[1..], c[1..]); }
  }

  lemma {:induction false} LessTotal(a: string, b: string)
    ensures Less(a, b) || a == b || Less(b, a)
    decreases |b|
  {
    if a != [] && b != [] && a[0] == b[0] {
      LessTotal(a[1..], b[1..]);
      if a[1..] == b[1..] { assert a == [a[0]] + a[1..] && b == [b[0]] + b[1..]; }
    }
  }

  lemma LessAsymmetric(a: string, b: string)
    requires Less(a, b)
    ensures !Less(b, a) && a != b
  {
    LessIrreflexive(a);
    if Less(b, a) { LessTransitive(a, b, a); }
  }

  /** Keys with a fixed-width first part compare by that part, then by the rest. */
  lemma {:induction false} LessFixedWidth(a: string, x: string, b: string, y: string)
    requires |a| == |b|
    ensures Less(a + x, b + y) <==> Less(a, b) || (a == b && Less(x, y))
    decreases |a|
  {
    if a == [] {
      assert a + x == x && b + y == y;
    } else {
      LessFixedWidth(a[1..], x, b[1..], y);
      assert (a + x)[1..] == a[1..] + x && (b + y)[1..] == b[1..] + y;
      assert a == [a[0]] + a[1..] && b == [b[0]] + b[1..];
    }
  }

  predicate Increasing(keys: seq<string>) {
    forall i, j :: 0 <= i < j < |keys| ==> Less(keys[i], keys[j])
  }

  predicate IsLeast(keys: set<string>, m: string) {
    m in keys && forall k :: k in keys ==> k == m || Less(m, k)
  }

  lemma {:induction false} LeastExists(keys: set<string>) returns (m: string)
    requires keys != {}
    ensures IsLeast(keys, m)
    decreases |keys|
  {
    var x :| x in keys;
    var rest := keys - {x};
    m := x;
    if rest != {} {
      var y := LeastExists(rest);
      LessTotal(x, y);
      if Less(y, x) { m := y; }
      forall k | k in keys ensures k == m || Less(m, k) {
        if k != x && k != y && m == x { LessTransitive(x, y, k); }
      }
    }
  }

  lemma LeastUnique(keys: set<string>)
    ensures forall m, n :: IsLeast(keys, m) && IsLeast(keys, n) ==> m == n
  {
    forall m, n | IsLeast(keys, m) && IsLeast(keys, n) ensures m == n {
      if m != n { LessAsymmetric(m, n); }
    }
  }

  lemma ConsIncreasing(m: string, rest: seq<string>)
    requires Increasing(rest) && forall k :: k in rest ==> Less(m, k)
    ensures Increasing([m] + rest)
  {
  }

  /** The order in which a forward cursor visits a bucket. */
  function SortedKeys(keys: set<string>): (r: seq<string>)
    ensures Increasing(r) && |r| == |keys|
    ensures forall k :: k in r <==> k in keys
    decreases keys
  {
    if keys == {} then []
    else
      assert exists m :: IsLeast(keys, m) by { var m := LeastExists(keys); }
      LeastUnique(keys);
      var m :| m in keys && IsLeast(keys, m);
      var rest := SortedKeys(keys - {m});
      ConsIncreasing(m, rest);
      [m] + rest
  }

  lemma IncreasingDistinct(keys: seq<string>)
    requires Increasing(keys)
    ensures forall i, j :: 0 <= i < j < |keys| ==> keys[i] != keys[j]
  {
    forall i, j | 0 <= i < j < |keys| ensures keys[i] != keys[j] { LessAsymmetric(keys[i], keys[j]); }
  }

  lemma HeadMember<T>(keys: seq<T>)
    ensures keys != [] ==> keys[0] in keys
  {
  }

  /** A sequence in strict order is determined by its elements. */
  lemma {:induction false} SortedUnique<T>(less: (T, T) -> bool, a: seq<T>, b: seq<T>)
    requires forall x, y :: less(x, y) ==> !less(y, x)
    requires forall i, j :: 0 <= i < j < |a| ==> less(a[i], a[j])
    requires forall i, j :: 0 <= i < j < |b| ==> less(b[i], b[j])
    requires forall k :: k in a <==> k in b
    ensures a == b
    decreases |a|
  {
    if a == [] {
      HeadMember(b);
    } else {
      HeadMember(a); HeadMember(b);
      forall k ensures k in a[1..] <==> k in b[1..] {
        assert k in a <==> k == a[0] || k in a[1..];
        assert k in b <==> k == b[0] || k in b[1..];
      }
      SortedUnique(less, a[1..], b[1..]);
    }
  }

  lemma IncreasingUnique(a: seq<string>, b: seq<string>)
    requires Increasing(a) && Increasing(b)
    requires forall k :: k in a <==> k in b
    ensures a == b
  {
    forall x, y | Less(x, y) ensures !Less(y, x) { LessAsymmetric(x, y); }
    SortedUnique(Less, a, b);
  }
}
