/** JSON values as tinyjson holds them. Strings are byte strings, objects are std::map (each key
    once, iterated in byte order), numbers are exact reals. */
module JsonValues {
  import opened Bytes

  datatype Value =
    | Null
    | Bool(b: bool)
    | Num(x: real)
    | Str(s: bytes)
    | Arr(items: seq<Value>)
    | Obj(fields: map<bytes, Value>)

  // ---- key order ----

  /** std::string's operator<: bytes compared one by one. */
  predicate Less(a: bytes, b: bytes) {
    b != [] && (a == [] || a[0] < b[0] || (a[0] == b[0] && Less(a[1..], b[1..])))
  }

  lemma {:induction false} LessIrreflexive(a: bytes)
    ensures !Less(a, a)
  {
    if a != [] {
      LessIrreflexive(a[1..]);
    }
  }

  lemma {:induction false} LessTransitive(a: bytes, b: bytes, c: bytes)
    requires Less(a, b) && Less(b, c)
    ensures Less(a, c)
  {
    if a != [] && a[0] == b[0] == c[0] {
      LessTransitive(a[1..], b[1..], c[1..]);
    }
  }

  lemma {:induction false} LessTotal(a: bytes, b: bytes)
    ensures a == b || Less(a, b) || Less(b, a)
  {
    if a != [] && b != [] && a[0] == b[0] {
      LessTotal(a[1..], b[1..]);
      assert a == [a[0]] + a[1..] && b == [b[0]] + b[1..];
    }
  }

  predicate IsMin(k: bytes, s: set<bytes>) {
    forall j :: j in s && j != k ==> Less(k, j)
  }

  lemma {:induction false} MinExists(s: set<bytes>)
    requires s != {}
    ensures exists k :: k in s && IsMin(k, s)
  {
    var x :| x in s;
    if y :| y in s && y != x {
      var r := s - {x};
      assert y in r;
      MinExists(r);
      var k :| k in r && IsMin(k, r);
      LessTotal(x, k);
      if Less(x, k) {
        forall j | j in s && j != x ensures Less(x, j) {
          if j != k { LessTransitive(x, k, j); }
        }
        assert IsMin(x, s);
      } else {
        assert IsMin(k, s);
      }
    } else {
      assert IsMin(x, s);
    }
  }

  lemma MinUnique(s: set<bytes>)
    ensures forall k, j :: k in s && j in s && IsMin(k, s) && IsMin(j, s) ==> k == j
  {
    forall k, j | k in s && j in s && IsMin(k, s) && IsMin(j, s) ensures k == j {
      if k != j {
        LessTransitive(k, j, k);
        LessIrreflexive(k);
        assert false;
      }
    }
  }

  /** The keys of an object in the order a std::map is iterated. */
  function SortedKeys(s: set<bytes>): seq<bytes> {
    if s == {} then []
    else
      MinExists(s);
      MinUnique(s);
      var k :| k in s && IsMin(k, s);
      [k] + SortedKeys(s - {k})
  }

  ghost predicate Distinct(l: seq<bytes>) {
    l == [] || (l[0] !in l[1..] && Distinct(l[1..]))
  }

  lemma {:induction false} SortedKeysSpec(s: set<bytes>)
    ensures forall k :: k in SortedKeys(s) <==> k in s
    ensures Distinct(SortedKeys(s))
  {
    if s != {} {
      var l := SortedKeys(s);
      MinExists(s);
      SortedKeysSpec(s - {l[0]});
    }
  }

  /** And that order is ascending. */
  lemma {:induction false} SortedKeysAscend(s: set<bytes>, i: nat, j: nat)
    requires i < j < |SortedKeys(s)|
    ensures Less(SortedKeys(s)[i], SortedKeys(s)[j])
  {
    var l := SortedKeys(s);
    MinExists(s);
    if i > 0 {
      SortedKeysAscend(s - {l[0]}, i - 1, j - 1);
    } else {
      SortedKeysSpec(s - {l[0]});
      assert l[1..][j - 1] in l[1..];
    }
  }

  // ---- building objects ----

  /** Object fields assigned one after the other, the first assignment of a key kept (emplace). */
  function Emplaced(pairs: seq<(bytes, Value)>): map<bytes, Value> {
    if pairs == [] then map[] else Emplaced(pairs[1..])[pairs[0].0 := pairs[0].1]
  }

  /** Of several pairs with one key the first counts. */
  lemma {:induction false} FirstKept(pairs: seq<(bytes, Value)>, i: nat)
    requires i < |pairs| && forall a :: 0 <= a < i ==> pairs[a].0 != pairs[i].0
    ensures pairs[i].0 in Emplaced(pairs) && Emplaced(pairs)[pairs[i].0] == pairs[i].1
  {
    if i > 0 {
      FirstKept(pairs[1..], i - 1);
      assert pairs[1..][i - 1] == pairs[i];
    }
  }

  lemma {:induction false} EmplacedKeys(pairs: seq<(bytes, Value)>, k: bytes)
    requires k in Emplaced(pairs)
    ensures exists i :: 0 <= i < |pairs| && pairs[i].0 == k
  {
    if pairs[0].0 != k {
      EmplacedKeys(pairs[1..], k);
      var i :| 0 <= i < |pairs[1..]| && pairs[1..][i].0 == k;
      assert pairs[i + 1].0 == k;
    }
  }

  /** An object does not depend on the order its (distinct) keys were inserted in. */
  lemma InsertionOrder(p: seq<(bytes, Value)>, q: seq<(bytes, Value)>)
    requires multiset(p) == multiset(q)
    requires forall a, b :: 0 <= a < b < |p| ==> p[a].0 != p[b].0
    requires forall a, b :: 0 <= a < b < |q| ==> q[a].0 != q[b].0
    ensures Emplaced(p) == Emplaced(q)
  {
    EmplacedWithin(p, q);
    EmplacedWithin(q, p);
    assert Emplaced(p).Keys == Emplaced(q).Keys;
  }

  lemma EmplacedWithin(p: seq<(bytes, Value)>, q: seq<(bytes, Value)>)
    requires multiset(p) == multiset(q)
    requires forall a, b :: 0 <= a < b < |p| ==> p[a].0 != p[b].0
    requires forall a, b :: 0 <= a < b < |q| ==> q[a].0 != q[b].0
    ensures forall k :: k in Emplaced(p) ==> k in Emplaced(q) && Emplaced(q)[k] == Emplaced(p)[k]
  {
    forall k | k in Emplaced(p) ensures k in Emplaced(q) && Emplaced(q)[k] == Emplaced(p)[k] {
      EmplacedKeys(p, k);
      var i :| 0 <= i < |p| && p[i].0 == k;
      FirstKept(p, i);
      assert p[i] in multiset(p);
      assert p[i] in q;
      var j :| 0 <= j < |q| && q[j] == p[i];
      FirstKept(q, j);
    }
  }
}
