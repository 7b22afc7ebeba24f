/** Options, the string order and sorting of the broker's ordered collections, and extrema of finite sets. */
module Text {
  datatype Option<+T> = None | Some(value: T)

  // Rust orders `str` by its UTF-8 bytes, which is the order of code points.
  predicate Le(a: string, b: string) {
    a == [] || (b != [] && (a[0] < b[0] || (a[0] == b[0] && Le(a[1..], b[1..]))))
  }

  predicate Lt(a: string, b: string) {
    a != b && Le(a, b)
  }

  // At the first difference the smaller character decides, and a prefix comes first.
  lemma {:induction false} LeIsLexicographic(a: string, b: string)
    ensures Le(a, b) <==>
              exists k: nat :: && k <= |a| && k <= |b| && a[..k] == b[..k]
                               && (k == |a| || (k < |b| && a[k] < b[k]))
  {
    if a == [] {
      assert a[..0] == b[..0];
    } else if b != [] && a[0] == b[0] {
      LeIsLexicographic(a[1..], b[1..]);
      if k: nat :| && k <= |a[1..]| && k <= |b[1..]| && a[1..][..k] == b[1..][..k]
                   && (k == |a[1..]| || (k < |b[1..]| && a[1..][k] < b[1..][k])) {
        assert a[..k + 1] == [a[0]] + a[1..][..k] && b[..k + 1] == [b[0]] + b[1..][..k];
      }
      if k: nat :| k <= |a| && k <= |b| && a[..k] == b[..k] && (k == |a| || (k < |b| && a[k] < b[k])) {
        assert k > 0 && a[1..][..k - 1] == a[..k][1..] && b[1..][..k - 1] == b[..k][1..];
      }
    } else if b != [] && a[0] < b[0] {
      assert a[..0] == b[..0];
    } else {
      forall k: nat | 0 < k <= |a| && k <= |b| ensures a[..k] != b[..k] {
        assert a[..k][0] != b[..k][0];
      }
    }
  }

  lemma {:induction false} LeIsTotal(a: string, b: string)
    ensures Le(a, b) || Le(b, a)
  {
    if a != [] && b != [] && a[0] == b[0] {
      LeIsTotal(a[1..], b[1..]);
    }
  }

  lemma {:induction false} LeIsAntisymmetric(a: string, b: string)
    requires Le(a, b) && Le(b, a)
    ensures a == b
  {
    if a != [] && b != [] {
      LeIsAntisymmetric(a[1..], b[1..]);
      assert a == [a[0]] + a[1..] && b == [b[0]] + b[1..];
    }
  }

  lemma {:induction false} LeIsTransitive(a: string, b: string, c: string)
    requires Le(a, b) && Le(b, c)
    ensures Le(a, c)
  {
    if a != [] && a[0] == b[0] && b[0] == c[0] {
      LeIsTransitive(a[1..], b[1..], c[1..]);
    }
  }

  lemma LtIsTransitive(a: string, b: string, c: string)
    requires (Le(a, b) && Lt(b, c)) || (Lt(a, b) && Le(b, c))
    ensures Lt(a, c)
  {
    LeIsTransitive(a, b, c);
    if a == c {
      LeIsAntisymmetric(a, b);
      LeIsAntisymmetric(b, c);
    }
  }

  // ----- Sorted listings

  function Elements<T(!new)>(s: seq<T>): set<T> {
    set x | x in s
  }

  ghost predicate StrictlySorted(s: seq<string>) {
    forall i, j | 0 <= i < j < |s| :: Lt(s[i], s[j])
  }

  ghost function Minimum(keys: set<string>): (least: string)
    requires keys != {}
    ensures least in keys && forall k | k in keys :: Le(least, k)
    decreases |keys|
  {
    var k :| k in keys;
    var rest := keys - {k};
    LeIsTotal(k, k);
    if rest == {} then
      assert keys == {k};
      k
    else
      var m := Minimum(rest);
      assert Le(k, m) || Le(m, k) by { LeIsTotal(k, m); }
      if Le(k, m) then
        assert forall x | x in keys :: Le(k, x) by {
          forall x | x in keys ensures Le(k, x) {
            if x != k { LeIsTransitive(k, m, x); }
          }
        }
        k
      else
        m
  }

  lemma MinimumIsUnique(keys: set<string>, a: string)
    requires a in keys && forall k | k in keys :: Le(a, k)
    ensures a == Minimum(keys)
  {
    LeIsAntisymmetric(a, Minimum(keys));
  }

  lemma LeastGoesFirst(keys: set<string>, m: string, rest: seq<string>)
    requires m in keys && (forall k | k in keys :: Le(m, k))
    requires StrictlySorted(rest) && Elements(rest) == keys - {m}
    ensures StrictlySorted([m] + rest) && Elements([m] + rest) == keys
  {
    hide Le;
    forall i | 0 <= i < |rest| ensures Lt(m, rest[i]) {
      assert rest[i] in Elements(rest);
    }
    forall x ensures x in [m] + rest <==> x in keys {
      assert x in rest <==> x in Elements(rest);
    }
  }

  // The listing of a `BTreeSet`, or of a map's keys after sorting.
  ghost function Sorted(keys: set<string>): (s: seq<string>)
    ensures StrictlySorted(s) && Elements(s) == keys && |s| == |keys|
    decreases |keys|
  {
    if keys == {} then []
    else
      var m := Minimum(keys);
      var rest := Sorted(keys - {m});
      LeastGoesFirst(keys, m, rest);
      [m] + rest
  }

  lemma FirstOfSorted(s: seq<string>)
    requires StrictlySorted(s) && s != []
    ensures s[0] in Elements(s) && s[0] == Minimum(Elements(s)) && Elements(s[1..]) == Elements(s) - {s[0]}
  {
    var keys := Elements(s);
    forall k | k in keys ensures Le(s[0], k) {
      LeIsTotal(k, k);
      var i :| 0 <= i < |s| && s[i] == k;
    }
    MinimumIsUnique(keys, s[0]);
    forall k | k in keys - {s[0]} ensures k in s[1..] {
      var i :| 0 <= i < |s| && s[i] == k;
      assert s[1..][i - 1] == k;
    }
  }

  lemma TailIsSorted(s: seq<string>)
    requires StrictlySorted(s) && s != []
    ensures StrictlySorted(s[1..])
  {
    hide Lt;
  }

  lemma SortedStep(keys: set<string>)
    requires keys != {}
    ensures Sorted(keys) == [Minimum(keys)] + Sorted(keys - {Minimum(keys)})
  {
    hide Minimum, StrictlySorted, Le;
  }

  lemma {:induction false} SortedIsUnique(s: seq<string>)
    requires StrictlySorted(s)
    ensures s == Sorted(Elements(s))
    decreases |s|
  {
    hide Le, Lt, Minimum, Sorted, StrictlySorted;
    if s == [] {
      assert Elements(s) == {};
    } else {
      FirstOfSorted(s);
      TailIsSorted(s);
      SortedIsUnique(s[1..]);
      SortedStep(Elements(s));
      assert s == [s[0]] + s[1..];
    }
  }

  function Inserted(s: seq<string>, i: nat, x: string): (r: seq<string>)
    requires i <= |s|
    ensures |r| == |s| + 1
    ensures forall k | 0 <= k < |r| :: r[k] == if k < i then s[k] else if k == i then x else s[k - 1]
  {
    s[..i] + [x] + s[i..]
  }

  lemma InsertedIsSorted(s: seq<string>, i: nat, x: string)
    requires StrictlySorted(s) && i <= |s|
    requires (forall j | 0 <= j < i :: Lt(s[j], x)) && forall j | i <= j < |s| :: Lt(x, s[j])
    ensures StrictlySorted(Inserted(s, i, x))
  {
    hide Le, Lt;
  }

  lemma InsertedElements(s: seq<string>, i: nat, x: string)
    requires i <= |s|
    ensures Elements(Inserted(s, i, x)) == Elements(s) + {x}
  {
    var r := Inserted(s, i, x);
    assert r[i] == x;
    forall y | y in s ensures y in r {
      var k :| 0 <= k < |s| && s[k] == y;
      assert r[if k < i then k else k + 1] == y;
    }
  }

  method InsertSorted(s: seq<string>, x: string) returns (r: seq<string>)
    requires StrictlySorted(s) && x !in s
    ensures StrictlySorted(r) && Elements(r) == Elements(s) + {x}
  {
    hide Le;
    var i := 0;
    while i < |s| && Le(s[i], x)
      invariant 0 <= i <= |s|
      invariant forall j | 0 <= j < i :: Lt(s[j], x)
    {
      i := i + 1;
    }
    forall j | i <= j < |s| ensures Lt(x, s[j]) {
      LeIsTotal(s[i], x);
      if j > i {
        LtIsTransitive(x, s[i], s[j]);
      }
    }
    InsertedIsSorted(s, i, x);
    InsertedElements(s, i, x);
    r := Inserted(s, i, x);
  }

  // Sorts the keys of a set by inserting them in whatever order they come.
  method SortIds(keys: set<string>) returns (s: seq<string>)
    ensures s == Sorted(keys)
  {
    hide Sorted, Le, StrictlySorted;
    s := [];
    assert StrictlySorted(s) by { NoneAreSorted(); }
    var rest := keys;
    while rest != {}
      invariant rest <= keys && StrictlySorted(s) && Elements(s) == keys - rest
      decreases rest
    {
      var id :| id in rest;
      assert id !in Elements(s);
      s := InsertSorted(s, id);
      rest := rest - {id};
    }
    SortedIsUnique(s);
  }

  lemma NoneAreSorted()
    ensures StrictlySorted([])
  {
  }

  predicate Distinct<T(==)>(s: seq<T>) {
    forall i, j | 0 <= i < j < |s| :: s[i] != s[j]
  }

  lemma {:induction false} DistinctIffAsMany<T(!new)>(s: seq<T>)
    ensures |Elements(s)| <= |s| && (Distinct(s) <==> |Elements(s)| == |s|)
  {
    if s != [] {
      var n := |s| - 1;
      var front := s[..n];
      DistinctIffAsMany(front);
      assert s == front + [s[n]];
      assert Elements(s) == Elements(front) + {s[n]};
      if s[n] in front {
        var i :| 0 <= i < n && front[i] == s[n];
        assert s[i] == s[n] && Elements(s) == Elements(front);
      } else {
        assert Distinct(front) ==> Distinct(s);
      }
    }
  }

  lemma SameSizeSubset<T>(a: set<T>, b: set<T>)
    requires a <= b && |a| == |b|
    ensures a == b
  {
    assert |b| == |b - a| + |a|;
    assert b - a == {};
  }

  // ----- Extrema of finite sets of numbers

  ghost function Pick<T>(s: set<T>): (x: T)
    requires s != {}
    ensures x in s
  {
    var x :| x in s;
    x
  }

  ghost function Least(s: set<int>): (m: int)
    requires s != {}
    ensures m in s && forall x | x in s :: m <= x
    decreases |s|
  {
    var x := Pick(s);
    var rest := s - {x};
    assert forall z | z in s :: z == x || z in rest;
    if rest == {} then x
    else
      var y := Least(rest);
      if x <= y then x else y
  }

  ghost function Greatest(s: set<int>): (m: int)
    requires s != {}
    ensures m in s && forall x | x in s :: x <= m
    decreases |s|
  {
    var x := Pick(s);
    var rest := s - {x};
    assert forall z | z in s :: z == x || z in rest;
    if rest == {} then x
    else
      var y := Greatest(rest);
      if y <= x then x else y
  }
}
