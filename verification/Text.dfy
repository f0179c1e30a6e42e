/** Strings as the publisher and the slice selector use them: ASCII lower-casing, the
    code-point order of `sorted`, and strictly ascending (hence duplicate-free) lists. */
module Text {

  predicate NoColon(s: string) { ':' !in s }

  function LowerChar(c: char): char {
    if 'A' <= c <= 'Z' then (c as int + 32) as char else c
  }

  function Lower(s: string): (r: string)
    ensures |r| == |s|
  {
    seq(|s|, i requires 0 <= i < |s| => LowerChar(s[i]))
  }

  /** ASCII capitals move by 32; nothing else does. */
  lemma LowerMeans(s: string)
    ensures forall i :: 0 <= i < |s| ==>
              if 'A' <= s[i] <= 'Z' then Lower(s)[i] as int == s[i] as int + 32 else Lower(s)[i] == s[i]
  {
  }

  lemma LowerKeepsColons(s: string)
    ensures forall i :: 0 <= i < |s| ==> (Lower(s)[i] == ':' <==> s[i] == ':')
  {
  }

  lemma LowerTwice(s: string)
    ensures Lower(Lower(s)) == Lower(s)
  {
  }

  predicate Contains(s: string, sub: string) {
    exists i :: 0 <= i <= |s| && sub <= s[i..]
  }

  /** `sub` occurs at place `i`, character by character. */
  predicate OccursAt(s: string, sub: string, i: int) {
    0 <= i <= |s| - |sub| && forall k :: 0 <= k < |sub| ==> s[i + k] == sub[k]
  }

  lemma ContainsMeans(s: string, sub: string)
    ensures Contains(s, sub) <==> exists i :: OccursAt(s, sub, i)
  {
    if i :| 0 <= i <= |s| && sub <= s[i..] {
      assert forall k :: 0 <= k < |sub| ==> s[i + k] == s[i..][k];
      assert OccursAt(s, sub, i);
    }
    if i :| OccursAt(s, sub, i) {
      assert s[i..][..|sub|] == sub;
    }
  }

  // ---- Code-point order ----

  predicate Before(a: string, b: string) {
    if b == "" then false
    else if a == "" then true
    else a[0] < b[0] || (a[0] == b[0] && Before(a[1..], b[1..]))
  }

  /** The texts share `k` characters, and then `a` ends or has the smaller one. */
  predicate DecidedAt(a: string, b: string, k: nat) {
    k <= |a| && k < |b| && a[..k] == b[..k] && (k == |a| || a[k] < b[k])
  }

  lemma {:induction false} BeforeMeans(a: string, b: string)
    ensures Before(a, b) <==> exists k: nat :: DecidedAt(a, b, k)
  {
    if b != "" && a != "" && a[0] == b[0] {
      BeforeMeans(a[1..], b[1..]);
      forall k: nat ensures DecidedAt(a, b, k + 1) <==> DecidedAt(a[1..], b[1..], k) {
        if k < |a| && k + 1 < |b| {
          assert a[..k + 1] == [a[0]] + a[1..][..k] && b[..k + 1] == [b[0]] + b[1..][..k];
        }
      }
      assert !DecidedAt(a, b, 0);
      if k: nat :| DecidedAt(a, b, k) { assert DecidedAt(a[1..], b[1..], k - 1); }
    } else if b != "" && (a == "" || a[0] < b[0]) {
      assert DecidedAt(a, b, 0);
    } else {
      forall k: nat ensures !DecidedAt(a, b, k) {
        if 0 < k <= |a| && k < |b| { assert a[..k][0] == a[0] && b[..k][0] == b[0]; }
      }
    }
  }

  lemma {:induction false} BeforeIrreflexive(a: string)
    ensures !Before(a, a)
  {
    if a != "" { BeforeIrreflexive(a[1..]); }
  }

  lemma {:induction false} BeforeTransitive(a: string, b: string, c: string)
    requires Before(a, b) && Before(b, c)
    ensures Before(a, c)
  {
    if a != "" && a[0] == b[0] == c[0] { BeforeTransitive(a[1..], b[1..], c[1..]); }
  }

  lemma {:induction false} BeforeTotal(a: string, b: string)
    ensures a == b || Before(a, b) || Before(b, a)
  {
    if a != "" && b != "" && a[0] == b[0] {
      BeforeTotal(a[1..], b[1..]);
      if a[1..] == b[1..] { assert a == [a[0]] + a[1..] && b == [b[0]] + b[1..]; }
    }
  }

  predicate Ascending(xs: seq<string>) {
    forall i, j :: 0 <= i < j < |xs| ==> Before(xs[i], xs[j])
  }

  function Elements<T>(xs: seq<T>): set<T> {
    set x | x in xs
  }

  /** An ascending list is determined by its elements: `sorted(set(...))` has one value. */
  lemma {:induction false} AscendingUnique(xs: seq<string>, ys: seq<string>)
    requires Ascending(xs) && Ascending(ys)
    requires Elements(xs) == Elements(ys)
    ensures xs == ys
  {
    if ys != [] {
      assert ys[0] in Elements(ys);
      assert ys[0] in xs;
    }
    if xs != [] {
      assert xs[0] in Elements(xs);
      assert xs[0] in ys;
      HeadsAgree(xs, ys);
      TailElements(xs);
      TailElements(ys);
      AscendingUnique(xs[1..], ys[1..]);
      assert xs == [xs[0]] + xs[1..] && ys == [ys[0]] + ys[1..];
    }
  }

  lemma HeadsAgree(xs: seq<string>, ys: seq<string>)
    requires Ascending(xs) && Ascending(ys)
    requires xs != [] && ys != [] && xs[0] in ys && ys[0] in xs
    ensures xs[0] == ys[0]
  {
    if xs[0] != ys[0] {
      var i :| 0 <= i < |ys| && ys[i] == xs[0];
      var j :| 0 <= j < |xs| && xs[j] == ys[0];
      assert Before(ys[0], ys[i]) && Before(xs[0], xs[j]);
      BeforeTransitive(xs[0], ys[0], xs[0]);
      BeforeIrreflexive(xs[0]);
    }
  }

  lemma TailElements(xs: seq<string>)
    requires Ascending(xs) && xs != []
    ensures Elements(xs[1..]) == Elements(xs) - {xs[0]}
  {
    forall x ensures x in Elements(xs[1..]) <==> x in Elements(xs) - {xs[0]} {
      if x in Elements(xs[1..]) {
        var i :| 0 <= i < |xs| - 1 && xs[1..][i] == x;
        assert Before(xs[0], xs[i + 1]);
        BeforeIrreflexive(x);
      }
      if x in Elements(xs) - {xs[0]} {
        var i :| 0 <= i < |xs| && xs[i] == x;
        assert xs[1..][i - 1] == x;
      }
    }
  }

  /** `sorted(s)` for a set of strings. */
  method Sorted(s: set<string>) returns (r: seq<string>)
    ensures Ascending(r) && Elements(r) == s
    ensures r == SortedOf(s)
  {
    r := [];
    var rest := s;
    while rest != {}
      invariant rest <= s
      invariant Ascending(r) && Elements(r) == s - rest
      decreases rest
    {
      var x :| x in rest;
      r := Insert(r, x);
      rest := rest - {x};
    }
    AscendingUnique(r, SortedOf(s));
  }

  method Insert(xs: seq<string>, x: string) returns (r: seq<string>)
    requires Ascending(xs) && x !in xs
    ensures Ascending(r) && Elements(r) == Elements(xs) + {x}
  {
    var k := 0;
    while k < |xs| && Before(xs[k], x)
      invariant 0 <= k <= |xs|
      invariant forall i :: 0 <= i < k ==> Before(xs[i], x)
    {
      k := k + 1;
    }
    r := xs[..k] + [x] + xs[k..];
    forall i | k <= i < |xs| ensures Before(x, xs[i]) {
      BeforeTotal(xs[k], x);
      if i > k { BeforeTransitive(x, xs[k], xs[i]); }
    }
    forall y ensures y in Elements(r) <==> y in Elements(xs) + {x} {
      if y in Elements(xs) {
        var i :| 0 <= i < |xs| && xs[i] == y;
        assert r[if i < k then i else i + 1] == y;
      }
      if y == x { assert r[k] == x; }
    }
  }

  lemma {:induction false} LeastExists(s: set<string>) returns (x: string)
    requires s != {}
    ensures x in s && forall y :: y in s && y != x ==> Before(x, y)
  {
    var w :| w in s;
    var rest := s - {w};
    assert s == {w} + rest;
    x := w;
    if rest != {} {
      var z := LeastExists(rest);
      BeforeTotal(w, z);
      if Before(z, w) { x := z; }
      forall y | y in s && y != x ensures Before(x, y) {
        assert y == w || y in rest;
        if x == w && y != z { BeforeTransitive(w, z, y); }
      }
    }
  }

  lemma PrependLeast(x: string, rest: seq<string>, s: set<string>)
    requires Ascending(rest) && x in s && Elements(rest) == s - {x}
    requires forall y :: y in s && y != x ==> Before(x, y)
    ensures Ascending([x] + rest) && Elements([x] + rest) == s
  {
    assert forall i :: 0 <= i < |rest| ==> rest[i] in Elements(rest);
    assert forall y :: y in Elements([x] + rest) <==> y == x || y in Elements(rest);
  }

  /** The one ascending list of the elements of `s`. */
  ghost function SortedOf(s: set<string>): (r: seq<string>)
    ensures Ascending(r) && Elements(r) == s
  {
    if s == {} then []
    else
      assert exists x :: x in s && forall y :: y in s && y != x ==> Before(x, y) by {
        var x := LeastExists(s);
      }
      var x :| x in s && forall y :: y in s && y != x ==> Before(x, y);
      var rest := SortedOf(s - {x});
      PrependLeast(x, rest, s);
      [x] + rest
  }
}
