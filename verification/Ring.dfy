/** The order of the tasks in the scheduler's ring, as a sequence that starts with the head of the list. */
module Ring {
  import opened Sequences

  /** The element after position i, going round. */
  function Succ<T>(ring: seq<T>, i: nat): T
    requires i < |ring|
  {
    if i + 1 < |ring| then ring[i + 1] else ring[0]
  }

  lemma IndexUnique<T>(s: seq<T>, i: nat)
    requires NoDup(s) && i < |s|
    ensures IndexOf(s, s[i]) == i
  {
    assert s[IndexOf(s, s[i])] == s[i];
  }

  /** The ring as seen from x: x first, then the others in the order they come up. */
  ghost function From<T>(ring: seq<T>, x: T): (r: seq<T>)
    requires x in ring
    ensures |r| == |ring| && r[0] == x
  {
    var i := IndexOf(ring, x);
    ring[i..] + ring[..i]
  }

  lemma FromNoDup<T>(ring: seq<T>, x: T)
    requires x in ring && NoDup(ring)
    ensures NoDup(From(ring, x)) && forall y :: y in From(ring, x) <==> y in ring
  {
    var i := IndexOf(ring, x);
    assert ring == ring[..i] + ring[i..];
  }

  function Round(i: nat, n: nat): nat {
    if i < n then i else i - n
  }

  lemma FromAt<T>(ring: seq<T>, i: nat, k: nat)
    requires NoDup(ring) && i < |ring| && k < |ring|
    ensures Round(i + k, |ring|) < |ring| && From(ring, ring[i])[k] == ring[Round(i + k, |ring|)]
  {
    IndexUnique(ring, i);
  }

  /** Turning the ring from x to the element k further turns the view by k. */
  lemma FromTurn<T>(ring: seq<T>, x: T, k: nat)
    requires x in ring && NoDup(ring) && k < |ring|
    ensures From(ring, x)[k] in ring
    ensures From(ring, From(ring, x)[k]) == From(ring, x)[k..] + From(ring, x)[..k]
  {
    var i, n, from := IndexOf(ring, x), |ring|, From(ring, x);
    var at := Round(i + k, n);
    FromAt(ring, i, k);
    var r := from[k..] + from[..k];
    forall j | 0 <= j < n ensures From(ring, ring[at])[j] == r[j] {
      FromAt(ring, at, j);
      FromAt(ring, i, Round(k + j, n));
      assert r[j] == from[Round(k + j, n)];
    }
  }

  /** The sequence without the elements of a set. */
  ghost function Without<T>(s: seq<T>, dead: set<T>): (r: seq<T>)
    ensures forall x :: x in r ==> x in s && x !in dead
    ensures forall x :: x in s && x !in dead ==> x in r
    ensures |r| <= |s|
  {
    if s == [] then [] else (if s[0] in dead then [] else [s[0]]) + Without(s[1..], dead)
  }

  lemma {:induction false} WithoutConcat<T>(a: seq<T>, b: seq<T>, dead: set<T>)
    ensures Without(a + b, dead) == Without(a, dead) + Without(b, dead)
    decreases |a|
  {
    if a == [] {
      assert a + b == b;
    } else {
      assert (a + b)[1..] == a[1..] + b;
      WithoutConcat(a[1..], b, dead);
    }
  }

  lemma {:induction false} WithoutNoDup<T>(s: seq<T>, dead: set<T>)
    requires NoDup(s)
    ensures NoDup(Without(s, dead))
    decreases |s|
  {
    if s != [] {
      WithoutNoDup(s[1..], dead);
      assert s[0] !in s[1..];
    }
  }

  lemma {:induction false} WithoutNone<T>(s: seq<T>, dead: set<T>)
    requires forall x :: x in s ==> x !in dead
    ensures Without(s, dead) == s
    decreases |s|
  {
    if s != [] {
      WithoutNone(s[1..], dead);
    }
  }

  lemma {:induction false} IndexFirst<T>(s: seq<T>, x: T)
    requires x in s
    ensures x !in s[..IndexOf(s, x)]
    decreases |s|
  {
    if s[0] != x {
      IndexFirst(s[1..], x);
      var i := IndexOf(s[1..], x);
      assert s[..i + 1] == [s[0]] + s[1..][..i];
    }
  }

  lemma IndexSplit<T>(s: seq<T>, x: T)
    requires x in s
    ensures var i := IndexOf(s, x); s == s[..i] + [x] + s[i + 1..] && x !in s[..i]
  {
    IndexFirst(s, x);
  }

  lemma {:induction false} IndexConcat<T>(a: seq<T>, x: T, b: seq<T>)
    requires x !in a
    ensures IndexOf(a + [x] + b, x) == |a|
    decreases |a|
  {
    if a != [] {
      assert (a + [x] + b)[1..] == a[1..] + [x] + b;
      IndexConcat(a[1..], x, b);
    }
  }

  lemma FromParts<T>(a: seq<T>, x: T, b: seq<T>)
    requires x !in a
    ensures From(a + [x] + b, x) == [x] + b + a
  {
    IndexConcat(a, x, b);
    assert (a + [x] + b)[|a|..] == [x] + b;
  }

  lemma WithoutAround<T>(a: seq<T>, x: T, b: seq<T>, dead: set<T>)
    requires x !in dead
    ensures Without(a + [x] + b, dead) == Without(a, dead) + [x] + Without(b, dead)
  {
    WithoutConcat(a + [x], b, dead);
    WithoutConcat(a, [x], dead);
    WithoutNone([x], dead);
  }

  lemma TurnedWithout<T>(a: seq<T>, x: T, b: seq<T>, dead: set<T>)
    requires x !in dead
    ensures Without([x] + b + a, dead) == [x] + Without(b, dead) + Without(a, dead)
  {
    WithoutConcat([x] + b, a, dead);
    WithoutConcat([x], b, dead);
    WithoutNone([x], dead);
  }

  lemma PartsWithout<T>(a: seq<T>, x: T, b: seq<T>, dead: set<T>)
    requires x !in a && x !in dead
    ensures x in Without(a + [x] + b, dead)
    ensures From(Without(a + [x] + b, dead), x) == Without(From(a + [x] + b, x), dead)
  {
    FromParts(a, x, b);
    WithoutAround(a, x, b, dead);
    FromParts(Without(a, dead), x, Without(b, dead));
    TurnedWithout(a, x, b, dead);
  }

  /** Taking elements out does not disturb the order the others come up in. */
  lemma FromWithout<T>(ring: seq<T>, x: T, dead: set<T>)
    requires x in ring && x !in dead
    ensures x in Without(ring, dead) && From(Without(ring, dead), x) == Without(From(ring, x), dead)
  {
    IndexSplit(ring, x);
    PartsWithout(ring[..IndexOf(ring, x)], x, ring[IndexOf(ring, x) + 1..], dead);
  }

  /** And brings no element further away. */
  lemma {:induction false} IndexWithout<T>(s: seq<T>, x: T, dead: set<T>)
    requires x in s && x !in dead
    ensures x in Without(s, dead) && IndexOf(Without(s, dead), x) <= IndexOf(s, x)
    decreases |s|
  {
    if s[0] != x {
      IndexWithout(s[1..], x, dead);
      var r := Without(s[1..], dead);
      if s[0] in dead {
        assert Without(s, dead) == r;
      } else {
        assert Without(s, dead) == [s[0]] + r;
        assert ([s[0]] + r)[1..] == r;
      }
    }
  }

  lemma {:induction false} CutOne<T>(a: seq<T>, x: T, b: seq<T>)
    requires x !in a && x !in b
    ensures Without(a + [x] + b, {x}) == a + b
    decreases |a|
  {
    var s := a + [x] + b;
    if a == [] {
      assert s[1..] == b;
      WithoutNone(b, {x});
    } else {
      assert s[1..] == a[1..] + [x] + b;
      CutOne(a[1..], x, b);
      assert [a[0]] + (a[1..] + b) == a + b;
    }
  }

  /** Cutting one element out. */
  lemma WithoutOne<T>(s: seq<T>, i: nat)
    requires NoDup(s) && i < |s|
    ensures Without(s, {s[i]}) == s[..i] + s[i + 1..]
  {
    assert s == s[..i] + [s[i]] + s[i + 1..];
    CutOne(s[..i], s[i], s[i + 1..]);
  }

  lemma WithoutSnoc<T>(s: seq<T>, m: nat, dead: set<T>)
    requires m < |s|
    ensures Without(s[..m + 1], dead) == Without(s[..m], dead) + if s[m] in dead then [] else [s[m]]
  {
    assert s[..m + 1] == s[..m] + [s[m]];
    WithoutConcat(s[..m], [s[m]], dead);
  }

  lemma CutMembers<T>(s: seq<T>, i: nat)
    requires NoDup(s) && i < |s|
    ensures forall x :: x in s[..i] + s[i + 1..] <==> x in s && x != s[i]
  {
    assert s == s[..i] + [s[i]] + s[i + 1..];
    assert s[i] !in s[..i] && s[i] !in s[i + 1..];
  }

  /** Taking the element at i out of a ring leaves every other element's successor alone but that of the one before it. */
  lemma CutSucc<T>(s: seq<T>, i: nat, k: nat)
    requires NoDup(s) && 0 < i < |s| && k < |s| - 1
    ensures
      var cut, at := s[..i] + s[i + 1..], if k < i then k else k + 1;
      |cut| == |s| - 1 && cut[k] == s[at] && Succ(cut, k) == Succ(s, if at == i - 1 then i else at)
  {
  }

  lemma CutNoDup<T>(s: seq<T>, i: nat)
    requires NoDup(s) && i < |s|
    ensures NoDup(s[..i] + s[i + 1..])
  {
  }

  /** A ring of which the part before position m of `was` has been thinned out to `kept`. */
  lemma ThinnedAt<T>(was: seq<T>, m: nat, kept: seq<T>)
    requires m < |was| && kept != [] && kept[0] == was[0]
    ensures
      var ring, i := kept + was[m..], |kept|;
      && ring[i] == was[m] && Succ(ring, i) == Succ(was, m)
      && ring[..i] + ring[i + 1..] == kept + was[m + 1..] && kept + [was[m]] + was[m + 1..] == ring
  {
    assert was[m..] == [was[m]] + was[m + 1..];
  }

  /** Turning the ring by k brings what was d away to d - k. */
  lemma TurnedIndex<T>(ring: seq<T>, x: T, k: nat, d: nat)
    requires x in ring && NoDup(ring) && k <= d < |ring|
    ensures From(ring, x)[k] in ring && From(ring, x)[d] in From(ring, From(ring, x)[k])
    ensures IndexOf(From(ring, From(ring, x)[k]), From(ring, x)[d]) == d - k
  {
    FromTurn(ring, x, k);
    FromNoDup(ring, From(ring, x)[k]);
    var r := From(ring, From(ring, x)[k]);
    assert r[d - k] == From(ring, x)[d];
    IndexUnique(r, d - k);
  }

  /** An element that enters at the end brings the others at most one place further away. */
  lemma IndexEntered<T>(ring: seq<T>, x: T, y: T, z: T)
    requires NoDup(ring) && x in ring && y in ring && z !in ring
    ensures x in ring + [z] && y in From(ring, x) && y in From(ring + [z], x)
    ensures IndexOf(From(ring + [z], x), y) <= IndexOf(From(ring, x), y) + 1
  {
    FromNoDup(ring, x);
    FromNoDup(ring + [z], x);
    var i, d := IndexOf(ring, x), IndexOf(From(ring, x), y);
    IndexUnique(ring + [z], i);
    var r := From(ring + [z], x);
    assert r == ring[i..] + [z] + ring[..i];
    var d' := if d < |ring| - i then d else d + 1;
    assert r[d'] == y;
    IndexUnique(r, d');
  }
}
