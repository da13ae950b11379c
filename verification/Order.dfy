/**
 The canonical order of names and paths. The engine sorts by UTF-8 bytes, which for
 valid text is the order of code points, so the order here is lexicographic on `char`.
 */
module Order {

  datatype Option<+T> = None | Some(value: T)

  predicate Less(a: string, b: string) {
    if b == "" then false
    else if a == "" then true
    else a[0] < b[0] || (a[0] == b[0] && Less(a[1..], b[1..]))
  }

  predicate StrictlySorted(s: seq<string>) {
    forall i, j :: 0 <= i < j < |s| ==> Less(s[i], s[j])
  }

  ghost predicate Distinct<T>(s: seq<T>) {
    forall i, j :: 0 <= i < j < |s| ==> s[i] != s[j]
  }

  function Elements<T>(s: seq<T>): set<T> {
    set x | x in s
  }

  lemma {:induction false} LessIrreflexive(a: string)
    ensures !Less(a, a)
  {
    if a != "" {
      LessIrreflexive(a[1..]);
    }
  }

  lemma {:induction false} LessTrichotomy(a: string, b: string)
    ensures Less(a, b) || a == b || Less(b, a)
    ensures !(Less(a, b) && Less(b, a))
  {
    if a != "" && b != "" {
      LessTrichotomy(a[1..], b[1..]);
      assert a == [a[0]] + a[1..] && b == [b[0]] + b[1..];
    }
  }

  lemma {:induction false} LessTransitive(a: string, b: string, c: string)
    requires Less(a, b) && Less(b, c)
    ensures Less(a, c)
    decreases |a|
  {
    if a != "" && b != "" && a[0] == b[0] && b[0] == c[0] {
      LessTransitive(a[1..], b[1..], c[1..]);
    }
  }

  predicate IsLeast(s: set<string>, x: string) {
    x in s && forall y | y in s :: y == x || Less(x, y)
  }

  lemma LeastExists(s: set<string>)
    requires s != {}
    ensures exists x :: IsLeast(s, x)
  {
    var z :| z in s;
    if s == {z} {
      assert IsLeast(s, z);
    } else {
      var rest := s - {z};
      assert rest != {} by {
        assert s == rest + {z};
      }
      LeastExists(rest);
      var x :| IsLeast(rest, x);
      LeastOfTwo(s, z, x);
    }
  }

  lemma LeastOfTwo(s: set<string>, z: string, x: string)
    requires z in s && IsLeast(s - {z}, x)
    ensures exists y :: IsLeast(s, y)
  {
    LessTrichotomy(x, z);
    if Less(z, x) {
      forall y | y in s ensures y == z || Less(z, y) {
        if y != z && y != x {
          LessTransitive(z, x, y);
        }
      }
      assert IsLeast(s, z);
    } else {
      assert IsLeast(s, x);
    }
  }

  lemma LeastUnique(s: set<string>, x: string, x': string)
    requires IsLeast(s, x) && IsLeast(s, x')
    ensures x == x'
  {
    LessTrichotomy(x, x');
  }

  /** The smallest member of a nonempty set. */
  function Least(s: set<string>): (x: string)
    requires s != {}
    ensures IsLeast(s, x)
  {
    LeastExists(s);
    assert forall x, x' | IsLeast(s, x) && IsLeast(s, x') :: x == x' by {
      forall x, x' | IsLeast(s, x) && IsLeast(s, x') ensures x == x' {
        LeastUnique(s, x, x');
      }
    }
    var x :| IsLeast(s, x);
    x
  }

  /** `sorted(set)`: every member once, in canonical order. */
  function Sort(s: set<string>): (r: seq<string>)
    ensures StrictlySorted(r)
    ensures Elements(r) == s
    ensures |r| == |s|
    decreases |s|
  {
    if s == {} then []
    else
      var x := Least(s);
      var rest := Sort(s - {x});
      SortStep(s, x, rest);
      [x] + rest
  }

  lemma SortStep(s: set<string>, x: string, rest: seq<string>)
    requires IsLeast(s, x) && StrictlySorted(rest) && Elements(rest) == s - {x} && |rest| == |s - {x}|
    ensures StrictlySorted([x] + rest) && Elements([x] + rest) == s && |[x] + rest| == |s|
  {
    hide Less;
    forall i | 0 <= i < |rest| ensures Less(x, rest[i]) {
      assert rest[i] in Elements(rest);
    }
    assert forall y :: y in [x] + rest <==> y == x || y in rest;
    assert forall y :: y in rest <==> y in Elements(rest);
  }

  lemma StrictlySortedDistinct(s: seq<string>)
    requires StrictlySorted(s)
    ensures Distinct(s)
  {
    forall i, j | 0 <= i < j < |s| ensures s[i] != s[j] {
      LessIrreflexive(s[i]);
    }
  }

  /** A strictly sorted sequence is determined by its members. */
  lemma {:induction false} StrictlySortedUnique(a: seq<string>, b: seq<string>)
    requires StrictlySorted(a) && StrictlySorted(b)
    requires Elements(a) == Elements(b)
    ensures a == b
    decreases |a|
  {
    StrictlySortedDistinct(a);
    StrictlySortedDistinct(b);
    assert forall x :: x in a <==> x in Elements(a);
    assert forall x :: x in b <==> x in Elements(b);
    assert |a| > 0 ==> a[0] in b;
    assert |b| > 0 ==> b[0] in a;
    if a != [] {
      assert a[0] in a;
      var k :| 0 <= k < |b| && b[k] == a[0];
      assert b[0] in b;
      var m :| 0 <= m < |a| && a[m] == b[0];
      if k > 0 {
        LessTrichotomy(a[0], b[0]);
      }
      assert a[0] == b[0];
      assert Elements(a[1..]) == Elements(a) - {a[0]} by {
        ElementsTail(a);
      }
      assert Elements(b[1..]) == Elements(b) - {b[0]} by {
        ElementsTail(b);
      }
      StrictlySortedUnique(a[1..], b[1..]);
      assert a == [a[0]] + a[1..] && b == [b[0]] + b[1..];
    }
  }

  lemma ElementsTail<T>(s: seq<T>)
    requires s != [] && Distinct(s)
    ensures Elements(s[1..]) == Elements(s) - {s[0]}
  {
    forall x ensures x in Elements(s[1..]) <==> x in Elements(s) - {s[0]} {
      if x in Elements(s) - {s[0]} {
        var i :| 0 <= i < |s| && s[i] == x;
        assert s[1..][i - 1] == x;
      }
    }
  }

  /** Sorting the members of an already sorted list changes nothing: the acceptance test
      `xs == sorted(set(xs))` holds exactly of strictly sorted lists. */
  lemma SortedTestExact(s: seq<string>)
    ensures s == Sort(Elements(s)) <==> StrictlySorted(s)
  {
    if StrictlySorted(s) {
      StrictlySortedUnique(s, Sort(Elements(s)));
    }
  }
}
