/** Directory entry names and the order in which a directory listing returns
    them: names are compared character by character (code point order, which
    is the byte order of their UTF-8 encoding), a proper prefix coming first. */
module Names {

  /** `a` sorts no later than `b`. */
  predicate NameLe(a: string, b: string)
  {
    |a| == 0 || (|b| > 0 && (a[0] < b[0] || (a[0] == b[0] && NameLe(a[1..], b[1..]))))
  }

  /** `a` sorts strictly before `b`. */
  predicate NameLt(a: string, b: string)
  {
    NameLe(a, b) && a != b
  }

  /** Every name appears once and the names are in increasing order. */
  predicate StrictlySorted(names: seq<string>)
  {
    forall i, j :: 0 <= i < j < |names| ==> NameLt(names[i], names[j])
  }

  lemma {:induction false} NameLeReflexive(a: string)
    ensures NameLe(a, a)
    decreases |a|
  {
    if |a| > 0 {
      NameLeReflexive(a[1..]);
    }
  }

  lemma {:induction false} NameLeTotal(a: string, b: string)
    ensures NameLe(a, b) || NameLe(b, a)
    decreases |a|
  {
    if |a| > 0 && |b| > 0 && a[0] == b[0] {
      NameLeTotal(a[1..], b[1..]);
    }
  }

  lemma {:induction false} NameLeAntisymmetric(a: string, b: string)
    requires NameLe(a, b) && NameLe(b, a)
    ensures a == b
    decreases |a|
  {
    if |a| > 0 {
      NameLeAntisymmetric(a[1..], b[1..]);
      assert a == [a[0]] + a[1..];
      assert b == [b[0]] + b[1..];
    }
  }

  lemma {:induction false} NameLeTransitive(a: string, b: string, c: string)
    requires NameLe(a, b) && NameLe(b, c)
    ensures NameLe(a, c)
    decreases |a|
  {
    if |a| > 0 && a[0] == b[0] && b[0] == c[0] {
      NameLeTransitive(a[1..], b[1..], c[1..]);
    }
  }

  /** `m` is a name of `s` that sorts no later than any other. */
  predicate IsLeast(m: string, s: set<string>)
  {
    m in s && forall x :: x in s ==> NameLe(m, x)
  }

  /** A finite non-empty set of names has a least element. */
  lemma {:induction false} LeastExists(s: set<string>)
    requires s != {}
    ensures exists m :: IsLeast(m, s)
    decreases |s|
  {
    var y :| y in s;
    if s == {y} {
      NameLeReflexive(y);
      assert IsLeast(y, s);
    } else {
      var rest := s - {y};
      LeastExists(rest);
      var m :| IsLeast(m, rest);
      NameLeTotal(m, y);
      if NameLe(m, y) {
        assert IsLeast(m, s);
      } else {
        forall x | x in s
          ensures NameLe(y, x)
        {
          if x == y {
            NameLeReflexive(y);
          } else {
            NameLeTransitive(y, m, x);
          }
        }
        assert IsLeast(y, s);
      }
    }
  }

  /** The least name of a non-empty set. */
  function Least(s: set<string>): (m: string)
    requires s != {}
    ensures m in s
    ensures forall x :: x in s ==> NameLe(m, x)
  {
    LeastExists(s);
    assert forall a, b :: a in s && b in s && NameLe(a, b) && NameLe(b, a) ==> a == b by {
      forall a, b | a in s && b in s && NameLe(a, b) && NameLe(b, a)
        ensures a == b
      {
        NameLeAntisymmetric(a, b);
      }
    }
    var m :| IsLeast(m, s);
    m
  }

  /** The names of a set, each once, in listing order. */
  function Sorted(s: set<string>): (r: seq<string>)
    ensures forall n :: n in r <==> n in s
    ensures StrictlySorted(r)
    decreases |s|
  {
    if s == {} then []
    else
      var m := Least(s);
      [m] + Sorted(s - {m})
  }
}
