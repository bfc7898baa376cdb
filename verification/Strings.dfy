/** String order and prefixes, as S3 listings and Python's `sorted` see them. */
module Strings {

  /** Strict lexicographic order; a proper prefix comes first. */
  predicate Less(a: string, b: string)
  {
    b != [] && (a == [] || a[0] < b[0] || (a[0] == b[0] && Less(a[1..], b[1..])))
  }

  function RemovePrefix(s: string, prefix: string): string
  {
    if prefix <= s then s[|prefix|..] else s
  }

  lemma {:induction false} LessTrichotomy(a: string, b: string)
    ensures !(Less(a, b) && Less(b, a))
    ensures a != b ==> Less(a, b) || Less(b, a)
    ensures !Less(a, a)
  {
    if a != [] {
      LessTrichotomy(a[1..], a[1..]);
    }
    if a != [] && b != [] && a[0] == b[0] {
      LessTrichotomy(a[1..], b[1..]);
      if a != b {
        assert a == [a[0]] + a[1..] && b == [b[0]] + b[1..];
        assert a[1..] != b[1..];
      }
    }
  }

  lemma {:induction false} LessTransitive(a: string, b: string, c: string)
    requires Less(a, b) && Less(b, c)
    ensures Less(a, c)
  {
    if a != [] && a[0] == b[0] == c[0] {
      LessTransitive(a[1..], b[1..], c[1..]);
    }
  }

  /** A shared prefix does not affect the order. */
  lemma {:induction false} LessSharedPrefix(p: string, a: string, b: string)
    ensures Less(p + a, p + b) <==> Less(a, b)
  {
    if p == [] {
      assert p + a == a && p + b == b;
    } else {
      assert (p + a)[1..] == p[1..] + a && (p + b)[1..] == p[1..] + b;
      LessSharedPrefix(p[1..], a, b);
    }
  }

  /** Once two equally long prefixes differ, what follows is irrelevant. */
  lemma {:induction false} LessDecidedByPrefix(p: string, q: string, a: string, b: string)
    requires |p| == |q| && p != q
    ensures Less(p + a, q + b) <==> Less(p, q)
  {
    assert (p + a)[0] == p[0] && (q + b)[0] == q[0];
    if p[0] == q[0] {
      assert (p + a)[1..] == p[1..] + a && (q + b)[1..] == q[1..] + b;
      assert p == [p[0]] + p[1..] && q == [q[0]] + q[1..];
      LessDecidedByPrefix(p[1..], q[1..], a, b);
    }
  }
}
