/**
  The order of texts: by the first place where they differ, a beginning before the whole.
*/
module TextOrder {

  // a comes before b.
  predicate Less(a: seq<nat>, b: seq<nat>)
  {
    b != [] && (a == [] || a[0] < b[0] || (a[0] == b[0] && Less(a[1..], b[1..])))
  }

  lemma {:induction false} LessTotal(a: seq<nat>, b: seq<nat>)
    ensures a == b || Less(a, b) || Less(b, a)
    ensures !(Less(a, b) && Less(b, a)) && !Less(a, a)
  {
    if a != [] && b != [] {
      LessTotal(a[1..], b[1..]);
      assert a == [a[0]] + a[1..] && b == [b[0]] + b[1..];
    }
    if a != [] { LessTotal(a[1..], a[1..]); }
  }

  lemma {:induction false} LessTransitive(a: seq<nat>, b: seq<nat>, c: seq<nat>)
    requires Less(a, b) && Less(b, c)
    ensures Less(a, c)
  {
    if a != [] && a[0] == b[0] == c[0] { LessTransitive(a[1..], b[1..], c[1..]); }
  }

  lemma {:induction false} LessLast(a: seq<nat>, b: seq<nat>, x: nat, y: nat)
    requires |a| == |b| && (Less(a, b) || (a == b && x < y))
    ensures Less(a + [x], b + [y])
  {
    if a != [] {
      assert (a + [x])[1..] == a[1..] + [x] && (b + [y])[1..] == b[1..] + [y];
      if a[0] == b[0] { LessLast(a[1..], b[1..], x, y); }
    }
  }

  lemma {:induction false} LessPrefix(p: seq<nat>, a: seq<nat>, b: seq<nat>)
    requires Less(a, b)
    ensures Less(p + a, p + b)
  {
    if p == [] {
      assert p + a == a && p + b == b;
    } else {
      LessPrefix(p[1..], a, b);
      assert (p + a)[1..] == p[1..] + a && (p + b)[1..] == p[1..] + b;
    }
  }

  // Where the fronts are of one length and differ, they decide.
  lemma {:induction false} FrontDecides(p: seq<nat>, q: seq<nat>, a: seq<nat>, b: seq<nat>)
    requires |p| == |q| && p != q
    ensures Less(p + a, q + b) <==> Less(p, q)
  {
    assert (p + a)[1..] == p[1..] + a && (q + b)[1..] == q[1..] + b;
    if p[0] == q[0] {
      assert p == [p[0]] + p[1..] && q == [q[0]] + q[1..];
      FrontDecides(p[1..], q[1..], a, b);
    }
  }

  // Where they are the same, the rest decides.
  lemma RestDecides(p: seq<nat>, a: seq<nat>, b: seq<nat>)
    ensures Less(p + a, p + b) <==> Less(a, b)
  {
    LessTotal(a, b);
    LessTotal(p + a, p + b);
    if Less(a, b) {
      LessPrefix(p, a, b);
    } else if Less(b, a) {
      LessPrefix(p, b, a);
    }
  }
}
